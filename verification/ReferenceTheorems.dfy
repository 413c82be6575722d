/**
 The validator of the reference semantics against its compiler, and what acceptance of any
 view means.
 */
module ReferenceTheorems {
  import opened Common
  import opened Closure
  import opened ReferenceSemantics

  // ----------------------------------------------------- the ranking resolves back

  lemma RankedMembers(supplied: seq<Capsule>, task: Task, principal: string)
    ensures Sorted(RankedOf(supplied, task, principal), RankOrder())
    ensures forall c :: c in RankedOf(supplied, task, principal) <==>
              !Clash(supplied) && c in supplied && Eligible(c, task, principal)
  {
    hide Clash, Eligible, RankOrder;
    if !Clash(supplied) {
      var eligible := EligibleOf(supplied, task, principal);
      RankOrderTotal();
      SortSorted(eligible, RankOrder());
      EligibleMembers(supplied, task, principal);
      SameMembers(eligible, Sort(eligible, RankOrder()));
    }
  }

  lemma SameMembers<T>(xs: seq<T>, ys: seq<T>)
    requires multiset(xs) == multiset(ys)
    ensures forall x :: x in xs <==> x in ys
  {
    assert forall x :: x in xs <==> x in multiset(xs);
    assert forall x :: x in ys <==> x in multiset(ys);
  }

  /** A capsule of a coherent supply is found again by its reference. */
  lemma FoundByReference(supplied: seq<Capsule>, c: Capsule)
    requires !Clash(supplied) && c in supplied
    ensures ByReference(supplied, c.Reference()) == Some(c)
  {
  }

  lemma {:induction false} ResolveReferences(supplied: seq<Capsule>, ranked: seq<Capsule>)
    requires forall c | c in ranked :: ByReference(supplied, c.Reference()) == Some(c)
    ensures Resolve(References(ranked), supplied) == ranked
    decreases |ranked|
  {
    hide ByReference;
    if ranked == [] {
    } else {
      assert References(ranked)[1..] == References(ranked[1..]);
      assert forall c | c in ranked[1..] :: c in ranked;
      ResolveReferences(supplied, ranked[1..]);
      assert ranked[0] in ranked && References(ranked)[0] == ranked[0].Reference();
      assert ranked == [ranked[0]] + ranked[1..];
    }
  }

  /** The validator resolves the compiler's ranking to exactly the capsules the compiler ranked. */
  lemma RankingResolves(supplied: seq<Capsule>, task: Task, principal: string, view: View)
    requires view.ranked == References(RankedOf(supplied, task, principal))
    ensures Resolve(view.ranked, supplied) == RankedOf(supplied, task, principal)
    ensures ResolvedRanking(view, supplied) == RankedOf(supplied, task, principal)
    ensures forall reference | reference in view.ranked :: ByReference(supplied, reference).Some?
  {
    var ranked := RankedOf(supplied, task, principal);
    hide RankedOf, Clash, Eligible, RankOrder, ByReference;
    RankedMembers(supplied, task, principal);
    forall c | c in ranked ensures ByReference(supplied, c.Reference()) == Some(c) {
      FoundByReference(supplied, c);
    }
    ResolveReferences(supplied, ranked);
    SortFixed(ranked, RankOrder());
    forall reference | reference in view.ranked ensures ByReference(supplied, reference).Some? {
      var i :| 0 <= i < |view.ranked| && view.ranked[i] == reference;
      assert ranked[i] in ranked;
    }
  }

  // --------------------------------------------------- recomputed facts about a ranking

  /** P0 atoms are always selected exactly. */
  lemma P0AlwaysExact(ranked: seq<Capsule>)
    ensures Recompute(ranked).P0Ids() <= Recompute(ranked).Exact()
  {
    hide Requirements, Known, Missing, ConflictsOf, RequirementsOf, AtomsOf;
    var r := Recompute(ranked);
    var index := Index(ranked);
    forall a | a in r.p0 ensures a in r.atoms {
      var id :| id in index && index[id] == a && a.P0();
      IndexSound(ranked, id);
      assert id in Seeds(ranked);
    }
  }

  lemma IndexSound(ranked: seq<Capsule>, id: string)
    requires id in Index(ranked)
    ensures Index(ranked)[id] in AtomsOf(ranked) && Index(ranked)[id].id == id
  {
  }

  lemma IndexKeys(ranked: seq<Capsule>)
    ensures Index(ranked).Keys == set a | a in AtomsOf(ranked) :: a.id
  {
    forall id | id in Index(ranked) ensures id in set a | a in AtomsOf(ranked) :: a.id {
      IndexSound(ranked, id);
    }
    forall a | a in AtomsOf(ranked) ensures a.id in Index(ranked) {
    }
  }

  /** When nothing is missing the selection is closed under every requirement, known or not. */
  lemma ClosedUnlessMissing(ranked: seq<Capsule>)
    ensures Recompute(ranked).closed <==> Recompute(ranked).missing == {}
  {
    hide ConflictsOf, RequirementsOf, AtomsOf, Seeds, Index;
    var r := Recompute(ranked);
    var pairs, known := RequirementsOf(ranked), Index(ranked).Keys;
    if r.missing == {} {
      forall p | p in pairs && p.0 in r.selected ensures p.1 in r.selected {
        assert p.1 in known || p.1 in Missing(r.selected, pairs, known);
        assert Requirement(p) in Requirements(Known(pairs, known));
      }
    }
  }

  /** The evidence of well-formed capsules backs every handle of their selected atoms. */
  lemma HandlesBacked(ranked: seq<Capsule>)
    requires forall c | c in ranked :: WellFormedness(c) == {}
    ensures Recompute(ranked).Handles() <= EvidenceOf(ranked)
  {
    hide Requirements, Known, Missing, ConflictsOf, RequirementsOf, Seeds, Close, Index;
    var r := Recompute(ranked);
    forall a, e | a in r.atoms && e in a.evidence ensures e in EvidenceOf(ranked) {
      var id :| id in r.selected && id in Index(ranked) && Index(ranked)[id] == a;
      IndexSound(ranked, id);
      var c :| c in ranked && a in c.atoms;
      EvidenceListed(c, a);
      assert e in c.EvidenceIds();
      var ev :| ev in c.evidence && ev.id == e;
    }
  }

  lemma EvidenceListed(c: Capsule, a: Atom)
    requires WellFormedness(c) == {} && a in c.atoms
    ensures a.evidence <= c.EvidenceIds()
  {
    assert MissingEvidence !in WellFormedness(c);
  }

  // -------------------------------------------------------- compile, then validate

  /** Some capsule was refused, so the compiler recorded why. */
  lemma RefusalRecorded(supplied: seq<Capsule>, task: Task, principal: string, budget: int, adapter: string)
    requires supplied != [] && RankedOf(supplied, task, principal) == []
    ensures CompileView(supplied, task, principal, budget, adapter).blockers != {}
  {
    RankedMembers(supplied, task, principal);
    hide RankedOf, Clash, WellFormedness, EligibilityBlockers, Recompute, Preserved;
    if Clash(supplied) {
      assert MalformedCapsule in CompileView(supplied, task, principal, budget, adapter).blockers;
    } else {
      var c := supplied[0];
      assert !Eligible(c, task, principal);
      var b :| b in WellFormedness(c) + EligibilityBlockers(c, task, principal);
      assert b in BlockersOf(supplied, task, principal);
    }
  }

  /** The validator finds the metadata of the compiler's own view consistent unless a reference was ranked twice. */
  lemma MetadataOfCompiled(supplied: seq<Capsule>, task: Task, principal: string, budget: int, adapter: string)
    ensures MetadataConsistent(CompileView(supplied, task, principal, budget, adapter), supplied)
       <==> Distinct(References(RankedOf(supplied, task, principal)))
  {
    hide RankedOf, Clash, WellFormedness, EligibilityBlockers, Recompute, Preserved, Content, References, Resolve,
      ByReference, Fingerprints, BlockersOf;
    var view := CompileView(supplied, task, principal, budget, adapter);
    RankingResolves(supplied, task, principal, view);
    if supplied != [] && RankedOf(supplied, task, principal) == [] {
      RefusalRecorded(supplied, task, principal, budget, adapter);
    }
  }

  lemma CapsuleBlockersRepeat(supplied: seq<Capsule>, task: Task, principal: string, budget: int, adapter: string)
    ensures CapsuleBlockers(supplied, principal) <= CompileView(supplied, task, principal, budget, adapter).blockers
  {
    hide RankedOf, Clash, WellFormedness, Recompute, Preserved, Content, References, Fingerprints;
    var blockers := BlockersOf(supplied, task, principal);
    forall c, b | c in supplied && b in WellFormedness(c) ensures b in blockers {
      assert b in WellFormedness(c) + EligibilityBlockers(c, task, principal);
    }
    forall c | c in supplied && principal !in c.principals ensures UnauthorizedCapsule in blockers {
      assert UnauthorizedCapsule in WellFormedness(c) + EligibilityBlockers(c, task, principal);
    }
    forall c, e | c in supplied && e in c.evidence && !e.current ensures StaleEvidence in blockers {
      assert StaleEvidence in WellFormedness(c) + EligibilityBlockers(c, task, principal);
    }
  }

  lemma PreservedIffExact(ranked: seq<Capsule>)
    ensures Preserved(ranked) <==> PoliciesExact(ranked)
  {
    hide Recompute, Recomputed.P0Ids, Recomputed.Exact;
    P0AlwaysExact(ranked);
  }

  lemma RecomputedBlockersRepeat(supplied: seq<Capsule>, task: Task, principal: string, budget: int, adapter: string)
    ensures var view := CompileView(supplied, task, principal, budget, adapter);
            var ranked := RankedOf(supplied, task, principal);
            view.blockers + RecomputedBlockers(view, ranked) == view.blockers + When(!PoliciesExact(ranked), P0NotExact)
  {
    hide RankedOf, Clash, WellFormedness, EligibilityBlockers, Recompute, Content, References, Fingerprints,
      BlockersOf, Preserved,
         Recomputed.Handles, Recomputed.P0Ids, Recomputed.Exact, Recomputed.P0Cost, Recomputed.SelectedCost,
           EvidenceOf, PoliciesExact;
    var ranked := RankedOf(supplied, task, principal);
    RankedMembers(supplied, task, principal);
    PreservedIffExact(ranked);
    ClosedUnlessMissing(ranked);
    HandlesBacked(ranked);
  }

  /**
   Validating the compiler's own output reports exactly the compiler's blockers, with two
   additions that do not depend on the view: an inconsistency when a reference was ranked
   twice, and an inexact P0 policy when some ranked capsule has one.
   */
  lemma ValidateCompiled(supplied: seq<Capsule>, task: Task, principal: string, budget: int, adapter: string)
    ensures var view := CompileView(supplied, task, principal, budget, adapter);
            var ranked := RankedOf(supplied, task, principal);
            ValidateView(view, supplied, principal) ==
              view.blockers
              + When(!Distinct(References(ranked)), ViewInconsistent)
              + When(!PoliciesExact(ranked), P0NotExact)
  {
    hide RankedOf, Recompute, Preserved, Content, References, Fingerprints, BlockersOf, Clash, MetadataConsistent,
      CapsuleBlockers,
         RecomputedBlockers, PoliciesExact, Distinct;
    var view := CompileView(supplied, task, principal, budget, adapter);
    RankingResolves(supplied, task, principal, view);
    MetadataOfCompiled(supplied, task, principal, budget, adapter);
    CapsuleBlockersRepeat(supplied, task, principal, budget, adapter);
    RecomputedBlockersRepeat(supplied, task, principal, budget, adapter);
  }

  /**
   So for capsules with distinct references and exact policies, a view is valid exactly when
   compilation found nothing.
   */
  lemma ValidIffNothingBlocked(supplied: seq<Capsule>, task: Task, principal: string, budget: int, adapter: string)
    requires Distinct(References(supplied)) && forall c | c in supplied :: c.p0Exact
    ensures var view := CompileView(supplied, task, principal, budget, adapter);
            ValidateView(view, supplied, principal) == view.blockers
  {
    hide Recompute, Clash, Eligible, CompileView, ValidateView, RankOrder;
    ValidateCompiled(supplied, task, principal, budget, adapter);
    RankedMembers(supplied, task, principal);
    RankedDistinct(supplied, task, principal);
  }

  // ------------------------------------------------- neither hypothesis can be dropped

  const BARE := Capsule("a", "1", {"p"}, {"r"}, [""], {"e"}, {}, "ACTIVE", {}, {}, {}, {}, true, true)
  const ERRAND := Task("t", "r", "", "e", {})

  predicate IsBare(c: Capsule) {
    c.atoms == {} && c.evidence == {} && c.requirements == {} && c.conflicts == {}
  }

  lemma BareRecomputed(ranked: seq<Capsule>)
    requires forall c | c in ranked :: IsBare(c)
    ensures var r := Recompute(ranked);
            r.missing == {} && r.conflicts == {} && r.p0 == {} && r.P0Cost() == 0 && r.SelectedCost() == 0
  {
    assert AtomsOf(ranked) == {} && RequirementsOf(ranked) == {} && ConflictsOf(ranked) == {};
    CloseLeast({}, Requirements({}), {});
    assert Recompute(ranked).atoms == {};
  }

  lemma BareCompiles(supplied: seq<Capsule>)
    requires forall c | c in supplied :: c == supplied[0] && IsBare(c) && Eligible(c, ERRAND, "p")
    ensures CompileView(supplied, ERRAND, "p", 0, "").blockers == {}
    ensures multiset(RankedOf(supplied, ERRAND, "p")) == multiset(supplied)
  {
    hide Recompute, Eligible, WellFormedness, EligibilityBlockers, Capsule.Reference;
    var ranked := RankedOf(supplied, ERRAND, "p");
    assert !Clash(supplied);
    AllEligible(supplied);
    RankOrderTotal();
    SortSorted(supplied, RankOrder());
    SameMembers(ranked, supplied);
    BareRecomputed(ranked);
    assert BlockersOf(supplied, ERRAND, "p") == {} by {
      forall c | c in supplied ensures WellFormedness(c) + EligibilityBlockers(c, ERRAND, "p") == {} {
        Unblocked(c);
      }
    }
  }

  lemma Unblocked(c: Capsule)
    requires Eligible(c, ERRAND, "p")
    ensures WellFormedness(c) + EligibilityBlockers(c, ERRAND, "p") == {}
  {
  }

  lemma {:induction false} AllEligible(supplied: seq<Capsule>)
    requires forall c | c in supplied :: Eligible(c, ERRAND, "p")
    ensures EligibleOf(supplied, ERRAND, "p") == supplied
    decreases |supplied|
  {
    hide Eligible;
    if supplied == [] {
    } else {
      var n := |supplied| - 1;
      assert supplied == supplied[..n] + [supplied[n]];
      AllEligible(supplied[..n]);
    }
  }

  /** A capsule supplied twice compiles without blockers and then fails validation. */
  lemma DuplicateFailsValidation()
    ensures var supplied := [BARE, BARE];
            var view := CompileView(supplied, ERRAND, "p", 0, "");
            view.blockers == {} && ValidateView(view, supplied, "p") == {ViewInconsistent}
  {
    hide CompileView, ValidateView, RankedOf, Capsule.Reference;
    var supplied := [BARE, BARE];
    assert "" in BARE.prefixes && "" <= ERRAND.path;
    BareCompiles(supplied);
    ValidateCompiled(supplied, ERRAND, "p", 0, "");
    var ranked := RankedOf(supplied, ERRAND, "p");
    assert |ranked| == |multiset(ranked)| == 2;
    assert ranked[0] in multiset(ranked) && ranked[1] in multiset(ranked);
    assert References(ranked)[0] == References(ranked)[1];
  }

  /** A capsule with an inexact policy and no P0 atom compiles without blockers and then fails validation. */
  lemma InexactFailsValidation()
    ensures var supplied := [BARE.(p0Exact := false)];
            var view := CompileView(supplied, ERRAND, "p", 0, "");
            view.blockers == {} && ValidateView(view, supplied, "p") == {P0NotExact}
  {
    hide CompileView, ValidateView, RankedOf, Capsule.Reference;
    var supplied := [BARE.(p0Exact := false)];
    assert "" in supplied[0].prefixes && "" <= ERRAND.path;
    BareCompiles(supplied);
    ValidateCompiled(supplied, ERRAND, "p", 0, "");
    var ranked := RankedOf(supplied, ERRAND, "p");
    assert |ranked| == |multiset(ranked)| == 1;
    assert ranked[0] in multiset(ranked);
    assert References(ranked) == [ranked[0].Reference()];
  }

  /** No two capsules of the list share a reference. */
  ghost predicate DistinctCapsules(xs: seq<Capsule>) {
    forall i, j | 0 <= i < j < |xs| :: xs[i].Reference() != xs[j].Reference()
  }

  lemma {:induction false} InsertDistinct(x: Capsule, xs: seq<Capsule>, le: (Capsule, Capsule) -> bool)
    requires DistinctCapsules(xs) && forall c | c in xs :: c.Reference() != x.Reference()
    ensures DistinctCapsules(Insert(x, xs, le))
  {
    hide Capsule.Reference;
    if xs != [] && !le(x, xs[0]) {
      var tail := xs[1..];
      assert xs == [xs[0]] + tail;
      InsertDistinct(x, tail, le);
      var rest := Insert(x, tail, le);
      InsertMembers(x, tail, le);
      assert multiset(tail) + multiset{x} == multiset(tail + [x]);
      SameMembers(rest, tail + [x]);
      forall j | 0 <= j < |rest| ensures rest[j].Reference() != xs[0].Reference() {
        assert rest[j] in rest && rest[j] in tail + [x];
      }
    }
  }

  lemma {:induction false} SortDistinct(xs: seq<Capsule>)
    requires DistinctCapsules(xs)
    ensures DistinctCapsules(Sort(xs, RankOrder()))
  {
    hide Capsule.Reference, RankOrder;
    if xs == [] {
    } else {
      SortDistinct(xs[1..]);
      RankOrderTotal();
      SortSorted(xs[1..], RankOrder());
      SameMembers(xs[1..], Sort(xs[1..], RankOrder()));
      InsertDistinct(xs[0], Sort(xs[1..], RankOrder()), RankOrder());
    }
  }

  lemma {:induction false} EligibleDistinct(supplied: seq<Capsule>, task: Task, principal: string)
    requires DistinctCapsules(supplied)
    ensures DistinctCapsules(EligibleOf(supplied, task, principal))
    decreases |supplied|
  {
    hide Eligible, Capsule.Reference;
    if supplied == [] {
    } else {
      var n := |supplied| - 1;
      EligibleDistinct(supplied[..n], task, principal);
      EligibleMembers(supplied[..n], task, principal);
      forall c | c in EligibleOf(supplied[..n], task, principal) ensures c.Reference() != supplied[n].Reference() {
        assert c in supplied[..n];
      }
    }
  }

  lemma RankedDistinct(supplied: seq<Capsule>, task: Task, principal: string)
    requires Distinct(References(supplied))
    ensures Distinct(References(RankedOf(supplied, task, principal)))
  {
    hide Clash, Eligible, EligibleOf, RankOrder, Sort, Capsule.Reference;
    forall i, j | 0 <= i < j < |supplied| ensures supplied[i].Reference() != supplied[j].Reference() {
      assert References(supplied)[i] != References(supplied)[j];
    }
    EligibleDistinct(supplied, task, principal);
    SortDistinct(EligibleOf(supplied, task, principal));
  }

  // ---------------------------------------------------------- accepting any view at all

  /** What an empty report says, check by check. */
  lemma EmptyReport(view: View, supplied: seq<Capsule>, principal: string)
    requires ValidateView(view, supplied, principal) == {}
    ensures MetadataConsistent(view, supplied) && CapsuleBlockers(supplied, principal) == {}
    ensures var r := Recompute(ResolvedRanking(view, supplied));
            r.missing == {} && r.conflicts == {} && r.SelectedCost() <= view.budget && r.P0Cost() <= view.budget
  {
    hide MetadataConsistent, CapsuleBlockers, Recompute, ResolvedRanking, Preserved, Recomputed.P0Cost,
      Recomputed.SelectedCost;
    var ranked := ResolvedRanking(view, supplied);
    assert RecomputedBlockers(view, ranked) == {};
    assert ViewInconsistent !in ValidateView(view, supplied, principal);
    assert MissingMandatoryDependency !in RecomputedBlockers(view, ranked)
           && UnresolvedConflict !in RecomputedBlockers(view, ranked);
    assert P0BudgetOverflow !in RecomputedBlockers(view, ranked)
           && MandatoryClosureBudgetOverflow !in RecomputedBlockers(view, ranked);
  }

  lemma {:induction false} ResolveMembers(references: seq<string>, supplied: seq<Capsule>)
    ensures forall c | c in Resolve(references, supplied) :: c in supplied
  {
    hide ByReference;
    if references == [] {
    } else {
      ResolveMembers(references[1..], supplied);
    }
  }

  lemma RankingSupplied(view: View, supplied: seq<Capsule>)
    ensures forall c | c in ResolvedRanking(view, supplied) :: c in supplied
  {
    hide RankOrder;
    ResolveMembers(view.ranked, supplied);
    RankOrderTotal();
    SortSorted(Resolve(view.ranked, supplied), RankOrder());
    SameMembers(Resolve(view.ranked, supplied), ResolvedRanking(view, supplied));
  }

  lemma SoundCapsules(supplied: seq<Capsule>, principal: string, c: Capsule)
    requires CapsuleBlockers(supplied, principal) == {} && c in supplied
    ensures WellFormedness(c) == {} && principal in c.principals && forall e | e in c.evidence :: e.current
  {
    hide Clash, WellFormedness;
    assert UnauthorizedCapsule !in CapsuleBlockers(supplied, principal)
           && StaleEvidence !in CapsuleBlockers(supplied, principal);
    assert forall b | b in WellFormedness(c) :: b in CapsuleBlockers(supplied, principal);
  }

  /**
   If nothing is missing, the recomputed selection is the closure of the seeds under all
   requirements, within the known atoms.
   */
  lemma RecomputedClosure(ranked: seq<Capsule>)
    requires Recompute(ranked).missing == {}
    ensures Recompute(ranked).selected == Close(Seeds(ranked), Requirements(RequirementsOf(ranked)))
    ensures Recompute(ranked).selected <= Index(ranked).Keys
  {
    hide ConflictsOf, Requirements, Close, Missing, Index, RequirementsOf;
    var pairs, known := RequirementsOf(ranked), Index(ranked).Keys;
    IndexKeys(ranked);
    assert Seeds(ranked) <= known;
    RoundRobinAgrees(Seeds(ranked), known, pairs);
    MissingIffUnknown(Seeds(ranked), known, pairs);
  }

  /**
   Acceptance of any view whatever: its ranked capsules are well-formed, authorised and fresh,
   and its selection is the least set that holds their P0 and relevant atoms and is closed
   under all their requirements; every selected atom is known, no declared conflict is
   selected, and P0 and total cost are within the budget.
   */
  lemma AcceptanceMeansClosed(view: View, supplied: seq<Capsule>, principal: string)
    requires ValidateView(view, supplied, principal) == {}
    ensures var ranked := ResolvedRanking(view, supplied);
            && view.ranked == References(ranked) && Distinct(view.ranked)
            && (forall c | c in ranked ::
                  c in supplied && WellFormedness(c) == {} && principal in c.principals
                    && forall e | e in c.evidence :: e.current)
            && view.selected == Close(Seeds(ranked), Requirements(RequirementsOf(ranked)))
            && view.selected <= Index(ranked).Keys
            && (forall e | e in ConflictsOf(ranked) :: !(e.0 in view.selected && e.1 in view.selected))
            && Cost(set id | id in view.selected && id in Index(ranked) :: Index(ranked)[id]) <= view.budget
            && Cost(set id | id in Index(ranked) && Index(ranked)[id].P0() :: Index(ranked)[id]) <= view.budget
  {
    hide ValidateView, ResolvedRanking, CapsuleBlockers, WellFormedness, Index, Cost, Close, Requirements,
      RequirementsOf, Seeds, Known, Missing, Content, Preserved, References, ConflictsOf;
    var ranked := ResolvedRanking(view, supplied);
    EmptyReport(view, supplied, principal);
    RecomputedClosure(ranked);
    RankingSupplied(view, supplied);
    forall c | c in ranked
      ensures c in supplied && WellFormedness(c) == {} && principal in c.principals && forall e | e in c.evidence ::
              e.current
    {
      SoundCapsules(supplied, principal, c);
    }
    var r := Recompute(ranked);
    assert forall e | e in ConflictsOf(ranked) && e.0 in view.selected && e.1 in view.selected :: e in r.conflicts;
  }
}

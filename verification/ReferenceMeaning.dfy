/**
 What a compiled view and an accepted view say about the capsules themselves: which are ranked,
 what is selected, what each blocker stands for and what the rendered text is.
 */
module ReferenceMeaning {
  import opened Common
  import opened Closure
  import opened ReferenceSemantics
  import opened ReferenceTheorems
  import opened ReferenceCompiler

  // ------------------------------------------------------------------- the ranked capsules

  /** Everything the capsule says about its own parts holds. */
  predicate SelfConsistent(c: Capsule) {
    && c.capsuleId != "" && c.version != "" && (c.lifecycle == "PUBLISHED" || c.lifecycle == "ACTIVE")
    && c.repositories != {} && c.prefixes != [] && c.environments != {}
    && (forall a, b | a in c.atoms && b in c.atoms && a.id == b.id :: a == b)
    && (forall e, f | e in c.evidence && f in c.evidence && e.id == f.id :: e == f)
    && forall a | a in c.atoms :: AtomWhole(a)
  }

  /** The atom has an id, a statement, a cost, evidence and one of the five compression classes. */
  predicate AtomWhole(a: Atom) {
    && a.id != "" && a.statement != "" && a.cost >= 0 && a.evidence != {}
    && (|| a.compression == "P0_EXACT" || a.compression == "P1_STRUCTURED" || a.compression == "P2_EXCERPT"
        || a.compression == "P3_SUMMARY" || a.compression == "P4_TRANSIENT")
  }

  /** All evidence is whole, and whatever an atom refers to is there. */
  predicate EvidenceHolds(c: Capsule) {
    && (forall e | e in c.evidence :: e.id != "" && e.digest != "" && e.text != "")
    && forall a, id | a in c.atoms && id in a.evidence :: exists e :: e in c.evidence && e.id == id
  }

  /** Atoms to be kept exactly come only with a policy that keeps them so. */
  predicate ExactnessHolds(c: Capsule) {
    forall a | a in c.atoms && a.compression == "P0_EXACT" :: c.p0Exact
  }

  /** The capsule is meant for the task: its repository, environment and path. */
  predicate Applies(c: Capsule, task: Task) {
    && task.repository in c.repositories && task.environment in c.environments
    && exists i :: 0 <= i < |c.prefixes| && |c.prefixes[i]| <= |task.path|
                && task.path[..|c.prefixes[i]|] == c.prefixes[i]
  }

  predicate Sound(c: Capsule) {
    SelfConsistent(c) && EvidenceHolds(c) && ExactnessHolds(c) && c.integrity
  }

  /** Two of the capsules say different things under one reference, atom id or evidence id. */
  predicate Contradict(supplied: seq<Capsule>) {
    || (exists c, d :: c in supplied && d in supplied && c != d
                    && c.capsuleId + "@" + c.version == d.capsuleId + "@" + d.version)
    || (exists c, d, a, b :: c in supplied && d in supplied && a in c.atoms && b in d.atoms && a.id == b.id && a != b)
    || (exists c, d, e, f :: c in supplied && d in supplied && e in c.evidence && f in d.evidence && e.id == f.id
                          && e != f)
  }

  lemma ClashMeans(supplied: seq<Capsule>)
    ensures Clash(supplied) <==> Contradict(supplied)
  {
  }

  lemma AtomShape(a: Atom)
    ensures a.WellFormed() <==> AtomWhole(a)
  {
  }

  lemma ShapeMeans(c: Capsule)
    ensures c.ManifestWellFormed() && c.UniqueIds() && (forall a | a in c.atoms :: a.WellFormed())
       <==> SelfConsistent(c)
  {
    hide Atom.WellFormed, AtomWhole;
    forall a: Atom ensures a.WellFormed() <==> AtomWhole(a) {
      AtomShape(a);
    }
  }

  lemma EvidenceMeans(c: Capsule)
    ensures (forall e | e in c.evidence :: e.WellFormed()) && (forall a | a in c.atoms :: a.evidence <= c.EvidenceIds())
       <==> EvidenceHolds(c)
  {
    forall id ensures id in c.EvidenceIds() <==> exists e :: e in c.evidence && e.id == id {
    }
  }

  lemma WellFormedMeans(c: Capsule)
    ensures MalformedCapsule in WellFormedness(c) <==> !SelfConsistent(c)
    ensures IntegrityFailed in WellFormedness(c) <==> !c.integrity
    ensures MissingEvidence in WellFormedness(c) <==> !EvidenceHolds(c)
    ensures P0NotExact in WellFormedness(c) <==> !ExactnessHolds(c)
    ensures WellFormedness(c) <= {MalformedCapsule, IntegrityFailed, MissingEvidence, P0NotExact}
  {
    hide SelfConsistent, EvidenceHolds, Capsule.ManifestWellFormed, Capsule.UniqueIds, Atom.WellFormed,
      Evidence.WellFormed, Capsule.EvidenceIds;
    ShapeMeans(c);
    EvidenceMeans(c);
  }

  lemma EligibilityMeans(c: Capsule, task: Task, principal: string)
    ensures UnauthorizedCapsule in EligibilityBlockers(c, task, principal) <==> principal !in c.principals
    ensures OutOfScope in EligibilityBlockers(c, task, principal) <==> !Applies(c, task)
    ensures IncompatibleInterface in EligibilityBlockers(c, task, principal) <==>
              exists i :: i in task.interfaces && i !in c.interfaces
    ensures StaleEvidence in EligibilityBlockers(c, task, principal) <==>
              exists e :: e in c.evidence && !e.current
    ensures EligibilityBlockers(c, task, principal)
         <= {UnauthorizedCapsule, OutOfScope, IncompatibleInterface, StaleEvidence}
  {
    if prefix :| prefix in c.prefixes && prefix <= task.path {
      var i :| 0 <= i < |c.prefixes| && c.prefixes[i] == prefix;
      assert task.path[..|c.prefixes[i]|] == c.prefixes[i];
    }
    if Applies(c, task) {
      var i :| 0 <= i < |c.prefixes| && |c.prefixes[i]| <= |task.path|
               && task.path[..|c.prefixes[i]|] == c.prefixes[i];
      assert c.prefixes[i] in c.prefixes && c.prefixes[i] <= task.path;
    }
  }

  /** The capsule can be used for the task by the principal. */
  predicate Usable(c: Capsule, task: Task, principal: string) {
    && Sound(c) && Applies(c, task) && principal in c.principals
    && (forall i | i in task.interfaces :: i in c.interfaces)
    && (forall e | e in c.evidence :: e.current)
  }

  lemma EligibleMeans(c: Capsule, task: Task, principal: string)
    ensures Eligible(c, task, principal) <==> Usable(c, task, principal)
  {
    hide SelfConsistent, EvidenceHolds, ExactnessHolds, Applies, WellFormedness, EligibilityBlockers;
    WellFormedMeans(c);
    EligibilityMeans(c, task, principal);
    if Usable(c, task, principal) {
      assert forall b :: b !in WellFormedness(c) && b !in EligibilityBlockers(c, task, principal);
    }
    if Eligible(c, task, principal) {
      assert MalformedCapsule !in WellFormedness(c);
    }
  }

  /**
   The compiler ranks exactly the supplied capsules that are sound, current, open to the
   principal and meant for the task's repository, environment, path and interfaces; none at all
   if any two supplied capsules contradict each other.  Each is ranked as often as it is
   supplied, more relevant ones first and equally relevant ones by reference.
   */
  lemma RankedMeans(supplied: seq<Capsule>, task: Task, principal: string)
    ensures var ranked := RankedOf(supplied, task, principal);
            && (forall c :: c in ranked <==>
                  !Contradict(supplied) && c in supplied && Usable(c, task, principal))
            && (forall i | 0 < i < |ranked| ::
                  || Relevance(ranked[i - 1]) > Relevance(ranked[i])
                  || (Relevance(ranked[i - 1]) == Relevance(ranked[i])
                      && StringLe(ranked[i - 1].Reference(), ranked[i].Reference())))
            && (!Contradict(supplied) && (forall c | c in supplied :: Usable(c, task, principal)) ==>
                  multiset(ranked) == multiset(supplied))
  {
    hide Clash, Eligible, Usable, Contradict, Sort, Relevance, StringLe;
    RankedMembers(supplied, task, principal);
    ClashMeans(supplied);
    forall c ensures Eligible(c, task, principal) <==> Usable(c, task, principal) {
      EligibleMeans(c, task, principal);
    }
    var ranked := RankedOf(supplied, task, principal);
    assert forall i | 0 < i < |ranked| :: RankOrder()(ranked[i - 1], ranked[i]);
    if !Contradict(supplied) && (forall c | c in supplied :: Usable(c, task, principal)) {
      AllRanked(supplied, task, principal);
    }
  }

  lemma AllRanked(supplied: seq<Capsule>, task: Task, principal: string)
    requires !Clash(supplied) && forall c | c in supplied :: Eligible(c, task, principal)
    ensures multiset(RankedOf(supplied, task, principal)) == multiset(supplied)
  {
    hide Clash, Eligible, RankOrder;
    EveryEligible(supplied, task, principal);
    RankOrderTotal();
    SortSorted(supplied, RankOrder());
  }

  lemma {:induction false} EveryEligible(supplied: seq<Capsule>, task: Task, principal: string)
    requires forall c | c in supplied :: Eligible(c, task, principal)
    ensures EligibleOf(supplied, task, principal) == supplied
    decreases |supplied|
  {
    hide Eligible;
    if supplied == [] {
    } else {
      var n := |supplied| - 1;
      assert supplied == supplied[..n] + [supplied[n]];
      EveryEligible(supplied[..n], task, principal);
    }
  }

  /** Strings are compared at the first place where they differ; a prefix comes first. */
  lemma {:induction false} StringOrder(a: string, b: string)
    ensures StringLe(a, b) <==>
              || a <= b
              || exists i :: 0 <= i < |a| && i < |b| && a[..i] == b[..i] && a[i] < b[i]
  {
    if a == "" || b == "" {
    } else if a[0] == b[0] {
      StringOrder(a[1..], b[1..]);
      assert a <= b <==> a[1..] <= b[1..];
      if i :| 0 <= i < |a| && i < |b| && a[..i] == b[..i] && a[i] < b[i] {
        assert i > 0;
        assert a[1..][..i - 1] == a[..i][1..] && b[1..][..i - 1] == b[..i][1..];
        assert a[1..][i - 1] < b[1..][i - 1];
      }
      if i :| 0 <= i < |a[1..]| && i < |b[1..]| && a[1..][..i] == b[1..][..i] && a[1..][i] < b[1..][i] {
        assert a[..i + 1] == [a[0]] + a[1..][..i] && b[..i + 1] == [b[0]] + b[1..][..i];
        assert a[i + 1] < b[i + 1];
      }
    } else {
      forall i: nat | 0 < i <= |a| && i <= |b| ensures a[..i] != b[..i] {
        assert a[..i][0] == a[0] && b[..i][0] == b[0];
      }
      if a[0] < b[0] {
        assert a[..0] == b[..0];
      }
    }
  }

  /** Costs and relevance are what the atoms add up to. */
  lemma Totals(atoms: set<Atom>, a: Atom, c: Capsule)
    ensures Cost({}) == 0
    ensures a in atoms ==> Cost(atoms) == a.cost + Cost(atoms - {a})
    ensures c.atoms == {} ==> Relevance(c) == 0
    ensures a in c.atoms ==> Relevance(c) == a.relevance + Relevance(c.(atoms := c.atoms - {a}))
  {
    if a in atoms {
      SumPick(atoms, CostOf, a);
    }
    if a in c.atoms {
      SumPick(c.atoms, RelevanceOf, a);
    }
  }

  // ----------------------------------------------------------------------- the selection

  /** A ranked capsule has an atom of this id that must be kept exactly or is relevant. */
  predicate Called(ranked: seq<Capsule>, id: string) {
    exists c, a :: c in ranked && a in c.atoms && a.id == id && (a.compression == "P0_EXACT" || a.relevance > 0)
  }

  predicate IsAtom(ranked: seq<Capsule>, id: string) {
    exists c, a :: c in ranked && a in c.atoms && a.id == id
  }

  /** The set holds every atom called for and, with an atom, every known atom that one requires. */
  ghost predicate Holds(ranked: seq<Capsule>, ids: set<string>) {
    && (forall id | Called(ranked, id) :: id in ids)
    && (forall c, x, y | c in ranked && (x, y) in c.requirements && x in ids && IsAtom(ranked, y) :: y in ids)
  }

  lemma SeedsMean(ranked: seq<Capsule>, id: string)
    ensures id in Seeds(ranked) <==> Called(ranked, id)
    ensures id in Index(ranked) <==> IsAtom(ranked, id)
  {
    IndexKeys(ranked);
    if c, a :| c in ranked && a in c.atoms && a.id == id {
      assert a in AtomsOf(ranked);
    }
    if c, a :| c in ranked && a in c.atoms && a.id == id && (a.compression == "P0_EXACT" || a.relevance > 0) {
      assert a in AtomsOf(ranked);
    }
  }

  lemma RequirementsMean(ranked: seq<Capsule>, x: string, y: string)
    ensures (x, y) in RequirementsOf(ranked) <==> exists c :: c in ranked && (x, y) in c.requirements
    ensures (x, y) in ConflictsOf(ranked) <==> exists c :: c in ranked && (x, y) in c.conflicts
  {
  }

  /**
   The selection of a ranking is the least set that holds what is called for; missing is exactly
   what a selected atom requires and no ranked capsule has, and a conflict is exactly a declared
   one between selected atoms.
   */
  lemma SelectionMeans(ranked: seq<Capsule>)
    ensures var r := Recompute(ranked);
            && Holds(ranked, r.selected)
            && (forall ids | Holds(ranked, ids) :: r.selected <= ids)
            && (forall y :: y in r.missing <==>
                  !IsAtom(ranked, y) && exists c, x :: c in ranked && (x, y) in c.requirements && x in r.selected)
            && (forall x, y :: (x, y) in r.conflicts <==>
                  x in r.selected && y in r.selected && exists c :: c in ranked && (x, y) in c.conflicts)
            && (r.closed <==> r.missing == {})
  {
    hide Seeds, Index, Called, IsAtom, Close, RequirementsOf, ConflictsOf, Requirements, Known, Missing;
    var r := Recompute(ranked);
    var pairs, known := RequirementsOf(ranked), Index(ranked).Keys;
    forall id ensures (id in Seeds(ranked) <==> Called(ranked, id)) && (id in known <==> IsAtom(ranked, id)) {
      SeedsMean(ranked, id);
    }
    forall x, y
      ensures (x, y) in pairs <==> exists c :: c in ranked && (x, y) in c.requirements
      ensures (x, y) in ConflictsOf(ranked) <==> exists c :: c in ranked && (x, y) in c.conflicts
    {
      RequirementsMean(ranked, x, y);
    }
    ClosedUnlessMissing(ranked);
    forall c, x, y | c in ranked && (x, y) in c.requirements && x in r.selected && IsAtom(ranked, y)
      ensures y in r.selected
    {
      KnownFollows(Seeds(ranked), known, pairs, x, y);
    }
    forall ids | Holds(ranked, ids) ensures r.selected <= ids {
      ClosedUnder(known, pairs, ids);
      CloseLeast(Seeds(ranked), Requirements(Known(pairs, known)), ids);
    }
    forall y ensures y in r.missing <==> y !in known && exists x :: (x, y) in pairs && x in r.selected {
      MissingFrom(r.selected, pairs, known, y);
    }
  }

  lemma KnownFollows(seeds: set<string>, known: set<string>, pairs: set<(string, string)>, x: string, y: string)
    requires (x, y) in pairs && y in known && x in Close(seeds, Requirements(Known(pairs, known)))
    ensures y in Close(seeds, Requirements(Known(pairs, known)))
  {
    hide Close;
    assert (x, y) in Known(pairs, known);
    assert Requirement((x, y)) in Requirements(Known(pairs, known));
  }

  lemma ClosedUnder(known: set<string>, pairs: set<(string, string)>, ids: set<string>)
    requires forall x, y | (x, y) in pairs && x in ids && y in known :: y in ids
    ensures Closed(ids, Requirements(Known(pairs, known)))
  {
    forall e | e in Requirements(Known(pairs, known)) && e.source in ids ensures e.target in ids {
      var p :| p in pairs && p.1 in known && Requirement(p) == e;
      assert (p.0, p.1) in pairs;
    }
  }

  lemma MissingFrom(selected: set<string>, pairs: set<(string, string)>, known: set<string>, y: string)
    ensures y in Missing(selected, pairs, known) <==> y !in known && exists x :: (x, y) in pairs && x in selected
  {
    if y in Missing(selected, pairs, known) {
      var p :| p in pairs && p.0 in selected && p.1 !in known && p.1 == y;
      assert (p.0, y) in pairs;
    }
    if x :| (x, y) in pairs && x in selected && y !in known {
      var p := (x, y);
      assert p in pairs;
    }
  }

  /** The atom belongs to a ranked capsule. */
  predicate AtomIn(ranked: seq<Capsule>, a: Atom) {
    exists c :: c in ranked && a in c.atoms
  }

  /** Ranked capsules that do not contradict each other have one atom for each id, and so one for each selected id. */
  lemma AtomsMean(ranked: seq<Capsule>, a: Atom)
    requires UniqueIds(AtomsOf(ranked))
    ensures a in Recompute(ranked).atoms <==> AtomIn(ranked, a) && a.id in Recompute(ranked).selected
    ensures a in Recompute(ranked).p0 <==> AtomIn(ranked, a) && a.compression == "P0_EXACT"
  {
    hide Close, Seeds, RequirementsOf, ConflictsOf, Requirements, Known, Missing, Index;
    var r := Recompute(ranked);
    assert AtomIn(ranked, a) <==> a in AtomsOf(ranked);
    if AtomIn(ranked, a) {
      SeedsMean(ranked, a.id);
      IndexSound(ranked, a.id);
      assert Index(ranked)[a.id] == a;
    }
    if a in r.atoms {
      var id :| id in r.selected && id in Index(ranked) && Index(ranked)[id] == a;
      IndexSound(ranked, id);
    }
    if a in r.p0 {
      var id :| id in Index(ranked) && Index(ranked)[id].P0() && Index(ranked)[id] == a;
      IndexSound(ranked, id);
    }
  }

  // -------------------------------------------------------------------------- the text

  /** Lines are joined by one line break, and a single line is its statement. */
  lemma {:induction false} LinesJoin(xs: seq<Atom>, ys: seq<Atom>)
    requires xs != [] && ys != []
    ensures Lines(xs + ys) == Lines(xs) + "\n" + Lines(ys)
    ensures |xs| == 1 ==> Lines(xs) == xs[0].statement
    ensures Lines([]) == ""
  {
    if |xs| == 1 {
      assert (xs + ys)[1..] == ys;
    } else {
      assert (xs + ys)[1..] == xs[1..] + ys;
      LinesJoin(xs[1..], ys);
      var first := xs[0].statement + "\n";
      assert first + (Lines(xs[1..]) + "\n" + Lines(ys)) == (first + Lines(xs[1..])) + "\n" + Lines(ys);
    }
  }

  /** The atoms in the order of the text: exact ones first, then more relevant ones first, then by id. */
  predicate InOrder(xs: seq<Atom>) {
    forall i | 0 < i < |xs| ::
      var a, b := xs[i - 1], xs[i];
      || (a.compression == "P0_EXACT" && b.compression != "P0_EXACT")
      || ((a.compression == "P0_EXACT") == (b.compression == "P0_EXACT") && a.relevance > b.relevance)
      || ((a.compression == "P0_EXACT") == (b.compression == "P0_EXACT") && a.relevance == b.relevance
          && StringLe(a.id, b.id))
  }

  /** The text of a set of atoms is the lines of all of them, each once, in order. */
  lemma ContentMeans(atoms: set<Atom>) returns (xs: seq<Atom>)
    ensures Content(atoms) == Lines(xs) && InOrder(xs) && multiset(xs) == multiset(atoms)
  {
    hide Lines, Enumerated, StringLe, Sort;
    xs := Sort(Enumerated(atoms), AtomLe);
    EnumeratedMembers(atoms);
    AtomLeOrder();
    SortSorted(Enumerated(atoms), AtomLe);
    forall i | 0 < i < |xs| ensures AtomLe(xs[i - 1], xs[i]) {
    }
  }

  // ------------------------------------------------------------------------ the blockers

  /** What the blockers of a compiled view say about the supplied capsules. */
  lemma BlockersMean(supplied: seq<Capsule>, task: Task, principal: string, budget: int, adapter: string)
    ensures var view := CompileView(supplied, task, principal, budget, adapter);
            && (MalformedCapsule in view.blockers <==>
                  Contradict(supplied) || exists c :: c in supplied && !SelfConsistent(c))
            && (IntegrityFailed in view.blockers <==> exists c :: c in supplied && !c.integrity)
            && (MissingEvidence in view.blockers <==> exists c :: c in supplied && !EvidenceHolds(c))
            && (UnauthorizedCapsule in view.blockers <==> exists c :: c in supplied && principal !in c.principals)
            && (OutOfScope in view.blockers <==> exists c :: c in supplied && !Applies(c, task))
            && (IncompatibleInterface in view.blockers <==>
                  exists c, i :: c in supplied && i in task.interfaces && i !in c.interfaces)
            && (StaleEvidence in view.blockers <==> exists c, e :: c in supplied && e in c.evidence && !e.current)
  {
    hide CompileView, Recompute, RankedOf, Clash, Contradict, SelfConsistent, EvidenceHolds, ExactnessHolds, Applies,
      Cost, BlockersOf;
    ClashMeans(supplied);
    CapsuleBlockersMean(supplied, task, principal);
    BlockerIn(supplied, task, principal, budget, adapter, MalformedCapsule);
    BlockerIn(supplied, task, principal, budget, adapter, IntegrityFailed);
    BlockerIn(supplied, task, principal, budget, adapter, MissingEvidence);
    BlockerIn(supplied, task, principal, budget, adapter, UnauthorizedCapsule);
    BlockerIn(supplied, task, principal, budget, adapter, OutOfScope);
    BlockerIn(supplied, task, principal, budget, adapter, IncompatibleInterface);
    BlockerIn(supplied, task, principal, budget, adapter, StaleEvidence);
  }

  /** What they say about the selection; a view is never found inconsistent by its own compiler. */
  lemma SelectionBlockersMean(supplied: seq<Capsule>, task: Task, principal: string, budget: int, adapter: string)
    ensures var view := CompileView(supplied, task, principal, budget, adapter);
            var ranked := RankedOf(supplied, task, principal);
            var r := Recompute(ranked);
            && (P0NotExact in view.blockers <==>
                  || (exists c :: c in supplied && !ExactnessHolds(c))
                  || (r.p0 != {} && exists c :: c in ranked && !c.p0Exact))
            && (MissingMandatoryDependency in view.blockers <==> r.missing != {})
            && (UnresolvedConflict in view.blockers <==> r.conflicts != {})
            && (P0BudgetOverflow in view.blockers <==> Cost(r.p0) > budget)
            && (MandatoryClosureBudgetOverflow in view.blockers <==> Cost(r.p0) <= budget < Cost(r.atoms))
            && ViewInconsistent !in view.blockers
  {
    hide CompileView, Recompute, RankedOf, Clash, SelfConsistent, EvidenceHolds, ExactnessHolds, Applies, Cost,
      BlockersOf;
    CapsuleBlockersMean(supplied, task, principal);
    BlockerIn(supplied, task, principal, budget, adapter, P0NotExact);
    BlockerIn(supplied, task, principal, budget, adapter, MissingMandatoryDependency);
    BlockerIn(supplied, task, principal, budget, adapter, UnresolvedConflict);
    BlockerIn(supplied, task, principal, budget, adapter, P0BudgetOverflow);
    BlockerIn(supplied, task, principal, budget, adapter, MandatoryClosureBudgetOverflow);
    BlockerIn(supplied, task, principal, budget, adapter, ViewInconsistent);
  }

  lemma BlockerIn(supplied: seq<Capsule>, task: Task, principal: string, budget: int, adapter: string, b: Blocker)
    ensures var view := CompileView(supplied, task, principal, budget, adapter);
            var ranked := RankedOf(supplied, task, principal);
            var r := Recompute(ranked);
            b in view.blockers <==>
              || b in BlockersOf(supplied, task, principal)
              || (b == MalformedCapsule && Clash(supplied))
              || (b == MissingMandatoryDependency && r.missing != {})
              || (b == UnresolvedConflict && r.conflicts != {})
              || (b == P0NotExact && r.p0 != {} && exists c :: c in ranked && !c.p0Exact)
              || (b == P0BudgetOverflow && Cost(r.p0) > budget)
              || (b == MandatoryClosureBudgetOverflow && Cost(r.p0) <= budget < Cost(r.atoms))
  {
    hide Recompute, RankedOf, Clash, Content, References, Fingerprints, Cost, BlockersOf, Preserved;
  }

  lemma CapsuleBlockersMean(supplied: seq<Capsule>, task: Task, principal: string)
    ensures var blockers := BlockersOf(supplied, task, principal);
            && (MalformedCapsule in blockers <==> exists c :: c in supplied && !SelfConsistent(c))
            && (IntegrityFailed in blockers <==> exists c :: c in supplied && !c.integrity)
            && (MissingEvidence in blockers <==> exists c :: c in supplied && !EvidenceHolds(c))
            && (P0NotExact in blockers <==> exists c :: c in supplied && !ExactnessHolds(c))
            && (UnauthorizedCapsule in blockers <==> exists c :: c in supplied && principal !in c.principals)
            && (OutOfScope in blockers <==> exists c :: c in supplied && !Applies(c, task))
            && (IncompatibleInterface in blockers <==>
                  exists c, i :: c in supplied && i in task.interfaces && i !in c.interfaces)
            && (StaleEvidence in blockers <==> exists c, e :: c in supplied && e in c.evidence && !e.current)
            && blockers <= {MalformedCapsule, IntegrityFailed, MissingEvidence, P0NotExact, UnauthorizedCapsule,
                            OutOfScope, IncompatibleInterface, StaleEvidence}
  {
    hide SelfConsistent, EvidenceHolds, ExactnessHolds, Applies, WellFormedness, EligibilityBlockers;
    forall c
      ensures MalformedCapsule in WellFormedness(c) <==> !SelfConsistent(c)
      ensures IntegrityFailed in WellFormedness(c) <==> !c.integrity
      ensures MissingEvidence in WellFormedness(c) <==> !EvidenceHolds(c)
      ensures P0NotExact in WellFormedness(c) <==> !ExactnessHolds(c)
      ensures WellFormedness(c) <= {MalformedCapsule, IntegrityFailed, MissingEvidence, P0NotExact}
    {
      WellFormedMeans(c);
    }
    forall c
      ensures var b := EligibilityBlockers(c, task, principal);
              && (UnauthorizedCapsule in b <==> principal !in c.principals)
              && (OutOfScope in b <==> !Applies(c, task))
              && (IncompatibleInterface in b <==> exists i :: i in task.interfaces && i !in c.interfaces)
              && (StaleEvidence in b <==> exists e :: e in c.evidence && !e.current)
              && b <= {UnauthorizedCapsule, OutOfScope, IncompatibleInterface, StaleEvidence}
    {
      EligibilityMeans(c, task, principal);
    }
    forall c, b | c in supplied && (b in WellFormedness(c) || b in EligibilityBlockers(c, task, principal))
      ensures b in BlockersOf(supplied, task, principal)
    {
      assert b in WellFormedness(c) + EligibilityBlockers(c, task, principal);
    }
  }

  // ------------------------------------------------------------------------- acceptance

  /**
   What acceptance of any view comes to, said of the capsules: no two of them contradict each
   other, all are sound, current and open to the principal, the view is the principal's, and it
   repeats what it was compiled from.
   */
  lemma AcceptedCapsules(view: View, supplied: seq<Capsule>, principal: string)
    requires ValidateView(view, supplied, principal) == {}
    ensures !Contradict(supplied) && view.principal == principal && view.blockers == {}
    ensures forall c | c in supplied ::
              Sound(c) && principal in c.principals && forall e | e in c.evidence :: e.current
    ensures |view.references| == |view.fingerprints| == |view.checked| == |supplied|
    ensures forall i | 0 <= i < |supplied| ::
              && view.references[i] == view.checked[i] == supplied[i].capsuleId + "@" + supplied[i].version
              && view.fingerprints[i] == (view.references[i], supplied[i])
    ensures view.phases == (if view.ranked == [] then [Eligibility] else [Eligibility, Ranking])
    ensures view.ranked == [] ==> supplied == []
  {
    hide WellFormedness, Clash, Contradict, SelfConsistent, EvidenceHolds, ExactnessHolds, Recompute, Content,
      Preserved, Recomputed.Handles, Recomputed.Exact, RecomputedBlockers, MetadataConsistent;
    EmptyReport(view, supplied, principal);
    ClashMeans(supplied);
    assert MalformedCapsule !in ValidateView(view, supplied, principal);
    assert UnauthorizedCapsule !in ValidateView(view, supplied, principal);
    forall c | c in supplied
      ensures Sound(c) && principal in c.principals && forall e | e in c.evidence :: e.current
    {
      SoundCapsules(supplied, principal, c);
      WellFormedMeans(c);
    }
    Repeated(view, supplied);
  }

  lemma Repeated(view: View, supplied: seq<Capsule>)
    requires MetadataConsistent(view, supplied) && view.blockers == {}
    ensures |view.references| == |view.fingerprints| == |view.checked| == |supplied|
    ensures forall i | 0 <= i < |supplied| ::
              && view.references[i] == view.checked[i] == supplied[i].capsuleId + "@" + supplied[i].version
              && view.fingerprints[i] == (view.references[i], supplied[i])
    ensures view.phases == (if view.ranked == [] then [Eligibility] else [Eligibility, Ranking])
    ensures view.ranked == [] ==> supplied == []
  {
    hide Recompute, Content, Preserved, Recomputed.Handles, Recomputed.Exact, RankOrder, Sort, ByReference;
    if view.ranked != [] {
      assert view.ranked[0] in view.ranked;
      assert ByReference(supplied, view.ranked[0]).Some?;
    }
  }

  // ---------------------------------------------------------- what a view shows of its ranking

  /** The selected atoms of the ranked capsules. */
  predicate Shown(ranked: seq<Capsule>, selected: set<string>, a: Atom) {
    AtomIn(ranked, a) && a.id in selected
  }

  /** The listing has each of the selected atoms once, in the order of the text. */
  ghost predicate Lists(xs: seq<Atom>, ranked: seq<Capsule>, selected: set<string>) {
    && InOrder(xs)
    && (forall a :: a in xs <==> Shown(ranked, selected, a))
    && (forall i, j | 0 <= i < j < |xs| :: xs[i] != xs[j])
  }

  /**
   The view shows exactly what its ranked capsules call for: the least selection that holds it,
   as exact ids those of all atoms to be kept exactly, as handles all evidence of selected atoms,
   and as text the statements of the selected atoms in order.
   */
  ghost predicate Shows(view: View, ranked: seq<Capsule>) {
    && Holds(ranked, view.selected)
    && (forall ids | Holds(ranked, ids) :: view.selected <= ids)
    && (forall id :: id in view.exact <==>
          exists a :: AtomIn(ranked, a) && a.id == id && a.compression == "P0_EXACT")
    && (forall h :: h in view.handles <==> exists a :: Shown(ranked, view.selected, a) && h in a.evidence)
    && exists xs :: Lists(xs, ranked, view.selected) && view.content == Lines(xs)
  }

  lemma RecomputedShown(view: View, ranked: seq<Capsule>)
    requires UniqueIds(AtomsOf(ranked))
    requires var r := Recompute(ranked);
             && view.selected == r.selected && view.exact == r.Exact() && view.handles == r.Handles()
             && view.content == Content(r.atoms)
    ensures Shows(view, ranked)
  {
    hide Recompute, Content, UniqueIds, AtomsOf, Holds, Called, Lines, InOrder, AtomIn;
    var r := Recompute(ranked);
    SelectionMeans(ranked);
    forall a
      ensures a in r.atoms <==> AtomIn(ranked, a) && a.id in r.selected
      ensures a in r.p0 <==> AtomIn(ranked, a) && a.compression == "P0_EXACT"
    {
      AtomsMean(ranked, a);
    }
    forall a | AtomIn(ranked, a) && a.compression == "P0_EXACT" ensures a.id in r.selected {
      CalledFor(ranked, a);
      HoldsCalled(ranked, r.selected, a.id);
    }
    var xs := ContentMeans(r.atoms);
    ListedOnce(r.atoms, xs);
    assert Lists(xs, ranked, view.selected);
  }

  lemma CalledFor(ranked: seq<Capsule>, a: Atom)
    requires AtomIn(ranked, a) && (a.compression == "P0_EXACT" || a.relevance > 0)
    ensures Called(ranked, a.id)
  {
  }

  lemma HoldsCalled(ranked: seq<Capsule>, ids: set<string>, id: string)
    requires Holds(ranked, ids) && Called(ranked, id)
    ensures id in ids
  {
  }

  lemma ListedOnce(atoms: set<Atom>, xs: seq<Atom>)
    requires multiset(xs) == multiset(atoms)
    ensures forall a :: a in xs <==> a in atoms
    ensures forall i, j | 0 <= i < j < |xs| :: xs[i] != xs[j]
  {
    assert forall a :: a in xs <==> a in multiset(xs);
    forall i, j | 0 <= i < j < |xs| ensures xs[i] != xs[j] {
      if xs[i] == xs[j] {
        Twice(xs, i, j);
      }
    }
  }

  lemma Twice(xs: seq<Atom>, i: nat, j: nat)
    requires i < j < |xs| && xs[i] == xs[j]
    ensures multiset(xs)[xs[j]] >= 2
  {
    assert xs == xs[..j] + [xs[j]] + xs[j + 1..];
    assert xs[..j][i] == xs[j];
    assert multiset(xs) == multiset(xs[..j]) + multiset{xs[j]} + multiset(xs[j + 1..]);
    assert xs[j] in multiset(xs[..j]);
  }

  /**
   A compiled view names the task, principal, adapter and budget it is for, and shows what the
   usable capsules call for.
   */
  lemma CompiledMeans(supplied: seq<Capsule>, task: Task, principal: string, budget: int, adapter: string)
    ensures var view := CompileView(supplied, task, principal, budget, adapter);
            var ranked := RankedOf(supplied, task, principal);
            && view.task == task && view.principal == principal && view.adapter == adapter && view.budget == budget
            && |view.ranked| == |ranked|
            && (forall i | 0 <= i < |ranked| :: view.ranked[i] == ranked[i].capsuleId + "@" + ranked[i].version)
            && Shows(view, ranked)
            && (view.closed <==> view.missing == {})
            && (view.preserved <==> forall c | c in ranked :: c.p0Exact)
  {
    hide Recompute, RankedOf, Content, UniqueIds, AtomsOf, Shows, BlockersOf, Clash, Recomputed.Exact,
      Recomputed.Handles, Preserved, Fingerprints;
    var view := CompileView(supplied, task, principal, budget, adapter);
    var ranked := RankedOf(supplied, task, principal);
    RankedUnique(supplied, task, principal);
    RecomputedShown(view, ranked);
    ClosedUnlessMissing(ranked);
    PreservedIffExact(ranked);
  }

  /**
   Acceptance of any view whatever, said of the capsules: its ranking names different supplied
   capsules, more relevant ones first; the view shows exactly what they call for; everything a
   selected atom requires is a selected atom of one of them, no two selected atoms are declared
   in conflict, all policies are exact, and the atoms to be kept exactly, and all selected ones,
   cost no more than the budget.
   */
  lemma AcceptedMeans(view: View, supplied: seq<Capsule>, principal: string) returns (ranked: seq<Capsule>)
    requires ValidateView(view, supplied, principal) == {}
    ensures |ranked| == |view.ranked| && forall c | c in ranked :: c in supplied && c.p0Exact
    ensures forall i | 0 <= i < |ranked| :: view.ranked[i] == ranked[i].capsuleId + "@" + ranked[i].version
    ensures forall i, j | 0 <= i < j < |ranked| :: view.ranked[i] != view.ranked[j]
    ensures forall i | 0 < i < |ranked| ::
              || Relevance(ranked[i - 1]) > Relevance(ranked[i])
              || (Relevance(ranked[i - 1]) == Relevance(ranked[i])
                  && StringLe(ranked[i - 1].Reference(), ranked[i].Reference()))
    ensures Shows(view, ranked)
    ensures forall c, x, y | c in ranked && (x, y) in c.requirements && x in view.selected ::
              y in view.selected && IsAtom(ranked, y)
    ensures forall c, x, y | c in ranked && (x, y) in c.conflicts && x in view.selected :: y !in view.selected
    ensures exists atoms: set<Atom> ::
              (forall a :: a in atoms <==> Shown(ranked, view.selected, a)) && Cost(atoms) <= view.budget
    ensures exists atoms: set<Atom> ::
              && (forall a :: a in atoms <==> AtomIn(ranked, a) && a.compression == "P0_EXACT")
              && Cost(atoms) <= view.budget
    ensures view.missing == {} && view.conflicts == {} && view.closed && view.preserved
  {
    hide ValidateView, Recompute, Content, UniqueIds, AtomsOf, Shows, Clash, Recomputed.Exact, Recomputed.Handles,
      Preserved, Cost, AtomIn, RankOrder, StringLe, Relevance, Holds, CapsuleBlockers, IsAtom, Sort, Resolve;
    ranked := ResolvedRanking(view, supplied);
    EmptyReport(view, supplied, principal);
    RankingSupplied(view, supplied);
    AcceptedUnique(view, supplied, principal, ranked);
    RecomputedShown(view, ranked);
    SelectionMeans(ranked);
    AcceptedOrder(view, supplied, principal);
    AcceptedClosed(ranked, view.selected);
    ClosedUnlessMissing(ranked);
    WithinBudget(ranked, view.budget);
  }

  lemma AcceptedUnique(view: View, supplied: seq<Capsule>, principal: string, ranked: seq<Capsule>)
    requires ValidateView(view, supplied, principal) == {} && ranked == ResolvedRanking(view, supplied)
    requires forall c | c in ranked :: c in supplied
    ensures UniqueIds(AtomsOf(ranked)) && PoliciesExact(ranked) && Preserved(ranked)
  {
    hide Recompute, Content, MetadataConsistent, WellFormedness, ResolvedRanking, Recomputed.Exact, Recomputed.P0Ids,
      Recomputed.P0Cost, Recomputed.SelectedCost, Recomputed.Handles;
    assert MalformedCapsule !in ValidateView(view, supplied, principal);
    assert !Clash(supplied);
    assert P0NotExact !in ValidateView(view, supplied, principal);
  }

  lemma AcceptedOrder(view: View, supplied: seq<Capsule>, principal: string)
    requires MetadataConsistent(view, supplied)
    ensures var ranked := ResolvedRanking(view, supplied);
            && |ranked| == |view.ranked|
            && (forall i | 0 <= i < |ranked| :: view.ranked[i] == ranked[i].capsuleId + "@" + ranked[i].version)
            && (forall i, j | 0 <= i < j < |ranked| :: view.ranked[i] != view.ranked[j])
            && forall i | 0 < i < |ranked| ::
                 || Relevance(ranked[i - 1]) > Relevance(ranked[i])
                 || (Relevance(ranked[i - 1]) == Relevance(ranked[i])
                     && StringLe(ranked[i - 1].Reference(), ranked[i].Reference()))
  {
    hide Recompute, Content, Recomputed.Exact, Recomputed.Handles, Preserved, StringLe, Relevance, Resolve, Sort,
      ByReference;
    var ranked := ResolvedRanking(view, supplied);
    RankOrderTotal();
    SortSorted(Resolve(view.ranked, supplied), RankOrder());
    assert forall i | 0 < i < |ranked| :: RankOrder()(ranked[i - 1], ranked[i]);
  }

  lemma AcceptedClosed(ranked: seq<Capsule>, selected: set<string>)
    requires Recompute(ranked).missing == {} && Recompute(ranked).conflicts == {}
    requires selected == Recompute(ranked).selected
    ensures forall c, x, y | c in ranked && (x, y) in c.requirements && x in selected ::
              y in selected && IsAtom(ranked, y)
    ensures forall c, x, y | c in ranked && (x, y) in c.conflicts && x in selected :: y !in selected
  {
    hide Recompute, IsAtom, Called;
    SelectionMeans(ranked);
    forall c, x, y | c in ranked && (x, y) in c.requirements && x in selected
      ensures y in selected && IsAtom(ranked, y)
    {
      assert y !in Recompute(ranked).missing;
    }
    forall c, x, y | c in ranked && (x, y) in c.conflicts && x in selected ensures y !in selected {
      assert (x, y) !in Recompute(ranked).conflicts;
    }
  }

  lemma WithinBudget(ranked: seq<Capsule>, budget: int)
    requires UniqueIds(AtomsOf(ranked))
    requires Recompute(ranked).SelectedCost() <= budget && Recompute(ranked).P0Cost() <= budget
    ensures exists atoms: set<Atom> ::
              (forall a :: a in atoms <==> Shown(ranked, Recompute(ranked).selected, a)) && Cost(atoms) <= budget
    ensures exists atoms: set<Atom> ::
              && (forall a :: a in atoms <==> AtomIn(ranked, a) && a.compression == "P0_EXACT")
              && Cost(atoms) <= budget
  {
    hide Recompute, Cost, AtomIn, UniqueIds, AtomsOf;
    var r := Recompute(ranked);
    forall a: Atom
      ensures a in r.atoms <==> Shown(ranked, r.selected, a)
      ensures a in r.p0 <==> AtomIn(ranked, a) && a.compression == "P0_EXACT"
    {
      AtomsMean(ranked, a);
    }
    assert Cost(r.atoms) <= budget && Cost(r.p0) <= budget;
  }
}

/**
 The compiler of the reference semantics as it goes through its steps, proved to produce exactly
 the view that the declarative account, which the validator recomputes, prescribes.
 */
module ReferenceCompiler {
  import opened Closure
  import opened ReferenceSemantics
  import opened ReferenceTheorems

  // ----------------------------------------------------------------- sums and listings

  /** A sum may be taken in any order. */
  lemma {:induction false} SumPick(atoms: set<Atom>, f: Atom -> int, a: Atom)
    requires a in atoms
    ensures Sum(atoms, f) == f(a) + Sum(atoms - {a}, f)
    decreases |atoms|
  {
    var b :| b in atoms && Sum(atoms, f) == f(b) + Sum(atoms - {b}, f);
    if a == b {
    } else {
      SumPick(atoms - {b}, f, a);
      SumPick(atoms - {a}, f, b);
      assert atoms - {b} - {a} == atoms - {a} - {b};
    }
  }

  method AddUp(atoms: set<Atom>, f: Atom -> int) returns (n: int)
    ensures n == Sum(atoms, f)
  {
    n := 0;
    var rest := atoms;
    while rest != {}
      invariant n + Sum(rest, f) == Sum(atoms, f)
    {
      var a :| a in rest;
      SumPick(rest, f, a);
      n, rest := n + f(a), rest - {a};
    }
  }

  method Listing<T(==)>(s: set<T>) returns (xs: seq<T>)
    ensures multiset(xs) == multiset(s)
    ensures s == set x | x in xs
  {
    xs := [];
    var rest := s;
    while rest != {}
      invariant rest <= s && multiset(xs) + multiset(rest) == multiset(s)
    {
      var x :| x in rest;
      assert multiset(rest) == multiset(rest - {x}) + multiset{x};
      xs, rest := xs + [x], rest - {x};
    }
    assert multiset(xs) == multiset(s);
    forall x | x in s ensures x in xs {
      assert x in multiset(s);
    }
    forall x | x in xs ensures x in s {
      assert x in multiset(xs);
      assert x in multiset(s);
    }
  }

  lemma {:induction false} EnumeratedMembers(atoms: set<Atom>)
    ensures multiset(Enumerated(atoms)) == multiset(atoms)
  {
    if atoms == {} {
    } else {
      var a :| a in atoms && Enumerated(atoms) == [a] + Enumerated(atoms - {a});
      EnumeratedMembers(atoms - {a});
      assert multiset(atoms) == multiset(atoms - {a}) + multiset{a};
    }
  }

  // ----------------------------------------------------------------- one order of lines

  lemma {:induction false} StringLeTransitive(a: string, b: string, c: string)
    requires StringLe(a, b) && StringLe(b, c)
    ensures StringLe(a, c)
  {
    if a == "" {
    } else if a[0] == b[0] == c[0] {
      StringLeTransitive(a[1..], b[1..], c[1..]);
    }
  }

  lemma {:induction false} StringLeAntisymmetric(a: string, b: string)
    requires StringLe(a, b) && StringLe(b, a)
    ensures a == b
  {
    if a == "" {
    } else {
      StringLeAntisymmetric(a[1..], b[1..]);
      assert a == [a[0]] + a[1..] && b == [b[0]] + b[1..];
    }
  }

  ghost predicate UniqueIds(atoms: set<Atom>) {
    forall a, b | a in atoms && b in atoms && a.id == b.id :: a == b
  }

  lemma AtomLeOrder()
    ensures Total(AtomLe)
    ensures forall a, b, c | AtomLe(a, b) && AtomLe(b, c) :: AtomLe(a, c)
    ensures forall a, b | AtomLe(a, b) && AtomLe(b, a) :: a.id == b.id
  {
    hide StringLe;
    forall a, b ensures AtomLe(a, b) || AtomLe(b, a) {
      StringLeTotal(a.id, b.id);
    }
    forall a, b, c | AtomLe(a, b) && AtomLe(b, c) ensures AtomLe(a, c) {
      if StringLe(a.id, b.id) && StringLe(b.id, c.id) {
        StringLeTransitive(a.id, b.id, c.id);
      }
    }
    forall a, b | AtomLe(a, b) && AtomLe(b, a) ensures a.id == b.id {
      StringLeAntisymmetric(a.id, b.id);
    }
  }

  lemma {:induction false} FirstIsLeast(xs: seq<Atom>, i: nat)
    requires Sorted(xs, AtomLe) && i < |xs|
    requires forall a, b, c | AtomLe(a, b) && AtomLe(b, c) :: AtomLe(a, c)
    requires Total(AtomLe)
    ensures AtomLe(xs[0], xs[i])
    decreases i
  {
    hide AtomLe;
    if i == 0 {
      assert AtomLe(xs[0], xs[0]);
    } else {
      FirstIsLeast(xs, i - 1);
      assert AtomLe(xs[i - 1], xs[i]);
    }
  }

  predicate ToldApart(xs: seq<Atom>) {
    forall a, b | a in xs && b in xs && a.id == b.id :: a == b
  }

  /** Both orders of the same atoms start with the least of them. */
  lemma SameFirst(xs: seq<Atom>, ys: seq<Atom>)
    requires xs != [] && ys != [] && Sorted(xs, AtomLe) && Sorted(ys, AtomLe) && multiset(xs) == multiset(ys)
    requires ToldApart(xs)
    ensures xs[0] == ys[0]
  {
    hide AtomLe, Sorted;
    var x, y := xs[0], ys[0];
    assert x in multiset(ys) && y in multiset(xs);
    var i :| 0 <= i < |ys| && ys[i] == x;
    var j :| 0 <= j < |xs| && xs[j] == y;
    AtomLeOrder();
    FirstIsLeast(ys, i);
    FirstIsLeast(xs, j);
    assert x.id == y.id;
  }

  /** Atoms with different ids have only one sorted order. */
  lemma {:induction false} SortedOnce(xs: seq<Atom>, ys: seq<Atom>)
    requires Sorted(xs, AtomLe) && Sorted(ys, AtomLe) && multiset(xs) == multiset(ys) && ToldApart(xs)
    ensures xs == ys
    decreases |xs|
  {
    hide AtomLe, Sorted, ToldApart;
    assert |xs| == |multiset(xs)| && |ys| == |multiset(ys)|;
    if xs == [] {
    } else {
      SameFirst(xs, ys);
      TailsAgree(xs, ys);
      SortedTail(xs);
      SortedTail(ys);
      SortedOnce(xs[1..], ys[1..]);
    }
  }

  lemma TailsAgree(xs: seq<Atom>, ys: seq<Atom>)
    requires xs != [] && ys != [] && xs[0] == ys[0] && multiset(xs) == multiset(ys)
    ensures multiset(xs[1..]) == multiset(ys[1..])
    ensures xs[1..] == ys[1..] ==> xs == ys
    ensures ToldApart(xs) ==> ToldApart(xs[1..])
  {
    assert xs == [xs[0]] + xs[1..] && ys == [ys[0]] + ys[1..];
    assert multiset(xs[1..]) == multiset(xs) - multiset{xs[0]};
    assert multiset(ys[1..]) == multiset(ys) - multiset{ys[0]};
  }

  lemma SortedTail(xs: seq<Atom>)
    requires xs != [] && Sorted(xs, AtomLe)
    ensures Sorted(xs[1..], AtomLe)
  {
    hide AtomLe;
    assert forall i | 0 < i < |xs[1..]| :: xs[1..][i - 1] == xs[i] && xs[1..][i] == xs[i + 1];
  }

  /** However the atoms are listed, sorting them gives the same lines. */
  lemma ContentOf(atoms: set<Atom>, xs: seq<Atom>)
    requires UniqueIds(atoms) && multiset(xs) == multiset(atoms)
    ensures Lines(Sort(xs, AtomLe)) == Content(atoms)
    ensures forall a :: a in Sort(xs, AtomLe) <==> a in atoms
  {
    hide AtomLe, Sort, Sorted, Enumerated, Lines;
    EnumeratedMembers(atoms);
    AtomLeOrder();
    SortSorted(xs, AtomLe);
    SortSorted(Enumerated(atoms), AtomLe);
    var sorted := Sort(xs, AtomLe);
    assert forall a :: a in sorted <==> a in multiset(sorted);
    assert ToldApart(sorted);
    SortedOnce(sorted, Sort(Enumerated(atoms), AtomLe));
  }

  // ----------------------------------------------------------------------- the ranking

  method RanksFirst(c: Capsule, d: Capsule) returns (b: bool)
    ensures b == RanksBefore(c, d)
  {
    var left := AddUp(c.atoms, RelevanceOf);
    var right := AddUp(d.atoms, RelevanceOf);
    return left > right || (left == right && StringLe(c.Reference(), d.Reference()));
  }

  method InsertRanked(c: Capsule, ranked: seq<Capsule>) returns (r: seq<Capsule>)
    ensures r == Insert(c, ranked, RankOrder())
    decreases |ranked|
  {
    hide RanksBefore;
    if ranked == [] {
      return [c];
    }
    var first := RanksFirst(c, ranked[0]);
    if first {
      return [c] + ranked;
    }
    var rest := InsertRanked(c, ranked[1..]);
    return [ranked[0]] + rest;
  }

  method SortRanked(capsules: seq<Capsule>) returns (r: seq<Capsule>)
    ensures r == Sort(capsules, RankOrder())
    decreases |capsules|
  {
    hide RankOrder, Insert;
    if capsules == [] {
      return [];
    }
    var rest := SortRanked(capsules[1..]);
    r := InsertRanked(capsules[0], rest);
  }

  // ------------------------------------------------------------------------- the index

  method IndexAtoms(ranked: seq<Capsule>) returns (index: map<string, Atom>)
    ensures index.Keys == set a | a in AtomsOf(ranked) :: a.id
    ensures forall id | id in index :: index[id] in AtomsOf(ranked) && index[id].id == id
  {
    index := map[];
    for i := 0 to |ranked|
      invariant index.Keys == set a | a in AtomsOf(ranked[..i]) :: a.id
      invariant forall id | id in index :: index[id] in AtomsOf(ranked[..i]) && index[id].id == id
    {
      AtomsStep(ranked, i);
      var rest := ranked[i].atoms;
      while rest != {}
        invariant rest <= ranked[i].atoms
        invariant index.Keys == set a | a in AtomsOf(ranked[..i]) + (ranked[i].atoms - rest) :: a.id
        invariant forall id | id in index ::
                  index[id] in AtomsOf(ranked[..i]) + ranked[i].atoms && index[id].id == id
      {
        var a :| a in rest;
        index, rest := index[a.id := a], rest - {a};
      }
    }
    assert ranked[..|ranked|] == ranked;
  }

  lemma AtomsStep(ranked: seq<Capsule>, i: nat)
    requires i < |ranked|
    ensures AtomsOf(ranked[..i + 1]) == AtomsOf(ranked[..i]) + ranked[i].atoms
  {
    assert ranked[..i + 1] == ranked[..i] + [ranked[i]];
  }

  /** Capsules that do not contradict each other have only one index. */
  lemma IndexIs(ranked: seq<Capsule>, index: map<string, Atom>)
    requires UniqueIds(AtomsOf(ranked))
    requires index.Keys == set a | a in AtomsOf(ranked) :: a.id
    requires forall id | id in index :: index[id] in AtomsOf(ranked) && index[id].id == id
    ensures index == Index(ranked)
  {
    hide AtomsOf;
    IndexKeys(ranked);
    forall id | id in index ensures index[id] == Index(ranked)[id] {
      IndexSound(ranked, id);
    }
  }

  lemma RankedUnique(supplied: seq<Capsule>, task: Task, principal: string)
    ensures UniqueIds(AtomsOf(RankedOf(supplied, task, principal)))
  {
    hide RankedOf, Eligible, RankOrder, Capsule.Reference;
    RankedMembers(supplied, task, principal);
  }

  lemma IndexedUnique(ranked: seq<Capsule>, selected: set<string>)
    ensures UniqueIds(set id | id in selected && id in Index(ranked) :: Index(ranked)[id])
  {
    hide Index;
    forall id | id in Index(ranked) ensures Index(ranked)[id].id == id {
      IndexSound(ranked, id);
    }
  }

  // ----------------------------------------------------------------------- the compiler

  /** Closes the seeds of the ranked capsules by repeated passes and collects what that selects. */
  method SelectAtoms(ranked: seq<Capsule>) returns (r: Recomputed)
    requires UniqueIds(AtomsOf(ranked))
    ensures r == Recompute(ranked)
  {
    hide Index, AtomsOf, UniqueIds, Close, Seeds, RequirementsOf, ConflictsOf;
    var index := IndexAtoms(ranked);
    IndexIs(ranked, index);
    var requirements := RequirementsOf(ranked);
    var pairs := Listing(requirements);
    var selected, missing := RoundRobinClosure(Seeds(ranked), index.Keys, pairs);
    var conflicts := set e | e in ConflictsOf(ranked) && e.0 in selected && e.1 in selected;
    var atoms := set id | id in selected && id in index :: index[id];
    var p0 := set id | id in index && index[id].P0() :: index[id];
    var closed := missing == {} && forall p | p in requirements :: p.0 in selected ==> p.1 in selected;
    return Recomputed(selected, missing, atoms, p0, conflicts, closed);
  }

  lemma SelectedUnique(ranked: seq<Capsule>)
    ensures UniqueIds(Recompute(ranked).atoms)
  {
    hide Index, Close, UniqueIds;
    IndexedUnique(ranked, Recompute(ranked).selected);
  }

  /** Joins the statements of the atoms, P0 first and then by relevance. */
  method Render(atoms: set<Atom>) returns (content: string)
    requires UniqueIds(atoms)
    ensures content == Content(atoms)
  {
    hide Content, UniqueIds;
    var listed := Listing(atoms);
    ContentOf(atoms, listed);
    return Lines(Sort(listed, AtomLe));
  }

  /** What the selection of the ranked capsules adds to the blockers. */
  method SelectionBlockers(ranked: seq<Capsule>, r: Recomputed, budget: int) returns (blockers: set<Blocker>)
    ensures blockers == When(r.missing != {}, MissingMandatoryDependency)
                        + When(r.conflicts != {}, UnresolvedConflict)
                        + When(!PoliciesExact(ranked) && r.p0 != {}, P0NotExact)
                        + When(r.P0Cost() > budget, P0BudgetOverflow)
                        + When(r.SelectedCost() > budget && r.P0Cost() <= budget, MandatoryClosureBudgetOverflow)
  {
    hide Sum, PoliciesExact;
    blockers := {};
    if r.missing != {} {
      blockers := blockers + {MissingMandatoryDependency};
    }
    if r.conflicts != {} {
      blockers := blockers + {UnresolvedConflict};
    }
    if !PoliciesExact(ranked) && r.p0 != {} {
      blockers := blockers + {P0NotExact};
    }
    var p0Cost := AddUp(r.p0, CostOf);
    if p0Cost > budget {
      blockers := blockers + {P0BudgetOverflow};
    }
    var selectedCost := AddUp(r.atoms, CostOf);
    if selectedCost > budget && p0Cost <= budget {
      blockers := blockers + {MandatoryClosureBudgetOverflow};
    }
  }

  /** Checks the capsules and ranks the eligible ones by relevance. */
  method RankCapsules(supplied: seq<Capsule>, task: Task, principal: string)
    returns (blockers: set<Blocker>, ranked: seq<Capsule>, phases: seq<Phase>)
    ensures blockers == When(Clash(supplied), MalformedCapsule) + BlockersOf(supplied, task, principal)
    ensures ranked == RankedOf(supplied, task, principal) && phases == Phases(ranked)
  {
    hide Sort, RankOrder, Clash, EligibleOf, BlockersOf, When;
    var eligible;
    blockers, eligible := CheckCapsules(supplied, task, principal);
    phases, ranked := [Eligibility], [];
    NothingRanked(eligible);
    if eligible != [] {
      phases := phases + [Ranking];
      ranked := SortRanked(eligible);
    }
  }

  /** The compiler: its view is the one the declarative account prescribes. */
  method Compile(supplied: seq<Capsule>, task: Task, principal: string, budget: int, adapter: string)
    returns (view: View)
    ensures view == CompileView(supplied, task, principal, budget, adapter)
  {
    hide Recompute, RankedOf, Clash, BlockersOf, Content, UniqueIds, AtomsOf, When, PoliciesExact, References,
      Fingerprints,
      Phases, Recomputed.P0Cost, Recomputed.SelectedCost, Recomputed.Exact, Recomputed.P0Ids, Recomputed.Handles;
    var blockers, ranked, phases := RankCapsules(supplied, task, principal);
    RankedUnique(supplied, task, principal);
    var r := SelectAtoms(ranked);
    var more := SelectionBlockers(ranked, r, budget);
    SelectedUnique(ranked);
    var content := Render(r.atoms);
    var preserved := r.P0Ids() <= r.Exact() && PoliciesExact(ranked);
    view := View(References(supplied), Fingerprints(supplied), task, principal, adapter, budget,
                 content, r.selected, r.Exact(), r.Handles(), References(supplied), References(ranked), phases,
                 r.missing, r.conflicts, r.closed, preserved, blockers + more);
    ghost var spec := CompileView(supplied, task, principal, budget, adapter);
    assert view.blockers == spec.blockers;
  }

  lemma NothingRanked(eligible: seq<Capsule>)
    ensures eligible == [] <==> Sort(eligible, RankOrder()) == []
  {
    RankOrderTotal();
    SortSorted(eligible, RankOrder());
    assert |multiset(Sort(eligible, RankOrder()))| == |multiset(eligible)|;
  }
}

/**
 Budgeted selection of atoms: one compilation session that grows a closed, conflict-free
 selection from the mandatory atoms through the ranked ones.

 Rendering is a parameter: it maps a selection to its text and token total, or fails.  No
 property of it is assumed, except monotone cost where a theorem says so.
 */
module Selection {
  import opened Common
  import opened Closure
  import opened CapsuleGraph

  datatype Ranked = Ranked(id: string, matched: bool)

  function Ids(ranked: seq<Ranked>): set<string> {
    set item | item in ranked :: item.id
  }

  predicate DistinctIds(ranked: seq<Ranked>) {
    forall i, j | 0 <= i < j < |ranked| :: ranked[i].id != ranked[j].id
  }

  /** The ranking names every atom exactly once. */
  predicate Ranks(ranked: seq<Ranked>, atoms: set<string>) {
    Ids(ranked) == atoms && DistinctIds(ranked)
  }

  datatype Score = Finite(value: real) | NotFinite

  /** What a ranker returns for an atom. */
  datatype RankedAtom = RankedAtom(atom: Atom, matched: bool, score: Score)

  function Stripped(results: seq<RankedAtom>): seq<Ranked> {
    seq(|results|, i requires 0 <= i < |results| => Ranked(results[i].atom.id, results[i].matched))
  }

  /** The result is about an atom of the graph, unchanged, and has a finite score. */
  predicate ResultOk(graph: ResolvedGraph, result: RankedAtom) {
    result.atom.id in graph.atoms && graph.atoms[result.atom.id] == result.atom && result.score.Finite?
  }

  predicate RankingOk(graph: ResolvedGraph, results: seq<RankedAtom>) {
    && Ranks(Stripped(results), graph.atoms.Keys)
    && forall i | 0 <= i < |results| :: ResultOk(graph, results[i])
  }

  datatype Reason =
    NotRelevant | P0Required | TaskRequired | DependencyRequired | Relevant | BudgetExcluded | CompilationBlocked
  {
    predicate Selects() {
      P0Required? || TaskRequired? || DependencyRequired? || Relevant?
    }
  }

  datatype Rendering = Rendering(content: string, total: nat)

  type Renderer = (set<string>, bool) -> Result<Rendering, CompileError>

  /** The inputs of one selection. */
  datatype Job =
    Job(graph: ResolvedGraph, ranked: seq<Ranked>, required: set<string>, render: Renderer, available: nat,
        expand: bool)
  {
    function P0(): set<string> {
      set id | id in graph.atoms && graph.atoms[id].class_.P0Exact?
    }

    function MatchedP1(): set<string> {
      set item | item in ranked && item.matched && item.id in graph.atoms
        && graph.atoms[item.id].class_.P1Structured? :: item.id
    }

    function Mandatory(): set<string> {
      P0() + MatchedP1() + required + graph.roots
    }

    function Matched(): set<string> {
      set item | item in ranked && item.matched :: item.id
    }

    /** A selection whose plain rendering succeeds within the budget. */
    predicate Fits(selected: set<string>) {
      render(selected, false).Ok? && render(selected, false).value.total <= available
    }
  }

  datatype State =
    State(selected: set<string>, reasons: map<string, Reason>, content: string, total: nat, conflicts: set<set<string>>)

  // ------------------------------------------------------------ order of the greedy pass

  function OfClass(g: ResolvedGraph, ranked: seq<Ranked>, c: Class): seq<Ranked> {
    if ranked == [] then []
    else
      (if ranked[0].id in g.atoms && g.atoms[ranked[0].id].class_ == c then [ranked[0]] else [])
      + OfClass(g, ranked[1..], c)
  }

  /** Ranked atoms by class, keeping the ranker's order within a class. */
  function ByClass(g: ResolvedGraph, ranked: seq<Ranked>): seq<Ranked> {
    OfClass(g, ranked, P0Exact) + OfClass(g, ranked, P1Structured) + OfClass(g, ranked, P2Excerpt)
    + OfClass(g, ranked, P3Summary) + OfClass(g, ranked, P4Transient)
  }

  lemma {:induction false} OfClassMembers(g: ResolvedGraph, ranked: seq<Ranked>, c: Class)
    ensures forall item :: item in OfClass(g, ranked, c) <==>
              item in ranked && item.id in g.atoms && g.atoms[item.id].class_ == c
  {
    if ranked == [] {
    } else {
      OfClassMembers(g, ranked[1..], c);
      assert forall item :: item in ranked <==> item == ranked[0] || item in ranked[1..];
    }
  }

  lemma ByClassMembers(g: ResolvedGraph, ranked: seq<Ranked>)
    requires forall item | item in ranked :: item.id in g.atoms
    ensures forall item :: item in ByClass(g, ranked) <==> item in ranked
  {
    OfClassMembers(g, ranked, P0Exact);
    OfClassMembers(g, ranked, P1Structured);
    OfClassMembers(g, ranked, P2Excerpt);
    OfClassMembers(g, ranked, P3Summary);
    OfClassMembers(g, ranked, P4Transient);
  }

  lemma {:induction false} OfClassAppend(g: ResolvedGraph, a: seq<Ranked>, b: seq<Ranked>, c: Class)
    ensures OfClass(g, a + b, c) == OfClass(g, a, c) + OfClass(g, b, c)
  {
    if a == [] {
      assert a + b == b;
    } else {
      assert (a + b)[1..] == a[1..] + b;
      OfClassAppend(g, a[1..], b, c);
    }
  }

  lemma {:induction false} OfClassTwice(g: ResolvedGraph, ranked: seq<Ranked>, c: Class, d: Class)
    ensures OfClass(g, OfClass(g, ranked, d), c) == if c == d then OfClass(g, ranked, c) else []
  {
    if ranked == [] {
    } else {
      OfClassTwice(g, ranked[1..], c, d);
      if ranked[0].id in g.atoms && g.atoms[ranked[0].id].class_ == d {
        assert OfClass(g, ranked, d)[1..] == OfClass(g, ranked[1..], d);
      } else {
        assert OfClass(g, ranked, d) == OfClass(g, ranked[1..], d);
      }
    }
  }

  /** The sort is stable: within every class the ranker's order is untouched. */
  lemma ByClassStable(g: ResolvedGraph, ranked: seq<Ranked>, c: Class)
    ensures OfClass(g, ByClass(g, ranked), c) == OfClass(g, ranked, c)
  {
    hide OfClass;
    var p0, p1, p2, p3, p4 := OfClass(g, ranked, P0Exact), OfClass(g, ranked, P1Structured),
        OfClass(g, ranked, P2Excerpt),
                              OfClass(g, ranked, P3Summary), OfClass(g, ranked, P4Transient);
    OfClassAppend(g, p0 + p1 + p2 + p3, p4, c);
    OfClassAppend(g, p0 + p1 + p2, p3, c);
    OfClassAppend(g, p0 + p1, p2, c);
    OfClassAppend(g, p0, p1, c);
    OfClassTwice(g, ranked, c, P0Exact);
    OfClassTwice(g, ranked, c, P1Structured);
    OfClassTwice(g, ranked, c, P2Excerpt);
    OfClassTwice(g, ranked, c, P3Summary);
    OfClassTwice(g, ranked, c, P4Transient);
  }

  function Priority(c: Class): nat {
    match c
    case P0Exact => 0
    case P1Structured => 1
    case P2Excerpt => 2
    case P3Summary => 3
    case P4Transient => 4
  }

  /** No atom is considered before an atom of a more important class. */
  lemma ByClassSorted(g: ResolvedGraph, ranked: seq<Ranked>, i: nat, j: nat)
    requires i < j < |ByClass(g, ranked)|
    ensures var order := ByClass(g, ranked);
            && order[i].id in g.atoms && order[j].id in g.atoms
            && Priority(g.atoms[order[i].id].class_) <= Priority(g.atoms[order[j].id].class_)
  {
    OfClassMembers(g, ranked, P0Exact);
    OfClassMembers(g, ranked, P1Structured);
    OfClassMembers(g, ranked, P2Excerpt);
    OfClassMembers(g, ranked, P3Summary);
    OfClassMembers(g, ranked, P4Transient);
    hide OfClass;
    var order := ByClass(g, ranked);
    var parts := [OfClass(g, ranked, P0Exact), OfClass(g, ranked, P1Structured), OfClass(g, ranked, P2Excerpt),
                  OfClass(g, ranked, P3Summary), OfClass(g, ranked, P4Transient)];
    assert order == parts[0] + parts[1] + parts[2] + parts[3] + parts[4];
    InSomePart(parts, order, i);
    InSomePart(parts, order, j);
  }

  lemma InSomePart(parts: seq<seq<Ranked>>, order: seq<Ranked>, i: nat)
    requires |parts| == 5 && order == parts[0] + parts[1] + parts[2] + parts[3] + parts[4] && i < |order|
    ensures var a := |parts[0]|; var b := a + |parts[1]|; var c := b + |parts[2]|; var d := c + |parts[3]|;
            if i < a then order[i] in parts[0] else if i < b then order[i] in parts[1]
            else if i < c then order[i] in parts[2] else if i < d then order[i] in parts[3] else order[i] in parts[4]
  {
  }

  // --------------------------------------------------------------------- guarantees

  /** The selection is closed and conflict-free, and its text and total are its own rendering within the budget. */
  ghost predicate Sound(job: Job, st: State, expanded: bool) {
    && ClosedSelection(job.graph, st.selected)
    && job.graph.ConflictsFor(st.selected) == Ok({})
    && st.conflicts == {}
    && job.render(st.selected, expanded) == Ok(Rendering(st.content, st.total))
    && st.total <= job.available
  }

  /** Every atom is labelled, and the label says whether it is selected. */
  ghost predicate Labelled(job: Job, selected: set<string>, reasons: map<string, Reason>) {
    && reasons.Keys == job.graph.atoms.Keys
    && (forall id | id in reasons :: !reasons[id].CompilationBlocked? && (id in selected <==> reasons[id].Selects()))
  }

  function RelevantIds(reasons: map<string, Reason>): set<string> {
    set id | id in reasons && reasons[id].Relevant?
  }

  /** Adding the atom to some earlier part of the selection was over budget. */
  ghost predicate Refused(job: Job, selected: set<string>, id: string) {
    exists base :: base <= selected && job.graph.CloseAtoms(base + {id}).Ok?
                && !job.Fits(job.graph.CloseAtoms(base + {id}).value)
                && job.render(job.graph.CloseAtoms(base + {id}).value, false).Ok?
  }

  /** What a completed selection guarantees. */
  ghost predicate Selected(job: Job, st: State) {
    && Sound(job, st, job.expand)
    && Labelled(job, st.selected, st.reasons)
    && job.Mandatory() <= st.selected
    && job.graph.CloseAtoms(job.Mandatory() + RelevantIds(st.reasons)) == Ok(st.selected)
    && RelevantIds(st.reasons) <= job.Matched()
    && (forall id | id in job.graph.atoms && id !in st.selected ::
          if id in job.Matched() then st.reasons[id].BudgetExcluded? && Refused(job, st.selected, id)
          else st.reasons[id].NotRelevant?)
  }

  /** The label of an atom the task makes mandatory says by which of the two mandatory steps it came in. */
  ghost predicate MandatoryLabels(job: Job, reasons: map<string, Reason>)
    requires job.graph.CloseAtoms(job.P0()).Ok? && job.graph.CloseAtoms(job.Mandatory()).Ok?
  {
    forall id | id in job.graph.CloseAtoms(job.Mandatory()).value && id in reasons ::
      reasons[id] == if id in job.P0() then P0Required
                     else if id in job.graph.CloseAtoms(job.P0()).value then DependencyRequired
                     else if id in job.MatchedP1() + job.required + job.graph.roots then TaskRequired
                     else DependencyRequired
  }

  /** The pass selected the atom at this place when its own turn came. */
  predicate OwnTurn(job: Job, start: set<string>, order: seq<Ranked>, i: nat)
    requires i < |order|
  {
    order[i].id !in Greedy(job, start, order[..i]) && order[i].id in Greedy(job, start, order[..i + 1])
  }

  /** Of the atoms added by the first n turns, exactly those selected on their own turn are labelled relevant. */
  ghost predicate TurnLabels(job: Job, start: set<string>, order: seq<Ranked>, n: nat, reasons: map<string, Reason>)
    requires n <= |order|
  {
    forall id | id in Greedy(job, start, order[..n]) && id !in start && id in reasons ::
      reasons[id] == if exists i :: 0 <= i < n && order[i].id == id && OwnTurn(job, start, order, i) then Relevant
                     else DependencyRequired
  }

  /**
   Nothing stands in the way: everything relevant resolves without conflict, rendering works, the
   mandatory part fits.
   */
  ghost predicate Unobstructed(job: Job) {
    && job.graph.CloseAtoms(job.Mandatory() + job.Matched()).Ok?
    && job.graph.ConflictsFor(job.Mandatory() + job.Matched()) == Ok({})
    && (forall s, e :: job.render(s, e).Ok?)
    && (forall s | s <= job.Mandatory() && job.graph.CloseAtoms(s).Ok? :: job.Fits(job.graph.CloseAtoms(s).value))
    && (job.expand ==> forall s :: job.render(s, true).value.total <= job.available)
  }

  // -------------------------------------------------------- when the pass goes through

  /** The closure of the atoms exists, has no conflict and can be rendered. */
  predicate Possible(job: Job, atoms: set<string>) {
    && job.graph.CloseAtoms(atoms).Ok?
    && job.graph.ConflictsFor(atoms) == Ok({})
    && job.render(job.graph.CloseAtoms(atoms).value, false).Ok?
  }

  /** And it fits. */
  predicate Affordable(job: Job, atoms: set<string>) {
    Possible(job, atoms) && job.Fits(job.graph.CloseAtoms(atoms).value)
  }

  /** The selection after one more ranked atom was considered. */
  function Taken(job: Job, selected: set<string>, item: Ranked): set<string> {
    if item.matched && item.id !in selected && Affordable(job, selected + {item.id})
    then job.graph.CloseAtoms(selected + {item.id}).value
    else selected
  }

  function Greedy(job: Job, selected: set<string>, items: seq<Ranked>): set<string>
    decreases |items|
  {
    if items == [] then selected
    else Taken(job, Greedy(job, selected, items[..|items| - 1]), items[|items| - 1])
  }

  /** Every matched atom can be judged when its turn comes. */
  predicate Passable(job: Job, selected: set<string>, items: seq<Ranked>) {
    forall i | 0 <= i < |items| ::
      var sofar := Greedy(job, selected, items[..i]);
      items[i].matched && items[i].id !in sofar ==> Possible(job, sofar + {items[i].id})
  }

  /** The selection the greedy pass arrives at. */
  function Outcome(job: Job): set<string>
    requires Affordable(job, job.Mandatory())
  {
    Greedy(job, job.graph.CloseAtoms(job.Mandatory()).value, ByClass(job.graph, job.ranked))
  }

  /**
   Exactly when selection succeeds: the mandatory parts are affordable, no candidate is impossible,
   the expansion fits.
   */
  predicate Selectable(job: Job) {
    && Affordable(job, job.P0())
    && Affordable(job, job.Mandatory())
    && Passable(job, job.graph.CloseAtoms(job.Mandatory()).value, ByClass(job.graph, job.ranked))
    && (job.expand ==>
          var rendering := job.render(Outcome(job), true);
          rendering.Ok? && rendering.value.total <= job.available)
  }

  lemma AffordableIs(job: Job, atoms: set<string>)
    ensures Affordable(job, atoms) <==>
              && job.graph.CloseAtoms(atoms).Ok?
              && job.graph.ConflictsFor(atoms) == Ok({})
              && job.Fits(job.graph.CloseAtoms(atoms).value)
  {
  }

  lemma MandatoryIs(job: Job)
    ensures job.P0() + (job.MatchedP1() + job.required + job.graph.roots) == job.Mandatory()
  {
    hide Job.P0, Job.MatchedP1;
  }

  lemma GreedyStart(job: Job, selected: set<string>, items: seq<Ranked>)
    ensures Greedy(job, selected, items[..0]) == selected && Passable(job, selected, items[..0])
  {
  }

  lemma GreedyStep(job: Job, selected: set<string>, items: seq<Ranked>, i: nat)
    requires i < |items|
    ensures Greedy(job, selected, items[..i + 1]) == Taken(job, Greedy(job, selected, items[..i]), items[i])
    ensures Passable(job, selected, items[..i + 1]) <==>
              && Passable(job, selected, items[..i])
              && var sofar := Greedy(job, selected, items[..i]);
                 (items[i].matched && items[i].id !in sofar ==> Possible(job, sofar + {items[i].id}))
    ensures Passable(job, selected, items) ==> Passable(job, selected, items[..i + 1])
  {
    hide Possible, Taken;
    assert items[..i + 1][..i] == items[..i];
    assert forall j | 0 <= j <= i :: items[..i + 1][..j] == items[..j] && items[..i + 1][j] == items[j];
    assert forall j | 0 <= j < i :: items[..i][..j] == items[..j] && items[..i][j] == items[j];
  }

  // ------------------------------------------------------------------------ session

  class Compilation {
    const job: Job
    var selected: set<string>
    var reasons: map<string, Reason>
    var content: string
    var total: nat
    var conflicts: set<set<string>>

    constructor (job: Job)
      ensures this.job == job && selected == {}
    {
      this.job := job;
      selected, reasons, content, total, conflicts := {}, map[], "", 0, {};
    }

    function Contents(): State
      reads this
    {
      State(selected, reasons, content, total, conflicts)
    }

    /** Accepts a ranker's results if they are the atoms of the graph, each exactly once and with a finite score. */
    static method Rank(graph: ResolvedGraph, results: seq<RankedAtom>) returns (ranked: Option<seq<Ranked>>)
      ensures ranked.Some? <==> RankingOk(graph, results)
      ensures ranked.Some? ==> ranked.value == Stripped(results) && Ranks(ranked.value, graph.atoms.Keys)
    {
      hide Ids, DistinctIds;
      var items := Stripped(results);
      if |results| != |graph.atoms.Keys| {
        if Ranks(items, graph.atoms.Keys) {
          DistinctCount(items);
        }
        return None;
      }
      var seen: set<string> := {};
      NoIds();
      assert items[..0] == [];
      for i := 0 to |results|
        invariant seen == Ids(items[..i]) && DistinctIds(items[..i])
        invariant seen <= graph.atoms.Keys
        invariant forall j | 0 <= j < i :: ResultOk(graph, results[j])
      {
        IdsStep(items, i);
        if results[i].atom.id in seen || !ResultOk(graph, results[i]) {
          return None;
        }
        seen := seen + {results[i].atom.id};
      }
      assert items[..|items|] == items;
      DistinctCount(items);
      SameSizeSubset(seen, graph.atoms.Keys);
      return Some(items);
    }

    /** Adds seeds and everything they require; fails on a conflict or when the result does not fit. */
    method AddMandatory(seeds: set<string>, reason: Reason, overflow: CompileError, ghost sofar: set<string>)
      returns (error: Option<CompileError>)
      requires Labelled(job, selected, reasons) && reason.Selects() && !reason.Relevant?
      requires job.graph.CloseAtoms(sofar) == Ok(selected) || (sofar == selected == {})
      modifies this
      ensures error.None? ==> Sound(job, Contents(), false) && Labelled(job, selected, reasons)
      ensures error.None? ==> job.graph.CloseAtoms(sofar + seeds) == Ok(selected)
      ensures error.None? ==> RelevantIds(reasons) == RelevantIds(old(reasons))
      ensures error.None? ==> old(selected) <= selected && reasons.Keys == old(reasons).Keys
      ensures error.None? ==> forall id | id in reasons && id !in selected :: reasons[id] == old(reasons)[id]
      ensures error.None? <==> && job.graph.CloseAtoms(sofar + seeds).Ok?
                               && job.graph.ConflictsFor(sofar + seeds) == Ok({})
                               && job.Fits(job.graph.CloseAtoms(sofar + seeds).value)
      ensures error.None? ==> forall id | id in reasons ::
                reasons[id] == if id !in selected || id in old(selected) then old(reasons)[id]
                               else if id in seeds then reason else DependencyRequired
      ensures job.graph.CloseAtoms(sofar + seeds).Ok? && job.graph.ConflictsFor(sofar + seeds) != Ok({}) ==>
                error == Some(Conflict)
      ensures error.Some? && Possible(job, sofar + seeds) ==> error == Some(overflow)
    {
      hide ResolvedGraph.CloseAtoms, ResolvedGraph.ConflictsFor, ResolvedGraph.ClosedNodes,
        ResolvedGraph.ClosureLinks, Labelled, RelevantIds;
      CloseAgain(job.graph, sofar, selected, seeds);
      var closed := job.graph.CloseAtoms(selected + seeds);
      if closed.Err? {
        return Some(closed.error);
      }
      ProjectionLosesNothing(job.graph, selected + seeds);
      Relabelled(job, Contents(), closed.value, seeds, reason);
      conflicts := job.graph.ConflictsFor(closed.value).value;
      if conflicts != {} {
        return Some(Conflict);
      }
      reasons := Relabel(reasons, closed.value - selected, seeds, reason);
      selected := closed.value;
      var rendering := job.render(closed.value, false);
      if rendering.Err? {
        return Some(rendering.error);
      }
      content, total := rendering.value.content, rendering.value.total;
      if total > job.available {
        return Some(overflow);
      }
      return None;
    }

    /** Considers one ranked atom: selects it with its closure, or leaves it out because that does not fit. */
    method Consider(item: Ranked) returns (error: Option<CompileError>)
      requires Growing(job, Contents()) && item in job.ranked
      modifies this
      ensures error.None? ==> Growing(job, Contents()) && old(selected) <= selected && reasons.Keys == old(reasons).Keys
      ensures error.None? ==> forall id | id in reasons && id !in selected && old(reasons)[id].BudgetExcluded? ::
              reasons[id].BudgetExcluded?
      ensures error.None? && item.matched && item.id in reasons ==>
                item.id in selected || reasons[item.id].BudgetExcluded?
      ensures Unobstructed(job) ==> error.None?
      ensures error.None? <==> (item.matched && item.id !in old(selected) ==> Possible(job, old(selected) + {item.id}))
      ensures error.None? ==> selected == Taken(job, old(selected), item)
      ensures error.None? ==> forall id | id in reasons ::
                reasons[id] == if id in selected && id !in old(selected)
                               then (if id == item.id then Relevant else DependencyRequired)
                               else if id == item.id && item.matched && id !in selected then BudgetExcluded
                               else old(reasons)[id]
      ensures item.matched && item.id !in old(selected) ==>
                job.graph.CloseAtoms(old(selected) + {item.id}).Ok? ==>
                  job.graph.ConflictsFor(old(selected) + {item.id}) != Ok({}) ==> error == Some(Conflict)
    {
      hide ResolvedGraph.CloseAtoms, ResolvedGraph.ConflictsFor, ResolvedGraph.ClosedNodes, ResolvedGraph.ClosureLinks,
           Growing, Unobstructed, Job.Mandatory, Job.Matched;
      if item.id in selected || !item.matched {
        return None;
      }
      CandidateClosure(job, Contents(), item);
      var closed := job.graph.CloseAtoms(selected + {item.id});
      if closed.Err? {
        return Some(closed.error);
      }
      ProjectionLosesNothing(job.graph, selected + {item.id});
      conflicts := job.graph.ConflictsFor(closed.value).value;
      if conflicts != {} {
        return Some(Conflict);
      }
      var rendering := job.render(closed.value, false);
      if rendering.Err? {
        return Some(rendering.error);
      }
      if rendering.value.total > job.available {
        ExcludeGrows(job, old(Contents()), item.id);
        reasons := reasons[item.id := BudgetExcluded];
        return None;
      }
      IncludeGrows(job, old(Contents()), item, closed.value, rendering.value);
      reasons := Relabel(reasons, closed.value - selected, {item.id}, Relevant);
      selected, content, total := closed.value, rendering.value.content, rendering.value.total;
      return None;
    }

    /** Mandatory atoms first, then the ranked ones class by class while they fit. */
    method Select() returns (error: Option<CompileError>)
      requires Ranks(job.ranked, job.graph.atoms.Keys) && selected == {}
      modifies this
      ensures error.None? ==> Selected(job, Contents())
      ensures error.None? <==> Selectable(job)
      ensures error.None? ==> selected == Outcome(job)
      ensures Unobstructed(job) ==> error.None?
      ensures error.None? ==> MandatoryLabels(job, reasons)
      ensures error.None? ==> var order := ByClass(job.graph, job.ranked);
                TurnLabels(job, job.graph.CloseAtoms(job.Mandatory()).value, order, |order|, reasons)
      ensures Possible(job, job.P0()) && !Affordable(job, job.P0()) ==> error == Some(P0Overflow)
      ensures Affordable(job, job.P0()) && Possible(job, job.Mandatory()) && !Affordable(job, job.Mandatory()) ==>
                error == Some(P1Overflow)
      ensures job.graph.CloseAtoms(job.P0()).Ok? && job.graph.ConflictsFor(job.P0()) != Ok({}) ==>
                error == Some(Conflict)
    {
      hide MandatoryLabels, OwnTurn, TurnLabels;
      hide Possible, Affordable, Taken, Greedy, Passable, ResolvedGraph.CloseAtoms, ResolvedGraph.ConflictsFor,
        Growing, Unobstructed, Selected, Job.P0,
        Job.MatchedP1, Job.Matched, Job.Mandatory, Job.Fits, Ranks, ByClass, Labelled, RelevantIds;
      reasons := map id | id in job.graph.atoms :: NotRelevant;
      FreshLabels(job, Contents());
      MandatoryFits(job);
      AffordableIs(job, job.P0());
      AffordableIs(job, job.Mandatory());
      MandatoryIs(job);
      assert {} + job.P0() == job.P0();
      error := AddMandatory(job.P0(), P0Required, P0Overflow, {});
      if error.Some? {
        return;
      }
      ghost var first := Contents();
      error := AddMandatory(job.MatchedP1() + job.required + job.graph.roots, TaskRequired, P1Overflow, job.P0());
      if error.Some? {
        return;
      }
      MandatoryGrows(job, Contents());
      MandatoryLabelled(job, first, Contents());
      var order := ByClass(job.graph, job.ranked);
      OrderCovers(job);
      ghost var start := selected;
      GreedyStart(job, start, order);
      TurnsStart(job, start, order, reasons);
      for i := 0 to |order|
        invariant Growing(job, Contents())
        invariant Decided(Contents(), order[..i])
        invariant selected == Greedy(job, start, order[..i]) && Passable(job, start, order[..i])
        invariant start <= selected && TurnLabels(job, start, order, i, reasons) && MandatoryLabels(job, reasons)
      {
        ghost var before := Contents();
        GreedyStep(job, start, order, i);
        error := Consider(order[i]);
        if error.Some? {
          return;
        }
        DecidedStep(before, Contents(), order, i);
        TurnStep(job, start, order, i, before.reasons, reasons);
        MandatoryKept(job, start, before.reasons, reasons);
      }
      AllDecided(job, Contents(), order);
      assert order[..|order|] == order;
      if job.expand {
        var rendering := job.render(selected, true);
        if rendering.Err? {
          error := Some(rendering.error);
          return;
        }
        content, total := rendering.value.content, rendering.value.total;
        if total > job.available {
          return Some(ExpansionOverflow);
        }
      }
      return None;
    }
  }

  // ------------------------------------------------------- the greedy pass, step by step

  /** What holds between two steps of the greedy pass. */
  ghost predicate Growing(job: Job, st: State) {
    && Sound(job, st, false)
    && Labelled(job, st.selected, st.reasons)
    && job.graph.CloseAtoms(job.Mandatory() + RelevantIds(st.reasons)) == Ok(st.selected)
    && RelevantIds(st.reasons) <= job.Matched()
    && (forall id | id in st.reasons && id !in st.selected && st.reasons[id].BudgetExcluded? ::
          id in job.Matched() && Refused(job, st.selected, id))
  }

  /** Every listed atom that matched is selected or excluded for budget. */
  ghost predicate Decided(st: State, items: seq<Ranked>) {
    forall item | item in items && item.matched && item.id in st.reasons ::
      item.id in st.selected || st.reasons[item.id].BudgetExcluded?
  }

  lemma NoIds()
    ensures Ids([]) == {} && DistinctIds([])
  {
  }

  lemma IdsStep(results: seq<Ranked>, i: nat)
    requires i < |results| && DistinctIds(results[..i])
    ensures Ids(results[..i + 1]) == Ids(results[..i]) + {results[i].id}
    ensures DistinctIds(results[..i + 1]) <==> results[i].id !in Ids(results[..i])
    ensures Ids(results[..i + 1]) <= Ids(results) && (DistinctIds(results) ==> DistinctIds(results[..i + 1]))
  {
    assert results[..i + 1] == results[..i] + [results[i]];
    if results[i].id !in Ids(results[..i]) {
      assert forall j | 0 <= j < i :: results[..i][j] in results[..i];
    } else {
      var item :| item in results[..i] && item.id == results[i].id;
      var j :| 0 <= j < i && results[..i][j] == item;
      assert results[..i + 1][j].id == results[..i + 1][i].id;
    }
  }

  lemma {:induction false} DistinctCount(results: seq<Ranked>)
    requires DistinctIds(results)
    ensures |Ids(results)| == |results|
    decreases |results|
  {
    if results == [] {
    } else {
      var n := |results| - 1;
      assert results[..n + 1] == results;
      assert DistinctIds(results[..n]);
      IdsStep(results, n);
      DistinctCount(results[..n]);
    }
  }

  /** New members of the selection get the reason of their seed, or are there for a dependency. */
  function Relabel(reasons: map<string, Reason>, added: set<string>, seeds: set<string>, reason: Reason): map<string,
                   Reason> {
    map id | id in reasons :: if id in added then (if id in seeds then reason else DependencyRequired) else reasons[id]
  }

  lemma Relabelled(job: Job, st: State, closed: set<string>, seeds: set<string>, reason: Reason)
    requires Labelled(job, st.selected, st.reasons) && reason.Selects() && st.selected <= closed
    ensures var st' := st.(reasons := Relabel(st.reasons, closed - st.selected, seeds, reason), selected := closed);
            && Labelled(job, st'.selected, st'.reasons)
            && RelevantIds(st'.reasons) == RelevantIds(st.reasons)
              + (if reason.Relevant? then seeds * (closed - st.selected) * st.reasons.Keys else {})
            && forall id | id in st'.reasons && id !in closed :: st'.reasons[id] == st.reasons[id]
  {
  }

  lemma SameSizeSubset<T>(a: set<T>, b: set<T>)
    requires a <= b && |a| == |b|
    ensures a == b
  {
    assert |b - a| == 0;
  }

  lemma FreshLabels(job: Job, st: State)
    requires st.selected == {} && st.reasons == map id | id in job.graph.atoms :: NotRelevant
    ensures Labelled(job, st.selected, st.reasons) && RelevantIds(st.reasons) == {}
  {
  }

  /** The closure of the current selection with one more candidate is the closure of all seeds so far. */
  lemma CandidateClosure(job: Job, st: State, item: Ranked)
    requires Growing(job, st) && item in job.ranked && item.matched
    ensures var seeds := job.Mandatory() + RelevantIds(st.reasons) + {item.id};
            job.graph.CloseAtoms(st.selected + {item.id}) == job.graph.CloseAtoms(seeds)
    ensures item.id in job.Matched()
    ensures Unobstructed(job) ==> job.graph.CloseAtoms(st.selected + {item.id}).Ok?
    ensures Unobstructed(job) ==> job.graph.ConflictsFor(st.selected + {item.id}) == Ok({})
    ensures Unobstructed(job) ==> forall s :: job.render(s, false).Ok?
  {
    hide ResolvedGraph.CloseAtoms, ResolvedGraph.ConflictsFor, Refused;
    var seeds := job.Mandatory() + RelevantIds(st.reasons);
    CloseAgain(job.graph, seeds, st.selected, {item.id});
    if Unobstructed(job) {
      ConflictFreePart(job.graph, seeds + {item.id}, job.Mandatory() + job.Matched());
    }
  }

  lemma RefusedKept(job: Job, a: set<string>, b: set<string>, id: string)
    requires a <= b && Refused(job, a, id)
    ensures Refused(job, b, id)
  {
  }

  lemma ExcludeGrows(job: Job, st: State, id: string)
    requires Growing(job, st) && id in job.Matched() && id !in st.selected
    requires job.graph.CloseAtoms(st.selected + {id}).Ok?
    requires job.render(job.graph.CloseAtoms(st.selected + {id}).value, false).Ok?
    requires !job.Fits(job.graph.CloseAtoms(st.selected + {id}).value)
    ensures Growing(job, st.(reasons := st.reasons[id := BudgetExcluded], conflicts := {})) && id in st.reasons
  {
    hide ResolvedGraph.CloseAtoms, ResolvedGraph.ConflictsFor;
    assert Refused(job, st.selected, id);
    assert id in st.reasons by {
      AtomsOfClosure(job.graph, st.selected + {id});
    }
    assert RelevantIds(st.reasons[id := BudgetExcluded]) == RelevantIds(st.reasons);
  }

  lemma AtomsOfClosure(g: ResolvedGraph, s: set<string>)
    requires g.CloseAtoms(s).Ok?
    ensures s <= g.CloseAtoms(s).value <= g.atoms.Keys
  {
  }

  lemma IncludeGrows(job: Job, st: State, item: Ranked, closed: set<string>, rendering: Rendering)
    requires Growing(job, st) && item in job.ranked && item.matched && item.id !in st.selected
    requires job.graph.CloseAtoms(st.selected + {item.id}) == Ok(closed)
    requires job.graph.CloseAtoms(st.selected + {item.id})
             == job.graph.CloseAtoms(job.Mandatory() + RelevantIds(st.reasons) + {item.id})
    requires ClosedSelection(job.graph, closed) && job.graph.ConflictsFor(closed) == Ok({})
    requires job.render(closed, false) == Ok(rendering) && rendering.total <= job.available
    ensures Growing(job, State(closed, Relabel(st.reasons, closed - st.selected, {item.id}, Relevant),
                               rendering.content, rendering.total, {}))
  {
    hide ResolvedGraph.CloseAtoms, ResolvedGraph.ConflictsFor, Refused, Job.Mandatory;
    AtomsOfClosure(job.graph, st.selected + {item.id});
    Relabelled(job, st, closed, {item.id}, Relevant);
    var reasons := Relabel(st.reasons, closed - st.selected, {item.id}, Relevant);
    var st' := State(closed, reasons, rendering.content, rendering.total, {});
    var st0 := st.(reasons := reasons, selected := closed);
    assert Labelled(job, st'.selected, st'.reasons)
           && RelevantIds(st'.reasons) == RelevantIds(st0.reasons) == RelevantIds(st.reasons) + {item.id};
    assert job.Mandatory() + RelevantIds(st'.reasons) == job.Mandatory() + RelevantIds(st.reasons) + {item.id};
    forall id | id in st'.reasons && id !in closed && st'.reasons[id].BudgetExcluded? ensures Refused(job, closed, id) {
      RefusedKept(job, st.selected, closed, id);
    }
  }

  lemma MandatoryFits(job: Job)
    ensures Unobstructed(job) ==>
              && job.graph.CloseAtoms(job.P0()).Ok? && job.graph.CloseAtoms(job.Mandatory()).Ok?
              && job.graph.ConflictsFor(job.P0()) == Ok({}) && job.graph.ConflictsFor(job.Mandatory()) == Ok({})
              && job.Fits(job.graph.CloseAtoms(job.P0()).value) && job.Fits(job.graph.CloseAtoms(job.Mandatory()).value)
    ensures job.P0() + (job.MatchedP1() + job.required + job.graph.roots) == job.Mandatory()
    ensures {} + job.P0() == job.P0()
  {
    hide ResolvedGraph.CloseAtoms, ResolvedGraph.ConflictsFor, Job.MatchedP1, Job.P0, Job.Matched;
    if Unobstructed(job) {
      var all := job.Mandatory() + job.Matched();
      assert job.P0() <= job.Mandatory() <= all;
      ConflictFreePart(job.graph, job.P0(), all);
      ConflictFreePart(job.graph, job.Mandatory(), all);
    }
  }

  lemma MandatoryGrows(job: Job, st: State)
    requires Sound(job, st, false) && Labelled(job, st.selected, st.reasons) && RelevantIds(st.reasons) == {}
    requires job.graph.CloseAtoms(job.Mandatory()) == Ok(st.selected)
    requires forall id | id in st.reasons && id !in st.selected :: st.reasons[id].NotRelevant?
    ensures Growing(job, st) && Decided(st, [])
  {
    assert job.Mandatory() + {} == job.Mandatory();
  }

  /** The two mandatory steps label what they add. */
  lemma MandatoryLabelled(job: Job, first: State, second: State)
    requires job.graph.CloseAtoms(job.P0()) == Ok(first.selected)
    requires job.graph.CloseAtoms(job.Mandatory()) == Ok(second.selected)
    requires first.selected <= second.selected && first.reasons.Keys == second.reasons.Keys
    requires forall id | id in first.reasons && id in first.selected ::
               first.reasons[id] == if id in job.P0() then P0Required else DependencyRequired
    requires forall id | id in second.reasons ::
               second.reasons[id] == if id !in second.selected || id in first.selected then first.reasons[id]
                                     else if id in job.MatchedP1() + job.required + job.graph.roots then TaskRequired
                                     else DependencyRequired
    ensures MandatoryLabels(job, second.reasons)
  {
    hide ResolvedGraph.CloseAtoms, Job.MatchedP1, Job.Mandatory, Job.P0;
    AtomsOfClosure(job.graph, job.P0());
  }

  lemma MandatoryKept(job: Job, start: set<string>, before: map<string, Reason>, after: map<string, Reason>)
    requires job.graph.CloseAtoms(job.P0()).Ok? && job.graph.CloseAtoms(job.Mandatory()) == Ok(start)
    requires MandatoryLabels(job, before) && before.Keys == after.Keys
    requires forall id | id in after && id in start :: after[id] == before[id]
    ensures MandatoryLabels(job, after)
  {
    hide ResolvedGraph.CloseAtoms, Job.MatchedP1, Job.Mandatory, Job.P0;
  }

  lemma TurnsStart(job: Job, start: set<string>, order: seq<Ranked>, reasons: map<string, Reason>)
    ensures TurnLabels(job, start, order, 0, reasons)
  {
    GreedyStart(job, start, order);
  }

  /** The pass never takes an atom back. */
  lemma {:induction false} GreedyGrows(job: Job, start: set<string>, order: seq<Ranked>, a: nat, b: nat)
    requires a <= b <= |order|
    ensures Greedy(job, start, order[..a]) <= Greedy(job, start, order[..b])
    decreases b
  {
    hide Greedy, Passable, ResolvedGraph.CloseAtoms, ResolvedGraph.ConflictsFor, Job.Fits;
    if a < b {
      GreedyGrows(job, start, order, a, b - 1);
      GreedyStep(job, start, order, b - 1);
      var atoms := Greedy(job, start, order[..b - 1]) + {order[b - 1].id};
      if job.graph.CloseAtoms(atoms).Ok? {
        AtomsOfClosure(job.graph, atoms);
      }
    }
  }

  lemma TurnStep(job: Job, start: set<string>, order: seq<Ranked>, i: nat, before: map<string, Reason>,
                 after: map<string, Reason>)
    requires i < |order| && start <= Greedy(job, start, order[..i]) && before.Keys == after.Keys
    requires Greedy(job, start, order[..i]) <= Greedy(job, start, order[..i + 1])
    requires TurnLabels(job, start, order, i, before)
    requires forall id | id in after && id in Greedy(job, start, order[..i + 1]) ::
               after[id] == if id in Greedy(job, start, order[..i]) then before[id]
                            else if id == order[i].id then Relevant else DependencyRequired
    ensures TurnLabels(job, start, order, i + 1, after)
  {
    hide Greedy;
    forall id | id in Greedy(job, start, order[..i + 1]) && id !in start && id in after
      ensures after[id] == if exists j :: 0 <= j < i + 1 && order[j].id == id && OwnTurn(job, start, order, j)
                           then Relevant else DependencyRequired
    {
      if id in Greedy(job, start, order[..i]) {
        assert !(order[i].id == id && OwnTurn(job, start, order, i));
      } else {
        forall j | 0 <= j < i && order[j].id == id ensures !OwnTurn(job, start, order, j) {
          GreedyGrows(job, start, order, j + 1, i);
        }
        if order[i].id == id {
          assert OwnTurn(job, start, order, i);
        }
      }
    }
  }

  lemma OrderCovers(job: Job)
    requires Ranks(job.ranked, job.graph.atoms.Keys)
    ensures forall item :: item in ByClass(job.graph, job.ranked) <==> item in job.ranked
  {
    assert forall item | item in job.ranked :: item.id in Ids(job.ranked);
    ByClassMembers(job.graph, job.ranked);
  }

  lemma DecidedStep(before: State, after: State, order: seq<Ranked>, i: nat)
    requires i < |order| && Decided(before, order[..i]) && before.selected <= after.selected
    requires before.reasons.Keys == after.reasons.Keys
    requires forall id | id in after.reasons && id !in after.selected && before.reasons[id].BudgetExcluded? ::
               after.reasons[id].BudgetExcluded?
    requires order[i].matched && order[i].id in after.reasons ==>
                 order[i].id in after.selected || after.reasons[order[i].id].BudgetExcluded?
    ensures Decided(after, order[..i + 1])
  {
    assert order[..i + 1] == order[..i] + [order[i]];
  }

  lemma AllDecided(job: Job, st: State, order: seq<Ranked>)
    requires Growing(job, st) && Decided(st, order) && Ranks(job.ranked, job.graph.atoms.Keys)
    requires forall item :: item in order <==> item in job.ranked
    ensures forall content, total: nat | job.render(st.selected, job.expand) == Ok(Rendering(content, total))
            && total <= job.available ::
              Selected(job, st.(content := content, total := total))
    ensures !job.expand ==> Selected(job, st)
    ensures Unobstructed(job) && job.expand ==>
              job.render(st.selected, true).Ok? && job.render(st.selected, true).value.total <= job.available
  {
  }

  /** Closing a closed selection again with more seeds is closing all the seeds at once. */
  lemma CloseAgain(g: ResolvedGraph, sofar: set<string>, selected: set<string>, seeds: set<string>)
    requires g.CloseAtoms(sofar) == Ok(selected) || (sofar == selected == {})
    ensures g.CloseAtoms(selected + seeds) == g.CloseAtoms(sofar + seeds)
    ensures g.ConflictsFor(selected + seeds) == g.ConflictsFor(sofar + seeds)
  {
    if sofar != selected {
      CloseMonotone(sofar, sofar + seeds, g.edges);
      CloseBetween(sofar + seeds, selected + seeds, g.edges);
    }
  }

  // -------------------------------------------------------------------- consequences

  /** The selection test of the final checks. */
  predicate FinalTestFires(job: Job, selected: set<string>) {
    || job.graph.CloseAtoms(selected) != Ok(selected)
    || !(job.graph.roots <= selected)
    || !(job.required <= selected)
    || job.graph.ConflictsFor(selected) != Ok({})
  }

  /**
   A completed selection serves the task: each interface it requires is provided by exactly one
   complete capsule, which participates with its whole payload.
   */
  lemma TaskServed(job: Job, st: State, interfaces: seq<string>, q: string)
    requires Selected(job, st) && RootsServe(job.graph, interfaces) && q in interfaces
    ensures exists p :: && Offers(job.graph, q, p)
                        && (forall p' | Offers(job.graph, q, p') :: p' == p)
                        && job.graph.publications[p].Payload() <= st.selected
                        && p in job.graph.Participating(st.selected)
  {
    hide Sound, Labelled, RootsServe, Refused;
    InterfaceServed(job.graph, interfaces, st.selected, q);
  }

  /** After a completed selection that test cannot fire. */
  lemma FinalTestNeverFires(job: Job, st: State)
    requires Selected(job, st)
    ensures !FinalTestFires(job, st.selected)
  {
    hide ResolvedGraph.CloseAtoms, ResolvedGraph.ConflictsFor, Job.P0, Job.MatchedP1;
  }

  /** Selecting more never costs less. */
  ghost predicate MonotoneCost(job: Job) {
    forall a, b | a <= b && job.render(a, false).Ok? && job.render(b, false).Ok? ::
      job.render(a, false).value.total <= job.render(b, false).value.total
  }

  /** With monotone cost the greedy pass is maximal: no excluded matched atom would still fit with its closure. */
  lemma NoExcludedAtomStillFits(job: Job, st: State, id: string)
    requires Selected(job, st) && MonotoneCost(job)
    requires id in job.Matched() && id in job.graph.atoms && id !in st.selected
    ensures job.graph.CloseAtoms(st.selected + {id}).Ok? ==> !job.Fits(job.graph.CloseAtoms(st.selected + {id}).value)
  {
    assert Refused(job, st.selected, id);
    hide ResolvedGraph.CloseAtoms, ResolvedGraph.ConflictsFor, Selected;
    var base :| base <= st.selected && job.graph.CloseAtoms(base + {id}).Ok?
                && !job.Fits(job.graph.CloseAtoms(base + {id}).value)
                && job.render(job.graph.CloseAtoms(base + {id}).value, false).Ok?;
    if job.graph.CloseAtoms(st.selected + {id}).Ok? {
      CloseAtomsMonotone(job.graph, base + {id}, st.selected + {id});
    }
  }
}

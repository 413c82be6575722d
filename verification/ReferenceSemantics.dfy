/**
 The executable reference semantics: a compiler that emits a view with its blockers, and a
 validator that recomputes everything from the capsules instead of trusting the view.

 Blockers are compared as sets: the order in which they were found is not modelled.
 Fingerprints are injective digests, so a fingerprint stands for the fingerprinted value.
 */
module ReferenceSemantics {
  import opened Common
  import opened Closure

  datatype Blocker =
    | MalformedCapsule | MissingEvidence | IntegrityFailed | UnauthorizedCapsule | OutOfScope | StaleEvidence
    | MissingMandatoryDependency | UnresolvedConflict | P0NotExact | P0BudgetOverflow
    | MandatoryClosureBudgetOverflow | IncompatibleInterface | ViewInconsistent

  const ALLOWED_CLASSES := {"P0_EXACT", "P1_STRUCTURED", "P2_EXCERPT", "P3_SUMMARY", "P4_TRANSIENT"}

  datatype Atom =
    Atom(id: string, statement: string, compression: string, cost: int, relevance: int, evidence: set<string>)
  {
    predicate P0() {
      compression == "P0_EXACT"
    }

    predicate WellFormed() {
      id != "" && statement != "" && cost >= 0 && evidence != {} && compression in ALLOWED_CLASSES
    }
  }

  datatype Evidence = Evidence(id: string, digest: string, text: string, current: bool)
  {
    predicate WellFormed() {
      id != "" && digest != "" && text != ""
    }
  }

  datatype Capsule =
    Capsule(capsuleId: string, version: string, principals: set<string>, repositories: set<string>,
            prefixes: seq<string>, environments: set<string>, interfaces: set<string>, lifecycle: string,
            atoms: set<Atom>, evidence: set<Evidence>, requirements: set<(string, string)>,
            conflicts: set<(string, string)>, p0Exact: bool, integrity: bool)
  {
    function Reference(): string {
      capsuleId + "@" + version
    }

    predicate ManifestWellFormed() {
      && capsuleId != "" && version != "" && lifecycle in {"PUBLISHED", "ACTIVE"}
      && repositories != {} && prefixes != [] && environments != {}
    }

    predicate UniqueIds() {
      && (forall a, b | a in atoms && b in atoms && a.id == b.id :: a == b)
      && (forall a, b | a in evidence && b in evidence && a.id == b.id :: a == b)
    }

    function EvidenceIds(): set<string> {
      set e | e in evidence :: e.id
    }
  }

  datatype Task = Task(id: string, repository: string, path: string, environment: string, interfaces: set<string>)

  datatype Phase = Eligibility | Ranking

  datatype View =
    View(references: seq<string>, fingerprints: seq<(string, Capsule)>, task: Task, principal: string, adapter: string,
         budget: int, content: string, selected: set<string>, exact: set<string>, handles: set<string>,
         checked: seq<string>, ranked: seq<string>, phases: seq<Phase>, missing: set<string>,
         conflicts: set<(string, string)>, closed: bool, preserved: bool, blockers: set<Blocker>)

  function When(condition: bool, b: Blocker): set<Blocker> {
    if condition then {b} else {}
  }

  // --------------------------------------------------------------- single capsules

  function WellFormedness(c: Capsule): set<Blocker> {
    When(!c.ManifestWellFormed(), MalformedCapsule)
    + When(!c.integrity, IntegrityFailed)
    + When(!c.UniqueIds(), MalformedCapsule)
    + When(exists e :: e in c.evidence && !e.WellFormed(), MissingEvidence)
    + When(exists a :: a in c.atoms && !a.WellFormed(), MalformedCapsule)
    + When(exists a :: a in c.atoms && !(a.evidence <= c.EvidenceIds()), MissingEvidence)
    + When(!c.p0Exact && exists a :: a in c.atoms && a.P0(), P0NotExact)
  }

  function EligibilityBlockers(c: Capsule, task: Task, principal: string): set<Blocker> {
    When(principal !in c.principals, UnauthorizedCapsule)
    + When(|| task.repository !in c.repositories || task.environment !in c.environments
           || !(exists prefix :: prefix in c.prefixes && prefix <= task.path), OutOfScope)
    + When(!(task.interfaces <= c.interfaces), IncompatibleInterface)
    + When(exists e :: e in c.evidence && !e.current, StaleEvidence)
  }

  predicate Eligible(c: Capsule, task: Task, principal: string) {
    WellFormedness(c) == {} && EligibilityBlockers(c, task, principal) == {}
  }

  /** Two capsules contradict each other about a reference, an atom or a piece of evidence. */
  predicate Clash(capsules: seq<Capsule>) {
    exists c, d :: c in capsules && d in capsules &&
      (|| (c.Reference() == d.Reference() && c != d)
       || (exists a, b :: a in c.atoms && b in d.atoms && a.id == b.id && a != b)
       || (exists a, b :: a in c.evidence && b in d.evidence && a.id == b.id && a != b))
  }

  // -------------------------------------------------------------------- sorting

  predicate StringLe(a: string, b: string) {
    a == "" || (b != "" && (a[0] < b[0] || (a[0] == b[0] && StringLe(a[1..], b[1..]))))
  }

  lemma {:induction false} StringLeTotal(a: string, b: string)
    ensures StringLe(a, b) || StringLe(b, a)
  {
    if a != "" && b != "" && a[0] == b[0] {
      StringLeTotal(a[1..], b[1..]);
    }
  }

  function Insert<T>(x: T, xs: seq<T>, le: (T, T) -> bool): seq<T> {
    if xs == [] || le(x, xs[0]) then [x] + xs else [xs[0]] + Insert(x, xs[1..], le)
  }

  /** A stable sort. */
  function Sort<T>(xs: seq<T>, le: (T, T) -> bool): seq<T> {
    if xs == [] then [] else Insert(xs[0], Sort(xs[1..], le), le)
  }

  ghost predicate Total<T(!new)>(le: (T, T) -> bool) {
    forall x, y :: le(x, y) || le(y, x)
  }

  predicate Sorted<T>(xs: seq<T>, le: (T, T) -> bool) {
    forall i | 0 < i < |xs| :: le(xs[i - 1], xs[i])
  }

  lemma {:induction false} InsertMembers<T>(x: T, xs: seq<T>, le: (T, T) -> bool)
    ensures multiset(Insert(x, xs, le)) == multiset(xs) + multiset{x}
  {
    if xs != [] && !le(x, xs[0]) {
      InsertMembers(x, xs[1..], le);
      assert xs == [xs[0]] + xs[1..];
    }
  }

  lemma {:induction false} InsertSorted<T(!new)>(x: T, xs: seq<T>, le: (T, T) -> bool)
    requires Total(le) && Sorted(xs, le)
    ensures Sorted(Insert(x, xs, le), le)
    ensures Insert(x, xs, le)[0] == x || (xs != [] && Insert(x, xs, le)[0] == xs[0])
  {
    if xs != [] && !le(x, xs[0]) {
      var tail := xs[1..];
      assert forall i | 0 < i < |tail| :: tail[i - 1] == xs[i] && tail[i] == xs[i + 1];
      InsertSorted(x, tail, le);
      var rest := Insert(x, tail, le);
      assert tail != [] ==> le(xs[1 - 1], tail[0]);
      assert le(xs[0], rest[0]);
      Prepended(xs[0], rest, le);
    } else {
      Prepended(x, xs, le);
    }
  }

  lemma Prepended<T>(x: T, xs: seq<T>, le: (T, T) -> bool)
    requires Sorted(xs, le) && (xs == [] || le(x, xs[0]))
    ensures Sorted([x] + xs, le)
  {
  }

  lemma {:induction false} SortSorted<T(!new)>(xs: seq<T>, le: (T, T) -> bool)
    requires Total(le)
    ensures Sorted(Sort(xs, le), le) && multiset(Sort(xs, le)) == multiset(xs)
  {
    if xs == [] {
    } else {
      SortSorted(xs[1..], le);
      InsertSorted(xs[0], Sort(xs[1..], le), le);
      InsertMembers(xs[0], Sort(xs[1..], le), le);
      assert xs == [xs[0]] + xs[1..];
    }
  }

  /** Sorting a sorted list changes nothing. */
  lemma {:induction false} SortFixed<T(!new)>(xs: seq<T>, le: (T, T) -> bool)
    requires Sorted(xs, le)
    ensures Sort(xs, le) == xs
  {
    if xs == [] {
    } else {
      assert forall i | 0 < i < |xs[1..]| :: xs[1..][i - 1] == xs[i] && xs[1..][i] == xs[i + 1];
      SortFixed(xs[1..], le);
      assert |xs| > 1 ==> le(xs[1 - 1], xs[1]);
      assert xs == [xs[0]] + xs[1..];
    }
  }

  // ------------------------------------------------------------- ranked capsules

  ghost function Sum(atoms: set<Atom>, f: Atom -> int): int {
    if atoms == {} then 0 else var a :| a in atoms; f(a) + Sum(atoms - {a}, f)
  }

  function CostOf(a: Atom): int { a.cost }

  function RelevanceOf(a: Atom): int { a.relevance }

  ghost function Cost(atoms: set<Atom>): int {
    Sum(atoms, CostOf)
  }

  ghost function Relevance(c: Capsule): int {
    Sum(c.atoms, RelevanceOf)
  }

  ghost predicate RanksBefore(c: Capsule, d: Capsule) {
    Relevance(c) > Relevance(d) || (Relevance(c) == Relevance(d) && StringLe(c.Reference(), d.Reference()))
  }

  ghost function RankOrder(): ((Capsule, Capsule) -> bool) {
    (c, d) => RanksBefore(c, d)
  }

  lemma RankOrderTotal()
    ensures Total(RankOrder())
  {
    forall c, d ensures RankOrder()(c, d) || RankOrder()(d, c) {
      StringLeTotal(c.Reference(), d.Reference());
    }
  }

  function EligibleOf(supplied: seq<Capsule>, task: Task, principal: string): seq<Capsule>
    decreases |supplied|
  {
    if supplied == [] then []
    else
      var c := supplied[|supplied| - 1];
      EligibleOf(supplied[..|supplied| - 1], task, principal) + (if Eligible(c, task, principal) then [c] else [])
  }

  function BlockersOf(supplied: seq<Capsule>, task: Task, principal: string): set<Blocker> {
    set c, b | c in supplied && b in WellFormedness(c) + EligibilityBlockers(c, task, principal) :: b
  }

  /** The compiler's pass over the supplied capsules: collects blockers and the capsules without any. */
  method CheckCapsules(supplied: seq<Capsule>, task: Task, principal: string)
    returns (blockers: set<Blocker>, eligible: seq<Capsule>)
    ensures blockers == When(Clash(supplied), MalformedCapsule) + BlockersOf(supplied, task, principal)
    ensures eligible == if Clash(supplied) then [] else EligibleOf(supplied, task, principal)
  {
    hide Clash, WellFormedness, EligibilityBlockers;
    blockers, eligible := When(Clash(supplied), MalformedCapsule), [];
    for i := 0 to |supplied|
      invariant blockers == When(Clash(supplied), MalformedCapsule) + BlockersOf(supplied[..i], task, principal)
      invariant eligible == EligibleOf(supplied[..i], task, principal)
    {
      var c := supplied[i];
      var structural := WellFormedness(c);
      var local := EligibilityBlockers(c, task, principal);
      assert supplied[..i + 1] == supplied[..i] + [c] && supplied[..i + 1][..i] == supplied[..i];
      BlockersStep(supplied[..i], c, task, principal);
      blockers := blockers + structural;
      blockers := blockers + local;
      if structural == {} && local == {} {
        eligible := eligible + [c];
      }
    }
    assert supplied[..|supplied|] == supplied;
    if Clash(supplied) {
      eligible := [];
    }
  }

  lemma BlockersStep(supplied: seq<Capsule>, c: Capsule, task: Task, principal: string)
    ensures BlockersOf(supplied + [c], task, principal)
         == BlockersOf(supplied, task, principal) + (WellFormedness(c) + EligibilityBlockers(c, task, principal))
  {
    hide WellFormedness, EligibilityBlockers;
    assert c in supplied + [c];
    assert forall d | d in supplied :: d in supplied + [c];
  }

  lemma {:induction false} EligibleMembers(supplied: seq<Capsule>, task: Task, principal: string)
    ensures forall c :: c in EligibleOf(supplied, task, principal) <==> c in supplied && Eligible(c, task, principal)
    decreases |supplied|
  {
    hide Eligible;
    if supplied == [] {
    } else {
      var n := |supplied| - 1;
      EligibleMembers(supplied[..n], task, principal);
      assert supplied == supplied[..n] + [supplied[n]];
    }
  }

  // ---------------------------------------------------- what a ranked list determines

  function AtomsOf(ranked: seq<Capsule>): set<Atom> {
    set c, a | c in ranked && a in c.atoms :: a
  }

  /** One atom per id; capsules that disagree about an id are blocked before this matters. */
  ghost function Index(ranked: seq<Capsule>): map<string, Atom> {
    map a | a in AtomsOf(ranked) :: a.id := Chosen(ranked, a.id)
  }

  ghost function Chosen(ranked: seq<Capsule>, id: string): (a: Atom)
    requires exists a :: a in AtomsOf(ranked) && a.id == id
    ensures a in AtomsOf(ranked) && a.id == id
  {
    var a :| a in AtomsOf(ranked) && a.id == id;
    a
  }

  function Seeds(ranked: seq<Capsule>): set<string> {
    set a | a in AtomsOf(ranked) && (a.P0() || a.relevance > 0) :: a.id
  }

  function RequirementsOf(ranked: seq<Capsule>): set<(string, string)> {
    set c, e | c in ranked && e in c.requirements :: e
  }

  function ConflictsOf(ranked: seq<Capsule>): set<(string, string)> {
    set c, e | c in ranked && e in c.conflicts :: e
  }

  function EvidenceOf(ranked: seq<Capsule>): set<string> {
    set c, e | c in ranked && e in c.evidence :: e.id
  }

  datatype Recomputed =
    Recomputed(selected: set<string>, missing: set<string>, atoms: set<Atom>, p0: set<Atom>,
               conflicts: set<(string, string)>, closed: bool)
  {
    function Exact(): set<string> {
      set a | a in atoms && a.P0() :: a.id
    }

    function P0Ids(): set<string> {
      set a | a in p0 :: a.id
    }

    function Handles(): set<string> {
      set a, e | a in atoms && e in a.evidence :: e
    }

    ghost function P0Cost(): int {
      Cost(p0)
    }

    ghost function SelectedCost(): int {
      Cost(atoms)
    }
  }

  ghost function Recompute(ranked: seq<Capsule>): Recomputed {
    var index := Index(ranked);
    var pairs := RequirementsOf(ranked);
    var selected := Close(Seeds(ranked), Requirements(Known(pairs, index.Keys)));
    var missing := Missing(selected, pairs, index.Keys);
    Recomputed(selected, missing,
               (set id | id in selected && id in index :: index[id]),
               (set id | id in index && index[id].P0() :: index[id]),
               (set e | e in ConflictsOf(ranked) && e.0 in selected && e.1 in selected),
               missing == {} && forall p | p in pairs :: p.0 in selected ==> p.1 in selected)
  }

  function PoliciesExact(ranked: seq<Capsule>): bool {
    forall c | c in ranked :: c.p0Exact
  }

  ghost function Preserved(ranked: seq<Capsule>): bool {
    Recompute(ranked).P0Ids() <= Recompute(ranked).Exact() && PoliciesExact(ranked)
  }

  // -------------------------------------------------------------------- rendering

  predicate AtomLe(a: Atom, b: Atom) {
    || (a.P0() && !b.P0())
    || (a.P0() == b.P0() && (a.relevance > b.relevance || (a.relevance == b.relevance && StringLe(a.id, b.id))))
  }

  ghost function Enumerated(atoms: set<Atom>): seq<Atom> {
    if atoms == {} then [] else var a :| a in atoms; [a] + Enumerated(atoms - {a})
  }

  function Lines(atoms: seq<Atom>): string {
    if atoms == [] then ""
    else if |atoms| == 1 then atoms[0].statement
    else atoms[0].statement + "\n" + Lines(atoms[1..])
  }

  ghost function Content(atoms: set<Atom>): string {
    Lines(Sort(Enumerated(atoms), AtomLe))
  }

  // ------------------------------------------------------------ compile and validate

  function References(capsules: seq<Capsule>): seq<string> {
    seq(|capsules|, i requires 0 <= i < |capsules| => capsules[i].Reference())
  }

  function Fingerprints(capsules: seq<Capsule>): seq<(string, Capsule)> {
    seq(|capsules|, i requires 0 <= i < |capsules| => (capsules[i].Reference(), capsules[i]))
  }

  ghost function RankedOf(supplied: seq<Capsule>, task: Task, principal: string): seq<Capsule> {
    if Clash(supplied) then [] else Sort(EligibleOf(supplied, task, principal), RankOrder())
  }

  function Phases(ranked: seq<Capsule>): seq<Phase> {
    [Eligibility] + if ranked == [] then [] else [Ranking]
  }

  ghost function CompileView(supplied: seq<Capsule>, task: Task, principal: string, budget: int,
                             adapter: string): View {
    var ranked := RankedOf(supplied, task, principal);
    var r := Recompute(ranked);
    View(References(supplied), Fingerprints(supplied), task, principal, adapter, budget,
         Content(r.atoms), r.selected, r.Exact(), r.Handles(),
         References(supplied), References(ranked), Phases(ranked), r.missing, r.conflicts, r.closed, Preserved(ranked),
         When(Clash(supplied), MalformedCapsule)
         + BlockersOf(supplied, task, principal)
         + When(r.missing != {}, MissingMandatoryDependency)
         + When(r.conflicts != {}, UnresolvedConflict)
         + When(!PoliciesExact(ranked) && r.p0 != {}, P0NotExact)
         + When(r.P0Cost() > budget, P0BudgetOverflow)
         + When(r.SelectedCost() > budget && r.P0Cost() <= budget, MandatoryClosureBudgetOverflow))
  }

  /** The last supplied capsule with a reference. */
  function ByReference(supplied: seq<Capsule>, reference: string): (c: Option<Capsule>)
    ensures c.None? <==> forall d | d in supplied :: d.Reference() != reference
    ensures c.Some? ==> c.value in supplied && c.value.Reference() == reference
    decreases |supplied|
  {
    if supplied == [] then None
    else
      var c := supplied[|supplied| - 1];
      assert supplied == supplied[..|supplied| - 1] + [c];
      if c.Reference() == reference then Some(c) else ByReference(supplied[..|supplied| - 1], reference)
  }

  function Resolve(references: seq<string>, supplied: seq<Capsule>): seq<Capsule> {
    if references == [] then []
    else
      (match ByReference(supplied, references[0]) case Some(c) => [c] case None => [])
        + Resolve(references[1..], supplied)
  }

  predicate Distinct(references: seq<string>) {
    forall i, j | 0 <= i < j < |references| :: references[i] != references[j]
  }

  ghost function ResolvedRanking(view: View, supplied: seq<Capsule>): seq<Capsule> {
    Sort(Resolve(view.ranked, supplied), RankOrder())
  }

  ghost predicate RankingConsistent(view: View, supplied: seq<Capsule>) {
    var ranked := Resolve(view.ranked, supplied);
    && Distinct(view.ranked)
    && (forall reference | reference in view.ranked :: ByReference(supplied, reference).Some?)
    && view.ranked == References(ResolvedRanking(view, supplied))
    && view.phases == Phases(ranked)
    && !(supplied != [] && ranked == [] && view.blockers == {})
  }

  ghost predicate MetadataConsistent(view: View, supplied: seq<Capsule>) {
    var ranked := ResolvedRanking(view, supplied);
    var r := Recompute(ranked);
    && RankingConsistent(view, supplied)
    && view.references == References(supplied)
    && view.fingerprints == Fingerprints(supplied)
    && view.checked == References(supplied)
    && view.selected == r.selected
    && view.exact == r.Exact()
    && view.handles == r.Handles()
    && view.content == Content(r.atoms)
    && view.missing == r.missing
    && view.conflicts == r.conflicts
    && view.closed == r.closed
    && view.preserved == Preserved(ranked)
  }

  function CapsuleBlockers(supplied: seq<Capsule>, principal: string): set<Blocker> {
    When(Clash(supplied), MalformedCapsule)
    + (set c, b | c in supplied && b in WellFormedness(c) :: b)
    + When(exists c :: c in supplied && principal !in c.principals, UnauthorizedCapsule)
    + When(exists c, e :: c in supplied && e in c.evidence && !e.current, StaleEvidence)
  }

  ghost function RecomputedBlockers(view: View, ranked: seq<Capsule>): set<Blocker> {
    var r := Recompute(ranked);
    When(!(r.Handles() <= EvidenceOf(ranked)), MissingEvidence)
    + When(!Preserved(ranked), P0NotExact)
    + When(r.missing != {} || !r.closed, MissingMandatoryDependency)
    + When(r.conflicts != {}, UnresolvedConflict)
    + When(r.P0Cost() > view.budget, P0BudgetOverflow)
    + When(r.P0Cost() <= view.budget && r.SelectedCost() > view.budget, MandatoryClosureBudgetOverflow)
  }

  /** The blockers of a validation report; the view is valid when there are none. */
  ghost function ValidateView(view: View, supplied: seq<Capsule>, principal: string): set<Blocker> {
    view.blockers
    + CapsuleBlockers(supplied, principal)
    + When(view.principal != principal, UnauthorizedCapsule)
    + When(!MetadataConsistent(view, supplied), ViewInconsistent)
    + RecomputedBlockers(view, ResolvedRanking(view, supplied))
  }
}

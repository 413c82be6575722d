/**
 The resolved graph: atoms and, for every capsule, two private marker nodes.

 The presence marker of a capsule is required by each of its atoms and carries its
 dependencies and conflicts; the unit marker requires all of its atoms.  One closure and one
 conflict scan over this graph enforce interface requirements, version exclusivity and atom
 dependencies together.
 */
module CapsuleGraph {
  import opened Common
  import opened Closure

  // ------------------------------------------------------------------ capsules

  datatype Ref = Ref(capsuleId: string, version: string, digest: string)
  {
    function Key(): string {
      capsuleId + "@" + version + "#" + digest
    }

    /** What the published identifier patterns guarantee. */
    predicate WellFormed() {
      '@' !in capsuleId && '#' !in version
    }
  }

  datatype Class = P0Exact | P1Structured | P2Excerpt | P3Summary | P4Transient

  datatype Atom = Atom(id: string, body: string, class_: Class, requiresAtoms: seq<string>, conflictsWith: seq<string>)

  /** An edge a capsule declares itself, between names of atoms or capsules. */
  datatype Declaration =
    Declaration(source: string, target: string, kind: EdgeKind, mandatory: bool, constraint: Option<string>)
  {
    predicate Binding() {
      kind.Requires? && mandatory
    }
  }

  datatype Publication =
    Publication(ref: Ref, atoms: seq<Atom>, interfaces: seq<string>, requirements: seq<string>,
                conflicts: seq<string>, locks: seq<Ref>, declared: seq<Declaration>)
  {
    function Payload(): set<string> {
      set a | a in atoms :: a.id
    }
  }

  /**
   The version library: the family and constraint of a declaration, the family of an interface,
   whether a constraint is well-formed, and constraint satisfaction.
   */
  datatype Versions =
    Versions(declaration: string -> Option<(string, string)>, family: string -> Option<string>,
             constraint: string -> bool, satisfies: (string, string) -> bool)
  {
    /** The capsule provides an interface of the declared family at an accepted version. */
    predicate Matches(p: Publication, declared: string) {
      && declaration(declared).Some?
      && (exists value :: value in p.interfaces && family(value) == Some(declaration(declared).value.0))
      && satisfies(p.ref.version, declaration(declared).value.1)
    }

    /**
     Whether the owners of a declared target meet the declaration's constraint: any of them for a
     conflict, else all.
     */
    predicate Admit(e: Declaration, owners: set<Ref>) {
      if e.constraint.None? || !(e.kind.Requires? || e.kind.Conflicts?) then true
      else if e.kind.Conflicts? then exists r :: r in owners && satisfies(r.version, e.constraint.value)
      else forall r | r in owners :: satisfies(r.version, e.constraint.value)
    }
  }

  datatype CompileError =
    | InterfaceIncompatible | InvalidGraph | DuplicateAtom | MissingInterface | MissingDependency | MissingAtom
    | AmbiguousProvider | AmbiguousGraphNode | InvalidVersionConstraint
    | Conflict | P0Overflow | P1Overflow | ExpansionOverflow | RenderingFailed | FinalPreservationFailed
    | MembershipInvalid | MandatoryMembership | ClosureInvalid

  // -------------------------------------------------------------- marker nodes

  const PRIVATE := "__ccs_m4__:"
  const PRESENCE := "presence:"
  const UNIT := "unit:"

  predicate IsPrivate(name: string) {
    PRIVATE <= name
  }

  function Presence(r: Ref): string {
    PRIVATE + PRESENCE + r.Key()
  }

  function Unit(r: Ref): string {
    PRIVATE + UNIT + r.Key()
  }

  lemma MarkersArePrivate(r: Ref)
    ensures IsPrivate(Presence(r)) && IsPrivate(Unit(r))
  {
  }

  lemma PrefixInjective(prefix: string, a: string, b: string)
    requires prefix + a == prefix + b
    ensures a == b
  {
    assert (prefix + a)[|prefix|..] == a && (prefix + b)[|prefix|..] == b;
  }

  /** Splitting at the first separator recovers the part before it. */
  lemma SeparatorInjective(a: string, x: string, b: string, y: string, sep: char)
    requires sep !in a && sep !in b && a + [sep] + x == b + [sep] + y
    ensures a == b && x == y
  {
    var left, right := a + [sep] + x, b + [sep] + y;
    assert left[|a|] == sep && right[|b|] == sep;
    assert forall i | 0 <= i < |b| :: right[i] == b[i];
    assert forall i | 0 <= i < |a| :: left[i] == a[i];
    assert left[..|a|] == a && right[..|b|] == b;
    assert left[|a| + 1..] == x && right[|b| + 1..] == y;
  }

  lemma KeyInjective(r: Ref, r': Ref)
    requires r.WellFormed() && r'.WellFormed() && r.Key() == r'.Key()
    ensures r == r'
  {
    assert r.Key() == r.capsuleId + ['@'] + (r.version + ['#'] + r.digest);
    assert r'.Key() == r'.capsuleId + ['@'] + (r'.version + ['#'] + r'.digest);
    SeparatorInjective(r.capsuleId, r.version + ['#'] + r.digest, r'.capsuleId, r'.version + ['#'] + r'.digest, '@');
    SeparatorInjective(r.version, r.digest, r'.version, r'.digest, '#');
  }

  /** The markers of different capsules, and the two markers of one capsule, are different nodes. */
  lemma MarkersDistinct(r: Ref, r': Ref)
    requires r.WellFormed() && r'.WellFormed()
    ensures Presence(r) != Unit(r')
    ensures Presence(r) == Presence(r') ==> r == r'
    ensures Unit(r) == Unit(r') ==> r == r'
  {
    assert Presence(r)[|PRIVATE|] == 'p' && Unit(r')[|PRIVATE|] == 'u';
    if Presence(r) == Presence(r') {
      PrefixInjective(PRIVATE + PRESENCE, r.Key(), r'.Key());
      KeyInjective(r, r');
    }
    if Unit(r) == Unit(r') {
      PrefixInjective(PRIVATE + UNIT, r.Key(), r'.Key());
      KeyInjective(r, r');
    }
  }

  // ------------------------------------------------------------------- queries

  datatype ResolvedGraph =
    ResolvedGraph(atoms: map<string, Atom>, owners: map<string, set<Ref>>, publications: map<Ref, Publication>,
                  edges: set<Edge>, roots: set<string>)
  {
    function Markers(): set<string> {
      (set r | r in publications :: Presence(r)) + (set r | r in publications :: Unit(r))
    }

    function ClosedNodes(selected: set<string>): Result<set<string>, CompileError> {
      if !(selected <= atoms.Keys) then Err(MissingAtom)
      else if !(Close(selected, edges) <= atoms.Keys + Markers()) then Err(MissingDependency)
      else Ok(Close(selected, edges))
    }

    function CloseAtoms(selected: set<string>): Result<set<string>, CompileError> {
      var closed := ClosedNodes(selected);
      if closed.Ok? then Ok(closed.value * atoms.Keys) else Err(closed.error)
    }

    function ConflictsFor(selected: set<string>): Result<set<set<string>>, CompileError> {
      var closed := ClosedNodes(selected);
      if closed.Ok? then Ok(DetectConflicts(closed.value, edges)) else Err(closed.error)
    }

    /** The mandatory requirements that hold between closed nodes. */
    function ClosureLinks(selected: set<string>): Result<set<(string, string)>, CompileError> {
      var closed := ClosedNodes(selected);
      if closed.Ok?
      then Ok(set e | e in edges && e.Binding() && e.source in closed.value && e.target in closed.value ::
              (e.source, e.target))
      else Err(closed.error)
    }

    function Participating(selected: set<string>): set<Ref> {
      set id, r | id in selected && id in owners && r in owners[id] :: r
    }

    predicate Binds(source: string, target: string) {
      Edge(source, target, Requires, true) in edges
    }

    predicate Excludes(source: string, target: string) {
      Edge(source, target, Conflicts, true) in edges || Edge(source, target, Conflicts, false) in edges
    }
  }

  /** A selection that its own closure leaves as it is. */
  predicate ClosedSelection(g: ResolvedGraph, selected: set<string>) {
    g.CloseAtoms(selected) == Ok(selected)
  }

  /**
   Projecting away the marker nodes loses nothing: the closed atoms of a selection have the
   closure, and so the conflicts and the links, of the selection itself.
   */
  lemma ProjectionLosesNothing(g: ResolvedGraph, selected: set<string>)
    requires g.CloseAtoms(selected).Ok?
    ensures var closed := g.CloseAtoms(selected).value;
            && selected <= closed
            && ClosedSelection(g, closed)
            && g.ClosedNodes(closed) == g.ClosedNodes(selected)
            && g.ConflictsFor(closed) == g.ConflictsFor(selected)
            && g.ConflictsFor(selected).Ok?
            && g.ClosureLinks(closed) == g.ClosureLinks(selected)
  {
    CloseBetween(selected, g.CloseAtoms(selected).value, g.edges);
  }

  lemma CloseAtomsMonotone(g: ResolvedGraph, a: set<string>, b: set<string>)
    requires a <= b && g.CloseAtoms(b).Ok?
    ensures g.CloseAtoms(a).Ok? && g.CloseAtoms(a).value <= g.CloseAtoms(b).value
  {
    CloseMonotone(a, b, g.edges);
  }

  /** A part of something that resolves without conflict resolves without conflict. */
  lemma ConflictFreePart(g: ResolvedGraph, a: set<string>, b: set<string>)
    requires a <= b && g.CloseAtoms(b).Ok? && g.ConflictsFor(b) == Ok({})
    ensures g.CloseAtoms(a).Ok? && g.ConflictsFor(a) == Ok({})
  {
    CloseMonotone(a, b, g.edges);
    ConflictsMonotone(Close(a, g.edges), Close(b, g.edges), g.edges);
  }

  /** Closing a union of atoms gives the union of their closures. */
  lemma CloseAtomsUnion(g: ResolvedGraph, a: set<string>, b: set<string>)
    requires g.CloseAtoms(a + b).Ok?
    ensures g.CloseAtoms(a).Ok? && g.CloseAtoms(b).Ok?
    ensures g.CloseAtoms(a + b).value == g.CloseAtoms(a).value + g.CloseAtoms(b).value
  {
    CloseAtomsMonotone(g, a, a + b);
    CloseAtomsMonotone(g, b, a + b);
    CloseDistributes(a, b, g.edges);
  }

  // ------------------------------------------------- what an assembled graph enforces

  /** Every atom of the capsule was admitted under it, and it has at least one. */
  predicate Complete(g: ResolvedGraph, r: Ref) {
    && r in g.publications
    && g.publications[r].atoms != []
    && forall a | a in g.publications[r].atoms :: a.id in g.owners && r in g.owners[a.id]
  }

  /** The provider is complete, locked by the consumer and satisfies the declared requirement. */
  predicate Serves(g: ResolvedGraph, v: Versions, consumer: Ref, requirement: string, provider: Ref) {
    && consumer in g.publications
    && Complete(g, provider)
    && provider in g.publications[consumer].locks
    && v.Matches(g.publications[provider], requirement)
  }

  ghost predicate ServedByOne(g: ResolvedGraph, v: Versions, consumer: Ref, requirement: string) {
    exists p :: Serves(g, v, consumer, requirement, p) && g.Binds(Presence(consumer), Unit(p))
             && forall p' | Serves(g, v, consumer, requirement, p') :: p' == p
  }

  /** The capsule is complete and provides the interface. */
  predicate Offers(g: ResolvedGraph, interface: string, p: Ref) {
    Complete(g, p) && interface in g.publications[p].interfaces
  }

  /** Each interface the task requires has exactly one complete provider, and its whole payload is among the roots. */
  ghost predicate RootsServe(g: ResolvedGraph, interfaces: seq<string>) {
    forall q | q in interfaces ::
      exists p :: Offers(g, q, p) && (forall p' | Offers(g, q, p') :: p' == p) && g.publications[p].Payload() <= g.roots
  }

  /** Whatever contains the roots serves every required interface, each by exactly one fully contained capsule. */
  lemma InterfaceServed(g: ResolvedGraph, interfaces: seq<string>, selected: set<string>, q: string)
    requires RootsServe(g, interfaces) && g.roots <= selected && q in interfaces
    ensures exists p :: && Offers(g, q, p)
                        && (forall p' | Offers(g, q, p') :: p' == p)
                        && g.publications[p].Payload() <= selected
                        && p in g.Participating(selected)
  {
    var p :| Offers(g, q, p) && (forall p' | Offers(g, q, p') :: p' == p) && g.publications[p].Payload() <= g.roots;
    CompleteParticipates(g, p, selected);
  }

  lemma CompleteParticipates(g: ResolvedGraph, p: Ref, selected: set<string>)
    requires Complete(g, p) && g.publications[p].Payload() <= selected
    ensures p in g.Participating(selected)
  {
    var first := g.publications[p].atoms[0];
    assert first in g.publications[p].atoms && first.id in selected;
  }

  /** What assembly establishes about the nodes and edges of its result. */
  ghost predicate Assembled(g: ResolvedGraph, v: Versions) {
    && g.atoms.Keys == g.owners.Keys
    && (forall id | id in g.atoms :: !IsPrivate(id) && g.atoms[id].id == id && g.owners[id] != {})
    && (forall id, r | id in g.owners && r in g.owners[id] ::
          && r in g.publications
          && id in g.publications[r].Payload()
          && g.Binds(id, Presence(r))
          && g.Binds(Unit(r), id))
    && (forall c, q | c in g.publications && q in g.publications[c].requirements :: ServedByOne(g, v, c, q))
    && (forall c, d, p | c in g.publications && d in g.publications[c].conflicts && p in g.publications
                      && v.Matches(g.publications[p], d) :: g.Excludes(Presence(c), Presence(p)))
    && (forall l, r | l in g.publications && r in g.publications && l != r && l.capsuleId == r.capsuleId ::
          g.Excludes(Presence(l), Presence(r)) || g.Excludes(Presence(r), Presence(l)))
  }

  /** An atom in a closed set brings its owners' presence; a unit brings the whole payload. */
  lemma PresenceOfOwner(g: ResolvedGraph, v: Versions, nodes: set<string>, r: Ref, selected: set<string>)
    requires Assembled(g, v) && Closed(nodes, g.edges) && selected <= nodes && r in g.Participating(selected)
    ensures Presence(r) in nodes && r in g.publications
  {
    var id :| id in selected && id in g.owners && r in g.owners[id];
    assert g.Binds(id, Presence(r));
  }

  /**
   In every closed selection, each participating capsule has each of its manifest requirements
   met by exactly one locked, complete provider whose whole payload is selected; the provider
   then participates itself, so its own requirements are met in turn.
   */
  lemma RequirementsMet(g: ResolvedGraph, v: Versions, selected: set<string>, c: Ref, q: string)
    requires Assembled(g, v) && ClosedSelection(g, selected)
    requires c in g.Participating(selected) && c in g.publications && q in g.publications[c].requirements
    ensures exists p :: && Serves(g, v, c, q, p)
                        && (forall p' | Serves(g, v, c, q, p') :: p' == p)
                        && g.publications[p].Payload() <= selected
                        && p in g.Participating(selected)
  {
    var nodes := Close(selected, g.edges);
    PresenceOfOwner(g, v, nodes, c, selected);
    assert ServedByOne(g, v, c, q);
    var p :| Serves(g, v, c, q, p) && g.Binds(Presence(c), Unit(p))
             && forall p' | Serves(g, v, c, q, p') :: p' == p;
    assert Unit(p) in nodes;
    PayloadOfUnit(g, v, nodes, p, selected);
  }

  lemma PayloadOfUnit(g: ResolvedGraph, v: Versions, nodes: set<string>, p: Ref, selected: set<string>)
    requires Assembled(g, v) && Closed(nodes, g.edges) && selected == nodes * g.atoms.Keys
    requires Complete(g, p) && Unit(p) in nodes
    ensures g.publications[p].Payload() <= selected && p in g.Participating(selected)
  {
    hide ServedByOne;
    forall a | a in g.publications[p].atoms ensures a.id in selected {
      assert g.Binds(Unit(p), a.id);
    }
    var first := g.publications[p].atoms[0];
    assert first in g.publications[p].atoms && first.id in selected;
  }

  /**
   A conflict-free closed selection never mixes two versions of one capsule, nor two capsules one
   of which excludes the other.
   */
  lemma VersionsExclusive(g: ResolvedGraph, v: Versions, selected: set<string>, l: Ref, r: Ref)
    requires Assembled(g, v) && ClosedSelection(g, selected) && g.ConflictsFor(selected) == Ok({})
    requires l in g.Participating(selected) && r in g.Participating(selected)
    ensures l.capsuleId == r.capsuleId ==> l == r
    ensures l in g.publications && r in g.publications
    ensures forall d | d in g.publications[l].conflicts :: !v.Matches(g.publications[r], d)
  {
    var nodes := Close(selected, g.edges);
    PresenceOfOwner(g, v, nodes, l, selected);
    PresenceOfOwner(g, v, nodes, r, selected);
    assert l != r && l.capsuleId == r.capsuleId ==>
             g.Excludes(Presence(l), Presence(r)) || g.Excludes(Presence(r), Presence(l));
    assert forall d | d in g.publications[l].conflicts && v.Matches(g.publications[r], d) ::
             g.Excludes(Presence(l), Presence(r));
  }

  // ------------------------------------------------------ atom and capsule declarations

  /** Every dependency and conflict an atom names is an edge of the graph. */
  predicate AtomsLinked(g: ResolvedGraph) {
    forall id | id in g.atoms ::
      && (forall target | target in g.atoms[id].requiresAtoms :: g.Binds(id, target) && !IsPrivate(target))
      && (forall target | target in g.atoms[id].conflictsWith :: g.Excludes(id, target))
  }

  /** A node that is no marker and that a closed selection leads to is one of its atoms. */
  lemma PublicNode(g: ResolvedGraph, selected: set<string>, node: string)
    requires ClosedSelection(g, selected) && node in Close(selected, g.edges) && !IsPrivate(node)
    ensures node in selected
  {
    forall r | r in g.publications ensures Presence(r) != node && Unit(r) != node {
      MarkersArePrivate(r);
    }
  }

  /**
   In a closed selection every atom has all the atoms it requires and, without conflicts, none of
   those it excludes.
   */
  lemma AtomDependenciesMet(g: ResolvedGraph, v: Versions, selected: set<string>, id: string)
    requires Assembled(g, v) && AtomsLinked(g) && ClosedSelection(g, selected) && id in selected && id in g.atoms
    ensures forall target | target in g.atoms[id].requiresAtoms :: target in selected
    ensures g.ConflictsFor(selected) == Ok({}) ==> forall target | target in g.atoms[id].conflictsWith ::
            target !in selected
  {
    hide Assembled, IsPrivate, Presence, Unit;
    var nodes := Close(selected, g.edges);
    assert id in nodes;
    forall target | target in g.atoms[id].requiresAtoms ensures target in selected {
      assert g.Binds(id, target);
      PublicNode(g, selected, target);
    }
  }

  /** The versions of a capsule name that are in the graph. */
  function Named(publications: map<Ref, Publication>, name: string): set<Ref> {
    set r | r in publications && r.capsuleId == name
  }

  function OwnersOf(owners: map<string, set<Ref>>, name: string): set<Ref> {
    if name in owners then owners[name] else {}
  }

  /** The declaring capsule owns the source of its declaration: itself, or one of its admitted atoms. */
  predicate DeclaredBy(owners: map<string, set<Ref>>, c: Ref, e: Declaration) {
    e.source == c.capsuleId || c in OwnersOf(owners, e.source)
  }

  function SourceNode(c: Ref, e: Declaration): string {
    if e.source == c.capsuleId then Presence(c) else e.source
  }

  /**
   The provider is a complete version of the declared capsule, accepted by the constraint and
   locked by the consumer.
   */
  predicate Answers(g: ResolvedGraph, v: Versions, c: Ref, e: Declaration, p: Ref) {
    && c in g.publications
    && Complete(g, p)
    && p.capsuleId == e.target
    && v.Admit(e, {p})
    && (p == c || p in g.publications[c].locks)
  }

  ghost predicate AnsweredByOne(g: ResolvedGraph, v: Versions, c: Ref, e: Declaration) {
    exists p :: Answers(g, v, c, e, p) && g.Binds(SourceNode(c, e), Unit(p))
             && forall p' | Answers(g, v, c, e, p') :: p' == p
  }

  /** A requirement on an atom: an edge to it, and every capsule owning it is locked and accepted. */
  predicate AnsweredByAtom(g: ResolvedGraph, v: Versions, c: Ref, e: Declaration) {
    && c in g.publications
    && g.Binds(SourceNode(c, e), e.target)
    && v.Admit(e, OwnersOf(g.owners, e.target))
    && forall p | p in OwnersOf(g.owners, e.target) && p != c :: p in g.publications[c].locks
  }

  /** What each declared edge whose source is present stands for in the graph. */
  ghost predicate DeclarationHolds(g: ResolvedGraph, v: Versions, c: Ref, e: Declaration) {
    var versions := Named(g.publications, e.target);
    && !IsPrivate(e.source) && !IsPrivate(e.target)
    && (e.Binding() && versions != {} ==> AnsweredByOne(g, v, c, e))
    && (e.Binding() && versions == {} ==> AnsweredByAtom(g, v, c, e))
    && (e.kind.Conflicts? ==> forall p | p in versions && v.Admit(e, {p}) :: g.Excludes(SourceNode(c, e), Presence(p)))
    && (e.kind.Conflicts? && versions == {} && v.Admit(e, OwnersOf(g.owners, e.target))
        ==> g.Excludes(SourceNode(c, e), e.target))
  }

  ghost predicate DeclarationsHold(g: ResolvedGraph, v: Versions) {
    forall c, e | c in g.publications && e in g.publications[c].declared && DeclaredBy(g.owners, c, e) ::
      DeclarationHolds(g, v, c, e)
  }

  /** The source of a declaration is part of the selection: its atom is, or the declaring capsule participates. */
  predicate Triggered(g: ResolvedGraph, selected: set<string>, c: Ref, e: Declaration) {
    if e.source == c.capsuleId then c in g.Participating(selected)
    else e.source in selected && c in OwnersOf(g.owners, e.source)
  }

  lemma SourceSelected(g: ResolvedGraph, v: Versions, nodes: set<string>, selected: set<string>, c: Ref, e: Declaration)
    requires Assembled(g, v) && Closed(nodes, g.edges) && selected <= nodes && Triggered(g, selected, c, e)
    ensures SourceNode(c, e) in nodes && DeclaredBy(g.owners, c, e)
  {
    hide Presence, Unit, Assembled;
    if e.source == c.capsuleId {
      PresenceOfOwner(g, v, nodes, c, selected);
    }
  }

  /**
   In every closed selection a declared mandatory requirement whose source is selected is met:
   on a capsule name by exactly one complete, locked, accepted version whose whole payload is
   selected; on an atom by that atom, owned only by locked and accepted capsules.
   */
  lemma DeclaredRequirementMet(g: ResolvedGraph, v: Versions, selected: set<string>, c: Ref, e: Declaration)
    requires Assembled(g, v) && DeclarationsHold(g, v) && ClosedSelection(g, selected)
    requires c in g.publications && e in g.publications[c].declared && e.Binding() && Triggered(g, selected, c, e)
    ensures Named(g.publications, e.target) != {} ==>
              exists p :: && Answers(g, v, c, e, p)
                          && (forall p' | Answers(g, v, c, e, p') :: p' == p)
                          && g.publications[p].Payload() <= selected
                          && p in g.Participating(selected)
    ensures Named(g.publications, e.target) == {} ==>
              && e.target in selected
              && v.Admit(e, OwnersOf(g.owners, e.target))
              && forall p | p in OwnersOf(g.owners, e.target) && p != c :: p in g.publications[c].locks
  {
    hide Presence, Unit, Assembled, Answers, Complete;
    var nodes := Close(selected, g.edges);
    SourceSelected(g, v, nodes, selected, c, e);
    assert DeclarationHolds(g, v, c, e);
    if Named(g.publications, e.target) != {} {
      var p :| Answers(g, v, c, e, p) && g.Binds(SourceNode(c, e), Unit(p)) && forall p' | Answers(g, v, c, e, p') ::
          p' == p;
      assert Unit(p) in nodes;
      AnswerIsComplete(g, v, c, e, p);
      PayloadOfUnit(g, v, nodes, p, selected);
    } else {
      assert AnsweredByAtom(g, v, c, e);
      assert g.Binds(SourceNode(c, e), e.target);
      PublicNode(g, selected, e.target);
    }
  }

  lemma AnswerIsComplete(g: ResolvedGraph, v: Versions, c: Ref, e: Declaration, p: Ref)
    requires Answers(g, v, c, e, p)
    ensures Complete(g, p) && p in g.publications
  {
  }

  /** In a conflict-free closed selection no capsule or atom that a selected declaration excludes takes part. */
  lemma DeclaredConflictAvoided(g: ResolvedGraph, v: Versions, selected: set<string>, c: Ref, e: Declaration, p: Ref)
    requires Assembled(g, v) && DeclarationsHold(g, v) && ClosedSelection(g, selected)
             && g.ConflictsFor(selected) == Ok({})
    requires c in g.publications && e in g.publications[c].declared && e.kind.Conflicts? && Triggered(g, selected, c, e)
    requires p in g.Participating(selected) && p.capsuleId == e.target
    ensures !v.Admit(e, {p})
  {
    hide Presence, Unit, Assembled, AnsweredByOne, AnsweredByAtom, Versions.Admit;
    var nodes := Close(selected, g.edges);
    SourceSelected(g, v, nodes, selected, c, e);
    PresenceOfOwner(g, v, nodes, p, selected);
    assert DeclarationHolds(g, v, c, e);
    assert p in Named(g.publications, e.target);
    assert v.Admit(e, {p}) ==> g.Excludes(SourceNode(c, e), Presence(p));
  }
}

/**
 What the queries of a resolved graph and an accepted manifest say about the edges, owners and
 versions themselves.
 */
module GraphMeaning {
  import opened Common
  import opened Closure
  import opened CapsuleGraph
  import opened Selection
  import opened Membership

  // ------------------------------------------------------------------------ the queries

  /** Whatever a node of the set strictly requires is in the set. */
  predicate Saturated(g: ResolvedGraph, nodes: set<string>) {
    forall e | e in g.edges && e.kind == Requires && e.mandatory && e.source in nodes :: e.target in nodes
  }

  /** The node is in every saturated set around the selection. */
  ghost predicate Reached(g: ResolvedGraph, selected: set<string>, x: string) {
    forall nodes: set<string> | selected <= nodes && Saturated(g, nodes) :: x in nodes
  }

  lemma ReachedIsClosed(g: ResolvedGraph, selected: set<string>, x: string)
    ensures Reached(g, selected, x) <==> x in Close(selected, g.edges)
  {
    var closed := Close(selected, g.edges);
    assert Saturated(g, closed);
    forall nodes: set<string> | selected <= nodes && Saturated(g, nodes) ensures closed <= nodes {
      CloseLeast(selected, g.edges, nodes);
    }
  }

  /** The node is an atom of the graph or a marker of one of its capsules. */
  predicate IsNode(g: ResolvedGraph, x: string) {
    x in g.atoms || exists r :: r in g.publications && (x == Presence(r) || x == Unit(r))
  }

  predicate Opposed(g: ResolvedGraph, x: string, y: string) {
    exists mandatory :: Edge(x, y, Conflicts, mandatory) in g.edges
  }

  /**
   The queries about a selection of atoms all speak of the nodes it reaches: they fail exactly
   when the selection has an unknown atom or reaches a node that does not exist, and else give the
   atoms reached, the declared conflicts between nodes reached and the strict requirements
   between nodes reached, each link from the node that requires to the one required.
   */
  lemma QueriesMean(g: ResolvedGraph, selected: set<string>)
    ensures g.CloseAtoms(selected).Ok? <==>
              selected <= g.atoms.Keys && forall x | Reached(g, selected, x) :: IsNode(g, x)
    ensures !(selected <= g.atoms.Keys) ==> g.CloseAtoms(selected) == Err(MissingAtom)
    ensures selected <= g.atoms.Keys && g.CloseAtoms(selected).Err? ==> g.CloseAtoms(selected) == Err(MissingDependency)
    ensures g.CloseAtoms(selected).Ok? ==>
              && g.ConflictsFor(selected).Ok? && g.ClosureLinks(selected).Ok?
              && (forall id :: id in g.CloseAtoms(selected).value <==> id in g.atoms && Reached(g, selected, id))
              && (forall x, y :: (x, y) in g.ClosureLinks(selected).value <==>
                    Edge(x, y, Requires, true) in g.edges && Reached(g, selected, x) && Reached(g, selected, y))
  {
    hide Presence, Unit, Reached, Close;
    forall x ensures Reached(g, selected, x) <==> x in Close(selected, g.edges) {
      ReachedIsClosed(g, selected, x);
    }
    forall x ensures IsNode(g, x) <==> x in g.atoms.Keys + g.Markers() {
    }
    var links := g.ClosureLinks(selected);
    if links.Ok? {
      forall x, y
        ensures (x, y) in links.value <==>
                Edge(x, y, Requires, true) in g.edges && Reached(g, selected, x) && Reached(g, selected, y)
      {
        LinkMeans(g, selected, x, y);
      }
    }
  }

  lemma LinkMeans(g: ResolvedGraph, selected: set<string>, x: string, y: string)
    requires g.ClosureLinks(selected).Ok?
    ensures (x, y) in g.ClosureLinks(selected).value <==>
            Edge(x, y, Requires, true) in g.edges && x in Close(selected, g.edges) && y in Close(selected, g.edges)
  {
    if Edge(x, y, Requires, true) in g.edges {
      assert Edge(x, y, Requires, true).Binding();
    }
  }

  /** The conflicts of a selection are the pairs of nodes it reaches that some edge opposes. */
  lemma ConflictsMean(g: ResolvedGraph, selected: set<string>, pair: set<string>)
    requires g.ConflictsFor(selected).Ok?
    ensures pair in g.ConflictsFor(selected).value <==>
              exists x, y :: pair == {x, y} && Opposed(g, x, y) && Reached(g, selected, x) && Reached(g, selected, y)
    ensures g.ConflictsFor(selected).value == {} <==>
              forall x, y | Opposed(g, x, y) && Reached(g, selected, x) :: !Reached(g, selected, y)
  {
    hide Reached, Close;
    forall x ensures Reached(g, selected, x) <==> x in Close(selected, g.edges) {
      ReachedIsClosed(g, selected, x);
    }
    var conflicts := g.ConflictsFor(selected).value;
    forall x, y | Opposed(g, x, y) && Reached(g, selected, x) && Reached(g, selected, y)
      ensures {x, y} in conflicts
    {
      var mandatory :| Edge(x, y, Conflicts, mandatory) in g.edges;
      assert Edge(x, y, Conflicts, mandatory).kind.Conflicts?;
    }
    forall e | e in g.edges && e.kind.Conflicts? ensures Opposed(g, e.source, e.target) {
      assert Edge(e.source, e.target, Conflicts, e.mandatory) == e;
    }
  }

  // -------------------------------------------------------------------- accepted manifests

  /** The atom may not be left out: its class, the ranker, the task or a required interface asks for it. */
  predicate AskedFor(job: Job, id: string) {
    || (id in job.graph.atoms && job.graph.atoms[id].class_ == P0Exact)
    || (id in job.graph.atoms && job.graph.atoms[id].class_ == P1Structured && Ranked(id, true) in job.ranked)
    || id in job.required
    || id in job.graph.roots
  }

  lemma MandatoryMeans(job: Job, id: string)
    ensures id in job.Mandatory() <==> AskedFor(job, id)
  {
    if id in job.graph.atoms && job.graph.atoms[id].class_ == P1Structured && Ranked(id, true) in job.ranked {
      assert Ranked(id, true).matched;
    }
    if id in job.MatchedP1() {
      var item :| item in job.ranked && item.matched && item.id == id;
      assert item == Ranked(id, true);
    }
  }

  /** The selection is closed exactly when what it reaches exists and its atoms are selected. */
  lemma ClosedMeans(g: ResolvedGraph, selected: set<string>)
    ensures ClosedSelection(g, selected) <==>
              && selected <= g.atoms.Keys
              && forall x | Reached(g, selected, x) :: IsNode(g, x) && (x in g.atoms ==> x in selected)
  {
    hide Reached, IsNode, ResolvedGraph.CloseAtoms, ResolvedGraph.ConflictsFor, ResolvedGraph.ClosureLinks;
    QueriesMean(g, selected);
    Begins(g, selected);
    var closed := g.CloseAtoms(selected);
    assert closed.Ok? && (forall x | Reached(g, selected, x) && x in g.atoms :: x in selected) ==>
             closed.value == selected;
  }

  /**
   A selection is valid exactly when it holds every atom that is asked for and every atom it
   reaches, reaches no node that does not exist and no two nodes that an edge opposes.
   */
  lemma ValidMeans(job: Job, selected: set<string>)
    ensures Valid(job, selected) <==>
              && selected <= job.graph.atoms.Keys
              && (forall id | AskedFor(job, id) :: id in selected)
              && (forall x | Reached(job.graph, selected, x) ::
                    IsNode(job.graph, x) && (x in job.graph.atoms ==> x in selected))
              && (forall x, y | Opposed(job.graph, x, y) && Reached(job.graph, selected, x) ::
                    !Reached(job.graph, selected, y))
  {
    hide Reached, Job.Mandatory, AskedFor, IsNode, Opposed, ResolvedGraph.CloseAtoms, ResolvedGraph.ConflictsFor,
      ResolvedGraph.ClosureLinks;
    var g := job.graph;
    ClosedMeans(g, selected);
    forall id ensures id in job.Mandatory() <==> AskedFor(job, id) {
      MandatoryMeans(job, id);
    }
    if ClosedSelection(g, selected) {
      ProjectionLosesNothing(g, selected);
      ConflictsMean(g, selected, {});
      if job.Mandatory() <= selected {
        CloseAtomsMonotone(g, job.Mandatory(), selected);
      }
    }
    if g.CloseAtoms(job.Mandatory()).Ok? {
      AtomsOfClosure(g, job.Mandatory());
    }
  }

  lemma Begins(g: ResolvedGraph, selected: set<string>)
    ensures forall x | x in selected :: Reached(g, selected, x)
  {
  }

  /** The owner of a selected atom, with that atom. */
  predicate TakesPart(g: ResolvedGraph, selected: set<string>, c: Ref) {
    exists id :: id in selected && id in g.owners && c in g.owners[id]
  }

  /**
   What an accepted manifest lists: as capsules exactly the owners of selected atoms, as links
   exactly the strict requirements between nodes the selection reaches, each in the direction of
   the requirement, no conflicts, and for every owner and atom of the graph whether the atom is
   selected.
   */
  lemma RecordsMean(g: ResolvedGraph, m: Manifest, selected: set<string>)
    requires Records(g, m, selected)
    ensures m.conflicts == {}
    ensures forall c :: c in m.capsules <==> TakesPart(g, selected, c)
    ensures forall x, y :: (x, y) in m.closure <==>
              Edge(x, y, Requires, true) in g.edges && Reached(g, selected, x) && Reached(g, selected, y)
    ensures forall d | d in m.decisions ::
              && d.atom in g.atoms && d.atom in g.owners && d.capsule in g.owners[d.atom]
              && (d.selected <==> d.atom in selected)
    ensures forall id, c | id in g.atoms && id in g.owners && c in g.owners[id] ::
              exists d :: d in m.decisions && d.capsule == c && d.atom == id
  {
    hide Reached, ResolvedGraph.ClosureLinks;
    QueriesMean(g, selected);
    LinksDefined(g, selected);
    forall id, c | id in g.atoms && id in g.owners && c in g.owners[id]
      ensures exists d :: d in m.decisions && d.capsule == c && d.atom == id
    {
      assert (c, id) in ExpectedKeys(g);
    }
  }

  /**
   The manifest of a session decides on each atom of the graph under each of its owners: it says
   whether the atom is selected and gives the reason the session has for it, or that compilation
   was blocked when it has none; it hands on the conflicts, and lists no capsules when two of the
   participating ones share an id.
   */
  lemma ManifestMeans(job: Job, st: State)
    ensures var m := BuildManifest(job, st);
            && (forall d :: d in m.decisions <==>
                  && d.atom in job.graph.atoms && d.atom in job.graph.owners && d.capsule in job.graph.owners[d.atom]
                  && (d.selected <==> d.atom in st.selected)
                  && d.reason == if d.atom in st.reasons then st.reasons[d.atom] else CompilationBlocked)
            && m.conflicts == st.conflicts
            && (forall c :: c in m.capsules ==> TakesPart(job.graph, st.selected, c))
            && (forall l, r | l in m.capsules && r in m.capsules && l.capsuleId == r.capsuleId :: l == r)
  {
    hide ResolvedGraph.ClosureLinks;
    var m := BuildManifest(job, st);
    forall d: Decision | && d.atom in job.graph.atoms && d.atom in job.graph.owners
                         && d.capsule in job.graph.owners[d.atom]
                         && (d.selected <==> d.atom in st.selected)
                         && d.reason == (if d.atom in st.reasons then st.reasons[d.atom] else CompilationBlocked)
      ensures d in m.decisions
    {
      assert (d.capsule, d.atom) in ExpectedKeys(job.graph);
      assert d == Decision(d.capsule, d.atom, d.selected, d.reason);
    }
  }

  /** After a completed selection every decision has the session's own reason. */
  lemma ReasonsRecorded(job: Job, st: State, d: Decision)
    requires Selected(job, st) && d in BuildManifest(job, st).decisions
    ensures d.atom in st.reasons && d.reason == st.reasons[d.atom]
  {
    hide Sound, Refused, Job.Mandatory, Job.Matched, ResolvedGraph.ClosureLinks, ResolvedGraph.Participating;
    assert d.atom in job.graph.atoms;
  }

  /**
   From assembly: an accepted manifest lists a link from each selected atom to every atom it
   requires, from it to the presence of each of its owners, and from the presence of each listed
   capsule to the unit of the one provider of each of its requirements.
   */
  lemma LinksListed(g: ResolvedGraph, v: Versions, m: Manifest, selected: set<string>)
    requires Assembled(g, v) && AtomsLinked(g) && ClosedSelection(g, selected) && Records(g, m, selected)
    ensures forall id, target | id in selected && id in g.atoms && target in g.atoms[id].requiresAtoms ::
              (id, target) in m.closure
    ensures forall id, c | id in selected && id in g.owners && c in g.owners[id] :: (id, Presence(c)) in m.closure
    ensures forall c, q | c in m.capsules && c in g.publications && q in g.publications[c].requirements ::
              exists p :: && Serves(g, v, c, q, p) && (forall p' | Serves(g, v, c, q, p') :: p' == p)
                          && (Presence(c), Unit(p)) in m.closure
  {
    hide Reached, Presence, Unit, ResolvedGraph.ClosureLinks, Assembled, Serves, Close, ResolvedGraph.Participating;
    var nodes := Close(selected, g.edges);
    RecordsMean(g, m, selected);
    forall x ensures Reached(g, selected, x) <==> x in nodes {
      ReachedIsClosed(g, selected, x);
    }
    forall id, target | id in selected && id in g.atoms && target in g.atoms[id].requiresAtoms
      ensures (id, target) in m.closure
    {
      assert g.Binds(id, target);
      BoundReached(g, nodes, id, target);
    }
    forall id, c | id in selected && id in g.owners && c in g.owners[id] ensures (id, Presence(c)) in m.closure {
      OwnerBinds(g, v, id, c);
      BoundReached(g, nodes, id, Presence(c));
    }
    forall c, q | c in m.capsules && c in g.publications && q in g.publications[c].requirements
      ensures exists p :: && Serves(g, v, c, q, p) && (forall p' | Serves(g, v, c, q, p') :: p' == p)
                          && (Presence(c), Unit(p)) in m.closure
    {
      PresenceOfOwner(g, v, nodes, c, selected);
      ServedOnce(g, v, c, q);
      var p :| Serves(g, v, c, q, p) && g.Binds(Presence(c), Unit(p)) && forall p' | Serves(g, v, c, q, p') :: p' == p;
      BoundReached(g, nodes, Presence(c), Unit(p));
    }
  }

  lemma BoundReached(g: ResolvedGraph, nodes: set<string>, x: string, y: string)
    requires Closed(nodes, g.edges) && x in nodes && g.Binds(x, y)
    ensures y in nodes && Edge(x, y, Requires, true) in g.edges
  {
    assert Edge(x, y, Requires, true).Binding();
  }

  lemma OwnerBinds(g: ResolvedGraph, v: Versions, id: string, c: Ref)
    requires Assembled(g, v) && id in g.owners && c in g.owners[id]
    ensures g.Binds(id, Presence(c))
  {
    hide ServedByOne, Presence, Unit;
  }

  lemma ServedOnce(g: ResolvedGraph, v: Versions, c: Ref, q: string)
    requires Assembled(g, v) && c in g.publications && q in g.publications[c].requirements
    ensures ServedByOne(g, v, c, q)
  {
    hide ServedByOne, Presence, Unit;
  }

  // ----------------------------------------------------------------------- versions and locks

  /** The capsule publishes an interface of the family at a version the constraint accepts. */
  predicate Publishes(v: Versions, p: Publication, family: string, constraint: string) {
    && v.satisfies(p.ref.version, constraint)
    && exists i :: 0 <= i < |p.interfaces| && v.family(p.interfaces[i]) == Some(family)
  }

  lemma MatchesMeans(v: Versions, p: Publication, declared: string)
    ensures v.Matches(p, declared) <==>
              exists family, constraint ::
                v.declaration(declared) == Some((family, constraint)) && Publishes(v, p, family, constraint)
  {
    if v.Matches(p, declared) {
      var (family, constraint) := v.declaration(declared).value;
      var value :| value in p.interfaces && v.family(value) == Some(family);
      assert Publishes(v, p, family, constraint);
    }
  }

  /**
   In a closed selection each requirement of each participating capsule names a family and a
   constraint, and a capsule that the consumer locks publishes that family at an accepted
   version; every one of its atoms is admitted and selected, and it has at least one.
   */
  lemma RequirementMeans(g: ResolvedGraph, v: Versions, selected: set<string>, c: Ref, q: string)
    requires Assembled(g, v) && ClosedSelection(g, selected)
    requires TakesPart(g, selected, c) && c in g.publications && q in g.publications[c].requirements
    ensures exists p, family, constraint ::
              && p in g.publications && p in g.publications[c].locks
              && v.declaration(q) == Some((family, constraint))
              && Publishes(v, g.publications[p], family, constraint)
              && g.publications[p].atoms != []
              && forall a | a in g.publications[p].atoms ::
                   a.id in selected && a.id in g.owners && p in g.owners[a.id]
  {
    hide Assembled, ClosedSelection, Publishes, Versions.Matches, Close;
    RequirementsMet(g, v, selected, c, q);
    var p :| Serves(g, v, c, q, p) && g.publications[p].Payload() <= selected;
    MatchesMeans(v, g.publications[p], q);
    var family, constraint :| v.declaration(q) == Some((family, constraint))
                              && Publishes(v, g.publications[p], family, constraint);
  }

  /**
   In a conflict-free closed selection no participating capsule publishes a family and version
   that another one declares a conflict with, and no capsule takes part in two versions.
   */
  lemma ConflictMeans(g: ResolvedGraph, v: Versions, selected: set<string>, l: Ref, r: Ref)
    requires Assembled(g, v) && ClosedSelection(g, selected) && g.ConflictsFor(selected) == Ok({})
    requires TakesPart(g, selected, l) && TakesPart(g, selected, r)
    ensures l in g.publications && r in g.publications
    ensures l.capsuleId == r.capsuleId ==> l == r
    ensures forall d, family, constraint | d in g.publications[l].conflicts
                && v.declaration(d) == Some((family, constraint)) ::
              !Publishes(v, g.publications[r], family, constraint)
  {
    hide Assembled, ClosedSelection, Publishes, Versions.Matches, Close, ResolvedGraph.ConflictsFor;
    VersionsExclusive(g, v, selected, l, r);
    forall d, family, constraint | d in g.publications[l].conflicts && v.declaration(d) == Some((family, constraint))
      ensures !Publishes(v, g.publications[r], family, constraint)
    {
      MatchesMeans(v, g.publications[r], d);
    }
  }

  /**
   A declared strict requirement whose source is selected is met.  On a capsule name: by a
   version that the declaring capsule is or locks, that the constraint accepts if there is one,
   and that is selected whole.  On an atom: by that atom, every owner of which is the declaring
   capsule or locked by it, and accepted by the constraint.
   */
  lemma DeclarationMeans(g: ResolvedGraph, v: Versions, selected: set<string>, c: Ref, e: Declaration)
    requires Assembled(g, v) && DeclarationsHold(g, v) && ClosedSelection(g, selected)
    requires c in g.publications && e in g.publications[c].declared
    requires e.kind == Requires && e.mandatory && Triggered(g, selected, c, e)
    ensures if exists r :: r in g.publications && r.capsuleId == e.target
            then exists p ::
                   && p in g.publications && p.capsuleId == e.target && (p == c || p in g.publications[c].locks)
                   && (e.constraint.Some? ==> v.satisfies(p.version, e.constraint.value))
                   && g.publications[p].atoms != []
                   && forall a | a in g.publications[p].atoms :: a.id in selected
            else && e.target in selected
                 && (e.target in g.owners ==> forall p | p in g.owners[e.target] ::
                       && (p == c || p in g.publications[c].locks)
                       && (e.constraint.Some? ==> v.satisfies(p.version, e.constraint.value)))
  {
    hide Assembled, ClosedSelection, DeclarationsHold, Triggered, Close;
    DeclaredRequirementMet(g, v, selected, c, e);
    if r :| r in g.publications && r.capsuleId == e.target {
      assert r in Named(g.publications, e.target);
      var p :| Answers(g, v, c, e, p) && g.publications[p].Payload() <= selected;
      assert p in {p};
    }
  }

  /**
   A declared conflict whose source is selected keeps out every version of the named capsule that
   the constraint accepts; on an atom it keeps the atom out if there is no constraint or some
   owner of the atom is accepted by it.
   */
  lemma DeclaredConflictMeans(g: ResolvedGraph, v: Versions, selected: set<string>, c: Ref, e: Declaration)
    requires Assembled(g, v) && DeclarationsHold(g, v) && ClosedSelection(g, selected)
    requires g.ConflictsFor(selected) == Ok({})
    requires c in g.publications && e in g.publications[c].declared
    requires e.kind == Conflicts && Triggered(g, selected, c, e)
    ensures forall p | TakesPart(g, selected, p) && p.capsuleId == e.target ::
              e.constraint.Some? && !v.satisfies(p.version, e.constraint.value)
    ensures (forall r | r in g.publications :: r.capsuleId != e.target) && e.target in selected ==>
              && e.constraint.Some?
              && (e.target in g.owners ==> forall p | p in g.owners[e.target] ::
                    !v.satisfies(p.version, e.constraint.value))
  {
    hide Assembled, ClosedSelection, Triggered, Close, ResolvedGraph.ConflictsFor, DeclarationsHold;
    forall p | TakesPart(g, selected, p) && p.capsuleId == e.target
      ensures e.constraint.Some? && !v.satisfies(p.version, e.constraint.value)
    {
      DeclaredConflictAvoided(g, v, selected, c, e, p);
      assert p in {p};
    }
    if (forall r | r in g.publications :: r.capsuleId != e.target) && e.target in selected {
      AtomConflictAvoided(g, v, selected, c, e);
    }
  }

  lemma AtomConflictAvoided(g: ResolvedGraph, v: Versions, selected: set<string>, c: Ref, e: Declaration)
    requires Assembled(g, v) && DeclarationsHold(g, v) && ClosedSelection(g, selected)
    requires g.ConflictsFor(selected) == Ok({})
    requires c in g.publications && e in g.publications[c].declared && e.kind.Conflicts? && Triggered(g, selected, c, e)
    requires Named(g.publications, e.target) == {} && e.target in selected
    ensures !v.Admit(e, OwnersOf(g.owners, e.target))
  {
    hide Presence, Unit, Assembled, AnsweredByOne, AnsweredByAtom, Versions.Admit;
    var nodes := Close(selected, g.edges);
    SourceSelected(g, v, nodes, selected, c, e);
    assert DeclarationHolds(g, v, c, e);
  }
}

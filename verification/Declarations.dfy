/**
 How the edges that capsules declare between names are resolved, and how edges are inserted.
 */
module Declarations {
  import opened Closure
  import opened CapsuleGraph

  datatype EdgeKey = EdgeKey(source: string, target: string, kind: EdgeKind)

  // ---------------------------------------------------------------------- insertion

  /** The keys were inserted; an edge that was mandatory stays so. */
  ghost predicate Inserted(before: map<EdgeKey, bool>, after: map<EdgeKey, bool>, keys: set<EdgeKey>, mandatory: bool) {
    && after.Keys == before.Keys + keys
    && forall k | k in after :: after[k] == ((k in keys && mandatory) || (k in before && before[k]))
  }

  lemma InsertedNothing(edges: map<EdgeKey, bool>, mandatory: bool)
    ensures Inserted(edges, edges, {}, mandatory)
  {
  }

  lemma InsertedOne(edges: map<EdgeKey, bool>, k: EdgeKey, mandatory: bool)
    ensures Inserted(edges, edges[k := mandatory || (k in edges && edges[k])], {k}, mandatory)
  {
  }

  /** Insertions never remove an edge nor make a mandatory one optional. */
  ghost predicate Sticky(before: map<EdgeKey, bool>, after: map<EdgeKey, bool>) {
    before.Keys <= after.Keys && forall k | k in before && before[k] :: after[k]
  }

  ghost predicate Holds(edges: map<EdgeKey, bool>, keys: set<EdgeKey>, mandatory: bool) {
    keys <= edges.Keys && (mandatory ==> forall k | k in keys :: edges[k])
  }

  // --------------------------------------------------------------------- resolution

  /** The versions that can answer a mandatory requirement on a capsule name. */
  function Answering(v: Versions, publications: map<Ref, Publication>, complete: set<Ref>, c: Ref,
                     e: Declaration): set<Ref>
    requires c in publications
  {
    set p | p in Named(publications, e.target) && p in complete && v.Admit(e, {p})
      && (p == c || p in publications[c].locks)
  }

  /** Whether a name denotes one kind of node. */
  predicate NameOk(publications: map<Ref, Publication>, known: set<string>, name: string) {
    !IsPrivate(name) && (Named(publications, name) == {} || name !in known)
  }

  predicate Resolves(v: Versions, publications: map<Ref, Publication>, owners: map<string, set<Ref>>,
                     complete: set<Ref>,
                     known: set<string>, c: Ref, e: Declaration)
    requires c in publications
  {
    && (e.constraint.Some? ==> v.constraint(e.constraint.value))
    && NameOk(publications, known, e.source) && NameOk(publications, known, e.target)
    && (e.source == c.capsuleId || e.source in publications[c].Payload())
    && (DeclaredBy(owners, c, e) && e.Binding() ==>
          if Named(publications, e.target) != {} then |Answering(v, publications, complete, c, e)| == 1
          else
            && v.Admit(e, OwnersOf(owners, e.target))
            && forall p | p in OwnersOf(owners, e.target) && p != c :: p in publications[c].locks)
  }

  /** The edges a declaration stands for. */
  function DeclaredEdges(v: Versions, publications: map<Ref, Publication>, owners: map<string, set<Ref>>,
                         complete: set<Ref>,
                         c: Ref, e: Declaration): set<EdgeKey>
    requires c in publications
  {
    if !DeclaredBy(owners, c, e) then {}
    else if Named(publications, e.target) == {} then
      if v.Admit(e, OwnersOf(owners, e.target)) then {EdgeKey(SourceNode(c, e), e.target, e.kind)} else {}
    else if e.Binding() then
      set p | p in Answering(v, publications, complete, c, e) :: EdgeKey(SourceNode(c, e), Unit(p), e.kind)
    else
      set p | p in Named(publications, e.target) && v.Admit(e, {p}) :: EdgeKey(SourceNode(c, e), Presence(p), e.kind)
  }

  /** The edges of a set of declarations, each with the capsule that makes it. */
  function EdgesOf(v: Versions, publications: map<Ref, Publication>, owners: map<string, set<Ref>>, complete: set<Ref>,
                   made: set<(Ref, Declaration)>): set<EdgeKey>
    requires forall p | p in made :: p.0 in publications
  {
    set p, k | p in made && k in DeclaredEdges(v, publications, owners, complete, p.0, p.1) :: k
  }

  function Firm(made: set<(Ref, Declaration)>): set<(Ref, Declaration)> {
    set p | p in made && p.1.mandatory
  }

  function AllDeclared(publications: map<Ref, Publication>): set<(Ref, Declaration)> {
    set c, e | c in publications && e in publications[c].declared :: (c, e)
  }

  /** Exactly the edges of these declarations were added, mandatory if one of them is. */
  ghost predicate Added(v: Versions, publications: map<Ref, Publication>, owners: map<string, set<Ref>>,
                        complete: set<Ref>,
                        before: map<EdgeKey, bool>, after: map<EdgeKey, bool>, made: set<(Ref, Declaration)>)
    requires forall p | p in made :: p.0 in publications
  {
    && after.Keys == before.Keys + EdgesOf(v, publications, owners, complete, made)
    && forall k | k in after ::
         after[k] <==> (k in before && before[k]) || k in EdgesOf(v, publications, owners, complete, Firm(made))
  }

  lemma AddedNothing(v: Versions, publications: map<Ref, Publication>, owners: map<string, set<Ref>>,
                     complete: set<Ref>,
                     edges: map<EdgeKey, bool>)
    ensures Added(v, publications, owners, complete, edges, edges, {})
  {
    hide DeclaredEdges;
  }

  lemma EdgesOfMore(v: Versions, publications: map<Ref, Publication>, owners: map<string, set<Ref>>, complete: set<Ref>,
                    made: set<(Ref, Declaration)>, c: Ref, e: Declaration)
    requires c in publications && forall p | p in made :: p.0 in publications
    ensures EdgesOf(v, publications, owners, complete, made + {(c, e)})
         == EdgesOf(v, publications, owners, complete, made) + DeclaredEdges(v, publications, owners, complete, c, e)
  {
    hide DeclaredEdges;
    var all := made + {(c, e)};
    assert (c, e) in all;
    assert forall p | p in made :: p in all;
  }

  lemma FirmWithin(v: Versions, publications: map<Ref, Publication>, owners: map<string, set<Ref>>, complete: set<Ref>,
                   made: set<(Ref, Declaration)>)
    requires forall p | p in made :: p.0 in publications
    ensures EdgesOf(v, publications, owners, complete, Firm(made)) <= EdgesOf(v, publications, owners, complete, made)
  {
    hide DeclaredEdges;
  }

  lemma AddedOne(v: Versions, publications: map<Ref, Publication>, owners: map<string, set<Ref>>, complete: set<Ref>,
                 start: map<EdgeKey, bool>, before: map<EdgeKey, bool>, after: map<EdgeKey, bool>,
                 made: set<(Ref, Declaration)>, c: Ref, e: Declaration)
    requires c in publications && forall p | p in made :: p.0 in publications
    requires Added(v, publications, owners, complete, start, before, made)
    requires Inserted(before, after, DeclaredEdges(v, publications, owners, complete, c, e), e.mandatory)
    ensures Added(v, publications, owners, complete, start, after, made + {(c, e)})
  {
    hide DeclaredEdges, EdgesOf;
    EdgesOfMore(v, publications, owners, complete, made, c, e);
    if e.mandatory {
      assert Firm(made + {(c, e)}) == Firm(made) + {(c, e)};
      EdgesOfMore(v, publications, owners, complete, Firm(made), c, e);
    } else {
      assert Firm(made + {(c, e)}) == Firm(made);
      FirmWithin(v, publications, owners, complete, made);
    }
  }

  /** Adding declarations loses no earlier edge, and the edges of each of them are there. */
  lemma AddedHolds(v: Versions, publications: map<Ref, Publication>, owners: map<string, set<Ref>>, complete: set<Ref>,
                   before: map<EdgeKey, bool>, after: map<EdgeKey, bool>, made: set<(Ref, Declaration)>)
    requires forall p | p in made :: p.0 in publications
    requires Added(v, publications, owners, complete, before, after, made)
    ensures Sticky(before, after)
    ensures forall c, e | (c, e) in made :: Holds(after, DeclaredEdges(v, publications, owners, complete, c, e),
                                                  e.mandatory)
  {
    hide DeclaredEdges;
    forall c, e | (c, e) in made
      ensures Holds(after, DeclaredEdges(v, publications, owners, complete, c, e), e.mandatory)
    {
      forall k | k in DeclaredEdges(v, publications, owners, complete, c, e)
        ensures k in after && (e.mandatory ==> after[k])
      {
        assert k in EdgesOf(v, publications, owners, complete, made);
        assert e.mandatory ==> (c, e) in Firm(made);
      }
    }
  }

  lemma AnsweringOne(v: Versions, publications: map<Ref, Publication>, owners: map<string, set<Ref>>,
                     complete: set<Ref>,
                     c: Ref, e: Declaration, p: Ref)
    requires c in publications && DeclaredBy(owners, c, e) && e.Binding() && Named(publications, e.target) != {}
    requires Answering(v, publications, complete, c, e) == {p}
    ensures DeclaredEdges(v, publications, owners, complete, c, e) == {EdgeKey(SourceNode(c, e), Unit(p), e.kind)}
  {
    hide Answering, Unit, SourceNode;
  }

  /** What is inserted for a resolved declaration is what the finished graph promises about it. */
  lemma ResolvedHolds(g: ResolvedGraph, v: Versions, edges: map<EdgeKey, bool>, complete: set<Ref>,
                      known: set<string>, c: Ref, e: Declaration)
    requires c in g.publications && DeclaredBy(g.owners, c, e)
    requires forall p | p in g.publications :: p in complete <==> Complete(g, p)
    requires Resolves(v, g.publications, g.owners, complete, known, c, e)
    requires Holds(edges, DeclaredEdges(v, g.publications, g.owners, complete, c, e), e.mandatory)
    requires forall k | k in edges :: Edge(k.source, k.target, k.kind, edges[k]) in g.edges
    ensures DeclarationHolds(g, v, c, e)
  {
    hide Presence, Unit, SourceNode, Complete, IsPrivate, Versions.Admit, DeclaredBy;
    var versions := Named(g.publications, e.target);
    var keys := DeclaredEdges(v, g.publications, g.owners, complete, c, e);
    if e.Binding() && versions != {} {
      AnsweringServes(g, v, edges, complete, known, c, e);
    }
    if e.kind.Conflicts? {
      forall p | p in versions && v.Admit(e, {p}) ensures g.Excludes(SourceNode(c, e), Presence(p)) {
        assert EdgeKey(SourceNode(c, e), Presence(p), Conflicts) in keys;
      }
    }
    assert versions == {} && v.Admit(e, OwnersOf(g.owners, e.target))
           ==> EdgeKey(SourceNode(c, e), e.target, e.kind) in keys;
  }

  lemma AnsweringServes(g: ResolvedGraph, v: Versions, edges: map<EdgeKey, bool>, complete: set<Ref>,
                        known: set<string>, c: Ref, e: Declaration)
    requires c in g.publications && DeclaredBy(g.owners, c, e) && e.Binding() && Named(g.publications, e.target) != {}
    requires forall p | p in g.publications :: p in complete <==> Complete(g, p)
    requires Resolves(v, g.publications, g.owners, complete, known, c, e)
    requires Holds(edges, DeclaredEdges(v, g.publications, g.owners, complete, c, e), e.mandatory)
    requires forall k | k in edges :: Edge(k.source, k.target, k.kind, edges[k]) in g.edges
    ensures AnsweredByOne(g, v, c, e)
  {
    hide Presence, Unit, SourceNode, Complete, IsPrivate, Versions.Admit, DeclaredBy;
    var answering := Answering(v, g.publications, complete, c, e);
    var p :| p in answering;
    SingletonIs(answering, p);
    assert EdgeKey(SourceNode(c, e), Unit(p), e.kind) in DeclaredEdges(v, g.publications, g.owners, complete, c, e);
    forall p' | Answers(g, v, c, e, p') ensures p' == p {
      PublishedIfComplete(g, p');
      assert p' in answering;
    }
  }

  lemma PublishedIfComplete(g: ResolvedGraph, p: Ref)
    requires Complete(g, p)
    ensures p in g.publications
  {
  }

  lemma SingletonIs(candidates: set<Ref>, r: Ref)
    requires |candidates| == 1 && r in candidates
    ensures candidates == {r}
  {
    assert |candidates - {r}| == 0;
  }
}

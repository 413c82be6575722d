/**
 Mandatory dependency closure and conflict detection over a graph of named nodes, and the
 two algorithms that compute the closure: a worklist, and the round-robin passes of the
 reference semantics.
 */
module Closure {
  datatype EdgeKind = Requires | Provides | Conflicts | Replaces | Optional

  datatype Edge = Edge(source: string, target: string, kind: EdgeKind, mandatory: bool)
  {
    predicate Binding() {
      kind.Requires? && mandatory
    }
  }

  /** No mandatory requirement leads out of the nodes. */
  predicate Closed(nodes: set<string>, edges: set<Edge>) {
    forall e | e in edges && e.Binding() && e.source in nodes :: e.target in nodes
  }

  function Required(nodes: set<string>, edges: set<Edge>): set<string> {
    set e | e in edges && e.Binding() && e.source in nodes :: e.target
  }

  function Targets(edges: set<Edge>): set<string> {
    set e | e in edges && e.Binding() :: e.target
  }

  /** The nodes reachable along mandatory requirements. */
  function Close(nodes: set<string>, edges: set<Edge>): (closed: set<string>)
    ensures nodes <= closed && Closed(closed, edges)
    decreases Targets(edges) - nodes
  {
    if Required(nodes, edges) <= nodes then nodes
    else
      var more := nodes + Required(nodes, edges);
      assert Targets(edges) - more < Targets(edges) - nodes by {
        var x :| x in Required(nodes, edges) && x !in nodes;
        assert x in Targets(edges) - nodes && x !in Targets(edges) - more;
      }
      Close(more, edges)
  }

  // ---------------------------------------------------------------------- laws

  /** The closure is the least closed superset. */
  lemma {:induction false} CloseLeast(nodes: set<string>, edges: set<Edge>, other: set<string>)
    requires nodes <= other && Closed(other, edges)
    ensures Close(nodes, edges) <= other
    decreases Targets(edges) - nodes
  {
    if !(Required(nodes, edges) <= nodes) {
      var more := nodes + Required(nodes, edges);
      assert Targets(edges) - more < Targets(edges) - nodes by {
        var x :| x in Required(nodes, edges) && x !in nodes;
        assert x in Targets(edges) - nodes && x !in Targets(edges) - more;
      }
      CloseLeast(more, edges, other);
    }
  }

  lemma CloseMonotone(a: set<string>, b: set<string>, edges: set<Edge>)
    requires a <= b
    ensures Close(a, edges) <= Close(b, edges)
  {
    CloseLeast(a, edges, Close(b, edges));
  }

  lemma CloseIdempotent(nodes: set<string>, edges: set<Edge>)
    ensures Close(Close(nodes, edges), edges) == Close(nodes, edges)
  {
    CloseLeast(Close(nodes, edges), edges, Close(nodes, edges));
  }

  /** Anything between a set and its closure has the same closure. */
  lemma CloseBetween(nodes: set<string>, between: set<string>, edges: set<Edge>)
    requires nodes <= between <= Close(nodes, edges)
    ensures Close(between, edges) == Close(nodes, edges)
  {
    CloseMonotone(nodes, between, edges);
    CloseLeast(between, edges, Close(nodes, edges));
  }

  lemma CloseDistributes(a: set<string>, b: set<string>, edges: set<Edge>)
    ensures Close(a + b, edges) == Close(a, edges) + Close(b, edges)
  {
    CloseMonotone(a, a + b, edges);
    CloseMonotone(b, a + b, edges);
    CloseLeast(a + b, edges, Close(a, edges) + Close(b, edges));
  }

  // ------------------------------------------------------------------- worklist

  function EdgeSet(edges: seq<Edge>): set<Edge> {
    set e | e in edges
  }

  function Lookup(dependencies: map<string, set<string>>, node: string): set<string> {
    if node in dependencies then dependencies[node] else {}
  }

  method DependencyMap(edges: seq<Edge>) returns (dependencies: map<string, set<string>>)
    ensures forall n :: Lookup(dependencies, n) == Required({n}, EdgeSet(edges))
  {
    dependencies := map[];
    for i := 0 to |edges|
      invariant forall n :: Lookup(dependencies, n) == Required({n}, EdgeSet(edges[..i]))
    {
      var e := edges[i];
      ghost var before := dependencies;
      if e.Binding() {
        dependencies := dependencies[e.source := Lookup(dependencies, e.source) + {e.target}];
      }
      forall n ensures Lookup(dependencies, n) == Required({n}, EdgeSet(edges[..i + 1])) {
        assert EdgeSet(edges[..i + 1]) == EdgeSet(edges[..i]) + {e};
        assert Lookup(before, n) == Required({n}, EdgeSet(edges[..i]));
        assert Required({n}, EdgeSet(edges[..i]) + {e})
            == Required({n}, EdgeSet(edges[..i])) + (if e.Binding() && e.source == n then {e.target} else {});
      }
    }
    assert edges[..|edges|] == edges;
  }

  method Listed(nodes: set<string>) returns (list: seq<string>)
    ensures forall n :: n in list <==> n in nodes
  {
    list := [];
    var rest := nodes;
    while rest != {}
      invariant forall n :: n in nodes <==> n in list || n in rest
    {
      var n :| n in rest;
      list, rest := list + [n], rest - {n};
    }
  }

  /** The worklist: pops a node, adds the targets it has not met, and stops when nothing is pending. */
  method DependencyClosure(selected: set<string>, edges: seq<Edge>) returns (closed: set<string>)
    ensures closed == Close(selected, EdgeSet(edges))
  {
    ghost var all := EdgeSet(edges);
    var dependencies := DependencyMap(edges);
    closed := selected;
    var pending := Listed(selected);
    while pending != []
      invariant selected <= closed <= Close(selected, all)
      invariant forall n | n in pending :: n in closed
      invariant forall n | n in closed && n !in pending :: Lookup(dependencies, n) <= closed
      decreases Targets(all) - closed, |pending|
    {
      var node := pending[|pending| - 1];
      ghost var closedBefore, pendingBefore := closed, pending;
      pending := pending[..|pending| - 1];
      assert pendingBefore == pending + [node];
      var targets := Lookup(dependencies, node);
      assert targets == Required({node}, all);
      while targets != {}
        invariant targets <= Lookup(dependencies, node) <= Close(selected, all)
        invariant closedBefore <= closed <= Close(selected, all)
        invariant Lookup(dependencies, node) - targets <= closed
        invariant forall n | n in pending :: n in closed
        invariant forall n | n in closed && n !in pending && n != node :: Lookup(dependencies, n) <= closed
        invariant node in closed
        invariant closed == closedBefore ==> |pending| < |pendingBefore|
        invariant closed != closedBefore ==> Targets(all) - closed < Targets(all) - closedBefore
      {
        var target :| target in targets;
        targets := targets - {target};
        if target !in closed {
          closed := closed + {target};
          pending := pending + [target];
          assert target in Targets(all);
          assert forall n | n in closed && n !in pending && n != node ::
              n in closed - {target} && n !in pending[..|pending| - 1];
        }
      }
    }
    WorklistDone(selected, all, closed, dependencies);
  }

  lemma WorklistDone(selected: set<string>, all: set<Edge>, closed: set<string>, dependencies: map<string, set<string>>)
    requires selected <= closed <= Close(selected, all)
    requires forall n :: Lookup(dependencies, n) == Required({n}, all)
    requires forall n | n in closed :: Lookup(dependencies, n) <= closed
    ensures closed == Close(selected, all)
  {
    forall e | e in all && e.Binding() && e.source in closed ensures e.target in closed {
      assert e.target in Required({e.source}, all);
      assert Lookup(dependencies, e.source) <= closed;
    }
    CloseLeast(selected, all, closed);
  }

  // ----------------------------------------------------------------- round robin

  function Requirement(pair: (string, string)): Edge {
    Edge(pair.0, pair.1, Requires, true)
  }

  function Requirements(pairs: set<(string, string)>): set<Edge> {
    set p | p in pairs :: Requirement(p)
  }

  /** The requirements whose target is a known atom. */
  function Known(pairs: set<(string, string)>, known: set<string>): set<(string, string)> {
    set p | p in pairs && p.1 in known
  }

  /** Targets required from the nodes that are not known atoms. */
  function Missing(closed: set<string>, pairs: set<(string, string)>, known: set<string>): set<string> {
    set p | p in pairs && p.0 in closed && p.1 !in known :: p.1
  }

  /** The passes of the reference semantics: scan every requirement in order until a pass adds nothing. */
  method RoundRobinClosure(selected: set<string>, known: set<string>, pairs: seq<(string, string)>)
    returns (closed: set<string>, missing: set<string>)
    ensures var all := set p | p in pairs;
            && closed == Close(selected, Requirements(Known(all, known)))
            && missing == Missing(closed, all, known)
  {
    ghost var all := set p | p in pairs;
    ghost var edges := Requirements(Known(all, known));
    closed, missing := selected, {};
    var changed := true;
    while changed
      invariant selected <= closed <= Close(selected, edges)
      invariant missing <= Missing(closed, all, known)
      invariant !changed ==> Closed(closed, edges) && missing == Missing(closed, all, known)
      decreases Targets(edges) - closed, changed
    {
      changed := false;
      ghost var before := closed;
      for i := 0 to |pairs|
        invariant before <= closed <= Close(selected, edges)
        invariant missing <= Missing(closed, all, known)
        invariant if changed then Targets(edges) - closed < Targets(edges) - before else closed == before
        invariant !changed ==> forall j | 0 <= j < i && pairs[j].0 in closed ::
                  if pairs[j].1 in known then pairs[j].1 in closed else pairs[j].1 in missing
      {
        var (source, dependency) := pairs[i];
        if source in closed {
          if dependency !in known {
            assert pairs[i] in all;
            missing := missing + {dependency};
          } else if dependency !in closed {
            assert Requirement(pairs[i]) in edges;
            assert dependency in Targets(edges);
            closed := closed + {dependency};
            changed := true;
          }
        }
      }
      if !changed {
        assert forall p | p in all && p.0 in closed :: if p.1 in known then p.1 in closed else p.1 in missing;
      }
    }
    CloseLeast(selected, edges, closed);
  }

  /** When nothing is missing the round-robin result is the worklist closure of all requirements. */
  lemma RoundRobinAgrees(selected: set<string>, known: set<string>, pairs: set<(string, string)>)
    requires Missing(Close(selected, Requirements(Known(pairs, known))), pairs, known) == {}
    ensures Close(selected, Requirements(Known(pairs, known))) == Close(selected, Requirements(pairs))
  {
    var closed := Close(selected, Requirements(Known(pairs, known)));
    forall e | e in Requirements(pairs) && e.source in closed ensures e.target in closed {
      var p :| p in pairs && Requirement(p) == e;
      assert p.1 in known || p.1 in Missing(closed, pairs, known);
      assert p in Known(pairs, known) && Requirement(p) in Requirements(Known(pairs, known));
    }
    CloseLeast(selected, Requirements(pairs), closed);
    KnownCloseSmaller(selected, known, pairs);
  }

  lemma KnownCloseSmaller(selected: set<string>, known: set<string>, pairs: set<(string, string)>)
    ensures Close(selected, Requirements(Known(pairs, known))) <= Close(selected, Requirements(pairs))
  {
    assert Requirements(Known(pairs, known)) <= Requirements(pairs);
    CloseLeast(selected, Requirements(Known(pairs, known)), Close(selected, Requirements(pairs)));
  }

  /** For known seeds, something is reported missing exactly when the worklist closure leaves the known atoms. */
  lemma MissingIffUnknown(selected: set<string>, known: set<string>, pairs: set<(string, string)>)
    requires selected <= known
    ensures Missing(Close(selected, Requirements(Known(pairs, known))), pairs, known) == {}
       <==> Close(selected, Requirements(pairs)) <= known
  {
    var inner := Close(selected, Requirements(Known(pairs, known)));
    var missing := Missing(inner, pairs, known);
    assert inner <= known by {
      CloseLeast(selected, Requirements(Known(pairs, known)), known);
    }
    if missing == {} {
      RoundRobinAgrees(selected, known, pairs);
    } else {
      KnownCloseSmaller(selected, known, pairs);
      var d :| d in missing;
      var p :| p in pairs && p.0 in inner && p.1 == d;
      assert Requirement(p) in Requirements(pairs);
      assert d in Close(selected, Requirements(pairs));
    }
  }

  // ------------------------------------------------------------------- conflicts

  /** The declared conflicts among the nodes, each as the unordered pair of its endpoints. */
  function DetectConflicts(nodes: set<string>, edges: set<Edge>): (conflicts: set<set<string>>)
    ensures conflicts == {} <==>
            forall e | e in edges && e.kind.Conflicts? :: !(e.source in nodes && e.target in nodes)
  {
    var conflicts := set e | e in edges && e.kind.Conflicts? && e.source in nodes && e.target in nodes ::
        {e.source, e.target};
    assert forall e | e in edges && e.kind.Conflicts? && e.source in nodes && e.target in nodes ::
           {e.source, e.target} in conflicts;
    conflicts
  }

  lemma ConflictsMonotone(a: set<string>, b: set<string>, edges: set<Edge>)
    requires a <= b
    ensures DetectConflicts(a, edges) <= DetectConflicts(b, edges)
  {
  }
}

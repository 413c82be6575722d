/**
 When the paths a walk records are distinct: exactly when no tree it visits uses a name twice.
 */
module TreeNames {
  import opened Common
  import opened TreeObjects

  predicate DistinctNames(es: seq<Entry>) {
    forall i, j | 0 <= i < j < |es| :: es[i].name != es[j].name
  }

  predicate DistinctPaths(entries: seq<TreeEntry>) {
    forall i, j | 0 <= i < j < |entries| :: entries[i].path != entries[j].path
  }

  type Visited = set<(seq<Name>, Oid)>

  predicate IsVisited(visited: Visited, path: seq<Name>) {
    exists v :: v in visited && v.0 == path
  }

  /** The path is the root's, or lies in a visited folder. */
  predicate Reached(visited: Visited, path: seq<Name>) {
    path == [] || IsVisited(visited, path[..|path| - 1])
  }

  predicate AllNamed(src: Source, visited: Visited) {
    forall v | v in visited :: src.At(v.1).Some? && DistinctNames(src.At(v.1).value)
  }

  predicate DistinctPending(pending: seq<(seq<Name>, Oid)>) {
    forall i, j | 0 <= i < j < |pending| :: pending[i].0 != pending[j].0
  }

  /** No path was recorded or queued twice, and nothing below a queued folder was recorded yet. */
  predicate Neat(w: Progress, visited: Visited) {
    && DistinctPaths(w.entries)
    && DistinctPending(w.pending)
    && (forall p | p in w.pending :: !IsVisited(visited, p.0) && Reached(visited, p.0))
    && (forall te | te in w.entries :: Reached(visited, te.path))
    && (forall v | v in visited :: Reached(visited, v.0))
  }

  /** So far recorded paths are distinct exactly when the names in every visited tree are. */
  predicate Tidy(src: Source, w: Progress, visited: Visited) {
    && (DistinctPaths(w.entries) ==> AllNamed(src, visited))
    && (AllNamed(src, visited) ==> Neat(w, visited))
  }

  lemma TidyStart(src: Source, root: Oid, byteLimit: nat)
    ensures Tidy(src, Progress([TreeEntry([], MODE_755, Folder)], [], [([], root)], byteLimit), {})
  {
  }

  lemma {:induction false} FoldersDistinct(path: seq<Name>, es: seq<Entry>)
    requires DistinctNames(es)
    ensures DistinctPending(Folders(path, es))
    decreases |es|
  {
    if es == [] {
    } else {
      var n := |es| - 1;
      var front := Folders(path, es[..n]);
      FoldersDistinct(path, es[..n]);
      forall i | 0 <= i < |front| ensures front[i].0 != path + [es[n].name] {
        assert front[i] in front;
        var e :| e in es[..n] && e.directory && front[i] == (path + [e.name], e.oid);
        assert (path + [e.name])[|path|] == e.name && (path + [es[n].name])[|path|] == es[n].name;
      }
    }
  }

  /** A child of a folder that was not visited before is new everywhere. */
  lemma ChildIsNew(visited: Visited, path: seq<Name>, name: Name, other: seq<Name>)
    requires !IsVisited(visited, path) && Reached(visited, other)
    ensures other != path + [name]
  {
    assert (path + [name])[..|path|] == path;
  }

  lemma VisitedGrows(visited: Visited, path: seq<Name>, oid: Oid, other: seq<Name>)
    ensures Reached(visited, other) ==> Reached(visited + {(path, oid)}, other)
    ensures other != path && !IsVisited(visited, other) ==> !IsVisited(visited + {(path, oid)}, other)
  {
    var more := visited + {(path, oid)};
    assert forall v | v in visited :: v in more;
  }

  lemma ChildReached(visited: Visited, path: seq<Name>, oid: Oid, name: Name)
    ensures Reached(visited + {(path, oid)}, path + [name])
  {
    assert (path + [name])[..|path|] == path;
    assert (path, oid) in visited + {(path, oid)};
  }

  lemma NeatEntries(src: Source, w: Progress, visited: Visited, path: seq<Name>, oid: Oid, es: seq<Entry>)
    requires DistinctPaths(w.entries) && (forall te | te in w.entries :: Reached(visited, te.path))
    requires !IsVisited(visited, path) && DistinctNames(es)
    ensures DistinctPaths(w.entries + Records(src, path, es))
    ensures forall te | te in w.entries + Records(src, path, es) :: Reached(visited + {(path, oid)}, te.path)
  {
    hide Reached, IsVisited, Source.Record;
    var more := Records(src, path, es);
    forall i | 0 <= i < |es| ensures more[i].path == path + [es[i].name] {
      RecordPath(src, path + [es[i].name], es[i]);
    }
    forall i, j | 0 <= i < |w.entries| && 0 <= j < |es| ensures w.entries[i].path != path + [es[j].name] {
      assert w.entries[i] in w.entries;
      ChildIsNew(visited, path, es[j].name, w.entries[i].path);
    }
    forall i, j | 0 <= i < j < |es| ensures path + [es[i].name] != path + [es[j].name] {
      assert (path + [es[i].name])[|path|] == es[i].name && (path + [es[j].name])[|path|] == es[j].name;
    }
    forall te | te in w.entries + more ensures Reached(visited + {(path, oid)}, te.path) {
      if te in w.entries {
        VisitedGrows(visited, path, oid, te.path);
      } else {
        var i :| 0 <= i < |more| && more[i] == te;
        ChildReached(visited, path, oid, es[i].name);
      }
    }
  }

  lemma RecordPath(src: Source, path: seq<Name>, e: Entry)
    ensures src.Record(path, e).path == path
  {
  }

  lemma NeatPending(pending: seq<(seq<Name>, Oid)>, visited: Visited, path: seq<Name>, oid: Oid, es: seq<Entry>)
    requires DistinctPending(pending + [(path, oid)]) && DistinctNames(es)
    requires forall p | p in pending + [(path, oid)] :: !IsVisited(visited, p.0) && Reached(visited, p.0)
    requires forall v | v in visited :: Reached(visited, v.0)
    ensures var after := pending + Folders(path, es);
            && DistinctPending(after)
            && forall p | p in after :: !IsVisited(visited + {(path, oid)}, p.0) && Reached(visited + {(path, oid)},
                  p.0)
  {
    hide Reached, Folders;
    var all := pending + [(path, oid)];
    assert all[|pending|] == (path, oid) && (path, oid) in all;
    assert forall i | 0 <= i < |pending| :: all[i] == pending[i];
    FoldersDistinct(path, es);
    var new' := Folders(path, es);
    forall p | p in pending
      ensures p.0 != path && !IsVisited(visited + {(path, oid)}, p.0) && Reached(visited + {(path, oid)}, p.0)
    {
      var i :| 0 <= i < |pending| && pending[i] == p;
      assert all[i].0 != all[|pending|].0;
      assert p in all;
      VisitedGrows(visited, path, oid, p.0);
    }
    forall p | p in new'
      ensures !IsVisited(visited + {(path, oid)}, p.0) && Reached(visited + {(path, oid)}, p.0)
      ensures forall q | q in pending :: q.0 != p.0
    {
      var e :| e in es && e.directory && p == (path + [e.name], e.oid);
      ChildReached(visited, path, oid, e.name);
      forall v | v in visited ensures v.0 != p.0 {
        ChildIsNew(visited, path, e.name, v.0);
      }
      forall q | q in pending ensures q.0 != p.0 {
        assert q in all;
        ChildIsNew(visited, path, e.name, q.0);
      }
      assert |p.0| == |path| + 1;
    }
    assert forall i | 0 <= i < |new'| :: new'[i] in new';
  }

  lemma VisitedReached(visited: Visited, path: seq<Name>, oid: Oid)
    requires Reached(visited, path) && forall v | v in visited :: Reached(visited, v.0)
    ensures forall v | v in visited + {(path, oid)} :: Reached(visited + {(path, oid)}, v.0)
  {
    hide Reached;
    forall v | v in visited + {(path, oid)} ensures Reached(visited + {(path, oid)}, v.0) {
      VisitedGrows(visited, path, oid, v.0);
    }
  }

  /** Repeating a name in a tree repeats a path. */
  lemma DistinctBack(src: Source, entries: seq<TreeEntry>, path: seq<Name>, es: seq<Entry>)
    requires DistinctPaths(entries + Records(src, path, es))
    ensures DistinctPaths(entries) && DistinctNames(es)
  {
    hide Source.Record;
    var all := entries + Records(src, path, es);
    forall i, j | 0 <= i < j < |entries| ensures entries[i].path != entries[j].path {
      assert all[i] == entries[i] && all[j] == entries[j];
    }
    forall i, j | 0 <= i < j < |es| ensures es[i].name != es[j].name {
      RecordPath(src, path + [es[i].name], es[i]);
      RecordPath(src, path + [es[j].name], es[j]);
      assert all[|entries| + i].path == path + [es[i].name] && all[|entries| + j].path == path + [es[j].name];
    }
  }

  lemma TidyStep(src: Source, w: Progress, visited: Visited, path: seq<Name>, oid: Oid, es: seq<Entry>)
    requires src.At(oid) == Some(es) && Size(Files(src, path, es)) <= w.remaining
    requires Tidy(src, w.(pending := w.pending + [(path, oid)]), visited)
    ensures Tidy(src, Expanded(src, w, path, es), visited + {(path, oid)})
  {
    hide Size, Files, Source.At, Records, Folders, Reached, IsVisited, DistinctNames, DistinctPaths, DistinctPending;
    var before := w.(pending := w.pending + [(path, oid)]);
    var after, more := Expanded(src, w, path, es), visited + {(path, oid)};
    assert AllNamed(src, more) <==> AllNamed(src, visited) && DistinctNames(es) by {
      assert (path, oid) in more;
    }
    if DistinctPaths(after.entries) {
      DistinctBack(src, w.entries, path, es);
    }
    if AllNamed(src, more) {
      assert (path, oid) in before.pending;
      NeatEntries(src, w, visited, path, oid, es);
      NeatPending(w.pending, visited, path, oid, es);
      VisitedReached(visited, path, oid);
    }
  }
}

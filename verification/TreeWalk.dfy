/**
 The bounded traversal of a source tree.
 */
module TreeWalk {
  import opened Common
  import opened TreeObjects
  import opened TreeBudget
  import opened TreeNames

  /** Every recorded entry was found at its path, and every queued folder is the tree its path names. */
  ghost predicate Sound(src: Source, root: Oid, w: Progress) {
    && w.entries != []
    && w.entries[0] == TreeEntry([], MODE_755, Folder)
    && (forall i | 1 <= i < |w.entries| :: Found(src, root, w.entries[i]))
    && (forall p | p in w.pending :: src.TreeAt(root, p.0, p.1))
  }

  ghost predicate Found(src: Source, root: Oid, te: TreeEntry) {
    exists e :: src.EntryAt(root, te.path, e) && te == src.Record(te.path, e)
  }

  /** The entries of every visited tree are recorded, and its folders are visited or queued. */
  ghost predicate Covered(src: Source, w: Progress, visited: set<(seq<Name>, Oid)>) {
    forall v | v in visited ::
      && src.At(v.1).Some?
      && |v.0| < |w.entries|
      && forall e | e in src.At(v.1).value ::
           && src.Record(v.0 + [e.name], e) in w.entries
           && (!e.directory ==> e.oid in src.blobs)
           && (e.directory ==> (v.0 + [e.name], e.oid) in visited || (v.0 + [e.name], e.oid) in w.pending)
  }

  /** The files kept are exactly the recorded blobs. */
  ghost predicate FilesMatch(w: Progress) {
    forall path, data :: (path, data) in w.files <==> exists te ::
      te in w.entries && te.path == path && te.node == Blob(data)
  }

  lemma SoundStep(src: Source, root: Oid, w: Progress, path: seq<Name>, oid: Oid, es: seq<Entry>)
    requires Sound(src, root, w) && src.TreeAt(root, path, oid) && src.At(oid) == Some(es)
    requires Size(Files(src, path, es)) <= w.remaining
    ensures Sound(src, root, Expanded(src, w, path, es))
  {
    hide Size, Files, Source.At;
    var w' := Expanded(src, w, path, es);
    forall i | 1 <= i < |w'.entries| ensures Found(src, root, w'.entries[i]) {
      if i >= |w.entries| {
        var e := es[i - |w.entries|];
        ChildAt(src, root, path, oid, e);
        assert w'.entries[i] == src.Record(path + [e.name], e);
      }
    }
    forall p | p in w'.pending ensures src.TreeAt(root, p.0, p.1) {
      if p !in w.pending {
        var e :| e in es && e.directory && p == (path + [e.name], e.oid);
        ChildAt(src, root, path, oid, e);
      }
    }
  }

  lemma ChildAt(src: Source, root: Oid, path: seq<Name>, oid: Oid, e: Entry)
    requires src.TreeAt(root, path, oid) && src.At(oid).Some? && e in src.At(oid).value
    ensures src.EntryAt(root, path + [e.name], e)
    ensures e.directory ==> src.TreeAt(root, path + [e.name], e.oid)
  {
    hide Source.At;
    assert (path + [e.name])[..|path|] == path;
  }

  lemma CoveredStep(src: Source, w: Progress, visited: set<(seq<Name>, Oid)>, path: seq<Name>, oid: Oid,
                    es: seq<Entry>, limit: nat)
    requires src.At(oid) == Some(es) && Fits(src, w, path, es, limit) && |path| < |w.entries|
    requires Covered(src, w.(pending := w.pending + [(path, oid)]), visited)
    ensures Covered(src, Expanded(src, w, path, es), visited + {(path, oid)})
  {
    hide Size, Files, Source.At;
    var w' := Expanded(src, w, path, es);
    forall e | e in es ensures src.Record(path + [e.name], e) in w'.entries {
      var i :| 0 <= i < |es| && es[i] == e;
      assert Records(src, path, es)[i] == src.Record(path + [e.name], e);
    }
  }

  lemma FilesStep(src: Source, w: Progress, path: seq<Name>, es: seq<Entry>)
    requires FilesMatch(w) && Size(Files(src, path, es)) <= w.remaining
    ensures FilesMatch(Expanded(src, w, path, es))
  {
    hide Size, Folders, Files, Records;
    var w' := Expanded(src, w, path, es);
    forall p, data
      ensures (p, data) in w'.files <==> exists te :: te in w'.entries && te.path == p && te.node == Blob(data)
    {
      FilesOfRecords(src, path, es, p, data);
      if te :| te in w'.entries && te.path == p && te.node == Blob(data) {
        assert te in w.entries || te in Records(src, path, es);
      }
    }
  }

  /** The blobs among the records of a tree are its files. */
  lemma FilesOfRecords(src: Source, path: seq<Name>, es: seq<Entry>, p: seq<Name>, data: Bytes)
    ensures (p, data) in Files(src, path, es) <==>
              exists te :: te in Records(src, path, es) && te.path == p && te.node == Blob(data)
  {
    hide Files;
    FilesMembers(src, path, es);
    var records := Records(src, path, es);
    if te :| te in records && te.path == p && te.node == Blob(data) {
      var i :| 0 <= i < |records| && records[i] == te;
      assert es[i] in es && !es[i].directory;
    }
    if (p, data) in Files(src, path, es) {
      var e :| e in es && !e.directory && (p, data) == (path + [e.name], src.BlobOf(e));
      var i :| 0 <= i < |es| && es[i] == e;
      assert records[i] in records && records[i].node == Blob(data);
    }
  }

  lemma {:induction false} FilesMembers(src: Source, path: seq<Name>, es: seq<Entry>)
    ensures forall f :: f in Files(src, path, es) <==> exists e ::
            e in es && !e.directory && f == (path + [e.name], src.BlobOf(e))
    decreases |es|
  {
    if es == [] {
    } else {
      FilesMembers(src, path, es[..|es| - 1]);
      assert es == es[..|es| - 1] + [es[|es| - 1]];
    }
  }

  /** The weight already recorded and the weight still pending add up to that of the whole tree. */
  ghost predicate Balanced(src: Source, w: Progress, metadata: nat, total: Weight, height: nat, byteLimit: nat,
                           fileLimit: nat) {
    var rest := WeighPending(src, w.pending, height);
    && rest.Some?
    && w.remaining <= byteLimit && metadata <= fileLimit * METADATA_PER_ENTRY
    && Weight(|w.entries|, byteLimit - w.remaining, fileLimit * METADATA_PER_ENTRY - metadata).Plus(rest.value)
       == total.Plus(Weight(1, 0, 0))
  }

  /** As many entries and bytes are recorded as the tree under the root has, and the root itself. */
  ghost predicate Weighed(src: Source, root: Oid, w: Progress) {
    exists height: nat ::
      && Weigh(src, root, height).Some?
      && |w.entries| == 1 + Weigh(src, root, height).value.count
      && Size(w.files) == Weigh(src, root, height).value.bytes
  }

  /**
   The bounded walk.  It ends on every object store, cyclic ones included, and succeeds exactly
   when the root leads to a finite tree of well-formed objects within the limits.  Then it
   never records more than `fileLimit` entries, has spent exactly the bytes of the blobs it
   keeps, and has recorded exactly what the paths from the root name, nothing twice.
   */
  method Walk(src: Source, root: Oid, byteLimit: nat, fileLimit: nat) returns (r: Option<Progress>)
    requires fileLimit >= 1
    ensures r.Some? <==> Walkable(src, root, byteLimit, fileLimit)
    ensures r.Some? ==> 1 <= |r.value.entries| <= fileLimit && Weighed(src, root, r.value)
    ensures r.Some? ==> Size(r.value.files) + r.value.remaining == byteLimit
    ensures r.Some? ==> Sound(src, root, r.value) && FilesMatch(r.value)
    ensures r.Some? ==> forall path, e | src.EntryAt(root, path, e) :: src.Record(path, e) in r.value.entries
    ensures r.Some? ==> (DistinctPaths(r.value.entries) <==> NamesDiffer(src, root))
  {
    hide Source.At, Sound, FilesMatch, Size, Source.EntryAt, Source.Record, Underway, Walkable, Fits, Expanded,
      DistinctPaths, NamesDiffer, Weighed;
    var w := Progress([TreeEntry([], MODE_755, Folder)], [], [([], root)], byteLimit);
    var metadata := fileLimit * METADATA_PER_ENTRY;
    ghost var visited: set<(seq<Name>, Oid)> := {};
    WalkStart(src, root, byteLimit, fileLimit);
    while w.pending != []
      invariant |w.entries| <= fileLimit && 0 <= metadata
      invariant Underway(src, root, w, metadata, visited, byteLimit, fileLimit)
      decreases 2 * (fileLimit - |w.entries|) + |w.pending|
    {
      var (path, oid) := w.pending[|w.pending| - 1];
      WalkStep(src, root, w, metadata, visited, path, oid, byteLimit, fileLimit);
      w := w.(pending := w.pending[..|w.pending| - 1]);
      if oid !in src.trees || |src.trees[oid]| > metadata {
        return None;
      }
      metadata := metadata - |src.trees[oid]|;
      var es := ParseEntries(src.trees[oid], src.size, src.utf8);
      AtParsed(src, oid);
      if es.None? {
        return None;
      }
      var next := Expand(src, w, path, es.value, fileLimit);
      if next.None? {
        return None;
      }
      visited := visited + {(path, oid)};
      w := next.value;
    }
    WalkEnd(src, root, w, metadata, visited, byteLimit, fileLimit);
    return Some(w);
  }

  /** No tree that a path from the root names uses a name twice. */
  ghost predicate NamesDiffer(src: Source, root: Oid) {
    forall path, oid | src.TreeAt(root, path, oid) :: src.At(oid).Some? && DistinctNames(src.At(oid).value)
  }

  const WILDCARDS: Bytes := [42, 63, 91, 93]  // * ? [ ]

  predicate Plain(name: Name) {
    forall c | c in name :: c !in WILDCARDS
  }

  /** No entry that a path from the root names has a wildcard in its name. */
  ghost predicate NamesPlain(src: Source, root: Oid) {
    forall path, e | src.EntryAt(root, path, e) :: Plain(e.name)
  }

  /**
   Reading a whole tree: the walk, and then the validation of what it recorded.  It succeeds
   exactly when the root leads to a finite well-formed tree within the limits in which no folder
   uses a name twice and no name has a wildcard.
   */
  method ReadTree(src: Source, root: Oid, byteLimit: nat, fileLimit: nat) returns (r: Option<Progress>)
    requires fileLimit >= 1
    ensures r.Some? <==> Walkable(src, root, byteLimit, fileLimit) && NamesDiffer(src, root) && NamesPlain(src, root)
    ensures r.Some? ==> |r.value.entries| <= fileLimit && Size(r.value.files) <= byteLimit
    ensures r.Some? ==> DistinctPaths(r.value.entries) && Sound(src, root, r.value) && FilesMatch(r.value)
    ensures r.Some? ==> forall path, e | src.EntryAt(root, path, e) :: src.Record(path, e) in r.value.entries
  {
    hide Walkable, NamesDiffer, NamesPlain, Sound, FilesMatch, Size, Source.EntryAt, Source.Record, DistinctPaths,
      Plain;
    r := Walk(src, root, byteLimit, fileLimit);
    if r.None? {
      return None;
    }
    PlainRecorded(src, root, r.value);
    if !DistinctPaths(r.value.entries) {
      return None;
    }
    if exists i :: 0 <= i < |r.value.entries| && !PlainPath(r.value.entries[i].path) {
      return None;
    }
  }

  predicate PlainPath(path: seq<Name>) {
    forall i | 0 <= i < |path| :: Plain(path[i])
  }

  /** Every segment of a path that names an entry is itself the name of an entry. */
  lemma {:induction false} SegmentsNamed(src: Source, root: Oid, path: seq<Name>, oid: Oid)
    requires src.TreeAt(root, path, oid) && NamesPlain(src, root)
    ensures PlainPath(path)
    decreases |path|
  {
    hide Source.At, Plain;
    if path == [] {
    } else {
      var front := path[..|path| - 1];
      var parent, e :| src.TreeAt(root, front, parent) && src.At(parent).Some? && e in src.At(parent).value
                       && e.directory && e.name == path[|path| - 1] && e.oid == oid;
      SegmentsNamed(src, root, front, parent);
      assert src.EntryAt(root, path, e);
      assert forall i | 0 <= i < |front| :: path[i] == front[i];
    }
  }

  lemma EntryPlain(src: Source, root: Oid, path: seq<Name>, e: Entry)
    requires src.EntryAt(root, path, e) && NamesPlain(src, root)
    ensures PlainPath(path)
  {
    hide Source.At, Plain;
    var front := path[..|path| - 1];
    var parent :| src.TreeAt(root, front, parent) && src.At(parent).Some? && e in src.At(parent).value
        && e.name == path[|path| - 1];
    SegmentsNamed(src, root, front, parent);
    assert forall i | 0 <= i < |front| :: path[i] == front[i];
  }

  /** The recorded paths have a wildcard exactly when some reachable name does. */
  lemma PlainRecorded(src: Source, root: Oid, w: Progress)
    requires Sound(src, root, w)
    requires forall path, e | src.EntryAt(root, path, e) :: src.Record(path, e) in w.entries
    ensures (forall i | 0 <= i < |w.entries| :: PlainPath(w.entries[i].path)) <==> NamesPlain(src, root)
  {
    hide Source.At, Source.EntryAt, Plain;
    if NamesPlain(src, root) {
      forall i | 0 <= i < |w.entries| ensures PlainPath(w.entries[i].path) {
        if i > 0 {
          assert Found(src, root, w.entries[i]);
          var e :| src.EntryAt(root, w.entries[i].path, e) && w.entries[i] == src.Record(w.entries[i].path, e);
          EntryPlain(src, root, w.entries[i].path, e);
        }
      }
    }
    if forall i | 0 <= i < |w.entries| :: PlainPath(w.entries[i].path) {
      forall path, e | src.EntryAt(root, path, e) ensures Plain(e.name) {
        assert src.Record(path, e) in w.entries;
        var i :| 0 <= i < |w.entries| && w.entries[i] == src.Record(path, e);
        LastSegment(src, root, path, e);
        assert Plain(path[|path| - 1]);
      }
    }
  }

  lemma LastSegment(src: Source, root: Oid, path: seq<Name>, e: Entry)
    requires src.EntryAt(root, path, e)
    ensures path != [] && path[|path| - 1] == e.name
  {
  }

  /** What holds before every turn of the walk. */
  ghost predicate Underway(src: Source, root: Oid, w: Progress, metadata: nat, visited: set<(seq<Name>, Oid)>,
                           byteLimit: nat, fileLimit: nat) {
    && 1 <= |w.entries| <= fileLimit
    && Size(w.files) + w.remaining == byteLimit
    && Sound(src, root, w) && Covered(src, w, visited) && FilesMatch(w)
    && (forall p | p in w.pending :: |p.0| < |w.entries|)
    && (forall v | v in visited :: src.TreeAt(root, v.0, v.1))
    && Tidy(src, w, visited)
    && (([], root) in visited || ([], root) in w.pending)
    && forall height: nat | Weigh(src, root, height).Some? ::
         Balanced(src, w, metadata, Weigh(src, root, height).value, height, byteLimit, fileLimit)
  }

  lemma WalkStart(src: Source, root: Oid, byteLimit: nat, fileLimit: nat)
    requires fileLimit >= 1
    ensures Underway(src, root, Progress([TreeEntry([], MODE_755, Folder)], [], [([], root)], byteLimit),
                     fileLimit * METADATA_PER_ENTRY, {}, byteLimit, fileLimit)
  {
    hide Weigh, Balanced, Tidy;
    BalanceStart(src, root, byteLimit, fileLimit);
    TidyStart(src, root, byteLimit);
  }

  /** A turn that can be paid for keeps the invariant, and every turn of a walkable tree can be paid for. */
  lemma WalkStep(src: Source, root: Oid, w: Progress, metadata: nat, visited: set<(seq<Name>, Oid)>, path: seq<Name>,
                 oid: Oid,
                 byteLimit: nat, fileLimit: nat)
    requires Underway(src, root, w, metadata, visited, byteLimit, fileLimit)
    requires w.pending != [] && w.pending[|w.pending| - 1] == (path, oid)
    ensures var popped := w.(pending := w.pending[..|w.pending| - 1]);
            && (Walkable(src, root, byteLimit, fileLimit) ==> Payable(src, popped, metadata, path, oid, fileLimit))
            && (Payable(src, popped, metadata, path, oid, fileLimit) ==>
                  && var next := Expanded(src, popped, path, src.At(oid).value);
                  && Underway(src, root, next, metadata - |src.trees[oid]|, visited + {(path, oid)}, byteLimit,
                              fileLimit)
                  && |next.entries| == |w.entries| + |src.At(oid).value| <= fileLimit
                  && |next.pending| < |w.pending| + |src.At(oid).value|)
  {
    hide Source.At, Sound, Covered, FilesMatch, Size, Files, Folders, Records, Weigh, Balanced, Walkable, Fits,
      Expanded, Tidy;
    var popped := w.(pending := w.pending[..|w.pending| - 1]);
    BalanceKept(src, root, w, metadata, path, oid, byteLimit, fileLimit);
    if Payable(src, popped, metadata, path, oid, fileLimit) {
      var es := src.At(oid).value;
      assert w.pending == popped.pending + [(path, oid)];
      SoundPop(src, root, w, popped);
      FitsSize(src, popped, path, es, fileLimit);
      SoundStep(src, root, popped, path, oid, es);
      CoveredStep(src, popped, visited, path, oid, es, fileLimit);
      assert w == popped.(pending := popped.pending + [(path, oid)]);
      TidyStep(src, popped, visited, path, oid, es);
      FilesPop(w, popped);
      FilesStep(src, popped, path, es);
      ExpandedCounts(src, popped, path, es);
    }
  }

  lemma WalkEnd(src: Source, root: Oid, w: Progress, metadata: nat, visited: set<(seq<Name>, Oid)>, byteLimit: nat,
                fileLimit: nat)
    requires Underway(src, root, w, metadata, visited, byteLimit, fileLimit) && w.pending == []
    ensures Walkable(src, root, byteLimit, fileLimit) && Weighed(src, root, w)
    ensures 1 <= |w.entries| <= fileLimit && Size(w.files) + w.remaining == byteLimit
    ensures Sound(src, root, w) && FilesMatch(w)
    ensures forall path, e | src.EntryAt(root, path, e) :: src.Record(path, e) in w.entries
    ensures DistinctPaths(w.entries) <==> NamesDiffer(src, root)
  {
    hide Source.At, Sound, Covered, FilesMatch, Size, Weigh, Balanced, Walkable, Source.EntryAt, Source.Record,
      Source.TreeAt,
      DistinctNames, DistinctPaths;
    assert NamesDiffer(src, root) ==> AllNamed(src, visited);
    forall path, oid | src.TreeAt(root, path, oid) ensures (path, oid) in visited {
      AllVisited(src, root, w, visited, path, oid);
    }
    forall path, e | src.EntryAt(root, path, e) ensures src.Record(path, e) in w.entries {
      AllFound(src, root, w, visited, path, e);
    }
    VisitedWeighs(src, root, w, visited, [], root, fileLimit, fileLimit);
    BalanceEnd(src, root, w, metadata, byteLimit, fileLimit);
  }

  lemma BalanceStart(src: Source, root: Oid, byteLimit: nat, fileLimit: nat)
    ensures forall height: nat | Weigh(src, root, height).Some? ::
              Balanced(src, Progress([TreeEntry([], MODE_755, Folder)], [], [([], root)], byteLimit),
                       fileLimit * METADATA_PER_ENTRY,
                       Weigh(src, root, height).value, height, byteLimit, fileLimit)
  {
    hide Weigh, WeighPending;
    forall height: nat { PendingOne(src, ([], root), height); }
  }

  /** What processing the last pending tree does to the balance, and what it needs. */
  ghost predicate Payable(src: Source, w: Progress, metadata: nat, path: seq<Name>, oid: Oid, fileLimit: nat) {
    && oid in src.trees && |src.trees[oid]| <= metadata
    && src.At(oid).Some?
    && Fits(src, w, path, src.At(oid).value, fileLimit)
  }

  /** One tree keeps the balance; and if the whole tree is within the limits, so is this part of it. */
  lemma BalanceStep(src: Source, root: Oid, w: Progress, metadata: nat, path: seq<Name>, oid: Oid, height: nat,
                    byteLimit: nat, fileLimit: nat)
    requires w.pending != [] && w.pending[|w.pending| - 1] == (path, oid)
    requires Weigh(src, root, height).Some?
    requires Balanced(src, w, metadata, Weigh(src, root, height).value, height, byteLimit, fileLimit)
    ensures var popped := w.(pending := w.pending[..|w.pending| - 1]);
            && (Within(Weigh(src, root, height).value, byteLimit, fileLimit)
                ==> Payable(src, popped, metadata, path, oid, fileLimit))
            && (Payable(src, popped, metadata, path, oid, fileLimit) ==>
                  Balanced(src, Expanded(src, popped, path, src.At(oid).value), metadata - |src.trees[oid]|,
                           Weigh(src, root, height).value, height, byteLimit, fileLimit))
  {
    hide WeighAll, Folders, Files, Size, Source.At, Records;
    var popped := w.(pending := w.pending[..|w.pending| - 1]);
    var es := src.At(oid).value;
    ExpansionWeighs(src, path, es, height - 1, height);
    BlobsExist(src, es, height - 1);
    PendingConcat(src, popped.pending, Folders(path, es), height);
    RecordsCount(src, path, es);
  }

  lemma RecordsCount(src: Source, path: seq<Name>, es: seq<Entry>)
    ensures |Records(src, path, es)| == |es|
  {
  }

  lemma BalanceKept(src: Source, root: Oid, w: Progress, metadata: nat, path: seq<Name>, oid: Oid, byteLimit: nat,
                    fileLimit: nat)
    requires w.pending != [] && w.pending[|w.pending| - 1] == (path, oid)
    requires forall height: nat | Weigh(src, root, height).Some? ::
               Balanced(src, w, metadata, Weigh(src, root, height).value, height, byteLimit, fileLimit)
    ensures var popped := w.(pending := w.pending[..|w.pending| - 1]);
            && (Walkable(src, root, byteLimit, fileLimit) ==> Payable(src, popped, metadata, path, oid, fileLimit))
            && (Payable(src, popped, metadata, path, oid, fileLimit) ==>
                  forall height: nat | Weigh(src, root, height).Some? ::
                    Balanced(src, Expanded(src, popped, path, src.At(oid).value), metadata - |src.trees[oid]|,
                             Weigh(src, root, height).value, height, byteLimit, fileLimit))
  {
    hide Weigh, Balanced, Within, Expanded, Source.At;
    forall height: nat | Weigh(src, root, height).Some? {
      BalanceStep(src, root, w, metadata, path, oid, height, byteLimit, fileLimit);
    }
  }

  lemma BalanceEnd(src: Source, root: Oid, w: Progress, metadata: nat, byteLimit: nat, fileLimit: nat)
    requires Weigh(src, root, fileLimit).Some? && w.pending == [] && |w.entries| <= fileLimit
    requires Balanced(src, w, metadata, Weigh(src, root, fileLimit).value, fileLimit, byteLimit, fileLimit)
    ensures Walkable(src, root, byteLimit, fileLimit)
    ensures var total := Weigh(src, root, fileLimit).value;
            |w.entries| == 1 + total.count && w.remaining + total.bytes == byteLimit
  {
    hide Weigh;
  }

  /** A finished walk has seen trees of every height it leads to, so all of them have a weight. */
  lemma {:induction false} VisitedWeighs(src: Source, root: Oid, w: Progress, visited: set<(seq<Name>, Oid)>,
                                         path: seq<Name>, oid: Oid,
                                         height: nat, limit: nat)
    requires Covered(src, w, visited) && w.pending == [] && (path, oid) in visited && |w.entries| <= limit
    requires |path| + height >= limit
    ensures Weigh(src, oid, height).Some?
    decreases height
  {
    hide Source.Record, Source.At, Weigh, WeighAll;
    var es := src.At(oid).value;
    assert |path| < |w.entries|;
    forall e | e in es ensures WeighOne(src, e, height - 1).Some? {
      if e.directory {
        VisitedWeighs(src, root, w, visited, path + [e.name], e.oid, height - 1, limit);
      }
    }
    AllWeigh(src, es, height - 1);
    TreeWeighs(src, oid, height);
  }

  lemma FitsSize(src: Source, w: Progress, path: seq<Name>, es: seq<Entry>, limit: nat)
    requires Fits(src, w, path, es, limit)
    ensures Size(Files(src, path, es)) <= w.remaining && |w.entries| + |es| <= limit
  {
  }

  lemma AtParsed(src: Source, oid: Oid)
    requires oid in src.trees
    ensures src.At(oid) == Entries(src.trees[oid], src.size, src.utf8)
  {
  }

  lemma SoundPop(src: Source, root: Oid, w: Progress, popped: Progress)
    requires Sound(src, root, w) && w.pending != [] && popped == w.(pending := w.pending[..|w.pending| - 1])
    ensures Sound(src, root, popped) && src.TreeAt(root, w.pending[|w.pending| - 1].0, w.pending[|w.pending| - 1].1)
  {
    hide Found;
    assert w.pending[|w.pending| - 1] in w.pending;
  }

  lemma FilesPop(w: Progress, popped: Progress)
    requires FilesMatch(w) && popped.files == w.files && popped.entries == w.entries
    ensures FilesMatch(popped)
  {
  }

  lemma ExpandedCounts(src: Source, w: Progress, path: seq<Name>, es: seq<Entry>)
    requires Size(Files(src, path, es)) <= w.remaining
    ensures |Expanded(src, w, path, es).entries| == |w.entries| + |es|
    ensures Size(Expanded(src, w, path, es).files) + Expanded(src, w, path, es).remaining == Size(w.files) + w.remaining
    ensures |Expanded(src, w, path, es).pending| <= |w.pending| + |es|
    ensures forall p | p in w.pending :: p in Expanded(src, w, path, es).pending
    ensures |path| < |w.entries| ==> forall p | p in Expanded(src, w, path, es).pending ::
            p in w.pending || |p.0| < |w.entries| + |es|
  {
    hide Size, Files;
    SizeConcat(w.files, Files(src, path, es));
  }

  /** With nothing pending, every tree a path names was visited. */
  lemma {:induction false} AllVisited(src: Source, root: Oid, w: Progress, visited: set<(seq<Name>, Oid)>,
                                      path: seq<Name>, oid: Oid)
    requires Covered(src, w, visited) && w.pending == [] && ([], root) in visited && src.TreeAt(root, path, oid)
    ensures (path, oid) in visited
    decreases |path|
  {
    hide Source.At, Source.Record;
    if path == [] {
    } else {
      var front := path[..|path| - 1];
      var parent, e :| src.TreeAt(root, front, parent) && src.At(parent).Some? && e in src.At(parent).value
                       && e.directory && e.name == path[|path| - 1] && e.oid == oid;
      AllVisited(src, root, w, visited, front, parent);
      assert front + [e.name] == path;
    }
  }

  lemma AllFound(src: Source, root: Oid, w: Progress, visited: set<(seq<Name>, Oid)>, path: seq<Name>, e: Entry)
    requires Covered(src, w, visited) && w.pending == [] && ([], root) in visited && src.EntryAt(root, path, e)
    ensures src.Record(path, e) in w.entries
  {
    hide Source.At, Source.Record;
    var front := path[..|path| - 1];
    var parent :| src.TreeAt(root, front, parent) && src.At(parent).Some? && e in src.At(parent).value
        && e.name == path[|path| - 1];
    AllVisited(src, root, w, visited, front, parent);
    assert front + [e.name] == path;
  }
}

/**
 What a whole tree weighs, independently of any traversal: its entries, the bytes of its blobs
 and the bytes of its tree objects, counting a shared object once for every path to it.
 */
module TreeBudget {
  import opened Common
  import opened TreeObjects

  datatype Weight = Weight(count: nat, bytes: nat, metadata: nat)
  {
    function Plus(other: Weight): Weight {
      Weight(count + other.count, bytes + other.bytes, metadata + other.metadata)
    }
  }

  const NOTHING := Weight(0, 0, 0)

  function Sum(a: Option<Weight>, b: Option<Weight>): Option<Weight> {
    if a.Some? && b.Some? then Some(a.value.Plus(b.value)) else None
  }

  /** The weight of a tree of less than the given height; undefined for a taller, broken or cyclic one. */
  function Weigh(src: Source, oid: Oid, height: nat): Option<Weight>
    decreases height, 0
  {
    if height == 0 || oid !in src.trees || src.At(oid).None? then None
    else Sum(WeighAll(src, src.At(oid).value, height - 1), Some(Weight(0, 0, |src.trees[oid]|)))
  }

  function WeighAll(src: Source, es: seq<Entry>, height: nat): Option<Weight>
    decreases height, |es| + 1
  {
    if es == [] then Some(NOTHING)
    else Sum(WeighAll(src, es[..|es| - 1], height), WeighOne(src, es[|es| - 1], height))
  }

  function WeighOne(src: Source, e: Entry, height: nat): Option<Weight>
    decreases height, 1
  {
    if e.directory then Sum(Some(Weight(1, 0, 0)), Weigh(src, e.oid, height))
    else if e.oid in src.blobs then Some(Weight(1, |src.blobs[e.oid]|, 0))
    else None
  }

  function WeighPending(src: Source, pending: seq<(seq<Name>, Oid)>, height: nat): Option<Weight>
    decreases |pending|
  {
    if pending == [] then Some(NOTHING)
    else Sum(WeighPending(src, pending[..|pending| - 1], height), Weigh(src, pending[|pending| - 1].1, height))
  }

  const METADATA_PER_ENTRY := 8192

  /** The weight is within the limits of a walk; the root itself is one entry. */
  predicate Within(w: Weight, byteLimit: nat, fileLimit: nat) {
    1 + w.count <= fileLimit && w.bytes <= byteLimit && w.metadata <= fileLimit * METADATA_PER_ENTRY
  }

  /** The root leads to a finite tree of existing, well-formed objects that is within the limits. */
  ghost predicate Walkable(src: Source, root: Oid, byteLimit: nat, fileLimit: nat) {
    exists height: nat :: Weigh(src, root, height).Some? && Within(Weigh(src, root, height).value, byteLimit, fileLimit)
  }

  // ---------------------------------------------------------------- laws of weights

  /** Allowing more height changes no weight that is already defined. */
  lemma {:induction false} WeighHigher(src: Source, oid: Oid, height: nat, higher: nat)
    requires height <= higher && Weigh(src, oid, height).Some?
    ensures Weigh(src, oid, higher) == Weigh(src, oid, height)
    decreases height, 0
  {
    hide Source.At;
    WeighAllHigher(src, src.At(oid).value, height - 1, higher - 1);
  }

  lemma {:induction false} WeighAllHigher(src: Source, es: seq<Entry>, height: nat, higher: nat)
    requires height <= higher && WeighAll(src, es, height).Some?
    ensures WeighAll(src, es, higher) == WeighAll(src, es, height)
    decreases height, |es| + 1
  {
    if es == [] {
    } else {
      var e := es[|es| - 1];
      WeighAllHigher(src, es[..|es| - 1], height, higher);
      if e.directory {
        WeighHigher(src, e.oid, height, higher);
      }
    }
  }

  lemma {:induction false} PendingConcat(src: Source, a: seq<(seq<Name>, Oid)>, b: seq<(seq<Name>, Oid)>, height: nat)
    ensures WeighPending(src, a + b, height) == Sum(WeighPending(src, a, height), WeighPending(src, b, height))
    decreases |b|
  {
    hide Weigh, Sum;
    if b == [] {
      assert a + b == a;
      SumNothing(WeighPending(src, a, height));
    } else {
      var n := |b| - 1;
      assert (a + b)[..|a + b| - 1] == a + b[..n];
      PendingConcat(src, a, b[..n], height);
      SumAssociative(WeighPending(src, a, height), WeighPending(src, b[..n], height), Weigh(src, b[n].1, height));
    }
  }

  lemma SumNothing(w: Option<Weight>)
    ensures Sum(w, Some(NOTHING)) == w
  {
  }

  lemma SumAssociative(a: Option<Weight>, b: Option<Weight>, c: Option<Weight>)
    ensures Sum(Sum(a, b), c) == Sum(a, Sum(b, c))
  {
  }

  lemma {:induction false} BlobsExist(src: Source, es: seq<Entry>, height: nat)
    requires WeighAll(src, es, height).Some?
    ensures forall e | e in es && !e.directory :: e.oid in src.blobs
    decreases |es|
  {
    hide Weigh;
    if es == [] {
    } else {
      BlobsExist(src, es[..|es| - 1], height);
      assert es == es[..|es| - 1] + [es[|es| - 1]];
    }
  }

  /** The weight of entries whose folders are left for later. */
  function Expansion(src: Source, path: seq<Name>, es: seq<Entry>, height: nat): Option<Weight> {
    Sum(WeighPending(src, Folders(path, es), height), Some(Weight(|es|, Size(Files(src, path, es)), 0)))
  }

  lemma ExpansionStep(src: Source, path: seq<Name>, es: seq<Entry>, height: nat)
    requires es != [] && (!es[|es| - 1].directory ==> es[|es| - 1].oid in src.blobs)
    ensures Expansion(src, path, es, height)
         == Sum(Expansion(src, path, es[..|es| - 1], height), WeighOne(src, es[|es| - 1], height))
  {
    hide Weigh, WeighPending, Folders, Files, Size, Source.At, Records, Source.Record;
    var n := |es| - 1;
    var e := es[n];
    var before := Folders(path, es[..n]);
    assert es[..n + 1] == es;
    OneMore(src, path, es, n);
    PendingConcat(src, before, [(path + [e.name], e.oid)], height);
    PendingOne(src, (path + [e.name], e.oid), height);
    assert before + [] == before;
  }

  /** What the entries of a tree weigh is what expanding them adds, plus the weight of the folders it queues. */
  lemma {:induction false} ExpansionWeighs(src: Source, path: seq<Name>, es: seq<Entry>, height: nat, higher: nat)
    requires height <= higher && WeighAll(src, es, height).Some?
    ensures WeighAll(src, es, height) == Expansion(src, path, es, higher)
    decreases |es|
  {
    hide Weigh, Expansion, Source.At;
    if es == [] {
      NoFolders(src, path, higher);
    } else {
      var n := |es| - 1;
      ExpansionWeighs(src, path, es[..n], height, higher);
      ExpansionStep(src, path, es, higher);
      if es[n].directory {
        WeighHigher(src, es[n].oid, height, higher);
      }
    }
  }

  lemma NoFolders(src: Source, path: seq<Name>, height: nat)
    ensures Expansion(src, path, [], height) == Some(NOTHING)
  {
  }

  lemma PendingOne(src: Source, p: (seq<Name>, Oid), height: nat)
    ensures WeighPending(src, [p], height) == Weigh(src, p.1, height)
  {
    hide Weigh;
    assert WeighPending(src, [p][..0], height) == Some(NOTHING);
  }

  lemma TreeWeighs(src: Source, oid: Oid, height: nat)
    requires height > 0 && src.At(oid).Some? && WeighAll(src, src.At(oid).value, height - 1).Some?
    ensures Weigh(src, oid, height).Some?
  {
    hide WeighAll;
  }

  lemma {:induction false} AllWeigh(src: Source, es: seq<Entry>, height: nat)
    requires forall e | e in es :: WeighOne(src, e, height).Some?
    ensures WeighAll(src, es, height).Some?
    decreases |es|
  {
    hide WeighOne;
    if es == [] {
    } else {
      AllWeigh(src, es[..|es| - 1], height);
    }
  }
}

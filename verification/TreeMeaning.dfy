/**
 What the paths, modes and contents that a tree read records can be, and what texts the parser
 takes for a mode.
 */
module TreeMeaning {
  import opened Common
  import opened TreeObjects
  import opened TreeBudget
  import opened TreeWalk

  // --------------------------------------------------------------------------- path segments

  /** One step down the tree: no empty or dot name, no separator, no drive, no wildcard. */
  predicate CleanSegment(name: Name) {
    && |name| > 0
    && name != [46] && name != [46, 46]                      // . and ..
    && (forall i | 0 <= i < |name| ::
          && name[i] != 0 && name[i] != 47 && name[i] != 92  // NUL / \
          && name[i] != 42 && name[i] != 63                  // * ?
          && name[i] != 91 && name[i] != 93)                 // [ ]
    && (|name| >= 2 && name[1] == 58                         // a drive
        ==> !(65 <= name[0] <= 90) && !(97 <= name[0] <= 122))
  }

  lemma CleanIs(name: Name)
    ensures CleanSegment(name) <==> SafeName(name) && Plain(name)
  {
    if CleanSegment(name) {
      assert forall c | c in name :: c != 42 && c != 63 && c != 91 && c != 93;
    }
    if SafeName(name) && Plain(name) {
      forall i | 0 <= i < |name|
        ensures name[i] != 0 && name[i] != 47 && name[i] != 92
        ensures name[i] != 42 && name[i] != 63 && name[i] != 91 && name[i] != 93
      {
        assert name[i] in name;
        assert WILDCARDS[0] == 42 && WILDCARDS[1] == 63 && WILDCARDS[2] == 91 && WILDCARDS[3] == 93;
      }
    }
  }

  /** The entries of a tree object have safe names, and one of the three modes the walk knows. */
  lemma EntriesSafe(src: Source, oid: Oid, e: Entry)
    requires src.At(oid).Some? && e in src.At(oid).value
    ensures SafeName(e.name) && |e.oid| == src.size
    ensures if e.directory then e.mode == 493 else e.mode == 420 || e.mode == 493
  {
    hide Entries;
    ParsedPrintable(src.trees[oid], src.size, src.utf8);
  }

  lemma {:induction false} TreePathClean(src: Source, root: Oid, path: seq<Name>, oid: Oid)
    requires src.TreeAt(root, path, oid) && NamesPlain(src, root)
    ensures forall j | 0 <= j < |path| :: CleanSegment(path[j])
    decreases |path|
  {
    hide Source.At, CleanSegment, SafeName, Plain;
    if path == [] {
    } else {
      var front := path[..|path| - 1];
      var parent, e :| src.TreeAt(root, front, parent) && src.At(parent).Some? && e in src.At(parent).value
                       && e.directory && e.name == path[|path| - 1] && e.oid == oid;
      TreePathClean(src, root, front, parent);
      EntriesSafe(src, parent, e);
      assert src.EntryAt(root, path, e);
      CleanIs(e.name);
      assert forall j | 0 <= j < |front| :: path[j] == front[j];
    }
  }

  lemma EntryPathClean(src: Source, root: Oid, path: seq<Name>, e: Entry)
    requires src.EntryAt(root, path, e) && NamesPlain(src, root)
    ensures path != [] && forall j | 0 <= j < |path| :: CleanSegment(path[j])
    ensures if e.directory then e.mode == 493 else e.mode == 420 || e.mode == 493
  {
    hide Source.At, CleanSegment, SafeName, Plain;
    var front := path[..|path| - 1];
    var parent :| src.TreeAt(root, front, parent) && src.At(parent).Some? && e in src.At(parent).value
        && e.name == path[|path| - 1];
    TreePathClean(src, root, front, parent);
    EntriesSafe(src, parent, e);
    CleanIs(e.name);
    assert forall j | 0 <= j < |front| :: path[j] == front[j];
  }

  /**
   Everything a tree read records, apart from the root itself, has a path of at least one
   segment, all of them clean; folders have mode 755, files 644 or 755, and a file's content is
   the blob its entry names.
   */
  lemma ReadPathsClean(src: Source, root: Oid, w: Progress, i: nat)
    requires Sound(src, root, w) && NamesPlain(src, root) && 1 <= i < |w.entries|
    ensures var te := w.entries[i];
            && te.path != [] && (forall j | 0 <= j < |te.path| :: CleanSegment(te.path[j]))
            && (if te.node == Folder then te.mode == 493 else te.mode == 420 || te.mode == 493)
            && (te.node != Folder ==> exists e :: src.EntryAt(root, te.path, e) && !e.directory
                                              && (e.oid in src.blobs ==> te.node == Blob(src.blobs[e.oid])))
  {
    hide Source.EntryAt, CleanSegment, NamesPlain;
    var te := w.entries[i];
    assert Found(src, root, te);
    var e :| src.EntryAt(root, te.path, e) && te == src.Record(te.path, e);
    EntryPathClean(src, root, te.path, e);
  }

  // ------------------------------------------------------------------------------ mode texts

  predicate Spaces(s: Bytes) {
    forall i | 0 <= i < |s| :: s[i] == 32 || 9 <= s[i] <= 13
  }

  predicate Digit(c: byte) {
    48 <= c <= 55
  }

  /** The byte is an octal digit, or an underscore between two of them. */
  predicate InPlace(s: Bytes, i: nat)
    requires i < |s|
  {
    Digit(s[i]) || (s[i] == 95 && 0 < i < |s| - 1 && Digit(s[i - 1]) && Digit(s[i + 1]))
  }

  /** Octal digits with single underscores only between them. */
  predicate DigitText(s: Bytes) {
    s != [] && forall i | 0 <= i < |s| :: InPlace(s, i)
  }

  lemma DigitEnds(s: Bytes)
    requires DigitText(s)
    ensures |s| > 0 && Digit(s[0]) && Digit(s[|s| - 1])
    ensures |s| > 1 ==> Digit(s[1]) || s[1] == 95
  {
    assert InPlace(s, 0) && InPlace(s, |s| - 1);
    assert |s| > 1 ==> InPlace(s, 1);
  }

  /** The digits read one by one onto a value, underscores skipped. */
  function ReadOn(value: nat, s: Bytes): nat
    decreases |s|
  {
    if s == [] then value
    else
      var before, c := ReadOn(value, s[..|s| - 1]), s[|s| - 1];
      if Digit(c) then 8 * before + (c as int - 48) else before
  }

  lemma {:induction false} ReadFirst(value: nat, c: byte, s: Bytes)
    ensures ReadOn(value, [c] + s) == ReadOn(if Digit(c) then 8 * value + (c as int - 48) else value, s)
    decreases |s|
  {
    var all := [c] + s;
    if s == [] {
      assert all[..0] == [];
    } else {
      var n := |s| - 1;
      ReadFirst(value, c, s[..n]);
      assert all[..|all| - 1] == [c] + s[..n];
    }
  }

  lemma {:induction false} DigitsMean(s: Bytes, value: nat)
    ensures OctalDigits(s, value) == if DigitText(s) then Some(ReadOn(value, s)) else None
    decreases |s|
  {
    hide DigitText;
    if s == [] || !Digit(s[0]) {
      NoDigits(s);
    } else {
      var next := 8 * value + (s[0] as int - 48);
      assert s == [s[0]] + s[1..];
      ReadFirst(value, s[0], s[1..]);
      if |s| == 1 {
        OneDigit(s);
      } else {
        var k := if s[1] == 95 then 2 else 1;
        DigitsMean(s[k..], next);
        TailText(s, k);
        if k == 2 {
          assert s[1..] == [s[1]] + s[2..];
          ReadFirst(next, s[1], s[2..]);
        }
      }
    }
  }

  lemma NoDigits(s: Bytes)
    requires s == [] || !Digit(s[0])
    ensures !DigitText(s)
  {
    if DigitText(s) {
      DigitEnds(s);
    }
  }

  lemma OneDigit(s: Bytes)
    requires |s| == 1 && Digit(s[0])
    ensures DigitText(s)
  {
  }

  lemma TailText(s: Bytes, k: nat)
    requires |s| > 1 && Digit(s[0]) && k == (if s[1] == 95 then 2 else 1)
    ensures DigitText(s) <==> DigitText(s[k..])
  {
    var t := s[k..];
    if DigitText(s) {
      assert InPlace(s, 1);
      forall i | 0 <= i < |t| ensures InPlace(t, i) {
        assert InPlace(s, k + i);
      }
    }
    if DigitText(t) {
      assert InPlace(t, 0);
      forall i | 0 <= i < |s| ensures InPlace(s, i) {
        if i >= k {
          assert InPlace(t, i - k);
        }
      }
    }
  }

  /** Nothing, `+` or `-`. */
  predicate IsSign(s: Bytes) {
    s == [] || s == [43] || s == [45]
  }

  /** Nothing, `0o`, `0O`, `0o_` or `0O_`. */
  predicate IsPrefix(s: Bytes) {
    s == [] || s == [48, 111] || s == [48, 79] || s == [48, 111, 95] || s == [48, 79, 95]
  }

  /** A text that means the number: digits, perhaps with a prefix, a sign and spaces around. */
  ghost predicate Means(s: Bytes, v: int) {
    exists a, sign, prefix, ds, b ::
      && s == Text(a, sign, prefix, ds, b) && Spaces(a) && Spaces(b) && IsSign(sign) && IsPrefix(prefix)
      && DigitText(ds) && v == (if sign == [45] then 0 - ReadOn(0, ds) else ReadOn(0, ds))
  }

  function Text(a: Bytes, sign: Bytes, prefix: Bytes, ds: Bytes, b: Bytes): Bytes {
    a + (sign + prefix + ds) + b
  }

  lemma {:induction false} Trimmed(s: Bytes) returns (a: Bytes, b: Bytes)
    ensures Spaces(a) && Spaces(b) && s == a + TrimRight(TrimLeft(s)) + b
  {
    a := TrimmedLeft(s);
    b := TrimmedRight(TrimLeft(s));
    assert a + (TrimRight(TrimLeft(s)) + b) == a + TrimRight(TrimLeft(s)) + b;
  }

  lemma {:induction false} TrimmedLeft(s: Bytes) returns (a: Bytes)
    ensures Spaces(a) && s == a + TrimLeft(s)
  {
    if s != [] && IsSpace(s[0]) {
      var rest := TrimmedLeft(s[1..]);
      a := [s[0]] + rest;
      assert s == [s[0]] + s[1..];
    } else {
      a := [];
    }
  }

  lemma {:induction false} TrimmedRight(s: Bytes) returns (b: Bytes)
    ensures Spaces(b) && s == TrimRight(s) + b
    decreases |s|
  {
    if s != [] && IsSpace(s[|s| - 1]) {
      var rest := TrimmedRight(s[..|s| - 1]);
      b := rest + [s[|s| - 1]];
      assert s == s[..|s| - 1] + [s[|s| - 1]];
    } else {
      b := [];
      assert s + [] == s;
    }
  }

  lemma {:induction false} TrimsLeft(a: Bytes, s: Bytes)
    requires Spaces(a) && s != [] && !IsSpace(s[0])
    ensures TrimLeft(a + s) == s
  {
    if a == [] {
      assert a + s == s;
    } else {
      assert a[0] in a && (a + s)[0] == a[0];
      assert (a + s)[1..] == a[1..] + s;
      TrimsLeft(a[1..], s);
    }
  }

  lemma {:induction false} TrimsRight(s: Bytes, b: Bytes)
    requires Spaces(b) && s != [] && !IsSpace(s[|s| - 1])
    ensures TrimRight(s + b) == s
    decreases |b|
  {
    if b == [] {
      assert s + b == s;
    } else {
      var n := |b| - 1;
      assert b[n] in b && (s + b)[|s + b| - 1] == b[n];
      assert (s + b)[..|s + b| - 1] == s + b[..n];
      TrimsRight(s, b[..n]);
    }
  }

  function Unsigned(core: Bytes): Bytes {
    if core != [] && (core[0] == 45 || core[0] == 43) then core[1..] else core
  }

  function Unprefixed(unsigned: Bytes): Bytes {
    var prefixed := |unsigned| >= 2 && unsigned[0] == 48 && (unsigned[1] == 111 || unsigned[1] == 79);
    if !prefixed then unsigned else if |unsigned| >= 3 && unsigned[2] == 95 then unsigned[3..] else unsigned[2..]
  }

  function Value(core: Bytes, n: nat): int {
    if core != [] && core[0] == 45 then 0 - n else n
  }

  lemma OctalIs(s: Bytes)
    ensures var core := TrimRight(TrimLeft(s));
            Octal(s) == match OctalDigits(Unprefixed(Unsigned(core)), 0)
                        case None => None
                        case Some(n) => Some(Value(core, n))
  {
  }

  /** The core of a number text is not trimmed and is taken apart as it was put together. */
  lemma OctalOf(a: Bytes, sign: Bytes, prefix: Bytes, ds: Bytes, b: Bytes)
    requires Spaces(a) && Spaces(b) && IsSign(sign) && IsPrefix(prefix) && DigitText(ds)
    ensures Octal(Text(a, sign, prefix, ds, b)) == Some(if sign == [45] then 0 - ReadOn(0, ds) else ReadOn(0, ds))
  {
    hide Octal, OctalDigits, ReadOn, TrimLeft, TrimRight, DigitText, Unsigned, Unprefixed, IsSign, IsPrefix;
    var core := sign + prefix + ds;
    CoreParts(sign, prefix, ds);
    UnsignedParts(prefix, ds);
    assert a + core + b == a + (core + b);
    TrimsLeft(a, core + b);
    TrimsRight(core, b);
    OctalIs(Text(a, sign, prefix, ds, b));
    DigitsMean(ds, 0);
  }

  lemma CoreParts(sign: Bytes, prefix: Bytes, ds: Bytes)
    requires IsSign(sign) && IsPrefix(prefix) && DigitText(ds)
    ensures var core := sign + prefix + ds;
            && core != [] && !IsSpace(core[0]) && !IsSpace(core[|core| - 1])
            && (core[0] == 45 <==> sign == [45])
            && Unsigned(core) == prefix + ds
  {
    hide DigitText;
    DigitEnds(ds);
    var core, rest := sign + prefix + ds, prefix + ds;
    assert Digit(rest[0]) && rest[|rest| - 1] == ds[|ds| - 1];
    assert core == sign + rest;
    if sign == [] {
      assert core == rest;
    } else {
      assert core[1..] == rest;
    }
  }

  lemma UnsignedParts(prefix: Bytes, ds: Bytes)
    requires IsPrefix(prefix) && DigitText(ds)
    ensures Unprefixed(prefix + ds) == ds
  {
    hide DigitText;
    DigitEnds(ds);
    var unsigned := prefix + ds;
    if prefix == [] {
      assert unsigned == ds;
    } else if |prefix| == 2 {
      assert unsigned[2..] == ds && unsigned[2] == ds[0];
    } else {
      assert unsigned[3..] == ds && unsigned[2] == 95;
    }
  }

  /** The texts accepted for a number in base eight are exactly these, each with the number it means. */
  lemma OctalMeans(s: Bytes, v: int)
    ensures Octal(s) == Some(v) <==> Means(s, v)
  {
    hide Octal, ReadOn, DigitText, Text;
    if Means(s, v) {
      var a, sign, prefix, ds, b :|
        && s == Text(a, sign, prefix, ds, b) && Spaces(a) && Spaces(b) && IsSign(sign) && IsPrefix(prefix)
        && DigitText(ds) && v == (if sign == [45] then 0 - ReadOn(0, ds) else ReadOn(0, ds));
      OctalOf(a, sign, prefix, ds, b);
    }
    if Octal(s) == Some(v) {
      OctalRead(s, v);
    }
  }

  lemma OctalRead(s: Bytes, v: int)
    requires Octal(s) == Some(v)
    ensures Means(s, v)
  {
    hide Octal, OctalDigits, ReadOn, TrimLeft, TrimRight, DigitText, Means, Unsigned, Unprefixed, IsSign, IsPrefix;
    var a, b := Trimmed(s);
    var core := TrimRight(TrimLeft(s));
    OctalIs(s);
    var sign, prefix, ds := TakenApart(core);
    DigitsMean(ds, 0);
    IsText(s, v, a, sign, prefix, ds, b);
  }

  lemma IsText(s: Bytes, v: int, a: Bytes, sign: Bytes, prefix: Bytes, ds: Bytes, b: Bytes)
    requires s == a + (sign + prefix + ds) + b && Spaces(a) && Spaces(b) && IsSign(sign) && IsPrefix(prefix)
    requires DigitText(ds) && v == (if sign == [45] then 0 - ReadOn(0, ds) else ReadOn(0, ds))
    ensures Means(s, v)
  {
    hide ReadOn, DigitText, Spaces;
    assert s == Text(a, sign, prefix, ds, b);
  }

  lemma TakenApart(core: Bytes) returns (sign: Bytes, prefix: Bytes, ds: Bytes)
    ensures core == sign + prefix + ds && IsSign(sign) && IsPrefix(prefix)
    ensures ds == Unprefixed(Unsigned(core)) && (sign == [45] <==> core != [] && core[0] == 45)
  {
    hide Unprefixed, IsPrefix, Unsigned, IsSign;
    sign := SignTaken(core);
    prefix, ds := PrefixTaken(Unsigned(core));
    assert sign + prefix + ds == sign + (prefix + ds);
  }

  lemma SignTaken(core: Bytes) returns (sign: Bytes)
    ensures core == sign + Unsigned(core) && IsSign(sign) && (sign == [45] <==> core != [] && core[0] == 45)
  {
    if core != [] && (core[0] == 45 || core[0] == 43) {
      sign := [core[0]];
    } else {
      sign := [];
    }
  }

  lemma PrefixTaken(unsigned: Bytes) returns (prefix: Bytes, ds: Bytes)
    ensures unsigned == prefix + ds && IsPrefix(prefix) && ds == Unprefixed(unsigned)
  {
    ds := Unprefixed(unsigned);
    var n := |unsigned| - |ds|;
    prefix := unsigned[..n];
    if n == 2 {
      assert prefix == [unsigned[0], unsigned[1]];
    } else if n == 3 {
      assert prefix == [unsigned[0], unsigned[1], unsigned[2]];
    }
  }

  /** What the parser does with one entry: mode text, space, name, NUL and object id. */
  lemma EntryMeans(mode: Bytes, name: Name, oid: Oid, rest: Bytes, utf8: Bytes -> bool)
    requires 32 !in mode && 0 !in mode && 0 !in name
    ensures var parsed := ParseEntry(mode + [32] + name + [0] + oid + rest, |oid|, utf8);
            && (parsed.Some? <==>
                  SafeName(name) && utf8(name)
                  && (Means(mode, 16384) || Means(mode, 33188) || Means(mode, 33261)))
            && (parsed.Some? ==>
                  && parsed.value.1 == |mode| + |name| + |oid| + 2
                  && parsed.value.0 == Entry(name, if Means(mode, 33188) then 420 else 493, oid, Means(mode, 16384)))
  {
    hide Octal, SafeName, Means;
    var header := mode + [32] + name;
    var data := mode + [32] + name + [0] + oid + rest;
    assert data == header + [0] + (oid + rest);
    FirstIndex(header, 0, oid + rest);
    assert data[..|header|] == header;
    FirstIndex(mode, 32, name);
    assert header[..|mode|] == mode && header[|mode| + 1..] == name;
    assert data[|header| + 1..|header| + 1 + |oid|] == oid;
    OctalMeans(mode, 16384);
    OctalMeans(mode, 33188);
    OctalMeans(mode, 33261);
  }

  /**
   The limits of a walk: fewer entries under the root than the file limit, no more bytes than the
   byte limit, and no more than 8192 bytes of tree objects for each file allowed.
   */
  ghost predicate InLimits(w: Weight, byteLimit: nat, fileLimit: nat) {
    w.count < fileLimit && w.bytes <= byteLimit && w.metadata <= fileLimit * 8192
  }

  ghost predicate WeighsWithin(src: Source, root: Oid, height: nat, byteLimit: nat, fileLimit: nat) {
    Weigh(src, root, height).Some? && InLimits(Weigh(src, root, height).value, byteLimit, fileLimit)
  }

  lemma WalkableMeans(src: Source, root: Oid, byteLimit: nat, fileLimit: nat)
    ensures Walkable(src, root, byteLimit, fileLimit) <==>
              exists height: nat :: WeighsWithin(src, root, height, byteLimit, fileLimit)
  {
    hide Weigh, Within, InLimits;
    if Walkable(src, root, byteLimit, fileLimit) {
      var height: nat :| Weigh(src, root, height).Some?
                         && Within(Weigh(src, root, height).value, byteLimit, fileLimit);
      LimitsMean(Weigh(src, root, height).value, byteLimit, fileLimit);
      assert WeighsWithin(src, root, height, byteLimit, fileLimit);
    }
    if height: nat :| WeighsWithin(src, root, height, byteLimit, fileLimit) {
      LimitsMean(Weigh(src, root, height).value, byteLimit, fileLimit);
      assert Weigh(src, root, height).Some? && Within(Weigh(src, root, height).value, byteLimit, fileLimit);
    }
  }

  lemma LimitsMean(w: Weight, byteLimit: nat, fileLimit: nat)
    ensures Within(w, byteLimit, fileLimit) <==> InLimits(w, byteLimit, fileLimit)
  {
  }

  /** The recorded entry has the mode and the contents of the entry of a tree object. */
  predicate Recorded(src: Source, te: TreeEntry, e: Entry) {
    && te.mode == e.mode
    && (e.directory ==> te.node == Folder)
    && (!e.directory ==> te.node.Blob? && (e.oid in src.blobs ==> te.node.data == src.blobs[e.oid]))
  }

  /** The entry is one that its path names, starting from the root. */
  ghost predicate Listed(src: Source, root: Oid, te: TreeEntry) {
    exists e :: src.EntryAt(root, te.path, e) && Recorded(src, te, e)
  }

  /**
   What a walk records: the root as a folder with mode 755, then only entries that the paths from
   the root name, with their modes and contents; and none of those is left out.
   */
  lemma ListingMeans(src: Source, root: Oid, w: Progress)
    requires Sound(src, root, w)
    requires forall path, e | src.EntryAt(root, path, e) :: src.Record(path, e) in w.entries
    ensures w.entries[0] == TreeEntry([], 493, Folder)
    ensures forall i | 1 <= i < |w.entries| :: Listed(src, root, w.entries[i])
    ensures forall path, e | src.EntryAt(root, path, e) ::
              exists i :: 0 <= i < |w.entries| && w.entries[i].path == path && Recorded(src, w.entries[i], e)
  {
    hide Source.EntryAt, Listed, Found;
    forall i | 1 <= i < |w.entries| ensures Listed(src, root, w.entries[i]) {
      FoundMeans(src, root, w.entries[i]);
    }
    forall path, e | src.EntryAt(root, path, e)
      ensures exists i :: 0 <= i < |w.entries| && w.entries[i].path == path && Recorded(src, w.entries[i], e)
    {
      var i :| 0 <= i < |w.entries| && w.entries[i] == src.Record(path, e);
      assert Recorded(src, w.entries[i], e);
    }
  }

  lemma FoundMeans(src: Source, root: Oid, te: TreeEntry)
    requires Found(src, root, te)
    ensures Listed(src, root, te)
  {
    hide Source.EntryAt;
    var e :| src.EntryAt(root, te.path, e) && te == src.Record(te.path, e);
    assert Recorded(src, te, e);
  }
}

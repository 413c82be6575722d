/**
 Git objects of a source tree: the tree-object parser, what paths name, and the expansion of one tree.

 The object store is an arbitrary map, so trees may be missing, malformed, shared or even
 cyclic.  A path is the list of its segment names; names contain no separator, so this is the
 joined path without loss.  Object ids are raw bytes.
 */
module TreeObjects {
  import opened Common

  newtype byte = b: int | 0 <= b < 256

  type Bytes = seq<byte>
  type Name = Bytes
  type Oid = Bytes

  datatype Entry = Entry(name: Name, mode: nat, oid: Oid, directory: bool)

  // ------------------------------------------------------------- octal mode numbers

  predicate IsSpace(c: byte) {
    c == 32 || 9 <= c <= 13
  }

  function TrimLeft(s: Bytes): Bytes {
    if s != [] && IsSpace(s[0]) then TrimLeft(s[1..]) else s
  }

  function TrimRight(s: Bytes): Bytes
    decreases |s|
  {
    if s != [] && IsSpace(s[|s| - 1]) then TrimRight(s[..|s| - 1]) else s
  }

  /** Digits 0..7 with single underscores between them. */
  function OctalDigits(s: Bytes, value: nat): Option<nat>
    decreases |s|
  {
    if s == [] then None
    else if !(48 <= s[0] <= 55) then None
    else
      var next := 8 * value + (s[0] as int - 48);
      if |s| == 1 then Some(next)
      else if s[1] == 95 then OctalDigits(s[2..], next)
      else OctalDigits(s[1..], next)
  }

  /** An integer literal in base eight as Python's `int` accepts it. */
  function Octal(s: Bytes): Option<int> {
    var trimmed := TrimRight(TrimLeft(s));
    var negative := trimmed != [] && trimmed[0] == 45;
    var unsigned := if trimmed != [] && (trimmed[0] == 45 || trimmed[0] == 43) then trimmed[1..] else trimmed;
    var prefixed := |unsigned| >= 2 && unsigned[0] == 48 && (unsigned[1] == 111 || unsigned[1] == 79);
    var digits := if !prefixed then unsigned else if |unsigned| >= 3
        && unsigned[2] == 95 then unsigned[3..] else unsigned[2..];
    match OctalDigits(digits, 0)
    case None => None
    case Some(value) =>
      var signed: int := if negative then 0 - value else value;
      Some(signed)
  }

  const DIRECTORY := 16384  // octal 40000
  const PLAIN := 33188  // octal 100644
  const EXECUTABLE := 33261  // octal 100755
  const MODE_644 := 420
  const MODE_755 := 493

  // ------------------------------------------------------------------- tree objects

  function IndexOf(s: Bytes, c: byte): (i: Option<nat>)
    ensures i.None? ==> c !in s
    ensures i.Some? ==> i.value < |s| && s[i.value] == c && c !in s[..i.value]
  {
    if s == [] then None
    else if s[0] == c then Some(0)
    else
      match IndexOf(s[1..], c)
      case None => None
      case Some(i) =>
        assert s[..i + 1] == [s[0]] + s[1..][..i];
        Some(i + 1)
  }

  predicate IsLetter(c: byte) {
    65 <= c <= 90 || 97 <= c <= 122
  }

  /** One path segment: not empty, no separator, no drive prefix, not a dot name. */
  predicate SafeName(name: Name) {
    && name != []
    && 92 !in name && 0 !in name && 47 !in name
    && !(|name| >= 2 && IsLetter(name[0]) && name[1] == 58)
    && name != [46] && name != [46, 46]
  }

  /** Parses one entry; the result is the entry and the number of bytes it took. */
  function ParseEntry(data: Bytes, size: nat, utf8: Bytes -> bool): (r: Option<(Entry, nat)>)
    ensures r.Some? ==> 0 < r.value.1 <= |data|
  {
    match IndexOf(data, 0)
    case None => None
    case Some(end) =>
      match IndexOf(data[..end], 32)
      case None => None
      case Some(space) =>
        var name := data[..end][space + 1..];
        var number := Octal(data[..end][..space]);
        if !utf8(name) || number.None? || number.value !in {DIRECTORY, PLAIN, EXECUTABLE} then None
        else if !SafeName(name) || |data| < end + 1 + size then None
        else
          var directory := number.value == DIRECTORY;
          Some((Entry(name, if directory then MODE_755 else number.value % 512, data[end + 1..end + 1 + size],
                      directory),
                end + 1 + size))
  }

  function Entries(data: Bytes, size: nat, utf8: Bytes -> bool): Option<seq<Entry>>
    decreases |data|
  {
    if data == [] then Some([])
    else
      match ParseEntry(data, size, utf8)
      case None => None
      case Some((e, used)) => Prefixed([e], Entries(data[used..], size, utf8))
  }

  function Prefixed(front: seq<Entry>, rest: Option<seq<Entry>>): Option<seq<Entry>> {
    match rest
    case None => None
    case Some(entries) => Some(front + entries)
  }

  lemma PrefixedTwice(front: seq<Entry>, e: Entry, rest: Option<seq<Entry>>)
    ensures Prefixed(front, Prefixed([e], rest)) == Prefixed(front + [e], rest)
    ensures Prefixed([], rest) == rest
  {
    if rest.Some? {
      assert front + ([e] + rest.value) == front + [e] + rest.value;
      assert [] + rest.value == rest.value;
    }
  }

  method ParseEntries(data: Bytes, size: nat, utf8: Bytes -> bool) returns (r: Option<seq<Entry>>)
    ensures r == Entries(data, size, utf8)
  {
    hide ParseEntry, Prefixed;
    var offset := 0;
    var entries: seq<Entry> := [];
    assert data[0..] == data;
    PrefixedTwice([], Entry([], 0, [], false), Entries(data, size, utf8));
    while offset < |data|
      invariant 0 <= offset <= |data|
      invariant Entries(data, size, utf8) == Prefixed(entries, Entries(data[offset..], size, utf8))
    {
      var parsed := ParseEntry(data[offset..], size, utf8);
      if parsed.None? {
        assert Prefixed(entries, None) == None by {
          PrefixedNone(entries);
        }
        return None;
      }
      PrefixedTwice(entries, parsed.value.0, Entries(data[offset + parsed.value.1..], size, utf8));
      assert data[offset..][parsed.value.1..] == data[offset + parsed.value.1..];
      entries := entries + [parsed.value.0];
      offset := offset + parsed.value.1;
    }
    PrefixedEmpty(entries);
    return Some(entries);
  }

  lemma PrefixedNone(front: seq<Entry>)
    ensures Prefixed(front, None) == None
  {
  }

  lemma PrefixedEmpty(front: seq<Entry>)
    ensures Prefixed(front, Some([])) == Some(front)
  {
    assert front + [] == front;
  }

  // --------------------------------------------------------------------- round trip

  /** What a parsed entry can be, and what can be printed. */
  predicate Printable(e: Entry, size: nat, utf8: Bytes -> bool) {
    && SafeName(e.name) && utf8(e.name) && |e.oid| == size
    && (if e.directory then e.mode == MODE_755 else e.mode == MODE_644 || e.mode == MODE_755)
  }

  function ModeBytes(e: Entry): Bytes {
    if e.directory then [52, 48, 48, 48, 48]
    else if e.mode == MODE_644 then [49, 48, 48, 54, 52, 52]
    else [49, 48, 48, 55, 53, 53]
  }

  function PrintEntry(e: Entry): Bytes {
    ModeBytes(e) + [32] + e.name + [0] + e.oid
  }

  function Print(entries: seq<Entry>): Bytes {
    if entries == [] then [] else PrintEntry(entries[0]) + Print(entries[1..])
  }

  lemma OctalOfModes()
    ensures Octal([52, 48, 48, 48, 48]) == Some(DIRECTORY)
    ensures Octal([49, 48, 48, 54, 52, 52]) == Some(PLAIN)
    ensures Octal([49, 48, 48, 55, 53, 53]) == Some(EXECUTABLE)
  {
    hide OctalDigits;
    DigitsOfModes();
  }

  lemma DigitsOfModes()
    ensures OctalDigits([52, 48, 48, 48, 48], 0) == Some(DIRECTORY)
    ensures OctalDigits([49, 48, 48, 54, 52, 52], 0) == Some(PLAIN)
    ensures OctalDigits([49, 48, 48, 55, 53, 53], 0) == Some(EXECUTABLE)
  {
    calc {
      OctalDigits([52, 48, 48, 48, 48], 0);
      OctalDigits([48, 48, 48, 48], 4);
      OctalDigits([48, 48, 48], 32);
      OctalDigits([48, 48], 256);
      OctalDigits([48], 2048);
    }
    calc {
      OctalDigits([49, 48, 48, 54, 52, 52], 0);
      OctalDigits([48, 48, 54, 52, 52], 1);
      OctalDigits([48, 54, 52, 52], 8);
      OctalDigits([54, 52, 52], 64);
      OctalDigits([52, 52], 518);
      OctalDigits([52], 4148);
    }
    calc {
      OctalDigits([49, 48, 48, 55, 53, 53], 0);
      OctalDigits([48, 48, 55, 53, 53], 1);
      OctalDigits([48, 55, 53, 53], 8);
      OctalDigits([55, 53, 53], 64);
      OctalDigits([53, 53], 519);
      OctalDigits([53], 4157);
    }
  }

  lemma FirstIndex(before: Bytes, c: byte, after: Bytes)
    requires c !in before
    ensures IndexOf(before + [c] + after, c) == Some(|before|)
  {
    var s := before + [c] + after;
    assert s[|before|] == c;
    assert forall k | 0 <= k < |before| :: s[k] == before[k];
    assert forall k | |before| < k < |s| :: s[..k][|before|] == c;
  }

  lemma ParsePrinted(e: Entry, rest: Bytes, size: nat, utf8: Bytes -> bool)
    requires Printable(e, size, utf8)
    ensures ParseEntry(PrintEntry(e) + rest, size, utf8) == Some((e, |PrintEntry(e)|))
  {
    hide Octal, SafeName;
    var data := PrintEntry(e) + rest;
    var mode := ModeBytes(e);
    OctalOfModes();
    var header := mode + [32] + e.name;
    assert 0 !in e.name by {
      SafeNameHasNoNul(e.name);
    }
    assert data == header + [0] + (e.oid + rest);
    FirstIndex(header, 0, e.oid + rest);
    var end := |header|;
    assert data[..end] == header;
    FirstIndex(mode, 32, e.name);
    assert header[..|mode|] == mode && header[|mode| + 1..] == e.name;
    assert data[end + 1..end + 1 + size] == e.oid;
  }

  lemma SafeNameHasNoNul(name: Name)
    requires SafeName(name)
    ensures 0 !in name
  {
  }

  /** Parsing a printed list of safe entries returns that list. */
  lemma {:induction false} ParsePrint(entries: seq<Entry>, size: nat, utf8: Bytes -> bool)
    requires forall e | e in entries :: Printable(e, size, utf8)
    ensures Entries(Print(entries), size, utf8) == Some(entries)
  {
    hide Printable, ParseEntry, PrintEntry;
    if entries == [] {
    } else {
      var e, rest := entries[0], Print(entries[1..]);
      ParsePrinted(e, rest, size, utf8);
      ParsePrint(entries[1..], size, utf8);
      assert (PrintEntry(e) + rest)[|PrintEntry(e)|..] == rest;
      assert entries == [e] + entries[1..];
    }
  }

  /** Everything the parser yields is safe, so printing and parsing it again changes nothing. */
  lemma {:induction false} ParsedPrintable(data: Bytes, size: nat, utf8: Bytes -> bool)
    requires Entries(data, size, utf8).Some?
    ensures forall e | e in Entries(data, size, utf8).value :: Printable(e, size, utf8)
    decreases |data|
  {
    hide Octal, SafeName;
    if data == [] {
    } else {
      var (e, used) := ParseEntry(data, size, utf8).value;
      ParsedPrintable(data[used..], size, utf8);
      assert Printable(e, size, utf8);
    }
  }

  // ----------------------------------------------------------------- reachable entries

  datatype Node = Folder | Blob(data: Bytes)

  datatype TreeEntry = TreeEntry(path: seq<Name>, mode: nat, node: Node)

  datatype Source = Source(trees: map<Oid, Bytes>, blobs: map<Oid, Bytes>, size: nat, utf8: Bytes -> bool)
  {
    function At(oid: Oid): Option<seq<Entry>> {
      if oid in trees then Entries(trees[oid], size, utf8) else None
    }

    function BlobOf(e: Entry): Bytes {
      if e.oid in blobs then blobs[e.oid] else []
    }

    /** What the walk records for an entry found at a path. */
    function Record(path: seq<Name>, e: Entry): TreeEntry {
      TreeEntry(path, e.mode, if e.directory then Folder else Blob(BlobOf(e)))
    }

    /** The tree object is what the path names, starting from the root. */
    ghost predicate TreeAt(root: Oid, path: seq<Name>, oid: Oid)
      decreases |path|
    {
      if path == [] then oid == root
      else exists parent, e :: TreeAt(root, path[..|path| - 1], parent) && At(parent).Some? && e in At(parent).value
                            && e.directory && e.name == path[|path| - 1] && e.oid == oid
    }

    /** The path names this entry, starting from the root. */
    ghost predicate EntryAt(root: Oid, path: seq<Name>, e: Entry) {
      path != [] && exists parent :: TreeAt(root, path[..|path| - 1],
                                            parent) && At(parent).Some? && e in At(parent).value
                                   && e.name == path[|path| - 1]
    }
  }

  // ------------------------------------------------------------------------- one tree

  datatype Progress =
    Progress(entries: seq<TreeEntry>, files: seq<(seq<Name>, Bytes)>, pending: seq<(seq<Name>, Oid)>, remaining: nat)

  function Records(src: Source, path: seq<Name>, es: seq<Entry>): seq<TreeEntry> {
    seq(|es|, i requires 0 <= i < |es| => src.Record(path + [es[i].name], es[i]))
  }

  function Folders(path: seq<Name>, es: seq<Entry>): (folders: seq<(seq<Name>, Oid)>)
    ensures |folders| <= |es|
    ensures forall p :: p in folders <==> exists e :: e in es && e.directory && p == (path + [e.name], e.oid)
    decreases |es|
  {
    if es == [] then []
    else
      var e := es[|es| - 1];
      assert es == es[..|es| - 1] + [e];
      Folders(path, es[..|es| - 1]) + (if e.directory then [(path + [e.name], e.oid)] else [])
  }

  function Files(src: Source, path: seq<Name>, es: seq<Entry>): seq<(seq<Name>, Bytes)>
    decreases |es|
  {
    if es == [] then []
    else
      var e := es[|es| - 1];
      Files(src, path, es[..|es| - 1]) + (if e.directory then [] else [(path + [e.name], src.BlobOf(e))])
  }

  function Size(files: seq<(seq<Name>, Bytes)>): nat
    decreases |files|
  {
    if files == [] then 0 else Size(files[..|files| - 1]) + |files[|files| - 1].1|
  }

  lemma SizeAppend(files: seq<(seq<Name>, Bytes)>, file: (seq<Name>, Bytes))
    ensures Size(files + [file]) == Size(files) + |file.1|
  {
    assert (files + [file])[..|files|] == files;
  }

  lemma {:induction false} SizeConcat(a: seq<(seq<Name>, Bytes)>, b: seq<(seq<Name>, Bytes)>)
    ensures Size(a + b) == Size(a) + Size(b)
    decreases |b|
  {
    if b == [] {
      assert a + b == a;
    } else {
      var n := |b| - 1;
      assert a + b == (a + b[..n]) + [b[n]] && b == b[..n] + [b[n]];
      SizeConcat(a, b[..n]);
      SizeAppend(a + b[..n], b[n]);
      SizeAppend(b[..n], b[n]);
    }
  }

  /** The blobs of the entries exist and fit, and so do the entries themselves. */
  predicate Fits(src: Source, w: Progress, path: seq<Name>, es: seq<Entry>, limit: nat) {
    && |w.entries| + |es| <= limit
    && (forall e | e in es && !e.directory :: e.oid in src.blobs)
    && Size(Files(src, path, es)) <= w.remaining
  }

  function Expanded(src: Source, w: Progress, path: seq<Name>, es: seq<Entry>): Progress
    requires Size(Files(src, path, es)) <= w.remaining
  {
    Progress(w.entries + Records(src, path, es), w.files + Files(src, path, es), w.pending + Folders(path, es),
             w.remaining - Size(Files(src, path, es)))
  }

  /** Records the entries of one tree in order, reading blobs and queueing folders, until a limit stops it. */
  method Expand(src: Source, start: Progress, path: seq<Name>, es: seq<Entry>, limit: nat) returns (r: Option<Progress>)
    requires |start.entries| <= limit
    ensures r.Some? <==> Fits(src, start, path, es, limit)
    ensures r.Some? ==> r.value == Expanded(src, start, path, es)
  {
    hide Records, Folders, Files, Size;
    var w := start;
    NothingYet(src, start, path);
    assert es[..0] == [];
    for i := 0 to |es|
      invariant Fits(src, start, path, es[..i], limit)
      invariant Size(Files(src, path, es[..i])) <= start.remaining && w == Expanded(src, start, path, es[..i])
      invariant |w.entries| == |start.entries| + i
    {
      var e := es[i];
      OneMore(src, path, es, i);
      Assoc(start.entries, Records(src, path, es[..i]), [src.Record(path + [e.name], e)]);
      Assoc(start.files, Files(src, path, es[..i]), if e.directory then [] else [(path + [e.name], src.BlobOf(e))]);
      Assoc(start.pending, Folders(path, es[..i]), if e.directory then [(path + [e.name], e.oid)] else []);
      FitsPrefix(src, start, path, es, i + 1, limit);
      if |w.entries| >= limit {
        return None;
      }
      if e.directory {
        w := w.(entries := w.entries + [src.Record(path + [e.name], e)],
                pending := w.pending + [(path + [e.name], e.oid)]);
      } else {
        if e.oid !in src.blobs || |src.blobs[e.oid]| > w.remaining {
          return None;
        }
        var blob := src.blobs[e.oid];
        w := Progress(w.entries + [src.Record(path + [e.name], e)], w.files + [(path + [e.name], blob)], w.pending,
                      w.remaining - |blob|);
      }
    }
    assert es[..|es|] == es;
    return Some(w);
  }

  lemma NothingYet(src: Source, w: Progress, path: seq<Name>)
    ensures Size(Files(src, path, [])) == 0 && Expanded(src, w, path, []) == w
  {
    assert Records(src, path, []) == [];
  }

  lemma OneMore(src: Source, path: seq<Name>, es: seq<Entry>, i: nat)
    requires i < |es|
    ensures var e := es[i];
            && Records(src, path, es[..i + 1]) == Records(src, path, es[..i]) + [src.Record(path + [e.name], e)]
            && Folders(path, es[..i + 1]) == Folders(path, es[..i])
              + (if e.directory then [(path + [e.name], e.oid)] else [])
            && Files(src, path, es[..i + 1]) == Files(src, path, es[..i])
              + (if e.directory then [] else [(path + [e.name], src.BlobOf(e))])
            && Size(Files(src, path, es[..i + 1])) == Size(Files(src, path, es[..i]))
              + (if e.directory then 0 else |src.BlobOf(e)|)
  {
    assert es[..i + 1][..i] == es[..i];
    var file := (path + [es[i].name], src.BlobOf(es[i]));
    if es[i].directory {
      assert Files(src, path, es[..i]) + [] == Files(src, path, es[..i]);
    } else {
      SizeAppend(Files(src, path, es[..i]), file);
    }
  }

  lemma Assoc<T>(a: seq<T>, b: seq<T>, c: seq<T>)
    ensures a + (b + c) == a + b + c && a + b + [] == a + b
  {
  }

  /** What fits as a whole fits up to any point. */
  lemma FitsPrefix(src: Source, w: Progress, path: seq<Name>, es: seq<Entry>, i: nat, limit: nat)
    requires i <= |es|
    ensures Fits(src, w, path, es, limit) ==> Fits(src, w, path, es[..i], limit)
  {
    hide Size;
    FilesPrefix(src, path, es, i);
    assert forall e | e in es[..i] :: e in es;
  }

  lemma {:induction false} FilesPrefix(src: Source, path: seq<Name>, es: seq<Entry>, i: nat)
    requires i <= |es|
    ensures Size(Files(src, path, es[..i])) <= Size(Files(src, path, es))
    decreases |es| - i
  {
    if i < |es| {
      OneMore(src, path, es, i);
      FilesPrefix(src, path, es, i + 1);
    } else {
      assert es[..i] == es;
    }
  }
}

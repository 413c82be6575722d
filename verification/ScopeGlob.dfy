/**
 Anchored scope patterns: `**` stands for any run of path segments, and `*` inside a segment
 for any run of characters.  Both levels are matched by the same rolling-row dynamic program,
 and both are proved to decide the declarative language of splittings.
 */
module ScopeGlob {
  import opened Common

  // ---------------------------------------------------------- the declarative language

  function Concat<V>(pieces: seq<seq<V>>): seq<V>
    decreases |pieces|
  {
    if pieces == [] then [] else Concat(pieces[..|pieces| - 1]) + pieces[|pieces| - 1]
  }

  /** Each starred pattern element takes any piece; every other one takes a single element it accepts. */
  predicate Splits<P, V>(pattern: seq<P>, pieces: seq<seq<V>>, star: P -> bool, one: (P, V) -> bool) {
    && |pieces| == |pattern|
    && forall i | 0 <= i < |pattern| :: star(pattern[i]) || (|pieces[i]| == 1 && one(pattern[i], pieces[i][0]))
  }

  ghost predicate InLanguage<P(!new), V(!new)>(pattern: seq<P>, value: seq<V>, star: P -> bool, one: (P, V) -> bool) {
    exists pieces: seq<seq<V>> :: Concat(pieces) == value && Splits(pattern, pieces, star, one)
  }

  // ---------------------------------------------------------------- the recurrence

  /** What one cell of the table holds: does this pattern prefix match this value prefix? */
  predicate Cell<P, V>(pattern: seq<P>, value: seq<V>, star: P -> bool, one: (P, V) -> bool)
    decreases |pattern|, |value|
  {
    if pattern == [] then value == []
    else
      var c := pattern[|pattern| - 1];
      var rest := pattern[..|pattern| - 1];
      if star(c) then Cell(rest, value, star, one) || (value != [] && Cell(pattern, value[..|value| - 1], star, one))
      else value != [] && Cell(rest, value[..|value| - 1], star, one) && one(c, value[|value| - 1])
  }

  /** The last piece of a splitting is what the last pattern element takes. */
  lemma SplitLast<P(!new), V(!new)>(pattern: seq<P>, pieces: seq<seq<V>>, star: P -> bool, one: (P, V) -> bool)
    requires pattern != [] && Splits(pattern, pieces, star, one)
    ensures Splits(pattern[..|pattern| - 1], pieces[..|pieces| - 1], star, one)
  {
  }

  lemma SplitExtend<P(!new), V(!new)>(pattern: seq<P>, pieces: seq<seq<V>>, last: seq<V>, star: P -> bool,
                      one: (P, V) -> bool)
    requires pattern != [] && Splits(pattern[..|pattern| - 1], pieces, star, one)
    requires star(pattern[|pattern| - 1]) || (|last| == 1 && one(pattern[|pattern| - 1], last[0]))
    ensures Splits(pattern, pieces + [last], star, one)
    ensures Concat(pieces + [last]) == Concat(pieces) + last
  {
    assert (pieces + [last])[..|pieces|] == pieces;
    forall i | 0 <= i < |pattern| - 1 ensures pattern[..|pattern| - 1][i] == pattern[i] {
    }
  }

  lemma NewLast<P(!new), V(!new)>(pattern: seq<P>, front: seq<V>, last: seq<V>, star: P -> bool, one: (P, V) -> bool)
    requires pattern != [] && InLanguage(pattern[..|pattern| - 1], front, star, one)
    requires star(pattern[|pattern| - 1]) || (|last| == 1 && one(pattern[|pattern| - 1], last[0]))
    ensures InLanguage(pattern, front + last, star, one) && front + [] == front
  {
    var pieces :| Concat(pieces) == front && Splits(pattern[..|pattern| - 1], pieces, star, one);
    SplitExtend(pattern, pieces, last, star, one);
  }

  lemma LongerLast<P(!new), V(!new)>(pattern: seq<P>, value: seq<V>, star: P -> bool, one: (P, V) -> bool)
    requires pattern != [] && star(pattern[|pattern| - 1]) && value != []
    requires InLanguage(pattern, value[..|value| - 1], star, one)
    ensures InLanguage(pattern, value, star, one)
  {
    var n := |pattern| - 1;
    var pieces :| Concat(pieces) == value[..|value| - 1] && Splits(pattern, pieces, star, one);
    var longer := pieces[n] + [value[|value| - 1]];
    SplitLast(pattern, pieces, star, one);
    SplitExtend(pattern, pieces[..n], longer, star, one);
    assert Concat(pieces[..n]) + longer == value;
  }

  /** The recurrence accepts only what some splitting justifies. */
  lemma {:induction false} CellSound<P(!new), V(!new)>(pattern: seq<P>, value: seq<V>, star: P -> bool,
                                       one: (P, V) -> bool)
    requires Cell(pattern, value, star, one)
    ensures InLanguage(pattern, value, star, one)
    decreases |pattern|, |value|
  {
    if pattern == [] {
      assert Concat<V>([]) == value && Splits(pattern, [], star, one);
    } else {
      var n := |pattern| - 1;
      if star(pattern[n]) && !Cell(pattern[..n], value, star, one) {
        CellSound(pattern, value[..|value| - 1], star, one);
        LongerLast(pattern, value, star, one);
      } else if star(pattern[n]) {
        CellSound(pattern[..n], value, star, one);
        NewLast(pattern, value, [], star, one);
      } else {
        var last := [value[|value| - 1]];
        CellSound(pattern[..n], value[..|value| - 1], star, one);
        assert value == value[..|value| - 1] + last;
        NewLast(pattern, value[..|value| - 1], last, star, one);
      }
    }
  }

  /** Whatever some splitting justifies, the recurrence accepts. */
  lemma {:induction false} CellComplete<P(!new), V(!new)>(pattern: seq<P>, pieces: seq<seq<V>>, star: P -> bool,
                                          one: (P, V) -> bool)
    requires Splits(pattern, pieces, star, one)
    ensures Cell(pattern, Concat(pieces), star, one)
    decreases |pattern|, if pieces == [] then 0 else |pieces[|pieces| - 1]|
  {
    if pattern == [] {
    } else {
      var n := |pattern| - 1;
      var value, last := Concat(pieces), pieces[n];
      SplitLast(pattern, pieces, star, one);
      if star(pattern[n]) && last != [] {
        var shorter := pieces[n := last[..|last| - 1]];
        assert shorter[..n] == pieces[..n];
        CellComplete(pattern, shorter, star, one);
        assert value[..|value| - 1] == Concat(shorter);
      } else {
        CellComplete(pattern[..n], pieces[..n], star, one);
        assert value[..|value| - |last|] == Concat(pieces[..n]);
        if last == [] {
          assert value == Concat(pieces[..n]);
        } else {
          assert value[|value| - 1] == last[0];
        }
      }
    }
  }

  lemma CellDecides<P(!new), V(!new)>(pattern: seq<P>, value: seq<V>, star: P -> bool, one: (P, V) -> bool)
    ensures Cell(pattern, value, star, one) <==> InLanguage(pattern, value, star, one)
  {
    if Cell(pattern, value, star, one) {
      CellSound(pattern, value, star, one);
    }
    if InLanguage(pattern, value, star, one) {
      var pieces :| Concat(pieces) == value && Splits(pattern, pieces, star, one);
      CellComplete(pattern, pieces, star, one);
    }
  }

  // ----------------------------------------------------------------- the two matchers

  function Star(): (char -> bool) {
    c => c == '*'
  }

  function Literal(): ((char, char) -> bool) {
    (c, d) => c == d
  }

  function Globstar(): (string -> bool) {
    part => part == "**"
  }

  predicate SegmentCell(pattern: string, value: string) {
    Cell(pattern, value, Star(), Literal())
  }

  function SegmentOne(): ((string, string) -> bool) {
    (part, segment) => SegmentCell(part, segment)
  }

  predicate PathCell(pattern: seq<string>, path: seq<string>) {
    Cell(pattern, path, Globstar(), SegmentOne())
  }

  /** `*` in the pattern takes any run of characters, every other character itself. */
  ghost predicate SegmentLanguage(pattern: string, value: string) {
    InLanguage(pattern, value, Star(), Literal())
  }

  /** `**` takes any run of segments, every other part one segment of its own language. */
  ghost predicate PathLanguage(pattern: seq<string>, path: seq<string>) {
    exists pieces: seq<seq<string>> ::
      && Concat(pieces) == path
      && |pieces| == |pattern|
      && forall i | 0 <= i < |pattern| :: pattern[i] == "**" || (|pieces[i]| == 1
                                                                 && SegmentLanguage(pattern[i], pieces[i][0]))
  }

  method SegmentMatches(pattern: string, value: string) returns (matches: bool)
    ensures matches <==> SegmentLanguage(pattern, value)
  {
    var previous := [true] + seq(|value|, _ => false);
    for i := 0 to |pattern|
      invariant |previous| == |value| + 1
      invariant forall j | 0 <= j <= |value| :: previous[j] == SegmentCell(pattern[..i], value[..j])
    {
      var character := pattern[i];
      assert pattern[..i + 1][..i] == pattern[..i];
      var current := [previous[0] && character == '*'];
      for index := 1 to |value| + 1
        invariant |current| == index
        invariant forall j | 0 <= j < index :: current[j] == SegmentCell(pattern[..i + 1], value[..j])
      {
        assert value[..index][..index - 1] == value[..index - 1];
        current := current + [
          if character == '*' then previous[index] || current[index - 1]
          else previous[index - 1] && character == value[index - 1]];
      }
      previous := current;
    }
    assert pattern[..|pattern|] == pattern && value[..|value|] == value;
    CellDecides(pattern, value, Star(), Literal());
    return previous[|value|];
  }

  method Matches(pattern: seq<string>, path: seq<string>) returns (matches: bool)
    ensures matches <==> PathLanguage(pattern, path)
  {
    var previous := [true] + seq(|path|, _ => false);
    for i := 0 to |pattern|
      invariant |previous| == |path| + 1
      invariant forall j | 0 <= j <= |path| :: previous[j] == PathCell(pattern[..i], path[..j])
    {
      var part := pattern[i];
      assert pattern[..i + 1][..i] == pattern[..i];
      var current := [previous[0] && part == "**"];
      for index := 1 to |path| + 1
        invariant |current| == index
        invariant forall j | 0 <= j < index :: current[j] == PathCell(pattern[..i + 1], path[..j])
      {
        assert path[..index][..index - 1] == path[..index - 1];
        var cell := if part == "**" then previous[index] || current[index - 1] else previous[index - 1];
        if part != "**" && cell {
          cell := SegmentMatches(part, path[index - 1]);
        }
        CellDecides(part, path[index - 1], Star(), Literal());
        current := current + [cell];
      }
      previous := current;
    }
    assert pattern[..|pattern|] == pattern && path[..|path|] == path;
    PathCellDecides(pattern, path);
    return previous[|path|];
  }

  lemma PathCellDecides(pattern: seq<string>, path: seq<string>)
    ensures PathCell(pattern, path) <==> PathLanguage(pattern, path)
  {
    CellDecides(pattern, path, Globstar(), SegmentOne());
    forall part, segment ensures SegmentCell(part, segment) <==> SegmentLanguage(part, segment) {
      CellDecides(part, segment, Star(), Literal());
    }
    forall pieces: seq<seq<string>>
      ensures Splits(pattern, pieces, Globstar(), SegmentOne()) <==>
              && |pieces| == |pattern|
              && forall i | 0 <= i < |pattern| :: pattern[i] == "**" || (|pieces[i]| == 1
                    && SegmentLanguage(pattern[i], pieces[i][0]))
    {
    }
  }

  // ------------------------------------------------------------------ whole scopes

  function Split(value: string): (parts: seq<string>)
    ensures parts != []
    decreases |value|
  {
    if value == "" then [""]
    else
      var c := value[|value| - 1];
      var parts := Split(value[..|value| - 1]);
      if c == '/' then parts + [""] else parts[|parts| - 1 := parts[|parts| - 1] + [c]]
  }

  function Join(parts: seq<string>): string
    requires parts != []
    decreases |parts|
  {
    if |parts| == 1 then parts[0] else Join(parts[..|parts| - 1]) + "/" + parts[|parts| - 1]
  }

  /** Splitting loses nothing, and no part contains a separator. */
  lemma {:induction false} JoinSplit(value: string)
    ensures Join(Split(value)) == value
    ensures forall part | part in Split(value) :: '/' !in part
    decreases |value|
  {
    if value == "" {
    } else {
      var front, c := value[..|value| - 1], value[|value| - 1];
      JoinSplit(front);
      var parts := Split(front);
      var n := |parts| - 1;
      assert value == front + [c];
      if c == '/' {
        assert Split(value)[..|parts|] == parts;
      } else {
        assert parts[n] in parts && Split(value)[..n] == parts[..n];
        forall part | part in Split(value) ensures '/' !in part {
          var i :| 0 <= i <= n && Split(value)[i] == part;
          assert parts[i] in parts;
        }
      }
    }
  }

  predicate IsLetter(c: char) {
    'a' <= c <= 'z' || 'A' <= c <= 'Z'
  }

  predicate SafeRelativePath(value: string) {
    && value != ""
    && '\\' !in value
    && '\0' !in value
    && value[0] != '/'
    && !(|value| >= 2 && IsLetter(value[0]) && value[1] == ':')
    && forall part | part in Split(value) :: part != "" && part != "." && part != ".."
  }

  predicate HasGlobstar(part: string) {
    exists i | 0 <= i < |part| - 1 :: part[i] == '*' && part[i + 1] == '*'
  }

  /** The segments of a scope path or pattern, unless it is malformed. */
  function Segments(value: string, isPattern: bool): Option<seq<string>> {
    if !SafeRelativePath(value) then None
    else if '?' in value || '[' in value || ']' in value then None
    else if !isPattern && '*' in value then None
    else if exists part :: part in Split(value) && HasGlobstar(part) && part != "**" then None
    else Some(Split(value))
  }

  method ParseAll(values: seq<string>, isPattern: bool) returns (parsed: Option<seq<seq<string>>>)
    ensures parsed.None? <==> exists value :: value in values && Segments(value, isPattern).None?
    ensures parsed.Some? ==> |parsed.value| == |values|
    ensures parsed.Some? ==> forall i | 0 <= i < |values| :: Segments(values[i], isPattern) == Some(parsed.value[i])
  {
    hide Segments;
    var result: seq<seq<string>> := [];
    for i := 0 to |values|
      invariant |result| == i
      invariant forall j | 0 <= j < i :: Segments(values[j], isPattern) == Some(result[j])
    {
      var segments := Segments(values[i], isPattern);
      if segments.None? {
        return None;
      }
      result := result + [segments.value];
    }
    return Some(result);
  }

  /** Every pattern and path is validated before any pair is matched; then some pattern must match some path. */
  method PathsMatch(patterns: seq<string>, paths: seq<string>) returns (r: Option<bool>)
    ensures r.None? <==>
              || (exists p :: p in patterns && Segments(p, true).None?)
              || (exists p :: p in paths && Segments(p, false).None?)
    ensures r.Some? ==> (r.value <==> exists i, j | 0 <= i < |patterns| && 0 <= j < |paths| ::
                           PathLanguage(Segments(patterns[i], true).value, Segments(paths[j], false).value))
  {
    hide Segments, PathLanguage;
    var parsedPatterns := ParseAll(patterns, true);
    var parsedPaths := ParseAll(paths, false);
    if parsedPatterns.None? || parsedPaths.None? {
      return None;
    }
    for i := 0 to |patterns|
      invariant forall k, j | 0 <= k < i && 0 <= j < |paths| ::
                !PathLanguage(parsedPatterns.value[k], parsedPaths.value[j])
    {
      for j := 0 to |paths|
        invariant forall l | 0 <= l < j :: !PathLanguage(parsedPatterns.value[i], parsedPaths.value[l])
      {
        var matches := Matches(parsedPatterns.value[i], parsedPaths.value[j]);
        if matches {
          assert Segments(patterns[i], true).value == parsedPatterns.value[i]
                 && Segments(paths[j], false).value == parsedPaths.value[j];
          return Some(true);
        }
      }
    }
    return Some(false);
  }
}

/**
 The languages of scope patterns by the laws one would match them with by hand, from the front,
 and what makes a scope value well-formed.
 */
module GlobMeaning {
  import opened Common
  import opened ScopeGlob

  // --------------------------------------------------------------------- laws of splitting

  lemma {:induction false} ConcatFirst<V>(x: seq<V>, pieces: seq<seq<V>>)
    ensures Concat([x] + pieces) == x + Concat(pieces)
    decreases |pieces|
  {
    var all := [x] + pieces;
    if pieces == [] {
      assert all[..0] == [];
      assert Concat(all) == Concat(all[..0]) + x;
    } else {
      var n := |pieces| - 1;
      ConcatFirst(x, pieces[..n]);
      assert all[..|all| - 1] == [x] + pieces[..n];
    }
  }

  lemma SplitsFirst<P(!new), V(!new)>(c: P, rest: seq<P>, first: seq<V>, others: seq<seq<V>>, star: P -> bool,
                                      one: (P, V) -> bool)
    ensures Splits([c] + rest, [first] + others, star, one) <==>
              Splits(rest, others, star, one) && (star(c) || (|first| == 1 && one(c, first[0])))
  {
    var pattern, pieces := [c] + rest, [first] + others;
    if Splits(pattern, pieces, star, one) {
      assert pattern[0] == c && pieces[0] == first;
      forall i | 0 <= i < |rest| ensures star(rest[i]) || (|others[i]| == 1 && one(rest[i], others[i][0])) {
        assert pattern[i + 1] == rest[i] && pieces[i + 1] == others[i];
      }
    }
  }

  /** What the first pattern element takes is taken from the front; the rest is matched by the rest. */
  lemma FirstTakes<P(!new), V(!new)>(c: P, rest: seq<P>, value: seq<V>, star: P -> bool, one: (P, V) -> bool)
    ensures InLanguage([c] + rest, value, star, one) <==>
              exists k :: && 0 <= k <= |value| && InLanguage(rest, value[k..], star, one)
                          && (star(c) || (k == 1 && one(c, value[0])))
  {
    hide Concat;
    if InLanguage([c] + rest, value, star, one) {
      var pieces :| Concat(pieces) == value && Splits([c] + rest, pieces, star, one);
      TakenFirst(c, rest, value, pieces, star, one);
    }
    if k :| 0 <= k <= |value| && InLanguage(rest, value[k..], star, one)
            && (star(c) || (k == 1 && one(c, value[0]))) {
      var others :| Concat(others) == value[k..] && Splits(rest, others, star, one);
      ConcatFirst(value[..k], others);
      SplitsFirst(c, rest, value[..k], others, star, one);
      assert Concat([value[..k]] + others) == value;
    }
  }

  lemma TakenFirst<P(!new), V(!new)>(c: P, rest: seq<P>, value: seq<V>, pieces: seq<seq<V>>, star: P -> bool,
                                     one: (P, V) -> bool)
    requires Concat(pieces) == value && Splits([c] + rest, pieces, star, one)
    ensures exists k :: && 0 <= k <= |value| && InLanguage(rest, value[k..], star, one)
                        && (star(c) || (k == 1 && one(c, value[0])))
  {
    hide Concat;
    var first, others := pieces[0], pieces[1..];
    assert pieces == [first] + others;
    ConcatFirst(first, others);
    SplitsFirst(c, rest, first, others, star, one);
    var k := |first|;
    assert value[k..] == Concat(others) && value[..k] == first;
    assert InLanguage(rest, value[k..], star, one);
  }

  lemma NothingTakes<P(!new), V(!new)>(value: seq<V>, star: P -> bool, one: (P, V) -> bool)
    ensures InLanguage([], value, star, one) <==> value == []
  {
    if value == [] {
      assert Concat<V>([]) == value && Splits([], [], star, one);
    }
  }

  /**
   Segments: an empty pattern matches the empty segment only; a star takes any run of characters
   from the front; any other character takes itself.
   */
  lemma SegmentLaws(c: char, rest: string, value: string)
    ensures SegmentLanguage("", value) <==> value == ""
    ensures c == '*' ==>
              (SegmentLanguage([c] + rest, value) <==>
                 exists k :: 0 <= k <= |value| && SegmentLanguage(rest, value[k..]))
    ensures c != '*' ==>
              (SegmentLanguage([c] + rest, value) <==>
                 |value| > 0 && value[0] == c && SegmentLanguage(rest, value[1..]))
  {
    NothingTakes<char, char>(value, Star(), Literal());
    FirstTakes(c, rest, value, Star(), Literal());
  }

  /** The same language through the recurrence, so that its laws carry over. */
  lemma PathIsLanguage(pattern: seq<string>, path: seq<string>)
    ensures PathLanguage(pattern, path) <==> InLanguage(pattern, path, Globstar(), SegmentOne())
  {
    PathCellDecides(pattern, path);
    CellDecides(pattern, path, Globstar(), SegmentOne());
  }

  /**
   Paths: an empty pattern matches the empty path only; a double star takes any run of segments
   from the front; any other part takes one segment of its own language.
   */
  lemma PathLaws(part: string, rest: seq<string>, path: seq<string>)
    ensures PathLanguage([], path) <==> path == []
    ensures part == "**" ==>
              (PathLanguage([part] + rest, path) <==> exists k :: 0 <= k <= |path| && PathLanguage(rest, path[k..]))
    ensures part != "**" ==>
              (PathLanguage([part] + rest, path) <==>
               |path| > 0 && SegmentLanguage(part, path[0]) && PathLanguage(rest, path[1..]))
  {
    hide PathLanguage, SegmentCell, SegmentLanguage;
    PathIsLanguage([], path);
    NothingTakes<string, string>(path, Globstar(), SegmentOne());
    PathIsLanguage([part] + rest, path);
    FirstTakes(part, rest, path, Globstar(), SegmentOne());
    forall k | 0 <= k <= |path|
      ensures PathLanguage(rest, path[k..]) <==> InLanguage(rest, path[k..], Globstar(), SegmentOne())
    {
      PathIsLanguage(rest, path[k..]);
    }
    if path != [] {
      SegmentDecided(part, path[0]);
    }
  }

  lemma SegmentDecided(part: string, segment: string)
    ensures SegmentCell(part, segment) <==> SegmentLanguage(part, segment)
  {
    CellDecides(part, segment, Star(), Literal());
  }

  // ------------------------------------------------------------------ well-formed values

  /** A segment a scope value may have. */
  predicate Step(part: string, isPattern: bool) {
    && part != "" && part != "." && part != ".."
    && (forall i | 0 <= i < |part| ::
          && part[i] != '/' && part[i] != '\\' && part[i] != '\0'
          && part[i] != '?' && part[i] != '[' && part[i] != ']'
          && (part[i] == '*' ==> isPattern))
    && (part == "**" || forall i | 0 < i < |part| :: part[i - 1] != '*' || part[i] != '*')
  }

  /** The value starts with a drive. */
  predicate Driven(value: string) {
    |value| >= 2 && value[1] == ':' && ('a' <= value[0] <= 'z' || 'A' <= value[0] <= 'Z')
  }

  lemma {:induction false} CharsOfParts(value: string, c: char)
    requires c != '/'
    ensures c in value <==> exists part :: part in Split(value) && c in part
    decreases |value|
  {
    if value == "" {
    } else {
      var front, d := value[..|value| - 1], value[|value| - 1];
      CharsOfParts(front, c);
      var parts := Split(front);
      var n := |parts| - 1;
      assert value == front + [d];
      if d == '/' {
        assert forall part :: part in Split(value) <==> part in parts || part == "";
      } else {
        var last := parts[n] + [d];
        assert Split(value) == parts[..n] + [last];
        assert parts == parts[..n] + [parts[n]];
        assert forall part :: part in Split(value) <==> part in parts[..n] || part == last;
        assert forall part :: part in parts <==> part in parts[..n] || part == parts[n];
        assert c in last <==> c in parts[n] || c == d;
      }
    }
  }

  /**
   A scope value is accepted exactly when it starts with no drive and each of its segments is one
   it may have; the segments are the parts between its separators.
   */
  lemma SegmentsMean(value: string, isPattern: bool)
    ensures Segments(value, isPattern).Some? <==>
              !Driven(value) && forall i | 0 <= i < |Split(value)| :: Step(Split(value)[i], isPattern)
    ensures Segments(value, isPattern).Some? ==>
              && Segments(value, isPattern).value == Split(value)
              && Join(Split(value)) == value
  {
    hide Split, Join, Step, HasGlobstar, Driven;
    JoinSplit(value);
    forall c: char | c != '/' ensures c in value <==> exists part :: part in Split(value) && c in part {
      CharsOfParts(value, c);
    }
    var parts := Split(value);
    forall part | part in parts
      ensures Step(part, isPattern) <==>
              && part != "" && part != "." && part != ".." && '\\' !in part && '\0' !in part
              && '?' !in part && '[' !in part && ']' !in part && ('*' in part ==> isPattern)
              && (HasGlobstar(part) ==> part == "**")
    {
      StepIs(part, isPattern);
    }
    FirstPart(value);
    DrivenIs(value);
    if forall i | 0 <= i < |parts| :: Step(parts[i], isPattern) {
      forall part | part in parts ensures Step(part, isPattern) {
        var i :| 0 <= i < |parts| && parts[i] == part;
      }
    }
  }

  lemma DrivenIs(value: string)
    ensures Driven(value) <==> |value| >= 2 && IsLetter(value[0]) && value[1] == ':'
  {
  }

  lemma StepIs(part: string, isPattern: bool)
    requires '/' !in part
    ensures Step(part, isPattern) <==>
              && part != "" && part != "." && part != ".." && '\\' !in part && '\0' !in part
              && '?' !in part && '[' !in part && ']' !in part && ('*' in part ==> isPattern)
              && (HasGlobstar(part) ==> part == "**")
  {
    assert HasGlobstar(part) <==> exists i :: 0 < i < |part| && part[i - 1] == '*' && part[i] == '*' by {
      if i :| 0 <= i < |part| - 1 && part[i] == '*' && part[i + 1] == '*' {
        assert part[(i + 1) - 1] == '*';
      }
      if i :| 0 < i < |part| && part[i - 1] == '*' && part[i] == '*' {
        assert part[i - 1 + 1] == '*';
      }
    }
    if Step(part, isPattern) {
      assert forall c | c in part :: exists i :: 0 <= i < |part| && part[i] == c;
    }
  }

  /** An empty value and one that starts with a separator have an empty first segment. */
  lemma {:induction false} FirstPart(value: string)
    ensures value == "" || value[0] == '/' ==> Split(value)[0] == ""
    decreases |value|
  {
    if value == "" {
    } else {
      FirstPart(value[..|value| - 1]);
    }
  }
}

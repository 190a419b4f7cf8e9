/**
 * The redirect-allowlist glob matcher. `WildcardMatches` is the greedy
 * leftmost scan of the program; `Matches` is what a pattern means, one
 * character at a time. The two agree on every pattern and every value.
 */
module RedirectGlob {
  import opened Basics

  const STAR := '*'

  /** Declarative meaning: `*` stands for any string, anything else for itself. */
  ghost predicate Matches(pattern: string, value: string)
    decreases |pattern|
  {
    if pattern == "" then value == ""
    else if pattern[0] == STAR then
      exists k :: 0 <= k <= |value| && Matches(pattern[1..], value[k..])
    else
      value != "" && value[0] == pattern[0] && Matches(pattern[1..], value[1..])
  }

  // ---- String primitives of the scan ---------------------------------------

  predicate OccursAt(part: string, value: string, k: int) {
    0 <= k && k + |part| <= |value| && value[k..k + |part|] == part
  }

  predicate EndsWith(value: string, part: string) {
    OccursAt(part, value, |value| - |part|)
  }

  /** `str::split('*')`: always at least one piece, none of them holding a star. */
  function SplitStars(s: string): (parts: seq<string>)
    ensures |parts| >= 1
    ensures STAR in s <==> |parts| > 1
  {
    if s == "" then [""]
    else
      var rest := SplitStars(s[1..]);
      if s[0] == STAR then [""] + rest
      else [[s[0]] + rest[0]] + rest[1..]
  }

  function NonEmpty(parts: seq<string>): (r: seq<string>)
    ensures forall p :: p in r <==> p in parts && p != ""
  {
    if parts == [] then []
    else (if parts[0] == "" then [] else [parts[0]]) + NonEmpty(parts[1..])
  }

  /** `str::find`: the leftmost occurrence at or after `from`. */
  function FindFrom(value: string, part: string, from: nat): (r: Option<nat>)
    requires from <= |value|
    ensures r.Some? ==> from <= r.value && OccursAt(part, value, r.value)
    ensures forall k :: from <= k < (if r.Some? then r.value else |value| + 1) ==> !OccursAt(part, value, k)
    decreases |value| - from
  {
    if OccursAt(part, value, from) then Some(from)
    else if from == |value| then None
    else FindFrom(value, part, from + 1)
  }

  // ---- Meaning in terms of pieces ------------------------------------------

  /** The pieces laid down in order, first one at the start, last one at the end. */
  ghost predicate Segmented(parts: seq<string>, value: string)
    requires |parts| >= 1
    decreases |parts|, 0
  {
    if |parts| == 1 then value == parts[0]
    else parts[0] <= value && Floating(parts[1..], value[|parts[0]|..])
  }

  /** As `Segmented`, after skipping any prefix. */
  ghost predicate Floating(parts: seq<string>, value: string)
    requires |parts| >= 1
    decreases |parts|, 1
  {
    exists k :: 0 <= k <= |value| && Segmented(parts, value[k..])
  }

  /** Pieces found left to right without overlap; `toEnd` anchors the last one. */
  ghost predicate InOrder(parts: seq<string>, value: string, toEnd: bool)
    decreases |parts|
  {
    if parts == [] then toEnd ==> value == ""
    else exists k :: OccursAt(parts[0], value, k) && InOrder(parts[1..], value[k + |parts[0]|..], toEnd)
  }

  lemma {:induction false} MatchesIsSegmented(pattern: string, value: string)
    ensures Matches(pattern, value) <==> Segmented(SplitStars(pattern), value)
    decreases |pattern|
  {
    if pattern != "" {
      var rest := SplitStars(pattern[1..]);
      var parts := SplitStars(pattern);
      if pattern[0] == STAR {
        assert parts[1..] == rest && value[0..] == value;
        forall k | 0 <= k <= |value| {
          MatchesIsSegmented(pattern[1..], value[k..]);
        }
      } else if value != "" {
        MatchesIsSegmented(pattern[1..], value[1..]);
        assert parts[0][0] == pattern[0] && parts[0][1..] == rest[0] && parts[1..] == rest[1..];
        if value[0] == pattern[0] {
          assert parts[0] == [value[0]] + rest[0] && value == [value[0]] + value[1..];
          if rest[0] <= value[1..] {
            assert value[|parts[0]|..] == value[1..][|rest[0]|..];
          }
        }
      }
    }
  }

  lemma FloatingWidens(parts: seq<string>, value: string, k: nat)
    requires |parts| >= 1 && k <= |value| && Floating(parts, value[k..])
    ensures Floating(parts, value)
  {
    var j :| 0 <= j <= |value[k..]| && Segmented(parts, value[k..][j..]);
    assert value[k..][j..] == value[k + j..];
  }

  lemma PlaceFirst(parts: seq<string>, value: string, k: nat, toEnd: bool)
    requires parts != [] && OccursAt(parts[0], value, k) && InOrder(parts[1..], value[k + |parts[0]|..], toEnd)
    ensures InOrder(parts, value, toEnd)
  {
  }

  /** An empty first piece adds nothing to a floating match. */
  lemma EmptyPieceFloats(parts: seq<string>, value: string)
    requires |parts| > 1 && parts[0] == ""
    ensures Floating(parts, value) <==> Floating(parts[1..], value)
  {
    assert value[0..] == value && value[0..][0..] == value;
    if Floating(parts, value) {
      var k :| 0 <= k <= |value| && Segmented(parts, value[k..]);
      assert value[k..][0..] == value[k..];
      FloatingWidens(parts[1..], value, k);
    }
    if Floating(parts[1..], value) {
      assert Segmented(parts, value[0..]);
    }
  }

  /** A non-empty first piece starts a segment where it occurs and the rest floats after it. */
  lemma PieceStartsSegment(parts: seq<string>, value: string, k: nat)
    requires |parts| > 1 && k <= |value|
    ensures Segmented(parts, value[k..]) <==>
            OccursAt(parts[0], value, k) && Floating(parts[1..], value[k + |parts[0]|..])
  {
    var b := parts[0];
    assert b <= value[k..] <==> OccursAt(b, value, k);
    if OccursAt(b, value, k) {
      assert value[k..][|b|..] == value[k + |b|..];
    }
  }

  lemma {:induction false} FloatingIsInOrder(parts: seq<string>, value: string)
    requires |parts| >= 1
    ensures Floating(parts, value) <==> InOrder(NonEmpty(parts), value, parts[|parts| - 1] != "")
    decreases |parts|, 2
  {
    var b, more := parts[0], parts[1..];
    if |parts| == 1 {
      assert NonEmpty(more) == [];
      if b == "" {
        assert value[|value|..] == "";
      } else {
        LastPieceFloats(b, value);
      }
    } else if b == "" {
      assert NonEmpty(parts) == NonEmpty(more);
      EmptyPieceFloats(parts, value);
      FloatingIsInOrder(more, value);
    } else {
      assert NonEmpty(parts) == [b] + NonEmpty(more);
      FloatingPiece(parts, value, NonEmpty(parts));
    }
  }

  lemma {:induction false} FloatingPiece(parts: seq<string>, value: string, pieces: seq<string>)
    requires |parts| > 1 && pieces == [parts[0]] + NonEmpty(parts[1..])
    ensures Floating(parts, value) <==> InOrder(pieces, value, parts[|parts| - 1] != "")
    decreases |parts|, 1
  {
    var toEnd := parts[|parts| - 1] != "";
    forall k: nat | k <= |value|
      ensures Segmented(parts, value[k..]) ==> InOrder(pieces, value, toEnd)
      ensures OccursAt(pieces[0], value, k) && InOrder(pieces[1..], value[k + |pieces[0]|..], toEnd) ==>
                Floating(parts, value)
    {
      FloatingPieceAt(parts, value, pieces, k);
    }
  }

  lemma {:induction false} FloatingPieceAt(parts: seq<string>, value: string, pieces: seq<string>, k: nat)
    requires |parts| > 1 && pieces == [parts[0]] + NonEmpty(parts[1..]) && k <= |value|
    ensures var toEnd := parts[|parts| - 1] != "";
            && (Segmented(parts, value[k..]) ==> InOrder(pieces, value, toEnd))
            && (OccursAt(pieces[0], value, k) && InOrder(pieces[1..], value[k + |pieces[0]|..], toEnd) ==>
                Floating(parts, value))
    decreases |parts|, 0
  {
    assert pieces[1..] == NonEmpty(parts[1..]);
    PieceStartsSegment(parts, value, k);
    if OccursAt(parts[0], value, k) {
      FloatingIsInOrder(parts[1..], value[k + |parts[0]|..]);
      if InOrder(pieces[1..], value[k + |parts[0]|..], parts[|parts| - 1] != "") {
        PlaceFirst(pieces, value, k, parts[|parts| - 1] != "");
      }
    }
  }

  lemma LastPieceFloats(b: string, value: string)
    ensures Floating([b], value) <==> EndsWith(value, b)
    ensures InOrder([b], value, true) <==> EndsWith(value, b)
  {
    if EndsWith(value, b) {
      assert value[|value| - |b|..] == b;
    }
    if Floating([b], value) {
      var k :| 0 <= k <= |value| && Segmented([b], value[k..]);
      assert k == |value| - |b| && value[k..k + |b|] == value[k..];
    }
    LastPieceInOrder(b, value);
  }

  lemma LastPieceInOrder(b: string, value: string)
    ensures InOrder([b], value, true) <==> EndsWith(value, b)
  {
    assert [b][1..] == [];
    if EndsWith(value, b) {
      var k := |value| - |b|;
      assert value[k + |b|..] == "";
      PlaceFirst([b], value, k, true);
    }
    if InOrder([b], value, true) {
      var k :| OccursAt(b, value, k) && InOrder([b][1..], value[k + |b|..], true);
      assert k == |value| - |b|;
    }
  }

  // ---- The exchange argument -----------------------------------------------

  lemma InSuffix(part: string, value: string, cursor: nat, k: nat)
    requires cursor <= |value|
    ensures OccursAt(part, value[cursor..], k) <==> OccursAt(part, value, cursor + k)
    ensures OccursAt(part, value, cursor + k) ==> value[cursor..][k + |part|..] == value[cursor + k + |part|..]
  {
    if cursor + k + |part| <= |value| {
      assert value[cursor..][k..k + |part|] == value[cursor + k..cursor + k + |part|];
    }
  }

  /** A placement that starts later can also be read from earlier on. */
  lemma InOrderWidens(parts: seq<string>, value: string, k: nat, toEnd: bool)
    requires parts != [] && k <= |value| && InOrder(parts, value[k..], toEnd)
    ensures InOrder(parts, value, toEnd)
  {
    var b := parts[0];
    var j :| OccursAt(b, value[k..], j) && InOrder(parts[1..], value[k..][j + |b|..], toEnd);
    InSuffix(b, value, k, j);
    assert OccursAt(b, value, k + j);
  }

  /** Any placement of the first piece can be traded for an earlier occurrence of it. */
  lemma Exchange(parts: seq<string>, value: string, cursor: nat, f: nat, toEnd: bool)
    requires |parts| > 1 || (|parts| == 1 && !toEnd)
    requires cursor <= f && OccursAt(parts[0], value, f)
    requires forall k :: cursor <= k < f ==> !OccursAt(parts[0], value, k)
    requires InOrder(parts, value[cursor..], toEnd)
    ensures InOrder(parts[1..], value[f + |parts[0]|..], toEnd)
  {
    var b := parts[0];
    var k :| OccursAt(b, value[cursor..], k) && InOrder(parts[1..], value[cursor..][k + |b|..], toEnd);
    InSuffix(b, value, cursor, k);
    if |parts| > 1 {
      var rest, d := value[f + |b|..], cursor + k - f;
      assert value[cursor + k + |b|..] == rest[d..];
      InOrderWidens(parts[1..], rest, d, toEnd);
    }
  }

  lemma Place(parts: seq<string>, value: string, cursor: nat, f: nat, toEnd: bool)
    requires parts != [] && cursor <= f && OccursAt(parts[0], value, f)
    requires InOrder(parts[1..], value[f + |parts[0]|..], toEnd)
    ensures InOrder(parts, value[cursor..], toEnd)
  {
    InSuffix(parts[0], value, cursor, f - cursor);
    assert OccursAt(parts[0], value[cursor..], f - cursor);
  }

  lemma NowhereToPlace(parts: seq<string>, value: string, cursor: nat, toEnd: bool)
    requires parts != [] && cursor <= |value|
    requires forall k :: cursor <= k <= |value| ==> !OccursAt(parts[0], value, k)
    ensures !InOrder(parts, value[cursor..], toEnd)
  {
    forall k | 0 <= k ensures !OccursAt(parts[0], value[cursor..], k) {
      InSuffix(parts[0], value, cursor, k);
    }
  }

  lemma SuffixEndsWith(b: string, value: string, cursor: nat)
    requires cursor <= |value|
    ensures EndsWith(value[cursor..], b) <==> cursor + |b| <= |value| && EndsWith(value, b)
  {
    if cursor + |b| <= |value| {
      InSuffix(b, value, cursor, |value| - |b| - cursor);
    }
  }

  /** The last piece, when the pattern is anchored at its end: found at all, and `ends_with`. */
  lemma LastPieceAnchored(b: string, value: string, cursor: nat)
    requires cursor <= |value|
    ensures InOrder([b], value[cursor..], true) <==> FindFrom(value, b, cursor).Some? && EndsWith(value, b)
  {
    LastPieceInOrder(b, value[cursor..]);
    SuffixEndsWith(b, value, cursor);
    var f := FindFrom(value, b, cursor);
    if f == None && cursor + |b| <= |value| {
      assert !OccursAt(b, value, |value| - |b|);
    }
  }

  // ---- The pattern as start piece, middle, end piece ------------------------

  lemma {:induction false} SplitStarsEnds(s: string)
    requires s != ""
    ensures STAR in s ==> (s[0] != STAR <==> SplitStars(s)[0] != "")
    ensures STAR in s ==> (s[|s| - 1] != STAR <==> SplitStars(s)[|SplitStars(s)| - 1] != "")
    ensures STAR !in s ==> SplitStars(s) == [s]
    decreases |s|
  {
    var rest := SplitStars(s[1..]);
    assert s == [s[0]] + s[1..];
    if |s| > 1 {
      SplitStarsEnds(s[1..]);
      assert s[1..][|s[1..]| - 1] == s[|s| - 1];
      assert STAR in s <==> s[0] == STAR || STAR in s[1..];
    }
  }

  /** Everything `WildcardMatches` relies on before its loop starts. */
  lemma PatternShape(pattern: string, value: string)
    requires STAR in pattern
    ensures var pieces, toEnd := NonEmpty(SplitStars(pattern)), pattern[|pattern| - 1] != STAR;
            && (pieces == [] ==> Matches(pattern, value))
            && (pieces != [] && pattern[0] == STAR ==> (Matches(pattern, value) <==> InOrder(pieces, value, toEnd)))
            && (pattern[0] != STAR ==>
                  && pieces != []
                  && (toEnd ==> |pieces| > 1)
                  && (Matches(pattern, value) <==>
                        pieces[0] <= value && InOrder(pieces[1..], value[|pieces[0]|..], toEnd)))
  {
    var parts := SplitStars(pattern);
    var pieces := NonEmpty(parts);
    SplitStarsEnds(pattern);
    MatchesIsSegmented(pattern, value);
    var more := parts[1..];
    assert more[|more| - 1] == parts[|parts| - 1];
    if parts[0] <= value {
      FloatingIsInOrder(more, value[|parts[0]|..]);
    }
    assert value[0..] == value;
    if parts[0] == "" {
      assert pieces == NonEmpty(more);
    } else {
      assert pieces == [parts[0]] + NonEmpty(more) && pieces[1..] == NonEmpty(more);
      if parts[|parts| - 1] != "" {
        assert more[|more| - 1] in NonEmpty(more);
      }
    }
    assert parts[|parts| - 1] != "" ==> parts[|parts| - 1] in pieces;
  }

  /** What is left to decide after `index` pieces have been laid down up to `cursor`. */
  ghost predicate Pending(pieces: seq<string>, index: nat, value: string, cursor: nat, toEnd: bool)
    requires pieces != [] && index <= |pieces| && cursor <= |value|
  {
    if index < |pieces| then InOrder(pieces[index..], value[cursor..], toEnd)
    else toEnd ==> EndsWith(value, pieces[|pieces| - 1])
  }

  /** What the scan sets out to decide. */
  lemma PatternLaid(pattern: string, value: string)
    requires STAR in pattern
    ensures var pieces := NonEmpty(SplitStars(pattern));
            if pieces == [] then Matches(pattern, value)
            else Matches(pattern, value) <==> Laid(pieces, value, pattern[0] != STAR, pattern[|pattern| - 1] != STAR)
  {
    PatternShape(pattern, value);
    var pieces := NonEmpty(SplitStars(pattern));
    assert value[0..] == value && pieces[0..] == pieces;
  }

  /** One round of the greedy scan keeps what is left to decide. */
  lemma ScanStep(pieces: seq<string>, index: nat, value: string, cursor: nat, toEnd: bool)
    requires index < |pieces| && cursor <= |value|
    ensures var f := FindFrom(value, pieces[index], cursor);
            Pending(pieces, index, value, cursor, toEnd) <==>
            f.Some? && Pending(pieces, index + 1, value, f.value + |pieces[index]|, toEnd)
  {
    var todo := pieces[index..];
    assert todo[1..] == pieces[index + 1..];
    if |todo| == 1 && toEnd {
      assert todo == [pieces[index]];
      LastPieceAnchored(pieces[index], value, cursor);
    } else {
      match FindFrom(value, todo[0], cursor)
      case None => NowhereToPlace(todo, value, cursor, toEnd);
      case Some(f) =>
        if InOrder(todo, value[cursor..], toEnd) {
          Exchange(todo, value, cursor, f, toEnd);
        }
        if InOrder(todo[1..], value[f + |todo[0]|..], toEnd) {
          Place(todo, value, cursor, f, toEnd);
        }
    }
  }

  lemma LoneStarMatches(value: string)
    ensures Matches("*", value)
  {
    assert value[|value|..] == "" && Matches("", value[|value|..]);
  }

  lemma LiteralMatches(pattern: string, value: string)
    requires |SplitStars(pattern)| == 1
    ensures Matches(pattern, value) <==> pattern == value
  {
    MatchesIsSegmented(pattern, value);
    if pattern != "" {
      SplitStarsEnds(pattern);
    }
  }

  /** Whether the pieces can be laid down: the first one at the start if `fromStart`. */
  ghost predicate Laid(pieces: seq<string>, value: string, fromStart: bool, toEnd: bool)
    requires pieces != []
  {
    if fromStart then pieces[0] <= value && Pending(pieces, 1, value, |pieces[0]|, toEnd)
    else Pending(pieces, 0, value, 0, toEnd)
  }

  /** The greedy loop: each piece at its leftmost occurrence, then the `ends_with` test. */
  method ScanPieces(pieces: seq<string>, value: string, anchoredStart: bool, anchoredEnd: bool) returns (result: bool)
    requires pieces != []
    ensures result <==> Laid(pieces, value, anchoredStart, anchoredEnd)
  {
    var cursor: nat, index: nat := 0, 0;
    ghost var meant := Laid(pieces, value, anchoredStart, anchoredEnd);
    while index < |pieces|
      invariant index <= |pieces| && cursor <= |value|
      invariant index == 0 && anchoredStart ==> cursor == 0
      invariant !(index == 0 && anchoredStart) ==> (meant <==> Pending(pieces, index, value, cursor, anchoredEnd))
    {
      var part := pieces[index];
      if index == 0 && anchoredStart {
        if !(part <= value) {
          return false;
        }
        cursor := |part|;
      } else {
        ScanStep(pieces, index, value, cursor, anchoredEnd);
        match FindFrom(value, part, cursor) {
          case Some(found) => cursor := found + |part|;
          case None => return false;
        }
      }
      index := index + 1;
    }
    if anchoredEnd {
      return EndsWith(value, pieces[|pieces| - 1]);
    }
    return true;
  }

  /** The program decides exactly the declarative meaning. */
  method WildcardMatches(pattern: string, value: string) returns (result: bool)
    ensures result <==> Matches(pattern, value)
  {
    if pattern == "*" {
      LoneStarMatches(value);
      return true;
    }
    var parts := SplitStars(pattern);
    if |parts| == 1 {
      LiteralMatches(pattern, value);
      return pattern == value;
    }
    var pieces := NonEmpty(parts);
    PatternLaid(pattern, value);
    if pieces == [] {
      return true;
    }
    result := ScanPieces(pieces, value, pattern[0] != STAR, pattern[|pattern| - 1] != STAR);
  }
}

/**
 * String primitives shared by the scope and retention code: white space,
 * `split_whitespace` and `join`, byte order and `sort`.
 */
module Text {
  import opened Basics

  /** The Unicode White_Space property, as `trim` and `split_whitespace` use it. */
  predicate IsSpace(c: char) {
    var n := c as int;
    9 <= n <= 13 || n == 32 || n == 0x85 || n == 0xA0 || n == 0x1680 || 0x2000 <= n <= 0x200A
    || n == 0x2028 || n == 0x2029 || n == 0x202F || n == 0x205F || n == 0x3000
  }

  predicate NoSpace(s: string) {
    forall i :: 0 <= i < |s| ==> !IsSpace(s[i])
  }

  predicate IsWord(s: string) { s != "" && NoSpace(s) }

  predicate AllWords(ws: seq<string>) {
    forall i :: 0 <= i < |ws| ==> IsWord(ws[i])
  }

  predicate Blank(s: string) { AllBlank(IsSpace, s) }

  predicate Trimmed(s: string) { Bare(IsSpace, s) }

  function Trim(s: string): (r: string)
    ensures Trimmed(r)
    ensures Trimmed(s) ==> r == s
  {
    var r := TrimStart(IsSpace, s);
    TrimExactlyHere(s);
    TrimEnd(IsSpace, r)
  }

  lemma TrimExactlyHere(s: string)
    ensures Trimmed(TrimEnd(IsSpace, TrimStart(IsSpace, s)))
    ensures Trimmed(s) ==> TrimEnd(IsSpace, TrimStart(IsSpace, s)) == s
  {
    var lead, core, trail := TrimParts(IsSpace, s);
    if Trimmed(s) {
      assert "" + s + "" == s;
      TrimExactly(IsSpace, "", s, "");
    }
  }

  /** The white space there is. */
  lemma SpaceList(c: char)
    ensures IsSpace(c) <==> c as int in {
              0x9, 0xA, 0xB, 0xC, 0xD, 0x20, 0x85, 0xA0, 0x1680, 0x2000, 0x2001, 0x2002, 0x2003, 0x2004, 0x2005,
              0x2006, 0x2007, 0x2008, 0x2009, 0x200A, 0x2028, 0x2029, 0x202F, 0x205F, 0x3000}
  {
  }

  // ---- split_whitespace and join --------------------------------------------

  /** The word at the front, up to the next white space. */
  function FirstWord(s: string): (w: string)
    ensures NoSpace(w) && w <= s
    ensures |w| < |s| ==> IsSpace(s[|w|])
    ensures s != "" && !IsSpace(s[0]) ==> w != ""
  {
    if s == "" || IsSpace(s[0]) then "" else [s[0]] + FirstWord(s[1..])
  }

  function Words(s: string): seq<string>
    decreases |s|
  {
    if s == "" then []
    else if IsSpace(s[0]) then Words(s[1..])
    else [FirstWord(s)] + Words(s[|FirstWord(s)|..])
  }

  function Join(ws: seq<string>): string {
    if ws == [] then ""
    else if |ws| == 1 then ws[0]
    else ws[0] + (" " + Join(ws[1..]))
  }

  lemma {:induction false} WordsAreWords(s: string)
    ensures AllWords(Words(s))
    decreases |s|
  {
    if s == "" {
    } else if IsSpace(s[0]) {
      WordsAreWords(s[1..]);
    } else {
      WordsAreWords(s[|FirstWord(s)|..]);
    }
  }

  // ---- What splitting means -----------------------------------------------------

  /** The word stands at `i`, with nothing but white space before it and at most white space after it. */
  predicate WordAt(s: string, w: string, i: int) {
    && 0 <= i && i + |w| <= |s|
    && (forall k :: 0 <= k < |w| ==> s[i + k] == w[k])
    && (forall k :: 0 <= k < i ==> IsSpace(s[k]))
    && (i + |w| < |s| ==> IsSpace(s[i + |w|]))
  }

  /** The words, in this order, are all there is in the string but white space. */
  ghost predicate Separated(s: string, ws: seq<string>) {
    if ws == [] then Blank(s)
    else exists i :: WordAt(s, ws[0], i) && Separated(s[i + |ws[0]|..], ws[1..])
  }

  lemma SeparatedFrom(s: string, ws: seq<string>, i: int, rest: string)
    requires ws != [] && WordAt(s, ws[0], i) && rest == s[i + |ws[0]|..] && Separated(rest, ws[1..])
    ensures Separated(s, ws)
  {
  }

  lemma SeparatedHead(s: string, ws: seq<string>) returns (i: int)
    requires ws != [] && Separated(s, ws)
    ensures WordAt(s, ws[0], i) && Separated(s[i + |ws[0]|..], ws[1..])
  {
    i :| WordAt(s, ws[0], i) && Separated(s[i + |ws[0]|..], ws[1..]);
  }

  lemma WordAtAfter(lead: string, s: string, w: string, i: int)
    requires Blank(lead) && WordAt(s, w, i)
    ensures WordAt(lead + s, w, |lead| + i) && (lead + s)[|lead| + i + |w|..] == s[i + |w|..]
  {
    var x := lead + s;
    forall k | 0 <= k < |w| ensures x[|lead| + i + k] == w[k] {
      assert x[|lead| + i + k] == s[i + k];
    }
  }

  /** White space in front makes no difference. */
  lemma SeparatedAfter(lead: string, s: string, ws: seq<string>)
    requires Blank(lead) && Separated(s, ws)
    ensures Separated(lead + s, ws)
  {
    if ws != [] {
      var i := SeparatedHead(s, ws);
      WordAtAfter(lead, s, ws[0], i);
      SeparatedFrom(lead + s, ws, |lead| + i, s[i + |ws[0]|..]);
    }
  }

  lemma {:induction false} WordsSeparated(s: string)
    ensures Separated(s, Words(s))
    decreases |s|
  {
    if s != "" && IsSpace(s[0]) {
      WordsSeparated(s[1..]);
      assert s == [s[0]] + s[1..];
      SeparatedAfter([s[0]], s[1..], Words(s[1..]));
    } else if s != "" {
      var w := FirstWord(s);
      WordsSeparated(s[|w|..]);
      assert WordAt(s, w, 0) && Words(s)[1..] == Words(s[|w|..]);
      SeparatedFrom(s, Words(s), 0, s[|w|..]);
    }
  }

  /** Two words with nothing but white space before them are one. */
  lemma SameWordAt(s: string, v: string, i: int, w: string, j: int)
    requires IsWord(v) && IsWord(w) && WordAt(s, v, i) && WordAt(s, w, j)
    ensures i == j && v == w
  {
    assert s[i + 0] == v[0] && s[j + 0] == w[0];
    assert i == j;
    SameEnd(s, v, w, i);
    SameEnd(s, w, v, i);
  }

  lemma WordChar(s: string, w: string, i: int, k: nat)
    requires IsWord(w) && WordAt(s, w, i) && k < |w|
    ensures s[i + k] == w[k] && !IsSpace(s[i + k])
  {
  }

  lemma SameEnd(s: string, v: string, w: string, i: int)
    requires IsWord(v) && WordAt(s, v, i) && WordAt(s, w, i)
    ensures |v| <= |w|
  {
    if |w| < |v| {
      WordChar(s, v, i, |w|);
    }
  }

  lemma NotBlank(s: string, w: string, i: int)
    requires IsWord(w) && WordAt(s, w, i)
    ensures !Blank(s)
  {
    assert s[i + 0] == w[0];
  }

  lemma NoWordsOfBlank(s: string, ws: seq<string>)
    requires Blank(s) && AllWords(ws) && Separated(s, ws)
    ensures ws == []
  {
    if ws != [] {
      var i := SeparatedHead(s, ws);
      NotBlank(s, ws[0], i);
    }
  }

  lemma SameCons(a: seq<string>, b: seq<string>)
    requires a != [] && b != [] && a[0] == b[0] && a[1..] == b[1..]
    ensures a == b
  {
    assert a == [a[0]] + a[1..] && b == [b[0]] + b[1..];
  }

  /** There is only one way to split. */
  lemma {:induction false} SeparatedUnique(s: string, a: seq<string>, b: seq<string>)
    requires AllWords(a) && AllWords(b) && Separated(s, a) && Separated(s, b)
    ensures a == b
    decreases |a|
  {
    if a == [] {
      NoWordsOfBlank(s, b);
    } else if b == [] {
      NoWordsOfBlank(s, a);
    } else {
      var i := SeparatedHead(s, a);
      var j := SeparatedHead(s, b);
      SameWordAt(s, a[0], i, b[0], j);
      SeparatedUnique(s[i + |a[0]|..], a[1..], b[1..]);
      SameCons(a, b);
    }
  }

  /** The words of a string are the words it is separated into, and nothing else is. */
  lemma WordsExactly(s: string, ws: seq<string>)
    requires AllWords(ws)
    ensures ws == Words(s) <==> Separated(s, ws)
  {
    WordsAreWords(s);
    WordsSeparated(s);
    if Separated(s, ws) {
      SeparatedUnique(s, ws, Words(s));
    }
  }

  lemma WordAtBefore(s: string, trail: string, w: string, i: int)
    requires Blank(trail) && WordAt(s, w, i)
    ensures WordAt(s + trail, w, i) && (s + trail)[i + |w|..] == s[i + |w|..] + trail
  {
    var x := s + trail;
    forall k | 0 <= k < |w| ensures x[i + k] == w[k] {
      assert x[i + k] == s[i + k];
    }
  }

  /** White space behind makes no difference either. */
  lemma {:induction false} SeparatedBefore(s: string, trail: string, ws: seq<string>)
    requires Blank(trail) && Separated(s, ws)
    ensures Separated(s + trail, ws)
    decreases |ws|
  {
    if ws != [] {
      var i := SeparatedHead(s, ws);
      SeparatedBefore(s[i + |ws[0]|..], trail, ws[1..]);
      WordAtBefore(s, trail, ws[0], i);
      SeparatedFrom(s + trail, ws, i, s[i + |ws[0]|..] + trail);
    }
  }

  lemma PaddedWords(lead: string, core: string, trail: string)
    requires Blank(lead) && Blank(trail)
    ensures Words(lead + core + trail) == Words(core)
  {
    WordsAreWords(core);
    WordsSeparated(core);
    SeparatedAfter(lead, core, Words(core));
    SeparatedBefore(lead + core, trail, Words(core));
    WordsExactly(lead + core + trail, Words(core));
  }

  /** Trimming loses no word. */
  lemma WordsOfTrim(s: string)
    ensures Words(Trim(s)) == Words(s)
    ensures Trim(s) == "" <==> Words(s) == []
  {
    var lead, core, trail := TrimParts(IsSpace, s);
    PaddedWords(lead, core, trail);
  }

  lemma {:induction false} FirstWordOf(w: string, rest: string)
    requires NoSpace(w) && (rest == "" || IsSpace(rest[0]))
    ensures FirstWord(w + rest) == w
    decreases |w|
  {
    if w == "" {
      assert w + rest == rest;
    } else {
      assert (w + rest)[1..] == w[1..] + rest;
      FirstWordOf(w[1..], rest);
    }
  }

  /** Reading a word and what follows it. */
  lemma WordsOfFront(w: string, rest: string)
    requires IsWord(w) && (rest == "" || IsSpace(rest[0]))
    ensures Words(w + rest) == [w] + Words(rest)
  {
    FirstWordOf(w, rest);
    assert (w + rest)[|w|..] == rest;
  }

  lemma WordsOfJoinCons(ws: seq<string>)
    requires |ws| >= 2 && IsWord(ws[0])
    ensures Words(Join(ws)) == [ws[0]] + Words(Join(ws[1..]))
  {
    WordsOfFront(ws[0], " " + Join(ws[1..]));
    WordsAfterSpace(Join(ws[1..]));
  }

  lemma WordsAfterSpace(s: string)
    ensures Words(" " + s) == Words(s)
  {
    assert (" " + s)[1..] == s;
  }

  lemma ConsBack(ws: seq<string>, more: seq<string>)
    requires ws != []
    ensures [ws[0]] + (ws[1..] + more) == ws + more
  {
  }

  /** A list of words before the last piece shows up in front of the words of the rest. */
  lemma WordsThenStep(ws: seq<string>, tail: seq<string>, words: seq<string>)
    requires ws != [] && AllWords(ws) && tail != [] && Words(Join(tail)) == words
    ensures Words(Join([ws[0]] + tail)) == [ws[0]] + words
  {
    assert ([ws[0]] + tail)[1..] == tail;
    WordsOfJoinCons([ws[0]] + tail);
  }

  /** Splitting a joined list gives the words back, and those of a last piece that need not be one. */
  lemma {:induction false} WordsOfJoinThen(ws: seq<string>, last: string)
    requires AllWords(ws)
    ensures Words(Join(ws + [last])) == ws + Words(last)
    decreases |ws|
  {
    if ws == [] {
      assert ws + [last] == [last];
    } else {
      WordsOfJoinThen(ws[1..], last);
      WordsThenStep(ws, ws[1..] + [last], ws[1..] + Words(last));
      ConsBack(ws, [last]);
      ConsBack(ws, Words(last));
    }
  }

  /** Splitting undoes joining, for words. */
  lemma WordsOfJoin(ws: seq<string>)
    requires AllWords(ws)
    ensures Words(Join(ws)) == ws
  {
    if ws != [] {
      var init, last := ws[..|ws| - 1], ws[|ws| - 1];
      assert init + [last] == ws;
      WordsOfJoinThen(init, last);
      assert last + "" == last;
      WordsOfFront(last, "");
    }
  }

  /** Joining puts one space between any two. */
  lemma {:induction false} JoinConcat(a: seq<string>, b: seq<string>)
    requires a != [] && b != []
    ensures Join(a + b) == Join(a) + " " + Join(b)
    decreases |a|
  {
    if |a| == 1 {
      assert (a + b)[1..] == b;
    } else {
      assert (a + b)[1..] == a[1..] + b;
      JoinConcat(a[1..], b);
    }
  }

  lemma {:induction false} JoinSnocLength(ws: seq<string>, last: string)
    ensures |Join(ws + [last])| == (if ws == [] then 0 else |Join(ws)| + 1) + |last|
    decreases |ws|
  {
    if ws != [] {
      var all := ws + [last];
      assert all[1..] == ws[1..] + [last];
      JoinSnocLength(ws[1..], last);
    }
  }

  // ---- Byte order and sort ----------------------------------------------------

  /** Strict lexicographic order by code point, which is the byte order of UTF-8. */
  predicate Less(a: string, b: string) {
    if b == "" then false
    else if a == "" then true
    else a[0] < b[0] || (a[0] == b[0] && Less(a[1..], b[1..]))
  }

  /** The strings agree before `i` and differ there. */
  predicate DifferAt(a: string, b: string, i: int) {
    0 <= i < |a| && i < |b| && a[i] < b[i] && forall k :: 0 <= k < i ==> a[k] == b[k]
  }

  predicate ProperPrefix(a: string, b: string) {
    |a| < |b| && forall k :: 0 <= k < |a| ==> a[k] == b[k]
  }

  lemma TailDiffers(a: string, b: string, i: int)
    requires a != "" && b != "" && a[0] == b[0] && i >= 0
    ensures DifferAt(a[1..], b[1..], i) <==> DifferAt(a, b, i + 1)
    ensures ProperPrefix(a[1..], b[1..]) <==> ProperPrefix(a, b)
  {
    var v, w := a[1..], b[1..];
    assert forall k :: 0 < k < |a| ==> a[k] == v[k - 1];
    assert forall k :: 0 < k < |b| ==> b[k] == w[k - 1];
  }

  /** The first difference decides, and without one the shorter string comes first. */
  lemma {:induction false} LessExactly(a: string, b: string)
    ensures Less(a, b) <==> ProperPrefix(a, b) || exists i :: DifferAt(a, b, i)
    decreases |a|
  {
    if a != "" && b != "" {
      if a[0] == b[0] {
        LessExactly(a[1..], b[1..]);
        TailDiffers(a, b, 0);
        forall i | i > 0 ensures DifferAt(a[1..], b[1..], i - 1) <==> DifferAt(a, b, i) {
          TailDiffers(a, b, i - 1);
        }
        if i :| DifferAt(a[1..], b[1..], i) {
          TailDiffers(a, b, i);
        }
      } else {
        assert DifferAt(a, b, 0) <==> a[0] < b[0];
      }
    }
  }

  lemma {:induction false} LessTotal(a: string, b: string)
    ensures !(Less(a, b) && Less(b, a))
    ensures a == b || Less(a, b) || Less(b, a)
    ensures a == b ==> !Less(a, b)
    decreases |a|
  {
    if a != "" && b != "" {
      assert a == [a[0]] + a[1..] && b == [b[0]] + b[1..];
      LessTotal(a[1..], b[1..]);
    }
  }

  lemma {:induction false} LessTransitive(a: string, b: string, c: string)
    requires Less(a, b) && Less(b, c)
    ensures Less(a, c)
    decreases |a|
  {
    if a != "" && a[0] == b[0] == c[0] {
      LessTransitive(a[1..], b[1..], c[1..]);
    }
  }

  /** Ascending, equal neighbours allowed. */
  ghost predicate Sorted(xs: seq<string>) {
    forall i, j :: 0 <= i < j < |xs| ==> !Less(xs[j], xs[i])
  }

  ghost predicate StrictlySorted(xs: seq<string>) {
    forall i, j :: 0 <= i < j < |xs| ==> Less(xs[i], xs[j])
  }

  function Insert(x: string, xs: seq<string>): (r: seq<string>)
    ensures multiset(r) == multiset(xs) + multiset{x}
  {
    if xs == [] then [x]
    else
      assert xs == [xs[0]] + xs[1..];
      if Less(xs[0], x) then [xs[0]] + Insert(x, xs[1..]) else [x] + xs
  }

  function Sort(xs: seq<string>): (r: seq<string>)
    ensures multiset(r) == multiset(xs)
  {
    if xs == [] then []
    else
      assert xs == [xs[0]] + xs[1..];
      Insert(xs[0], Sort(xs[1..]))
  }

  lemma {:induction false} InsertSorted(x: string, xs: seq<string>)
    requires Sorted(xs)
    ensures Sorted(Insert(x, xs))
    decreases |xs|
  {
    if xs != [] {
      var r := Insert(x, xs);
      if Less(xs[0], x) {
        InsertSorted(x, xs[1..]);
        var tail := Insert(x, xs[1..]);
        forall j | 0 <= j < |tail| ensures !Less(tail[j], xs[0]) {
          assert tail[j] in multiset(tail);
          LessTotal(xs[0], x);
          if tail[j] != x {
            assert tail[j] in xs[1..];
          }
        }
      } else {
        forall j | 0 <= j < |xs| ensures !Less(xs[j], x) {
          LessTotal(xs[j], x);
          LessTotal(xs[0], xs[j]);
          if Less(xs[j], x) && xs[j] != xs[0] {
            LessTransitive(xs[0], xs[j], x);
          }
        }
      }
    }
  }

  lemma InsertMembers(x: string, xs: seq<string>, y: string)
    ensures y in Insert(x, xs) <==> y == x || y in xs
  {
    assert y in Insert(x, xs) <==> y in multiset(Insert(x, xs));
    assert y in xs <==> y in multiset(xs);
  }

  lemma ConsStrict(x: string, xs: seq<string>)
    requires StrictlySorted(xs) && forall j :: 0 <= j < |xs| ==> Less(x, xs[j])
    ensures StrictlySorted([x] + xs)
  {
  }

  lemma {:induction false} InsertStrict(x: string, xs: seq<string>)
    requires StrictlySorted(xs) && x !in xs
    ensures StrictlySorted(Insert(x, xs))
    decreases |xs|
  {
    if xs != [] {
      LessTotal(xs[0], x);
      if Less(xs[0], x) {
        var tail := Insert(x, xs[1..]);
        InsertStrict(x, xs[1..]);
        forall j | 0 <= j < |tail| ensures Less(xs[0], tail[j]) {
          InsertMembers(x, xs[1..], tail[j]);
        }
        ConsStrict(xs[0], tail);
      } else {
        forall j | 0 <= j < |xs| ensures Less(x, xs[j]) {
          if j > 0 {
            LessTransitive(x, xs[0], xs[j]);
          }
        }
        ConsStrict(x, xs);
      }
    }
  }

  lemma {:induction false} SortSorted(xs: seq<string>)
    ensures Sorted(Sort(xs))
    decreases |xs|
  {
    if xs != [] {
      SortSorted(xs[1..]);
      InsertSorted(xs[0], Sort(xs[1..]));
    }
  }

  lemma SameElements(xs: seq<string>, ys: seq<string>)
    requires multiset(xs) == multiset(ys)
    ensures forall x :: x in xs <==> x in ys
  {
    forall x ensures x in xs <==> x in ys {
      assert x in xs <==> x in multiset(xs);
      assert x in ys <==> x in multiset(ys);
    }
  }

  /** A set of strings has at most one strictly ascending listing. */
  lemma {:induction false} ListingUnique(xs: seq<string>, ys: seq<string>)
    requires StrictlySorted(xs) && StrictlySorted(ys)
    requires forall x :: x in xs <==> x in ys
    ensures xs == ys
    decreases |xs|
  {
    assert xs != [] ==> xs[0] in ys;
    assert ys != [] ==> ys[0] in xs;
    if xs != [] {
      assert xs[0] in ys && ys[0] in xs;
      LessTotal(xs[0], ys[0]);
      assert xs[0] == ys[0];
      forall x ensures x in xs[1..] <==> x in ys[1..] {
        LessTotal(x, xs[0]);
        LessTotal(xs[0], x);
        TailMember(xs, x);
        TailMember(ys, x);
      }
      ListingUnique(xs[1..], ys[1..]);
    }
  }

  lemma TailMember(xs: seq<string>, x: string)
    requires xs != [] && StrictlySorted(xs)
    ensures x in xs[1..] <==> x in xs && x != xs[0]
  {
    LessTotal(xs[0], xs[0]);
  }
}

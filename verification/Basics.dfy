/** What several modules share. */
module Basics {

  datatype Option<T> = None | Some(value: T)

  const U64_MAX: nat := 0xFFFF_FFFF_FFFF_FFFF

  lemma FewerElements<T>(a: set<T>, b: set<T>)
    requires a <= b
    ensures |a| <= |b|
  {
    assert b == a + (b - a) && |b| == |a| + |b - a|;
  }

  /** What holds at `m` and is passed on up to `n` holds at `n`. */
  lemma {:induction false} Carried(holds: nat -> bool, m: nat, n: nat)
    requires m <= n && holds(m) && forall k :: m <= k < n && holds(k) ==> holds(k + 1)
    ensures holds(n)
    decreases n
  {
    if m < n {
      Carried(holds, m, n - 1);
    }
  }

  // ---- Trimming; what is blank depends on the language ------------------------------------

  predicate AllBlank(blank: char -> bool, s: string) {
    forall i :: 0 <= i < |s| ==> blank(s[i])
  }

  function TrimStart(blank: char -> bool, s: string): string
    decreases |s|
  {
    if s != "" && blank(s[0]) then TrimStart(blank, s[1..]) else s
  }

  function TrimEnd(blank: char -> bool, s: string): string
    decreases |s|
  {
    if s != "" && blank(s[|s| - 1]) then TrimEnd(blank, s[..|s| - 1]) else s
  }

  /** The suffix that starts with the first character that is not blank. */
  lemma {:induction false} TrimStartExactly(blank: char -> bool, s: string)
    ensures var r := TrimStart(blank, s);
            && |r| <= |s| && r == s[|s| - |r|..] && AllBlank(blank, s[..|s| - |r|])
            && (r == "" || !blank(r[0]))
    decreases |s|
  {
    if s != "" && blank(s[0]) {
      TrimStartExactly(blank, s[1..]);
      assert forall i :: 0 < i < |s| ==> s[i] == s[1..][i - 1];
    }
  }

  /** The prefix that ends with the last character that is not blank. */
  lemma {:induction false} TrimEndExactly(blank: char -> bool, s: string)
    ensures var r := TrimEnd(blank, s);
            r <= s && AllBlank(blank, s[|r|..]) && (r == "" || !blank(r[|r| - 1]))
    decreases |s|
  {
    if s != "" && blank(s[|s| - 1]) {
      var t := s[..|s| - 1];
      TrimEndExactly(blank, t);
      assert forall i :: 0 <= i < |t| ==> s[i] == t[i];
    }
  }

  /** The first and the last character are not blank. */
  predicate Bare(blank: char -> bool, s: string) {
    s == "" || (!blank(s[0]) && !blank(s[|s| - 1]))
  }

  lemma TrimmedLead(blank: char -> bool, lead: string, s: string)
    requires AllBlank(blank, lead) && (s == "" || !blank(s[0]))
    ensures TrimStart(blank, lead + s) == s
  {
    var x, r := lead + s, TrimStart(blank, lead + s);
    TrimStartExactly(blank, x);
    var n := |x| - |r|;
    assert forall i :: 0 <= i < |lead| ==> x[i] == lead[i];
    assert forall i :: 0 <= i < n ==> x[i] == x[..n][i];
    assert r != "" ==> r[0] == x[n];
    assert s != "" ==> x[|lead|] == s[0];
  }

  lemma {:induction false} TrimmedTrail(blank: char -> bool, s: string, trail: string)
    requires AllBlank(blank, trail) && (s == "" || !blank(s[|s| - 1]))
    ensures TrimEnd(blank, s + trail) == s
    decreases |trail|
  {
    if trail == "" {
      assert s + trail == s;
    } else {
      var x, t := s + trail, trail[..|trail| - 1];
      assert x[|x| - 1] == trail[|trail| - 1] && x[..|x| - 1] == s + t;
      TrimmedTrail(blank, s, t);
    }
  }

  /** Trimming takes off exactly what is blank in front and behind. */
  lemma TrimExactly(blank: char -> bool, lead: string, s: string, trail: string)
    requires AllBlank(blank, lead) && Bare(blank, s) && AllBlank(blank, trail)
    ensures TrimEnd(blank, TrimStart(blank, lead + s + trail)) == s
  {
    if s == "" {
      assert lead + s + trail == (lead + trail) + "";
      TrimmedLead(blank, lead + trail, "");
    } else {
      assert lead + s + trail == lead + (s + trail);
      TrimmedLead(blank, lead, s + trail);
      TrimmedTrail(blank, s, trail);
    }
  }

  lemma Rejoined(a: string, b: string, c: string, bc: string)
    requires bc == b + c
    ensures a + bc == a + b + c
  {
  }

  /** Every string is some blanks, something bare, and some blanks. */
  lemma TrimParts(blank: char -> bool, s: string) returns (lead: string, core: string, trail: string)
    ensures s == lead + core + trail && AllBlank(blank, lead) && Bare(blank, core) && AllBlank(blank, trail)
    ensures core == TrimEnd(blank, TrimStart(blank, s))
  {
    var rest := TrimStart(blank, s);
    TrimStartExactly(blank, s);
    lead := s[..|s| - |rest|];
    core, trail := EndParts(blank, rest);
    Rejoined(lead, core, trail, rest);
  }

  lemma EndParts(blank: char -> bool, s: string) returns (core: string, trail: string)
    requires s == "" || !blank(s[0])
    ensures s == core + trail && core == TrimEnd(blank, s) && Bare(blank, core) && AllBlank(blank, trail)
  {
    core := TrimEnd(blank, s);
    TrimEndExactly(blank, s);
    trail := s[|core|..];
    assert core != "" ==> core[0] == s[0];
  }
}

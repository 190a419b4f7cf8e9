/**
 * Google scope lists: canonical names, and the normalised union that keeps one
 * connection from erasing what another was granted.
 */
module GoogleScopes {
  import opened Basics
  import opened Text

  const EMAIL_URL := "https://www.googleapis.com/auth/userinfo.email"
  const PROFILE_URL := "https://www.googleapis.com/auth/userinfo.profile"

  function CanonicalGoogleScope(scope: string): string {
    if scope == EMAIL_URL then "email"
    else if scope == PROFILE_URL then "profile"
    else scope
  }

  function Canonical(scope: string): string {
    CanonicalGoogleScope(Trim(scope))
  }

  /** White space around a scope is dropped, the two long names become short, and nothing else changes. */
  lemma CanonicalExactly(lead: string, scope: string, trail: string)
    requires Blank(lead) && Trimmed(scope) && Blank(trail)
    ensures scope == "https://www.googleapis.com/auth/userinfo.email" ==> Canonical(lead + scope + trail) == "email"
    ensures scope == "https://www.googleapis.com/auth/userinfo.profile" ==> Canonical(lead + scope + trail) == "profile"
    ensures (scope != "https://www.googleapis.com/auth/userinfo.email"
             && scope != "https://www.googleapis.com/auth/userinfo.profile")
            ==> Canonical(lead + scope + trail) == scope
  {
    TrimExactly(IsSpace, lead, scope, trail);
    LongNames();
  }

  lemma LongNames()
    ensures EMAIL_URL != PROFILE_URL
  {
    assert |EMAIL_URL| != |PROFILE_URL|;
  }

  /** The non-blank canonical names in a list. */
  ghost function Names(scopes: seq<string>): set<string> {
    set s | s in scopes && Canonical(s) != "" :: Canonical(s)
  }

  function NameOrNothing(scope: string): seq<string> {
    if Canonical(scope) == "" then [] else [Canonical(scope)]
  }

  function CollectNames(scopes: seq<string>): seq<string> {
    if scopes == [] then [] else NameOrNothing(scopes[0]) + CollectNames(scopes[1..])
  }

  lemma {:induction false} CollectedNames(scopes: seq<string>)
    ensures forall x :: x in CollectNames(scopes) <==> x in Names(scopes)
    decreases |scopes|
  {
    if scopes != [] {
      assert scopes == [scopes[0]] + scopes[1..];
      CollectedNames(scopes[1..]);
    }
  }

  /** `Vec::dedup`: drop an element equal to the one kept before it. */
  function Dedup(xs: seq<string>): (r: seq<string>)
    ensures xs != [] ==> r != [] && r[|r| - 1] == xs[|xs| - 1]
    ensures forall x :: x in r <==> x in xs
  {
    if |xs| <= 1 then xs
    else
      var init, last := Dedup(xs[..|xs| - 1]), xs[|xs| - 1];
      assert xs == xs[..|xs| - 1] + [last];
      if init[|init| - 1] == last then init else init + [last]
  }

  lemma {:induction false} DedupStrict(xs: seq<string>)
    requires Sorted(xs)
    ensures StrictlySorted(Dedup(xs))
    decreases |xs|
  {
    if |xs| > 1 {
      var short, last := xs[..|xs| - 1], xs[|xs| - 1];
      DedupStrict(short);
      var init := Dedup(short);
      if init[|init| - 1] != last {
        forall i | 0 <= i < |init| ensures Less(init[i], last) {
          var top := init[|init| - 1];
          assert top == xs[|xs| - 2];
          LessTotal(top, last);
          if i < |init| - 1 {
            LessTransitive(init[i], top, last);
          }
        }
      }
    }
  }

  function Merge(existing: seq<string>, returned: seq<string>): seq<string> {
    Dedup(Sort(CollectNames(existing + returned)))
  }

  lemma {:induction false} CollectSnoc(scopes: seq<string>, last: string)
    ensures CollectNames(scopes + [last]) == CollectNames(scopes) + NameOrNothing(last)
    decreases |scopes|
  {
    if scopes == [] {
      assert [] + [last] == [last];
      assert CollectNames([last]) == NameOrNothing(last) + CollectNames([]);
    } else {
      assert (scopes + [last])[1..] == scopes[1..] + [last];
      CollectSnoc(scopes[1..], last);
      Regroup(NameOrNothing(scopes[0]), CollectNames(scopes[1..]), NameOrNothing(last));
    }
  }

  lemma Regroup(a: seq<string>, b: seq<string>, c: seq<string>)
    ensures a + (b + c) == (a + b) + c
  {
  }

  lemma CollectNext(all: seq<string>, i: nat)
    requires i < |all|
    ensures CollectNames(all[..i + 1]) == CollectNames(all[..i]) + NameOrNothing(all[i])
  {
    assert all[..i + 1] == all[..i] + [all[i]];
    CollectSnoc(all[..i], all[i]);
  }

  method MergeGoogleScopes(existing: seq<string>, returned: seq<string>) returns (scopes: seq<string>)
    ensures scopes == Merge(existing, returned)
    ensures StrictlySorted(scopes) && forall x :: x in scopes <==> x in Names(existing) + Names(returned)
  {
    MergeIsUnion(existing, returned);
    var all := existing + returned;
    var names: seq<string> := [];
    for i := 0 to |all|
      invariant names == CollectNames(all[..i])
    {
      CollectNext(all, i);
      var name := Canonical(all[i]);
      if name != "" {
        names := names + [name];
      }
    }
    assert all[..|all|] == all;
    scopes := Dedup(Sort(names));
  }

  /** The union: strictly ascending, and nothing but the canonical names of both lists. */
  lemma MergeIsUnion(existing: seq<string>, returned: seq<string>)
    ensures StrictlySorted(Merge(existing, returned))
    ensures forall x :: x in Merge(existing, returned) <==> x in Names(existing) + Names(returned)
  {
    var raw := CollectNames(existing + returned);
    CollectedNames(existing + returned);
    SortSorted(raw);
    DedupStrict(Sort(raw));
    SameElements(Sort(raw), raw);
    assert Names(existing + returned) == Names(existing) + Names(returned);
  }

  /** ... and the only list of that kind. */
  lemma MergeUnique(existing: seq<string>, returned: seq<string>, other: seq<string>)
    requires StrictlySorted(other)
    requires forall x :: x in other <==> x in Names(existing) + Names(returned)
    ensures other == Merge(existing, returned)
  {
    MergeIsUnion(existing, returned);
    ListingUnique(other, Merge(existing, returned));
  }

  lemma CanonicalIsFixed(s: string)
    ensures Canonical(Canonical(s)) == Canonical(s)
  {
    assert Trimmed("email") && Trimmed("profile");
  }

  /** A merged list is its own list of names. */
  lemma NamesOfMerge(a: seq<string>, b: seq<string>)
    ensures Names(Merge(a, b)) == Names(a) + Names(b)
  {
    MergeIsUnion(a, b);
    forall x | x in Names(a) + Names(b) ensures Canonical(x) == x && x != "" {
      var s :| (s in a || s in b) && x == Canonical(s) && x != "";
      CanonicalIsFixed(s);
    }
  }

  lemma MergeCommutes(a: seq<string>, b: seq<string>)
    ensures Merge(a, b) == Merge(b, a)
  {
    MergeIsUnion(a, b);
    MergeUnique(b, a, Merge(a, b));
  }

  lemma MergeAssociates(a: seq<string>, b: seq<string>, c: seq<string>)
    ensures Merge(Merge(a, b), c) == Merge(a, Merge(b, c))
  {
    NamesOfMerge(a, b);
    NamesOfMerge(b, c);
    MergeIsUnion(Merge(a, b), c);
    MergeUnique(a, Merge(b, c), Merge(Merge(a, b), c));
  }

  lemma MergeAbsorbs(a: seq<string>, b: seq<string>)
    ensures Merge(Merge(a, b), b) == Merge(a, b) && Merge([], Merge(a, b)) == Merge(a, b)
  {
    NamesOfMerge(a, b);
    MergeIsUnion(a, b);
    MergeUnique(Merge(a, b), b, Merge(a, b));
    MergeUnique([], Merge(a, b), Merge(a, b));
  }
}

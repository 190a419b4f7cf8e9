/**
 * What each registry operation does, in terms of the call and of the rows before
 * and after it, and how long a lease lasts over a whole run.
 */
module RegistryLaws {
  import opened Basics
  import opened Text
  import opened ResourceRegistry

  // ---- What is valid -------------------------------------------------------------------------

  /** Printable ASCII but for space, double quote and backslash: section 3.3 of RFC 6749. */
  predicate ScopeChar(c: char) {
    '!' <= c <= '~' && c != '"' && c != '\\'
  }

  predicate ScopeToken(s: string) {
    s != "" && forall i :: 0 <= i < |s| ==> ScopeChar(s[i])
  }

  lemma ValidScopeExactly(s: string)
    ensures ValidScope(s) <==> ScopeToken(s)
  {
    assert forall c: char :: ScopeChar(c) <==> (var n := c as int; n == 0x21 || 0x23 <= n <= 0x5B || 0x5D <= n <= 0x7E);
  }

  /** A list of scopes is accepted if it is not empty and every entry, trimmed, is a token. */
  lemma ValidatedScopesExactly(scopes: seq<string>)
    ensures ValidatedScopes(scopes).Ok? <==> scopes != [] && forall s :: s in scopes ==> ScopeToken(Trim(s))
    ensures ValidatedScopes(scopes).Ok? ==>
              forall x :: x in ValidatedScopes(scopes).value <==> exists s :: s in scopes && x == Trim(s)
    ensures ValidatedScopes(scopes).Err? ==> ValidatedScopes(scopes).error == InvalidScopes
  {
    var trimmed := TrimmedScopes(scopes);
    forall s ensures ValidScope(s) <==> ScopeToken(s) {
      ValidScopeExactly(s);
    }
    if scopes != [] {
      assert scopes[0] in scopes && Trim(scopes[0]) in trimmed;
    }
    assert forall s :: s in scopes ==> Trim(s) in trimmed;
  }

  /** White space and one trailing slash are dropped; the rest must be an https address. */
  lemma CanonicalResourceExactly(https: string -> bool, lead: string, address: string, slash: string, trail: string)
    requires Blank(lead) && Blank(trail) && Trimmed(address + slash) && slash in {"", "/"}
    requires slash == "" ==> address == "" || address[|address| - 1] != '/'
    ensures CanonicalResource(https, lead + (address + slash) + trail) ==
            if https(address) then Ok(address) else Err(InvalidResource)
  {
    TrimExactly(IsSpace, lead, address + slash, trail);
    assert slash == "" ==> address + slash == address;
    assert slash == "/" ==> (address + slash)[..|address + slash| - 1] == address;
  }

  lemma {:induction false} Utf8Concat(a: string, b: string)
    ensures Utf8Len(a + b) == Utf8Len(a) + Utf8Len(b)
    decreases |a|
  {
    if a == "" {
      assert a + b == b;
    } else {
      assert (a + b)[1..] == a[1..] + b;
      Utf8Concat(a[1..], b);
    }
  }

  /** One byte for ASCII and up to four for the rest. */
  lemma Utf8OfOne(c: char)
    ensures var n := c as int;
            && (n <= 0x7F ==> Utf8Len([c]) == 1) && (0x80 <= n <= 0x7FF ==> Utf8Len([c]) == 2)
            && (0x800 <= n <= 0xFFFF ==> Utf8Len([c]) == 3) && (0x10000 <= n ==> Utf8Len([c]) == 4)
  {
    assert [c][1..] == "";
  }

  /** Whole seconds, at least one and at most a day. */
  predicate GoodTtl(ttl: Ttl) {
    ttl.nanos == 0 && 1 <= ttl.secs <= 86400
  }

  // ---- One call -------------------------------------------------------------------------------

  /** Rows under other identifiers stay, unless they have expired. */
  ghost predicate OthersStay(before: State, after: State, id: string, now: int) {
    && after.configured == before.configured
    && forall k :: k != id ==>
         && (k in after.leases ==> k in before.leases && after.leases[k] == before.leases[k])
         && (k in before.leases && before.leases[k].expiresAt > now ==> k in after.leases)
  }

  /** The first thing that is wrong, if something is. */
  function CreateFault(https: string -> bool, req: CreateRequest, now: int): Error {
    if !GoodTtl(req.ttl) then InvalidTtl
    else if CanonicalResource(https, req.resource).Err? then InvalidResource
    else if ValidatedScopes(req.scopes).Err? then InvalidScopes
    else if Trim(req.owner) == "" || Utf8Len(Trim(req.owner)) > 128 then InvalidOwner
    else if now < 0 then InvalidClock
    else InvalidTtl
  }

  /** A lease is created if and only if everything about it is valid, and ends when it was asked to. */
  lemma CreateExactly(https: string -> bool, s: State, req: CreateRequest, now: int)
    ensures var (after, answer) := Eager(https, s, Create(req), now);
            var owner := Trim(req.owner);
            && answer.Leased?
            && (answer.lease.Ok? <==>
                  && GoodTtl(req.ttl) && CanonicalResource(https, req.resource).Ok?
                  && req.scopes != [] && (forall x :: x in req.scopes ==> ScopeToken(Trim(x)))
                  && owner != "" && Utf8Len(owner) <= 128
                  && now >= 0 && now + req.ttl.secs <= 0xFFFF_FFFF_FFFF_FFFF)
            && (answer.lease.Err? ==> after == s && answer.lease.error == CreateFault(https, req, now))
            && (answer.lease.Ok? ==>
                  var l := answer.lease.value;
                  && OthersStay(s, after, req.id, now)
                  && l.id == req.id && l.resource == CanonicalResource(https, req.resource).value
                  && (forall x :: x in l.scopes <==> exists y :: y in req.scopes && x == Trim(y))
                  && l.expiresAt == now + req.ttl.secs
                  && req.id in after.leases
                  && after.leases[req.id] == StoredLease(l.resource, l.scopes, owner, l.expiresAt))
  {
    ValidatedScopesExactly(req.scopes);
  }

  /** A live lease is renewed, from now on and for the time asked; nothing else about it changes. */
  lemma RenewExactly(https: string -> bool, s: State, id: string, ttl: Ttl, now: int)
    ensures var (after, answer) := Eager(https, s, Renew(id, ttl), now);
            && answer.Leased?
            && (answer.lease.Ok? <==>
                  && GoodTtl(ttl) && now >= 0 && now + ttl.secs <= 0xFFFF_FFFF_FFFF_FFFF
                  && id in s.leases && s.leases[id].expiresAt > now)
            && (answer.lease.Err? ==>
                  answer.lease.error ==
                  if !GoodTtl(ttl) then InvalidTtl else if now < 0 then InvalidClock
                  else if now + ttl.secs > 0xFFFF_FFFF_FFFF_FFFF then InvalidTtl else LeaseNotFound)
            && (answer.lease.Ok? ==>
                  && OthersStay(s, after, id, now) && id in after.leases
                  && after.leases[id] == s.leases[id].(expiresAt := now + ttl.secs)
                  && answer.lease.value == Lease(id, s.leases[id].resource, s.leases[id].scopes, now + ttl.secs))
  {
  }

  /** A live lease is released and gone; any other is not found. */
  lemma ReleaseExactly(https: string -> bool, s: State, id: string, now: int)
    ensures var (after, answer) := Eager(https, s, Release(id), now);
            && answer.Done?
            && (answer.result.Ok? <==> now >= 0 && id in s.leases && s.leases[id].expiresAt > now)
            && (answer.result.Err? ==> answer.result.error == if now < 0 then InvalidClock else LeaseNotFound)
            && (now >= 0 ==> id !in after.leases && OthersStay(s, after, id, now))
  {
  }

  /** Counting and listing see the live leases, and an explicit prune reports how many were not. */
  lemma CountExactly(https: string -> bool, s: State, now: int)
    requires now >= 0
    ensures var live := set id | id in s.leases && s.leases[id].expiresAt > now;
            && Eager(https, s, Count, now).1 == Counted(|live|)
            && Eager(https, s, Diagnostics, now).1.Listed? && Eager(https, s, Diagnostics, now).1.rows.Keys == live
            && (forall id :: id in live ==> Eager(https, s, Diagnostics, now).1.rows[id] == s.leases[id])
            && |s.leases| >= |live| && Eager(https, s, Op.Prune, now).1 == Answer.Swept(|s.leases| - |live|)
            && Eager(https, s, Op.Prune, now).0.leases.Keys == live
  {
    var live := set id | id in s.leases && s.leases[id].expiresAt > now;
    LiveTwice(s.leases, now);
    assert Live(s.leases, now).Keys == live;
    FewerElements(live, s.leases.Keys);
  }

  /** Some live lease on the resource has the scope. */
  ghost predicate Leased(leases: Leases, now: int, c: string, x: string) {
    exists id :: id in leases && leases[id].expiresAt > now && leases[id].resource == c && x in leases[id].scopes
  }

  lemma GrantedExactly(configured: Configured, leases: Leases, now: int, c: string, x: string)
    ensures x in Granted(configured, Live(leases, now), c) <==>
            (c in configured && x in configured[c]) || Leased(leases, now, c, x)
  {
    var live := Live(leases, now);
    if id :| id in leases && leases[id].expiresAt > now && leases[id].resource == c && x in leases[id].scopes {
      assert live[id] == leases[id];
    }
  }

  /** A scope is effective if and only if it is configured for the resource or a live lease on it has it. */
  lemma LookupExactly(https: string -> bool, s: State, resource: string, now: int, x: string)
    requires now >= 0 && CanonicalResource(https, resource).Ok?
    ensures var answer := Eager(https, s, Lookup(resource), now).1;
            var c := CanonicalResource(https, resource).value;
            && answer.Scopes?
            && ((answer.scopes.Some? && x in answer.scopes.value) <==>
                  (c in s.configured && x in s.configured[c]) || Leased(s.leases, now, c, x))
            && (answer.scopes.Some? ==> answer.scopes.value != {})
  {
    LiveTwice(s.leases, now);
    GrantedExactly(s.configured, s.leases, now, CanonicalResource(https, resource).value, x);
  }

  /** A call that only looks keeps the configuration and the live leases, and clears the expired ones away. */
  lemma LooksPrune(https: string -> bool, s: State, op: Op, now: int)
    requires now >= 0
    requires op.Count? || op.Diagnostics? || op.Prune? || (op.Lookup? && CanonicalResource(https, op.resource).Ok?)
    ensures var after := Eager(https, s, op, now).0;
            && after.configured == s.configured
            && (forall id :: id in after.leases <==> id in s.leases && s.leases[id].expiresAt > now)
            && (forall id :: id in after.leases ==> after.leases[id] == s.leases[id])
  {
  }

  /** Before the epoch, or for what is no resource, it sees nothing and changes nothing. */
  lemma BlindExactly(https: string -> bool, s: State, resource: string, now: int)
    ensures now < 0 || CanonicalResource(https, resource).Err? ==>
              Eager(https, s, Lookup(resource), now) == (s, Scopes(None))
    ensures now < 0 ==> Eager(https, s, Count, now) == (s, Counted(0))
    ensures now < 0 ==> Eager(https, s, Diagnostics, now) == (s, Listed(map[]))
  {
  }

  type Entry = (string, seq<string>)

  ghost predicate GoodEntry(https: string -> bool, e: Entry) {
    CanonicalResource(https, e.0).Ok? && ValidatedScopes(e.1).Ok?
  }

  ghost predicate EntryFor(https: string -> bool, e: Entry, c: string) {
    GoodEntry(https, e) && CanonicalResource(https, e.0).value == c
  }

  lemma ReplaceSnoc(https: string -> bool, init: seq<Entry>, e: Entry)
    requires ReplaceConfigured(https, init).Ok? && GoodEntry(https, e)
    ensures ReplaceConfigured(https, init + [e]) ==
            Ok(ReplaceConfigured(https, init).value[CanonicalResource(https, e.0).value := ValidatedScopes(e.1).value])
  {
    assert (init + [e])[..|init|] == init;
  }

  /** A configuration is taken over if and only if all of it is valid. */
  lemma {:induction false} ReplacedExactly(https: string -> bool, resources: seq<Entry>)
    ensures ReplaceConfigured(https, resources).Ok? <==> forall e :: e in resources ==> GoodEntry(https, e)
    decreases |resources|
  {
    if resources != [] {
      var init, last := resources[..|resources| - 1], resources[|resources| - 1];
      ReplacedExactly(https, init);
      assert resources == init + [last];
      assert last in resources;
    }
  }

  /** The scopes of a resource are those of its last entry, whatever follows for others. */
  lemma {:induction false} LastEntryCounts(
    https: string -> bool, before: seq<Entry>, e: Entry, after: seq<Entry>, c: string)
    requires EntryFor(https, e, c) && (forall x :: x in after ==> GoodEntry(https, x) && !EntryFor(https, x, c))
    requires ReplaceConfigured(https, before).Ok?
    ensures var m := ReplaceConfigured(https, before + [e] + after);
            m.Ok? && c in m.value && m.value[c] == ValidatedScopes(e.1).value
    decreases |after|
  {
    if after == [] {
      assert before + [e] + after == before + [e];
      ReplaceSnoc(https, before, e);
    } else {
      var init, x := after[..|after| - 1], after[|after| - 1];
      assert x in after && before + [e] + after == (before + [e] + init) + [x];
      LastEntryCounts(https, before, e, init, c);
      ReplaceSnoc(https, before + [e] + init, x);
    }
  }

  /** A resource without an entry has no scopes. */
  lemma {:induction false} NoEntryNoScopes(https: string -> bool, resources: seq<Entry>, c: string)
    requires ReplaceConfigured(https, resources).Ok? && forall x :: x in resources ==> !EntryFor(https, x, c)
    ensures c !in ReplaceConfigured(https, resources).value
    decreases |resources|
  {
    if resources != [] {
      var init, last := resources[..|resources| - 1], resources[|resources| - 1];
      assert last in resources;
      NoEntryNoScopes(https, init, c);
    }
  }

  // ---- How long a lease lasts ------------------------------------------------------------------

  /** The call created or renewed the lease, for this long. */
  ghost predicate Extends(https: string -> bool, calls: seq<Call>, i: nat, l: Lease, secs: nat) {
    i < |calls| && AnswerOf(https, false, calls, i) == Answer.Leased(Ok(l)) && LeaseCall(calls[i].op, secs)
  }

  predicate LeaseCall(op: Op, secs: nat) {
    (op.Create? && op.req.ttl.secs == secs) || (op.Renew? && op.ttl.secs == secs)
  }

  /** The call could change the lease. */
  predicate Concerns(op: Op, id: string) {
    (op.Create? && op.req.id == id) || (op.Renew? && op.id == id) || (op.Release? && op.id == id)
  }

  ghost predicate Untouched(calls: seq<Call>, id: string, m: nat, n: nat)
    requires m <= n <= |calls|
  {
    forall k :: m <= k < n ==> !Concerns(calls[k].op, id)
  }

  /** The lease is stored as it was answered. */
  ghost predicate Holds(s: State, l: Lease) {
    l.id in s.leases && Public(l.id, s.leases[l.id]) == l
  }

  lemma OtherCallsLeave(https: string -> bool, s: State, c: Call, l: Lease)
    requires Holds(s, l) && !Concerns(c.op, l.id)
    ensures Holds(Step(https, false, s, c).0, l)
  {
  }

  lemma ExtendedHolds(https: string -> bool, s: State, c: Call, l: Lease, secs: nat)
    requires Step(https, false, s, c).1 == Answer.Leased(Ok(l)) && LeaseCall(c.op, secs)
    ensures Holds(Step(https, false, s, c).0, l) && l.expiresAt == c.now + secs
  {
  }

  lemma {:induction false} HeldThrough(
    https: string -> bool, calls: seq<Call>, states: seq<State>, l: Lease, m: nat, n: nat)
    requires IsTrace(https, false, calls, states) && m <= n <= |calls|
    requires Holds(states[m], l) && Untouched(calls, l.id, m, n)
    ensures Holds(states[n], l)
    decreases n
  {
    if m < n {
      HeldThrough(https, calls, states, l, m, n - 1);
      assert Follows(https, false, states, calls, n - 1);
      OtherCallsLeave(https, states[n - 1], calls[n - 1], l);
    }
  }

  /** From its creation or last renewal on, until it is released, a lease stays as it was answered. */
  lemma LeaseKept(https: string -> bool, calls: seq<Call>, i: nat, j: nat, l: Lease, secs: nat)
    requires i < j < |calls| && Extends(https, calls, i, l, secs) && Untouched(calls, l.id, i + 1, j)
    ensures l.expiresAt == calls[i].now + secs && Holds(After(https, false, calls[..j]), l)
  {
    var states := TraceOf(https, false, calls);
    assert Follows(https, false, states, calls, i);
    ExtendedHolds(https, states[i], calls[i], l, secs);
    HeldThrough(https, calls, states, l, i + 1, j);
  }

  lemma SameAnswer(https: string -> bool, calls: seq<Call>, j: nat)
    requires Chronological(calls) && j < |calls| && !calls[j].op.Prune?
    ensures AnswerOf(https, true, calls, j) == AnswerOf(https, false, calls, j)
  {
    PruningUnnoticed(https, calls, j + 1, calls[j].now);
  }

  /** The program, which prunes, answers the same and holds the lease later if and only if its time is not up. */
  lemma LeaseLasts(https: string -> bool, calls: seq<Call>, i: nat, j: nat, l: Lease, secs: nat)
    requires Chronological(calls)
    requires i < j < |calls| && Extends(https, calls, i, l, secs) && Untouched(calls, l.id, i + 1, j)
    ensures AnswerOf(https, true, calls, i) == Answer.Leased(Ok(l)) && l.expiresAt == calls[i].now + secs
    ensures var s := After(https, true, calls[..j]);
            (l.id in s.leases && s.leases[l.id].expiresAt > calls[j].now) <==> calls[j].now < calls[i].now + secs
  {
    LeaseKept(https, calls, i, j, l, secs);
    SameAnswer(https, calls, i);
    PruningUnnoticed(https, calls, j, calls[j].now);
  }

  /** The scope is there without the lease: it is configured, or another live lease has it. */
  ghost predicate Elsewhere(s: State, now: int, l: Lease, x: string) {
    || (l.resource in s.configured && x in s.configured[l.resource])
    || exists k :: k in s.leases && k != l.id && s.leases[k].expiresAt > now && s.leases[k].resource == l.resource
                   && x in s.leases[k].scopes
  }

  predicate Lists(answer: Answer, x: string) {
    answer.Scopes? && answer.scopes.Some? && x in answer.scopes.value
  }

  lemma GrantedWithLease(s: State, now: int, l: Lease, x: string)
    requires Holds(s, l) && x in l.scopes
    ensures x in Granted(s.configured, Live(s.leases, now), l.resource) <==>
            now < l.expiresAt || Elsewhere(s, now, l, x)
  {
    GrantedExactly(s.configured, s.leases, now, l.resource, x);
  }

  lemma LookupWithLease(https: string -> bool, s: State, resource: string, now: int, l: Lease, x: string)
    requires Holds(s, l) && x in l.scopes && now >= 0 && CanonicalResource(https, resource) == Ok(l.resource)
    ensures Lists(Act(https, s, Lookup(resource), now).1, x) <==> now < l.expiresAt || Elsewhere(s, now, l, x)
  {
    GrantedWithLease(s, now, l, x);
  }

  /**
   * In every run of the program, a scope of a lease that is neither renewed nor released is
   * looked up if and only if the time asked for is not up, or it is there without the lease.
   */
  lemma LeaseSeen(
    https: string -> bool, calls: seq<Call>, i: nat, j: nat, l: Lease, secs: nat, resource: string, x: string)
    requires Chronological(calls)
    requires i < j < |calls| && Extends(https, calls, i, l, secs) && Untouched(calls, l.id, i + 1, j)
    requires calls[j].op == Lookup(resource) && calls[j].now >= 0 && x in l.scopes
    requires CanonicalResource(https, resource) == Ok(l.resource)
    ensures Lists(AnswerOf(https, true, calls, j), x) <==>
            calls[j].now < calls[i].now + secs || Elsewhere(After(https, false, calls[..j]), calls[j].now, l, x)
  {
    LeaseKept(https, calls, i, j, l, secs);
    SameAnswer(https, calls, j);
    LookupWithLease(https, After(https, false, calls[..j]), resource, calls[j].now, l, x);
  }
}

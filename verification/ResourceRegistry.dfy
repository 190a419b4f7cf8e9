/**
 * Protected-resource leases. The program prunes expired leases on the way into
 * every operation; the reference never prunes and only tests expiry. No caller
 * can tell them apart while the clock does not go back.
 */
module ResourceRegistry {
  import opened Basics
  import opened Text

  datatype Error = InvalidResource | InvalidScopes | InvalidTtl | InvalidOwner | LeaseNotFound | InvalidClock

  datatype Result<T> = Ok(value: T) | Err(error: Error)

  const MAX_TTL: nat := 86400
  const MAX_OWNER_LEN: nat := 128
  datatype StoredLease = StoredLease(resource: string, scopes: set<string>, owner: string, expiresAt: nat)

  datatype Lease = Lease(id: string, resource: string, scopes: set<string>, expiresAt: nat)

  type Leases = map<string, StoredLease>

  type Configured = map<string, set<string>>

  // ---- Validation ------------------------------------------------------------

  /** A duration: whole seconds and the sub-second rest. */
  datatype Ttl = Ttl(secs: nat, nanos: nat)

  predicate ValidTtl(ttl: Ttl) {
    ttl.nanos == 0 && 1 <= ttl.secs <= MAX_TTL
  }

  predicate ValidScope(s: string) {
    s != "" && forall i :: 0 <= i < |s| ==>
      var n := s[i] as int; n == 0x21 || 0x23 <= n <= 0x5B || 0x5D <= n <= 0x7E
  }

  function TrimmedScopes(scopes: seq<string>): set<string> {
    set s | s in scopes :: Trim(s)
  }

  function ValidatedScopes(scopes: seq<string>): Result<set<string>> {
    var trimmed := TrimmedScopes(scopes);
    if trimmed == {} || exists s :: s in trimmed && !ValidScope(s) then Err(InvalidScopes) else Ok(trimmed)
  }

  /** Blank-trimmed, one trailing slash dropped; `https` decides what the URL parser accepts. */
  function CanonicalResource(https: string -> bool, resource: string): Result<string> {
    var t := Trim(resource);
    var c := if t != "" && t[|t| - 1] == '/' then t[..|t| - 1] else t;
    if https(c) then Ok(c) else Err(InvalidResource)
  }

  function Utf8Len(s: string): nat {
    if s == "" then 0
    else
      var n := s[0] as int;
      (if n < 0x80 then 1 else if n < 0x800 then 2 else if n < 0x10000 then 3 else 4) + Utf8Len(s[1..])
  }

  /** `now + ttl`, or the reason there is none. */
  function Deadline(ttl: Ttl, now: int): (r: Result<nat>)
    ensures r.Ok? ==> now >= 0 && now < r.value <= now + MAX_TTL
  {
    if !ValidTtl(ttl) then Err(InvalidTtl)
    else if now < 0 then Err(InvalidClock)
    else if now + ttl.secs > U64_MAX then Err(InvalidTtl)
    else Ok(now + ttl.secs)
  }

  datatype CreateRequest = CreateRequest(resource: string, scopes: seq<string>, ttl: Ttl, owner: string, id: string)

  /** The row a valid request would store; checks run in the program's order. */
  function NewLease(https: string -> bool, req: CreateRequest, now: int): (r: Result<StoredLease>)
    ensures r.Ok? ==> now >= 0 && now < r.value.expiresAt <= now + MAX_TTL
  {
    if !ValidTtl(req.ttl) then Err(InvalidTtl)
    else
      match (CanonicalResource(https, req.resource), ValidatedScopes(req.scopes))
      case (Err(e), _) => Err(e)
      case (_, Err(e)) => Err(e)
      case (Ok(resource), Ok(scopes)) =>
        var owner := Trim(req.owner);
        if owner == "" || Utf8Len(owner) > MAX_OWNER_LEN then Err(InvalidOwner)
        else
          match Deadline(req.ttl, now)
          case Err(e) => Err(e)
          case Ok(at) => Ok(StoredLease(resource, scopes, owner, at))
  }

  function Public(id: string, l: StoredLease): Lease {
    Lease(id, l.resource, l.scopes, l.expiresAt)
  }

  function Live(leases: Leases, now: int): Leases {
    map id | id in leases && leases[id].expiresAt > now :: leases[id]
  }

  /** Configured scopes of the resource and those of every given lease on it. */
  function Granted(configured: Configured, leases: Leases, resource: string): set<string> {
    (if resource in configured then configured[resource] else {})
    + set id, s | id in leases && leases[id].resource == resource && s in leases[id].scopes :: s
  }

  function ReplaceConfigured(https: string -> bool, resources: seq<(string, seq<string>)>): Result<Configured> {
    if resources == [] then Ok(map[])
    else
      var last := resources[|resources| - 1];
      match ReplaceConfigured(https, resources[..|resources| - 1])
      case Err(e) => Err(e)
      case Ok(m) =>
        match (CanonicalResource(https, last.0), ValidatedScopes(last.1))
        case (Err(e), _) => Err(e)
        case (_, Err(e)) => Err(e)
        case (Ok(r), Ok(s)) => Ok(m[r := s])
  }

  // ---- Operations ---------------------------------------------------------------

  datatype Op =
    | Replace(resources: seq<(string, seq<string>)>)
    | Create(req: CreateRequest)
    | Renew(id: string, ttl: Ttl)
    | Release(id: string)
    | Lookup(resource: string)
    | Count
    | Diagnostics
    | Prune

  datatype Answer =
    | Done(result: Result<()>)
    | Leased(lease: Result<Lease>)
    | Scopes(scopes: Option<set<string>>)
    | Counted(n: nat)
    | Listed(rows: Leases)
    | Swept(n: nat)

  datatype State = State(configured: Configured, leases: Leases)

  /** Each operation over the leases it may look at. */
  function Act(https: string -> bool, s: State, op: Op, now: int): (State, Answer) {
    var live := Live(s.leases, now);
    match op
    case Replace(resources) =>
      (match ReplaceConfigured(https, resources)
       case Ok(m) => (s.(configured := m), Done(Ok(())))
       case Err(e) => (s, Done(Err(e))))
    case Create(req) =>
      (match NewLease(https, req, now)
       case Ok(l) => (s.(leases := s.leases[req.id := l]), Leased(Ok(Public(req.id, l))))
       case Err(e) => (s, Leased(Err(e))))
    case Renew(id, ttl) =>
      (match Deadline(ttl, now)
       case Err(e) => (s, Leased(Err(e)))
       case Ok(at) =>
         if id !in live then (s, Leased(Err(LeaseNotFound)))
         else (s.(leases := s.leases[id := live[id].(expiresAt := at)]),
             Leased(Ok(Public(id, live[id].(expiresAt := at))))))
    case Release(id) =>
      if now < 0 then (s, Done(Err(InvalidClock)))
      else if id !in live then (s, Done(Err(LeaseNotFound)))
      else (s.(leases := s.leases - {id}), Done(Ok(())))
    case Lookup(resource) =>
      (match CanonicalResource(https, resource)
       case Err(_) => (s, Scopes(None))
       case Ok(r) =>
         var scopes := Granted(s.configured, live, r);
         (s, Scopes(if now < 0 || scopes == {} then None else Some(scopes))))
    case Count => (s, Counted(if now < 0 then 0 else |live|))
    case Diagnostics => (s, Listed(if now < 0 then map[] else live))
    case Prune => (s, Swept(0))
  }

  /** Whether the program reaches `prune_locked` in this call. */
  predicate Prunes(https: string -> bool, op: Op, now: int) {
    match op
    case Replace(_) => false
    case Create(req) => NewLease(https, req, now).Ok?
    case Renew(_, ttl) => Deadline(ttl, now).Ok?
    case Lookup(resource) => now >= 0 && CanonicalResource(https, resource).Ok?
    case _ => now >= 0
  }

  /** The program: prune, then act on what is left. */
  function Eager(https: string -> bool, s: State, op: Op, now: int): (State, Answer) {
    if !Prunes(https, op, now) then Act(https, s, op, now)
    else
      var pruned := s.(leases := Live(s.leases, now));
      if op.Prune? then FewerElements(Live(s.leases, now).Keys, s.leases.Keys);
          (pruned, Swept(|s.leases| - |pruned.leases|))
      else Act(https, pruned, op, now)
  }

  function AsSet(r: Option<seq<string>>): Option<set<string>> {
    if r.Some? then Some(set s | s in r.value) else None
  }

  /** The elements of a `BTreeSet` in order; there is only one such list. */
  method Ascending(scopes: set<string>) returns (list: seq<string>)
    ensures StrictlySorted(list) && scopes == set s | s in list
  {
    list := [];
    var todo := scopes;
    while todo != {}
      invariant todo <= scopes && StrictlySorted(list) && forall s :: s in list <==> s in scopes - todo
      decreases todo
    {
      var s :| s in todo;
      InsertStrict(s, list);
      forall y ensures y in Insert(s, list) <==> y == s || y in list {
        InsertMembers(s, list, y);
      }
      list := Insert(s, list);
      todo := todo - {s};
    }
  }

  /** Every entry in canonical form, or the error of the first one that has none. */
  method AllCanonical(https: string -> bool, resources: seq<(string, seq<string>)>) returns (r: Result<Configured>)
    ensures r == ReplaceConfigured(https, resources)
  {
    var next: Configured := map[];
    for i := 0 to |resources|
      invariant ReplaceConfigured(https, resources[..i]) == Ok(next)
    {
      var (resource, scopes) := resources[i];
      assert resources[..i + 1][..i] == resources[..i];
      match (CanonicalResource(https, resource), ValidatedScopes(scopes)) {
        case (Ok(c), Ok(s)) => next := next[c := s];
        case (Err(e), _) =>
          StaysInvalid(https, resources, i + 1, e);
          return Err(e);
        case (_, Err(e)) =>
          StaysInvalid(https, resources, i + 1, e);
          return Err(e);
      }
    }
    assert resources[..|resources|] == resources;
    r := Ok(next);
  }

  /** The scopes of a resource, lease by lease. */
  method Collected(configured: Configured, leases: Leases, resource: string) returns (scopes: set<string>)
    ensures scopes == Granted(configured, leases, resource)
  {
    scopes := if resource in configured then configured[resource] else {};
    var todo := leases.Keys;
    ghost var done: Leases := map[];
    while todo != {}
      invariant todo <= leases.Keys && done == map id | id in leases && id !in todo :: leases[id]
      invariant scopes == Granted(configured, done, resource)
      decreases todo
    {
      var id :| id in todo;
      GrantedMore(configured, done, resource, id, leases[id]);
      done := done[id := leases[id]];
      if leases[id].resource == resource {
        scopes := scopes + leases[id].scopes;
      }
      todo := todo - {id};
    }
    assert done == leases;
  }

  lemma GrantedMore(configured: Configured, leases: Leases, resource: string, id: string, l: StoredLease)
    requires id !in leases
    ensures Granted(configured, leases[id := l], resource) ==
            Granted(configured, leases, resource) + if l.resource == resource then l.scopes else {}
  {
    var more := leases[id := l];
    forall s | s in Granted(configured, leases, resource) ensures s in Granted(configured, more, resource) {
      if i :| i in leases && leases[i].resource == resource && s in leases[i].scopes {
        assert more[i] == leases[i];
      }
    }
    if l.resource == resource {
      assert more[id] == l;
    }
  }

  // ---- The registry object -----------------------------------------------------

  class Registry {
    const https: string -> bool
    var configured: Configured
    var leases: Leases

    ghost function View(): State
      reads this
    {
      State(configured, leases)
    }

    constructor (https: string -> bool)
      ensures View() == State(map[], map[]) && this.https == https
    {
      this.https, configured, leases := https, map[], map[];
    }

    method PruneLocked(now: nat)
      modifies this`leases
      ensures leases == Live(old(leases), now)
    {
      leases := map id | id in leases && leases[id].expiresAt > now :: leases[id];
    }

    method ReplaceConfiguredResourceScopes(resources: seq<(string, seq<string>)>) returns (r: Result<()>)
      modifies this
      ensures forall now :: (View(), Done(r)) == Eager(https, old(View()), Replace(resources), now)
    {
      var next := AllCanonical(https, resources);
      match next
      case Err(e) => r := Err(e);
      case Ok(configured') =>
        configured := configured';
        r := Ok(());
    }

    method CreateResourceLeaseAt(req: CreateRequest, now: int) returns (r: Result<Lease>)
      modifies this
      ensures (View(), Leased(r)) == Eager(https, old(View()), Create(req), now)
    {
      match NewLease(https, req, now)
      case Err(e) => r := Err(e);
      case Ok(stored) =>
        PruneLocked(now);
        leases := leases[req.id := stored];
        r := Ok(Public(req.id, stored));
    }

    method RenewResourceLeaseAt(id: string, ttl: Ttl, now: int) returns (r: Result<Lease>)
      modifies this
      ensures (View(), Leased(r)) == Eager(https, old(View()), Renew(id, ttl), now)
    {
      match Deadline(ttl, now)
      case Err(e) => r := Err(e);
      case Ok(at) =>
        PruneLocked(now);
        LiveTwice(old(leases), now);
        if id !in leases {
          return Err(LeaseNotFound);
        }
        var renewed := leases[id].(expiresAt := at);
        leases := leases[id := renewed];
        r := Ok(Public(id, renewed));
    }

    method ReleaseResourceLease(id: string, now: int) returns (r: Result<()>)
      modifies this
      ensures (View(), Done(r)) == Eager(https, old(View()), Release(id), now)
    {
      if now < 0 {
        return Err(InvalidClock);
      }
      PruneLocked(now);
      LiveTwice(old(leases), now);
      if id !in leases {
        return Err(LeaseNotFound);
      }
      leases := leases - {id};
      r := Ok(());
    }

    method PruneExpiredResourceLeases(now: int) returns (n: nat)
      modifies this
      ensures now >= 0 ==> (View(), Swept(n)) == Eager(https, old(View()), Op.Prune, now)
      ensures now < 0 ==> View() == old(View()) && n == 0
    {
      if now < 0 {
        return 0;
      }
      var before := |leases|;
      FewerElements(Live(leases, now).Keys, leases.Keys);
      PruneLocked(now);
      n := before - |leases|;
    }

    method EffectiveResourceScopesAt(resource: string, now: int) returns (r: Option<seq<string>>)
      modifies this
      ensures (View(), Scopes(AsSet(r))) == Eager(https, old(View()), Lookup(resource), now)
      ensures r.Some? ==> StrictlySorted(r.value)
    {
      var canonical := CanonicalResource(https, resource);
      if canonical.Err? || now < 0 {
        return None;
      }
      PruneLocked(now);
      LiveTwice(old(leases), now);
      var scopes := Collected(configured, leases, canonical.value);
      if scopes == {} {
        return None;
      }
      var list := Ascending(scopes);
      r := Some(list);
    }

    method LeaseCount(now: int) returns (n: nat)
      modifies this
      ensures (View(), Counted(n)) == Eager(https, old(View()), Count, now)
    {
      if now < 0 {
        return 0;
      }
      PruneLocked(now);
      LiveTwice(old(leases), now);
      n := |leases|;
    }
  }

  lemma {:induction false} StaysInvalid(https: string -> bool, resources: seq<(string, seq<string>)>, n: nat, e: Error)
    requires n <= |resources| && ReplaceConfigured(https, resources[..n]) == Err(e)
    ensures ReplaceConfigured(https, resources) == Err(e)
    decreases |resources| - n
  {
    if n == |resources| {
      assert resources[..n] == resources;
    } else {
      assert resources[..n + 1][..n] == resources[..n];
      StaysInvalid(https, resources, n + 1, e);
    }
  }

  lemma LiveTwice(leases: Leases, now: int)
    ensures Live(Live(leases, now), now) == Live(leases, now)
  {
  }

  // ---- Whole runs ---------------------------------------------------------------

  datatype Call = Call(op: Op, now: int)

  ghost predicate Chronological(calls: seq<Call>) {
    forall i, j :: 0 <= i < j < |calls| ==> calls[i].now <= calls[j].now
  }

  function Step(https: string -> bool, eager: bool, s: State, c: Call): (State, Answer) {
    if eager then Eager(https, s, c.op, c.now) else Act(https, s, c.op, c.now)
  }

  /** State after a run, pruning or not. */
  function After(https: string -> bool, eager: bool, calls: seq<Call>): State {
    if calls == [] then State(map[], map[])
    else Step(https, eager, After(https, eager, calls[..|calls| - 1]), calls[|calls| - 1]).0
  }

  function AnswerOf(https: string -> bool, eager: bool, calls: seq<Call>, i: nat): Answer
    requires i < |calls|
  {
    Step(https, eager, After(https, eager, calls[..i]), calls[i]).1
  }

  lemma AfterSnoc(https: string -> bool, eager: bool, calls: seq<Call>, n: nat)
    requires n < |calls|
    ensures After(https, eager, calls[..n + 1]) == Step(https, eager, After(https, eager, calls[..n]), calls[n]).0
  {
    assert calls[..n + 1][..n] == calls[..n];
  }

  /** What the program holds is the reference minus leases already expired at `now`. */
  ghost predicate Refines(s: State, ref: State, now: int) {
    && s.configured == ref.configured
    && (forall id :: id in s.leases ==> id in ref.leases && s.leases[id] == ref.leases[id])
    && (forall id :: id in ref.leases && id !in s.leases ==> ref.leases[id].expiresAt <= now)
  }

  lemma RefinesLive(s: State, ref: State, last: int, now: int)
    requires Refines(s, ref, last) && last <= now
    ensures Live(s.leases, now) == Live(ref.leases, now)
    ensures Refines(s.(leases := Live(s.leases, now)), ref, now)
  {
  }

  lemma ActRefines(https: string -> bool, s: State, ref: State, op: Op, now: int)
    requires Refines(s, ref, now)
    ensures Act(https, s, op, now).1 == Act(https, ref, op, now).1
    ensures Refines(Act(https, s, op, now).0, Act(https, ref, op, now).0, now)
  {
    RefinesLive(s, ref, now, now);
  }

  lemma StepRefines(https: string -> bool, s: State, ref: State, c: Call)
    requires Refines(s, ref, c.now)
    ensures Refines(Step(https, true, s, c).0, Step(https, false, ref, c).0, c.now)
    ensures !c.op.Prune? ==> Step(https, true, s, c).1 == Step(https, false, ref, c).1
  {
    if Prunes(https, c.op, c.now) {
      RefinesLive(s, ref, c.now, c.now);
      ActRefines(https, s.(leases := Live(s.leases, c.now)), ref, c.op, c.now);
    } else {
      ActRefines(https, s, ref, c.op, c.now);
    }
  }

  /** In every run under a clock that never goes back, pruning changes no answer but the sweep count. */
  lemma {:induction false} PruningUnnoticed(https: string -> bool, calls: seq<Call>, n: nat, now: int)
    requires Chronological(calls) && n <= |calls|
    requires forall i :: 0 <= i < n ==> calls[i].now <= now
    ensures Refines(After(https, true, calls[..n]), After(https, false, calls[..n]), now)
    ensures forall i :: 0 <= i < n && !calls[i].op.Prune? ==>
              AnswerOf(https, true, calls, i) == AnswerOf(https, false, calls, i)
    decreases n
  {
    if n > 0 {
      PruningUnnoticed(https, calls, n - 1, calls[n - 1].now);
      AfterSnoc(https, true, calls, n - 1);
      AfterSnoc(https, false, calls, n - 1);
      StepRefines(https, After(https, true, calls[..n - 1]), After(https, false, calls[..n - 1]), calls[n - 1]);
    }
  }

  /** No lease outlives the last observed clock by more than a day. */
  lemma {:induction false} ExpiryBounded(https: string -> bool, eager: bool, calls: seq<Call>, now: int, id: string)
    requires forall i :: 0 <= i < |calls| ==> calls[i].now <= now
    requires id in After(https, eager, calls).leases
    ensures After(https, eager, calls).leases[id].expiresAt <= now + MAX_TTL
    decreases |calls|
  {
    if calls != [] {
      var before := After(https, eager, calls[..|calls| - 1]);
      StepBounded(https, eager, before, calls[|calls| - 1], id);
      if id in before.leases {
        ExpiryBounded(https, eager, calls[..|calls| - 1], now, id);
      }
    }
  }

  lemma StepBounded(https: string -> bool, eager: bool, s: State, c: Call, id: string)
    requires id in Step(https, eager, s, c).0.leases
    ensures var l := Step(https, eager, s, c).0.leases[id];
            (id in s.leases && l.expiresAt == s.leases[id].expiresAt) || l.expiresAt <= c.now + MAX_TTL
  {
  }

  lemma ActKeepsExpired(https: string -> bool, s: State, c: Call, id: string, later: int)
    requires id !in Live(s.leases, c.now) && c.now <= later
    requires c.op.Create? ==> c.op.req.id != id
    ensures id !in Live(Step(https, false, s, c).0.leases, later)
  {
  }

  lemma RenewOfExpiredFails(https: string -> bool, s: State, c: Call)
    requires c.op.Renew? && c.op.id !in Live(s.leases, c.now)
    ensures Step(https, false, s, c).1.lease.Err?
  {
  }

  /** No call in this stretch creates a lease under the identifier. */
  ghost predicate NotCreated(calls: seq<Call>, id: string, m: nat, n: nat)
    requires m <= n <= |calls|
  {
    forall i :: m <= i < n ==> calls[i].op.Create? ==> calls[i].op.req.id != id
  }

  /** The states a run goes through, one before each call and one after the last. */
  ghost predicate IsTrace(https: string -> bool, eager: bool, calls: seq<Call>, states: seq<State>) {
    |states| == |calls| + 1 && forall k :: 0 <= k < |calls| ==> Follows(https, eager, states, calls, k)
  }

  ghost predicate Follows(https: string -> bool, eager: bool, states: seq<State>, calls: seq<Call>, k: nat)
    requires k < |calls| && |states| == |calls| + 1
  {
    states[k + 1] == Step(https, eager, states[k], calls[k]).0
  }

  lemma TraceOf(https: string -> bool, eager: bool, calls: seq<Call>) returns (states: seq<State>)
    ensures IsTrace(https, eager, calls, states)
    ensures forall k :: 0 <= k <= |calls| ==> states[k] == After(https, eager, calls[..k])
  {
    states := seq(|calls| + 1, k requires 0 <= k <= |calls| => After(https, eager, calls[..k]));
    forall k | 0 <= k < |calls| ensures Follows(https, eager, states, calls, k) {
      AfterSnoc(https, eager, calls, k);
    }
  }

  ghost predicate GoneAt(s: State, id: string, now: int) {
    id !in Live(s.leases, now)
  }

  lemma {:induction false} ExpiredBefore(
    https: string -> bool, calls: seq<Call>, states: seq<State>, id: string, m: nat, n: nat)
    requires IsTrace(https, false, calls, states) && Chronological(calls) && m <= n < |calls|
    requires GoneAt(states[m], id, calls[m].now) && NotCreated(calls, id, m, n)
    ensures GoneAt(states[n], id, calls[n].now)
    decreases n
  {
    if m < n {
      ExpiredBefore(https, calls, states, id, m, n - 1);
      assert Follows(https, false, states, calls, n - 1);
      ActKeepsExpired(https, states[n - 1], calls[n - 1], id, calls[n].now);
    }
  }

  /** Once a lease is gone or expired no later call renews it; only a new lease can reuse its id. */
  lemma ExpiredStaysExpired(https: string -> bool, calls: seq<Call>, id: string, m: nat, n: nat)
    requires Chronological(calls) && m <= n < |calls|
    requires id !in Live(After(https, false, calls[..m]).leases, calls[m].now)
    requires NotCreated(calls, id, m, n)
    requires calls[n].op.Renew? && calls[n].op.id == id
    ensures AnswerOf(https, true, calls, n).lease.Err?
  {
    var states := TraceOf(https, false, calls);
    ExpiredBefore(https, calls, states, id, m, n);
    RenewOfExpiredFails(https, After(https, false, calls[..n]), calls[n]);
    PruningUnnoticed(https, calls, n + 1, calls[n].now);
    assert AnswerOf(https, true, calls, n) == AnswerOf(https, false, calls, n);
  }
}

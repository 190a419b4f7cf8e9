/**
 * The cap on pending OAuth states. The capacity check and the insert are two
 * steps, and the native result is inserted unchecked, so handlers in flight can
 * overshoot; the bound below holds in every run and is reached in some run.
 */
module PendingCapacity {
  import opened Basics
  import opened AuthStore
  import opened AuthProtocol

  /** A handler that may still insert a pending row. */
  predicate MayInsert(h: Handler) {
    h.Checked? || h.Called? || h.Exchanged? || h.CodeStored?
  }

  function Inserters(handlers: map<nat, Handler>): set<nat> {
    set p | p in handlers && MayInsert(handlers[p])
  }

  /** Live pending rows, and handlers that may still add one. */
  function Load(s: Sys): nat {
    Pending(s.db, s.now) + |Inserters(s.handlers)|
  }

  ghost predicate Bounded(cfg: Config, s: Sys) {
    |s.handlers| <= cfg.maxHandlers && (Load(s) == 0 || Load(s) + 1 <= cfg.maxPending + cfg.maxHandlers)
  }

  // ---- Counting ------------------------------------------------------------------------------

  lemma LiveAgesDown<T>(t: Table<T>, now: int, later: int)
    requires now <= later
    ensures |Live(t, later)| <= |Live(t, now)|
  {
    FewerElements(Live(t, later).Keys, Live(t, now).Keys);
  }

  lemma LiveWrite<T>(t: Table<T>, k: string, row: Row<T>, now: int)
    ensures |Live(t[k := row], now)| <= |Live(t, now)| + 1
  {
    FewerElements(Live(t[k := row], now).Keys, Live(t, now).Keys + {k});
  }

  lemma LiveInserted<T>(t: Table<T>, k: string, row: Row<T>, now: int)
    ensures |Live(Insert(t, k, row).0, now)| <= |Live(t, now)| + 1
  {
    LiveWrite(t, k, row, now);
  }

  lemma PendingAfterRequest(db: Db, k: string, row: Row<AuthRequest>, now: int)
    ensures Pending(db.(requests := Insert(db.requests, k, row).0), now) <= Pending(db, now) + 1
  {
    LiveInserted(db.requests, k, row, now);
  }

  lemma PendingAfterLogin(db: Db, k: string, row: Row<LoginState>, now: int)
    ensures Pending(db.(logins := Insert(db.logins, k, row).0), now) <= Pending(db, now) + 1
  {
    LiveInserted(db.logins, k, row, now);
  }

  lemma PendingAfterNative(db: Db, k: string, row: Row<string>, now: int)
    ensures Pending(db.(natives := db.natives[k := row]), now) <= Pending(db, now) + 1
  {
    LiveWrite(db.natives, k, row, now);
  }

  lemma LiveTaken<T>(t: Table<T>, k: string, now: int)
    ensures |Live(Take(t, k, now).0, now)| == |Live(t, now)| - if Take(t, k, now).1.Some? then 1 else 0
  {
    if Take(t, k, now).1.Some? {
      assert Live(t - {k}, now).Keys == Live(t, now).Keys - {k};
    }
  }

  lemma LiveSwept<T>(t: Table<T>, now: int)
    ensures Live(Live(t, now), now) == Live(t, now)
  {
  }

  lemma HandlerLeaves(handlers: map<nat, Handler>, p: nat)
    requires p in handlers
    ensures |handlers - {p}| == |handlers| - 1
    ensures |Inserters(handlers - {p})| == |Inserters(handlers)| - if MayInsert(handlers[p]) then 1 else 0
  {
    assert (handlers - {p}).Keys == handlers.Keys - {p};
    assert Inserters(handlers - {p}) == Inserters(handlers) - {p};
  }

  lemma HandlerEnters(handlers: map<nat, Handler>, p: nat, h: Handler)
    requires p !in handlers
    ensures |handlers[p := h]| == |handlers| + 1
    ensures |Inserters(handlers[p := h])| == |Inserters(handlers)| + if MayInsert(h) then 1 else 0
  {
    var after := handlers[p := h];
    assert after.Keys == handlers.Keys + {p};
    assert after - {p} == handlers;
    HandlerLeaves(after, p);
  }

  lemma HandlerMoves(handlers: map<nat, Handler>, p: nat, h: Handler)
    requires p in handlers && MayInsert(h) == MayInsert(handlers[p])
    ensures |handlers[p := h]| == |handlers| && Inserters(handlers[p := h]) == Inserters(handlers)
  {
    assert handlers[p := h].Keys == handlers.Keys;
  }

  // ---- No step but the check adds load -------------------------------------------------------

  ghost predicate NoHeavier(cfg: Config, s: Sys, s': Sys) {
    Load(s') <= Load(s) && (|s'.handlers| <= |s.handlers| || |s'.handlers| <= cfg.maxHandlers)
  }

  /** One row more and one inserter less. */
  lemma Balances(cfg: Config, s: Sys, s': Sys, pid: nat)
    requires pid in s.handlers && MayInsert(s.handlers[pid]) && s'.handlers == s.handlers - {pid}
    requires Pending(s'.db, s'.now) <= Pending(s.db, s.now) + 1
    ensures NoHeavier(cfg, s, s')
  {
    HandlerLeaves(s.handlers, pid);
  }

  lemma InsertBalances(cfg: Config, s: Sys, s': Sys, db: Db, pid: nat)
    requires pid in s.handlers && MayInsert(s.handlers[pid]) && s'.handlers == s.handlers - {pid}
    requires s'.db == db && s'.now == s.now && Pending(db, s.now) <= Pending(s.db, s.now) + 1
    ensures NoHeavier(cfg, s, s')
  {
    Balances(cfg, s, s', pid);
  }

  lemma RequestNoHeavier(cfg: Config, s: Sys, pid: nat, key: string, request: AuthRequest)
    requires pid in s.handlers && s.handlers[pid].Checked?
    ensures NoHeavier(cfg, s, WithRequest(s, pid, key, request))
  {
    var row := Row(request, s.now + REQUEST_TTL);
    PendingAfterRequest(s.db, key, row, s.now);
    InsertBalances(cfg, s, WithRequest(s, pid, key, request), s.db.(requests := Insert(s.db.requests, key, row).0),
        pid);
  }

  lemma LoginNoHeavier(cfg: Config, s: Sys, pid: nat, key: string, login: LoginState)
    requires pid in s.handlers && s.handlers[pid].Checked?
    ensures NoHeavier(cfg, s, WithLogin(s, pid, key, login))
  {
    var row := Row(login, s.now + REQUEST_TTL);
    PendingAfterLogin(s.db, key, row, s.now);
    InsertBalances(cfg, s, WithLogin(s, pid, key, login), s.db.(logins := Insert(s.db.logins, key, row).0), pid);
  }

  /** A callback trades the row it takes for the right to insert a native result later. */
  lemma CallNoHeavier(cfg: Config, s: Sys, pid: nat, key: string)
    requires Startable(cfg, s, pid) && Take(s.db.requests, key, s.now).1.Some?
    ensures NoHeavier(cfg, s, WithCall(s, pid, key))
  {
    LiveTaken(s.db.requests, key, s.now);
    HandlerEnters(s.handlers, pid, Called(key, Take(s.db.requests, key, s.now).1.value));
  }

  lemma NativeNoHeavier(cfg: Config, s: Sys, pid: nat)
    requires pid in s.handlers && s.handlers[pid].CodeStored?
    ensures NoHeavier(cfg, s, WithNative(cfg, s, pid))
  {
    var h := s.handlers[pid];
    PendingAfterNative(s.db, h.clientState, Row(h.code, s.now + cfg.codeTtl), s.now);
    Balances(cfg, s, WithNative(cfg, s, pid), pid);
  }

  lemma CodeNoHeavier(cfg: Config, s: Sys, pid: nat, key: string)
    requires pid in s.handlers && s.handlers[pid].Exchanged?
    ensures NoHeavier(cfg, s, WithCode(cfg, s, pid, key))
  {
    HandlerLeaves(s.handlers, pid);
    HandlerMoves(s.handlers, pid, CodeStored(s.handlers[pid].request.clientState, key));
  }

  predicate OnPendingRows(a: Action) {
    a.InsertRequest? || a.InsertLogin? || a.TakeRequest? || a.InsertNative? || a.InsertCode?
  }

  lemma PendingRowsNoHeavier(cfg: Config, s: Sys, a: Action)
    requires Can(cfg, s, a) && OnPendingRows(a)
    ensures NoHeavier(cfg, s, Next(cfg, s, a))
  {
    match a
    case InsertRequest(pid, key, request) => RequestNoHeavier(cfg, s, pid, key, request);
    case InsertLogin(pid, key, login) => LoginNoHeavier(cfg, s, pid, key, login);
    case TakeRequest(pid, key) => CallNoHeavier(cfg, s, pid, key);
    case InsertNative(pid) => NativeNoHeavier(cfg, s, pid);
    case InsertCode(pid, key) => CodeNoHeavier(cfg, s, pid, key);
  }

  predicate WithoutHandler(a: Action) {
    a.Tick? || a.TakeLogin? || a.PollNative? || a.Invalidate? || a.Revoke? || a.Cleanup?
  }

  lemma PendingAges(db: Db, now: int, later: int)
    requires now <= later
    ensures Pending(db, later) <= Pending(db, now)
  {
    LiveAgesDown(db.requests, now, later);
    LiveAgesDown(db.logins, now, later);
    LiveAgesDown(db.natives, now, later);
  }

  lemma PendingTaken(db: Db, key: string, now: int)
    ensures Pending(db.(logins := Take(db.logins, key, now).0), now) <= Pending(db, now)
    ensures Pending(db.(natives := Take(db.natives, key, now).0), now) <= Pending(db, now)
  {
    LiveTaken(db.logins, key, now);
    LiveTaken(db.natives, key, now);
  }

  lemma PendingSwept(db: Db, now: int)
    ensures Pending(Swept(db, now), now) == Pending(db, now)
  {
    LiveSwept(db.requests, now);
    LiveSwept(db.logins, now);
    LiveSwept(db.natives, now);
  }

  /** Nothing pending changes and the handlers get no more, or start in a free slot without a claim to insert. */
  lemma HandlersNoHeavier(cfg: Config, s: Sys, s': Sys)
    requires s'.now == s.now && s'.db.requests == s.db.requests && s'.db.logins == s.db.logins
             && s'.db.natives == s.db.natives
    requires |Inserters(s'.handlers)| <= |Inserters(s.handlers)|
    requires |s'.handlers| <= |s.handlers| || |s'.handlers| <= cfg.maxHandlers
    ensures NoHeavier(cfg, s, s')
  {
  }

  lemma RowsNoHeavier(cfg: Config, s: Sys, db: Db, now: int)
    requires Pending(db, now) <= Pending(s.db, s.now)
    ensures NoHeavier(cfg, s, s.(db := db, now := now))
  {
  }

  lemma TimeNoHeavier(cfg: Config, s: Sys, secs: nat)
    ensures NoHeavier(cfg, s, s.(now := s.now + secs)) && NoHeavier(cfg, s, s.(db := Swept(s.db, s.now)))
  {
    PendingAges(s.db, s.now, s.now + secs);
    RowsNoHeavier(cfg, s, s.db, s.now + secs);
    PendingSwept(s.db, s.now);
    RowsNoHeavier(cfg, s, Swept(s.db, s.now), s.now);
  }

  lemma TakingNoHeavier(cfg: Config, s: Sys, key: string)
    ensures NoHeavier(cfg, s, s.(db := s.db.(logins := Take(s.db.logins, key, s.now).0)))
    ensures NoHeavier(cfg, s, s.(db := s.db.(natives := Take(s.db.natives, key, s.now).0)))
  {
    PendingTaken(s.db, key, s.now);
    RowsNoHeavier(cfg, s, s.db.(logins := Take(s.db.logins, key, s.now).0), s.now);
    RowsNoHeavier(cfg, s, s.db.(natives := Take(s.db.natives, key, s.now).0), s.now);
  }

  lemma InvalidatingNoHeavier(cfg: Config, s: Sys, subject: string, generation: nat)
    ensures NoHeavier(cfg, s, s.(db := InvalidateCredential(s.db, subject, generation).0))
  {
    RowsNoHeavier(cfg, s, InvalidateCredential(s.db, subject, generation).0, s.now);
  }

  lemma RevokingNoHeavier(cfg: Config, s: Sys, refresh: Table<RefreshRow>)
    ensures NoHeavier(cfg, s, s.(db := s.db.(refresh := refresh)))
  {
    RowsNoHeavier(cfg, s, s.db.(refresh := refresh), s.now);
  }

  lemma TakesNoHeavier(cfg: Config, s: Sys, a: Action)
    requires Can(cfg, s, a) && (a.TakeLogin? || a.PollNative?)
    ensures NoHeavier(cfg, s, Next(cfg, s, a))
  {
    TakingNoHeavier(cfg, s, a.key);
  }

  lemma SweepsNoHeavier(cfg: Config, s: Sys, a: Action)
    requires Can(cfg, s, a) && (a.Tick? || a.Cleanup?)
    ensures NoHeavier(cfg, s, Next(cfg, s, a))
  {
    TimeNoHeavier(cfg, s, if a.Tick? then a.secs else 0);
  }

  lemma OthersNoHeavier(cfg: Config, s: Sys, a: Action)
    requires Can(cfg, s, a) && WithoutHandler(a)
    ensures NoHeavier(cfg, s, Next(cfg, s, a))
  {
    if a.TakeLogin? || a.PollNative? {
      TakesNoHeavier(cfg, s, a);
    } else if a.Tick? || a.Cleanup? {
      SweepsNoHeavier(cfg, s, a);
    } else if a.Invalidate? {
      InvalidatingNoHeavier(cfg, s, a.subject, a.generation);
    } else {
      RevokingNoHeavier(cfg, s, s.db.refresh - {a.key});
    }
  }

  predicate Starting(a: Action) { a.Redeem? || a.Claim? }

  lemma StartingNoHeavier(cfg: Config, s: Sys, a: Action)
    requires Can(cfg, s, a) && Starting(a)
    ensures NoHeavier(cfg, s, Next(cfg, s, a))
  {
    match a
    case Redeem(pid, key, shown) =>
      HandlerEnters(s.handlers, pid, Redeemed(key, Take(s.db.codes, key, s.now).1.value, shown));
      HandlersNoHeavier(cfg, s, Next(cfg, s, a));
    case Claim(pid, key, claim, clientId, requested) =>
      HandlerEnters(s.handlers, pid,
          Claimed(key, claim.id, ClaimToken(s.db.refresh, key, claim, s.now).1.value, clientId, requested));
      HandlersNoHeavier(cfg, s, Next(cfg, s, a));
  }

  predicate Moving(a: Action) {
    a.Exchange? || a.CheckCredential? || a.StoreRefresh? || a.Look? || a.Renew? || a.Condemn?
  }

  lemma MovingNoHeavier(cfg: Config, s: Sys, a: Action)
    requires Can(cfg, s, a) && Moving(a)
    ensures NoHeavier(cfg, s, Next(cfg, s, a))
  {
    HandlerMoves(s.handlers, a.pid, Next(cfg, s, a).handlers[a.pid]);
    HandlersNoHeavier(cfg, s, Next(cfg, s, a));
  }

  lemma LeavingNoHeavier(cfg: Config, s: Sys, a: Action)
    requires Can(cfg, s, a) && (a.GiveUp? || a.RespondCode? || a.Rotate? || a.Release?)
    ensures NoHeavier(cfg, s, Next(cfg, s, a))
  {
    HandlerLeaves(s.handlers, a.pid);
    HandlersNoHeavier(cfg, s, Next(cfg, s, a));
  }

  lemma BoundedStep(cfg: Config, s: Sys, a: Action)
    requires Can(cfg, s, a) && Bounded(cfg, s)
    ensures Bounded(cfg, Next(cfg, s, a))
  {
    if a.CheckCapacity? {
      HandlerEnters(s.handlers, a.pid, Checked);
      var after := s.handlers[a.pid := Checked];
      FewerElements(Inserters(after), after.Keys);
    } else {
      if OnPendingRows(a) {
        PendingRowsNoHeavier(cfg, s, a);
      } else if WithoutHandler(a) {
        OthersNoHeavier(cfg, s, a);
      } else if Starting(a) {
        StartingNoHeavier(cfg, s, a);
      } else if Moving(a) {
        MovingNoHeavier(cfg, s, a);
      } else {
        LeavingNoHeavier(cfg, s, a);
      }
    }
  }

  lemma {:induction false} RunBounded(cfg: Config, actions: seq<Action>)
    requires Run(cfg, actions).Some?
    ensures Bounded(cfg, Run(cfg, actions).value)
    decreases |actions|
  {
    if actions != [] {
      RunBounded(cfg, actions[..|actions| - 1]);
      BoundedStep(cfg, Run(cfg, actions[..|actions| - 1]).value, actions[|actions| - 1]);
    }
  }

  /** A new flow is admitted if and only if a slot is free and fewer rows are pending than the cap. */
  lemma CapacityExactly(cfg: Config, s: Sys, pid: nat)
    ensures Can(cfg, s, CheckCapacity(pid)) <==>
            pid !in s.handlers && |s.handlers| < cfg.maxHandlers && |PendingRows(s.db, s.now)| < cfg.maxPending
  {
    PendingExactly(s.db, s.now);
  }

  /**
   * In every interleaving of at most N handlers the pending rows of all three tables,
   * and the handlers that may still add one, stay below the cap plus N.
   */
  lemma PendingBound(cfg: Config, actions: seq<Action>)
    requires Run(cfg, actions).Some?
    ensures var s := Run(cfg, actions).value;
            var rows, waiting := |PendingRows(s.db, s.now)|, |Inserters(s.handlers)|;
            && (rows + waiting == 0 || rows + waiting <= cfg.maxPending - 1 + cfg.maxHandlers)
            && (cfg.maxHandlers == 1 ==> rows <= cfg.maxPending)
  {
    RunBounded(cfg, actions);
    PendingExactly(Run(cfg, actions).value.db, Run(cfg, actions).value.now);
  }

  // ---- The bound is reached --------------------------------------------------------------------

  const VISIT := LoginState("/", "v")

  /** The n-th identifier drawn. */
  function Key(n: nat): string {
    if n == 0 then "" else Key(n - 1) + "x"
  }

  function Logins(n: nat): Table<LoginState> {
    if n == 0 then map[] else Logins(n - 1)[Key(n - 1) := Row(VISIT, REQUEST_TTL)]
  }

  function Checks(k: nat): map<nat, Handler> {
    if k == 0 then map[] else Checks(k - 1)[k - 1 := Checked]
  }

  lemma {:induction false} LoginsCount(n: nat)
    ensures |Key(n)| == n && |Logins(n)| == n
    ensures forall key :: key in Logins(n) ==> |key| < n && Logins(n)[key] == Row(VISIT, REQUEST_TTL)
    decreases n
  {
    if n > 0 {
      LoginsCount(n - 1);
      assert Logins(n).Keys == Logins(n - 1).Keys + {Key(n - 1)};
    }
  }

  lemma {:induction false} ChecksCount(k: nat)
    ensures |Checks(k)| == k && (forall p :: p in Checks(k) ==> p < k)
    decreases k
  {
    if k > 0 {
      ChecksCount(k - 1);
      assert Checks(k).Keys == Checks(k - 1).Keys + {k - 1};
    }
  }

  /** `n` logins pending, and `k` handlers past their capacity check. */
  function Flooded(n: nat, k: nat): Sys {
    Sys(0, EMPTY.(logins := Logins(n)), Checks(k), Logins(n).Keys, INITIAL.hist)
  }

  lemma FloodedPending(n: nat, k: nat)
    ensures Pending(Flooded(n, k).db, 0) == n
  {
    LoginsCount(n);
    assert Live(Logins(n), 0) == Logins(n);
  }

  lemma FloodedRows(n: nat)
    ensures var s := Flooded(n, 0); |PendingRows(s.db, s.now)| == n
  {
    FloodedPending(n, 0);
    PendingExactly(Flooded(n, 0).db, 0);
  }

  lemma FloodCheck(cfg: Config, n: nat, k: nat)
    requires n < cfg.maxPending && k < cfg.maxHandlers && Reaches(cfg, Flooded(n, k))
    ensures Reaches(cfg, Flooded(n, k + 1))
  {
    FloodedPending(n, k);
    ChecksCount(k);
    ReachesNext(cfg, Flooded(n, k), CheckCapacity(k));
  }

  lemma FloodedLogin(n: nat, k: nat)
    requires k > 0
    ensures Key(n) !in Logins(n) && k - 1 in Checks(k) && Checks(k)[k - 1] == Checked
    ensures WithLogin(Flooded(n, k), k - 1, Key(n), VISIT) == Flooded(n + 1, k - 1)
  {
    LoginsCount(n);
    ChecksCount(k - 1);
    assert Checks(k) - {k - 1} == Checks(k - 1);
    assert Logins(n).Keys + {Key(n)} == Logins(n + 1).Keys;
  }

  lemma FloodInsert(cfg: Config, n: nat, k: nat)
    requires k > 0 && Reaches(cfg, Flooded(n, k))
    ensures Reaches(cfg, Flooded(n + 1, k - 1))
  {
    FloodedLogin(n, k);
    ReachesNext(cfg, Flooded(n, k), Action.InsertLogin(k - 1, Key(n), VISIT));
  }

  /** One at a time up to one below the cap. */
  lemma {:induction false} FloodOneByOne(cfg: Config, n: nat)
    requires n < cfg.maxPending && cfg.maxHandlers >= 1
    ensures Reaches(cfg, Flooded(n, 0))
    decreases n
  {
    if n == 0 {
      assert Logins(0).Keys == {};
      assert Run(cfg, []) == Some(INITIAL);
      assert Flooded(0, 0) == INITIAL;
    } else {
      FloodOneByOne(cfg, n - 1);
      FloodCheck(cfg, n - 1, 0);
      FloodInsert(cfg, n - 1, 1);
    }
  }

  /** Then every handler checks before any of them inserts. */
  lemma {:induction false} FloodChecks(cfg: Config, n: nat, k: nat)
    requires n < cfg.maxPending && k <= cfg.maxHandlers && cfg.maxHandlers >= 1
    ensures Reaches(cfg, Flooded(n, k))
    decreases k
  {
    if k == 0 {
      FloodOneByOne(cfg, n);
    } else {
      FloodChecks(cfg, n, k - 1);
      FloodCheck(cfg, n, k - 1);
    }
  }

  lemma {:induction false} FloodInserts(cfg: Config, n: nat, k: nat)
    requires Reaches(cfg, Flooded(n, k))
    ensures Reaches(cfg, Flooded(n + k, 0))
    decreases k
  {
    if k > 0 {
      FloodInsert(cfg, n, k);
      FloodInserts(cfg, n + 1, k - 1);
    }
  }

  /** No smaller bound holds: some interleaving stores exactly that many rows. */
  lemma PendingBoundReached(cfg: Config)
    requires cfg.maxPending >= 1 && cfg.maxHandlers >= 1
    ensures exists s :: Reaches(cfg, s) && |PendingRows(s.db, s.now)| == cfg.maxPending - 1 + cfg.maxHandlers
  {
    var n := cfg.maxPending - 1;
    FloodChecks(cfg, n, cfg.maxHandlers);
    FloodInserts(cfg, n, cfg.maxHandlers);
    FloodedRows(n + cfg.maxHandlers);
  }
}

/**
 * Whole runs of the limiter: the bucket cap, the per-address rate bound, and
 * exactly when idle eviction cannot be noticed by any caller.
 */
module RateLimiterRuns {
  import opened Basics
  import opened RateLimiter

  datatype Request = Request(from: Address, at: nat)

  predicate NotAfter(reqs: seq<Request>, i: int, j: int)
    requires 0 <= i <= j < |reqs|
  {
    reqs[i].at <= reqs[j].at
  }

  ghost predicate Chronological(reqs: seq<Request>) {
    forall i, j :: 0 <= i <= j < |reqs| ==> NotAfter(reqs, i, j)
  }

  ghost predicate IsRun(cfg: Config, reqs: seq<Request>, tables: seq<Table>, answers: seq<bool>) {
    && |tables| == |reqs| + 1 && |answers| == |reqs| && tables[0] == map[]
    && forall i :: 0 <= i < |reqs| ==> Serves(cfg, tables[i], reqs[i].from, reqs[i].at, tables[i + 1], answers[i])
  }

  /** Idle expiry alone makes room for the request, if it needs any. */
  ghost predicate HasRoom(cfg: Config, t: Table, r: Request) {
    r.from !in t ==> |Retained(cfg, t, r.at / SECOND)| < cfg.maxBuckets
  }

  /** The LRU loop never has to remove anything, however many addresses come and go. */
  ghost predicate LruQuiet(cfg: Config, reqs: seq<Request>, tables: seq<Table>) {
    |tables| == |reqs| + 1 && forall i :: 0 <= i < |reqs| ==> HasRoom(cfg, tables[i], reqs[i])
  }

  // ---- The bucket map never outgrows its cap --------------------------------

  lemma ServesKeepsCap(cfg: Config, t: Table, a: Address, now: nat, t': Table, granted: bool)
    requires cfg.Valid() && |t| <= cfg.maxBuckets && Serves(cfg, t, a, now, t', granted)
    ensures |t'| <= cfg.maxBuckets
  {
    if a in t {
      assert t'.Keys == t.Keys;
    } else {
      var kept :| EvictsTo(cfg, t, now / SECOND, kept)
          && ServesFrom(cfg, kept, Fresh(cfg.rpm, now), a, now, t', granted);
      assert t'.Keys == kept.Keys + {a};
    }
  }

  /** In every run, under any address churn, at most `maxBuckets` entries are held. */
  lemma {:induction false} BucketsBounded(
    cfg: Config, reqs: seq<Request>, tables: seq<Table>, answers: seq<bool>, n: nat)
    requires cfg.Valid() && IsRun(cfg, reqs, tables, answers) && n < |tables|
    ensures |tables[n]| <= cfg.maxBuckets
    decreases n
  {
    if n > 0 {
      BucketsBounded(cfg, reqs, tables, answers, n - 1);
      ServesKeepsCap(cfg, tables[n - 1], reqs[n - 1].from, reqs[n - 1].at, tables[n], answers[n - 1]);
    }
  }

  // ---- ... and it is the least recently seen that go ----------------------------

  /** Every entry was last seen at the second of some request of its address. */
  ghost predicate EntriesSeen(reqs: seq<Request>, t: Table, n: nat)
    requires n <= |reqs|
  {
    forall x :: x in t ==> exists k :: 0 <= k < n && reqs[k].from == x && reqs[k].at / SECOND == t[x].lastSeen
  }

  lemma SeenStep(cfg: Config, reqs: seq<Request>, t: Table, n: nat, t': Table, granted: bool)
    requires n < |reqs| && EntriesSeen(reqs, t, n) && Serves(cfg, t, reqs[n].from, reqs[n].at, t', granted)
    ensures EntriesSeen(reqs, t', n + 1)
  {
    forall x | x in t'
      ensures exists k :: 0 <= k < n + 1 && reqs[k].from == x && reqs[k].at / SECOND == t'[x].lastSeen
    {
      if x == reqs[n].from {
        assert reqs[n].at / SECOND == t'[x].lastSeen;
      } else {
        assert x in t && t'[x] == t[x];
      }
    }
  }

  lemma {:induction false} RunSeen(
    cfg: Config, reqs: seq<Request>, tables: seq<Table>, answers: seq<bool>, n: nat)
    requires IsRun(cfg, reqs, tables, answers) && n <= |reqs|
    ensures EntriesSeen(reqs, tables[n], n)
    decreases n
  {
    if n > 0 {
      RunSeen(cfg, reqs, tables, answers, n - 1);
      SeenStep(cfg, reqs, tables[n - 1], n - 1, tables[n], answers[n - 1]);
    }
  }

  /** Addresses other than `a` seen at the given second or later. */
  ghost function Others(reqs: seq<Request>, a: Address, sec: nat, n: nat): set<Address>
    requires n <= |reqs|
  {
    set k | 0 <= k < n && reqs[k].from != a && reqs[k].at / SECOND >= sec :: reqs[k].from
  }

  /** Making room for another address removes `a` only if enough others were seen since. */
  lemma RecentSurvives(cfg: Config, reqs: seq<Request>, t: Table, n: nat, kept: Table, a: Address, sec: nat)
    requires n < |reqs| && EntriesSeen(reqs, t, n) && EvictsTo(cfg, t, reqs[n].at / SECOND, kept)
    requires a in t && t[a].lastSeen >= sec && reqs[n].from !in t && sec <= reqs[n].at / SECOND <= sec + cfg.idleTtl
    requires |Others(reqs, a, sec, n + 1)| < cfg.maxBuckets
    ensures a in kept
  {
    var live, b := Retained(cfg, t, reqs[n].at / SECOND), reqs[n].from;
    assert a in live;
    if a !in kept {
      forall x | x in kept.Keys + {b} ensures x in Others(reqs, a, sec, n + 1) {
        if x == b {
          assert reqs[n].from == b;
        } else {
          assert live[a].lastSeen <= kept[x].lastSeen;
          var k :| 0 <= k < n && reqs[k].from == x && reqs[k].at / SECOND == t[x].lastSeen;
        }
      }
      assert b !in kept;
      FewerElements(kept.Keys + {b}, Others(reqs, a, sec, n + 1));
    }
  }

  ghost predicate SeenSince(t: Table, a: Address, sec: nat) {
    a in t && t[a].lastSeen >= sec
  }

  lemma RecentStep(cfg: Config, reqs: seq<Request>, t: Table, n: nat, t': Table, granted: bool, a: Address, sec: nat)
    requires n < |reqs| && EntriesSeen(reqs, t, n) && Serves(cfg, t, reqs[n].from, reqs[n].at, t', granted)
    requires SeenSince(t, a, sec) && sec <= reqs[n].at / SECOND <= sec + cfg.idleTtl
    requires |Others(reqs, a, sec, n + 1)| < cfg.maxBuckets
    ensures SeenSince(t', a, sec)
  {
    var b, now := reqs[n].from, reqs[n].at;
    if b !in t {
      var kept :| EvictsTo(cfg, t, now / SECOND, kept)
          && ServesFrom(cfg, kept, Fresh(cfg.rpm, now), b, now, t', granted);
      RecentSurvives(cfg, reqs, t, n, kept, a, sec);
    }
  }

  lemma ServedIsSeen(cfg: Config, t: Table, a: Address, now: nat, t': Table, granted: bool)
    requires Serves(cfg, t, a, now, t', granted)
    ensures SeenSince(t', a, now / SECOND)
  {
  }

  lemma SecondsMonotone(x: nat, y: nat)
    requires x <= y
    ensures x / SECOND <= y / SECOND
  {
  }

  lemma OthersGrow(reqs: seq<Request>, a: Address, sec: nat, m: nat, n: nat)
    requires m <= n <= |reqs|
    ensures |Others(reqs, a, sec, m)| <= |Others(reqs, a, sec, n)|
  {
    FewerElements(Others(reqs, a, sec, m), Others(reqs, a, sec, n));
  }

  lemma RecentNext(
    cfg: Config, reqs: seq<Request>, tables: seq<Table>, answers: seq<bool>, a: Address, sec: nat, k: nat)
    requires IsRun(cfg, reqs, tables, answers) && k < |reqs| && SeenSince(tables[k], a, sec)
    requires sec <= reqs[k].at / SECOND <= sec + cfg.idleTtl && |Others(reqs, a, sec, k + 1)| < cfg.maxBuckets
    ensures SeenSince(tables[k + 1], a, sec)
  {
    RunSeen(cfg, reqs, tables, answers, k);
    RecentStep(cfg, reqs, tables[k], k, tables[k + 1], answers[k], a, sec);
  }

  /** Up to position `n` the address is not idle for too long and the others seen since fit. */
  ghost predicate Undisturbed(cfg: Config, reqs: seq<Request>, a: Address, sec: nat, n: nat) {
    0 < n <= |reqs| && reqs[n - 1].at / SECOND <= sec + cfg.idleTtl && |Others(reqs, a, sec, n)| < cfg.maxBuckets
  }

  lemma UndisturbedBefore(cfg: Config, reqs: seq<Request>, a: Address, sec: nat, m: nat, n: nat)
    requires Undisturbed(cfg, reqs, a, sec, n) && 0 < m <= n && reqs[m - 1].at <= reqs[n - 1].at
    ensures Undisturbed(cfg, reqs, a, sec, m)
  {
    SecondsMonotone(reqs[m - 1].at, reqs[n - 1].at);
    OthersGrow(reqs, a, sec, m, n);
  }

  lemma RecentFrom(
    cfg: Config, reqs: seq<Request>, tables: seq<Table>, answers: seq<bool>, a: Address, sec: nat, m: nat, n: nat)
    requires IsRun(cfg, reqs, tables, answers) && m <= n <= |reqs| && SeenSince(tables[m], a, sec)
    requires forall k :: m <= k < n ==> sec <= reqs[k].at / SECOND && Undisturbed(cfg, reqs, a, sec, k + 1)
    ensures SeenSince(tables[n], a, sec)
  {
    ghost var kept := (k: nat) => k < |tables| && SeenSince(tables[k], a, sec);
    forall k: nat | m <= k < n && kept(k) ensures kept(k + 1) {
      RecentNext(cfg, reqs, tables, answers, a, sec, k);
    }
    Carried(kept, m, n);
  }

  /** An address keeps its bucket until it is idle for too long or as many others as fit were seen since. */
  lemma RecentKept(cfg: Config, reqs: seq<Request>, tables: seq<Table>, answers: seq<bool>, i: nat, n: nat)
    requires Chronological(reqs) && IsRun(cfg, reqs, tables, answers) && i < n <= |reqs|
    requires Undisturbed(cfg, reqs, reqs[i].from, reqs[i].at / SECOND, n)
    ensures SeenSince(tables[n], reqs[i].from, reqs[i].at / SECOND)
  {
    var a, sec := reqs[i].from, reqs[i].at / SECOND;
    ServedIsSeen(cfg, tables[i], a, reqs[i].at, tables[i + 1], answers[i]);
    forall k | i + 1 <= k < n ensures sec <= reqs[k].at / SECOND && Undisturbed(cfg, reqs, a, sec, k + 1) {
      assert NotAfter(reqs, i, k) && NotAfter(reqs, k, n - 1);
      SecondsMonotone(reqs[i].at, reqs[k].at);
      UndisturbedBefore(cfg, reqs, a, sec, k + 1, n);
    }
    RecentFrom(cfg, reqs, tables, answers, a, sec, i + 1, n);
  }

  // ---- The reference: one bucket per address, for ever ----------------------

  function RefBucket(rpm: nat, m: map<Address, Bucket>, r: Request): Bucket {
    if r.from in m then m[r.from] else Fresh(rpm, r.at)
  }

  function RefTable(rpm: nat, reqs: seq<Request>): map<Address, Bucket> {
    if reqs == [] then map[]
    else
      var before, r := RefTable(rpm, reqs[..|reqs| - 1]), reqs[|reqs| - 1];
      before[r.from := Acquire(RefBucket(rpm, before, r), rpm, r.at).0]
  }

  function RefAnswer(rpm: nat, reqs: seq<Request>, i: nat): bool
    requires i < |reqs|
  {
    Acquire(RefBucket(rpm, RefTable(rpm, reqs[..i]), reqs[i]), rpm, reqs[i].at).1
  }

  function RefAnswers(rpm: nat, reqs: seq<Request>): (answers: seq<bool>)
    ensures |answers| == |reqs|
  {
    seq(|reqs|, i requires 0 <= i < |reqs| => RefAnswer(rpm, reqs, i))
  }

  lemma RefTableSnoc(rpm: nat, reqs: seq<Request>, n: nat)
    requires n < |reqs|
    ensures RefTable(rpm, reqs[..n + 1]) ==
            var before := RefTable(rpm, reqs[..n]);
            before[reqs[n].from := Acquire(RefBucket(rpm, before, reqs[n]), rpm, reqs[n].at).0]
  {
    assert reqs[..n + 1][..n] == reqs[..n];
  }

  // ---- The rate bound --------------------------------------------------------

  /** Requests of `a` among positions `lo .. hi` that were granted. */
  function Grants(reqs: seq<Request>, answers: seq<bool>, a: Address, lo: nat, hi: nat): nat
    requires lo <= hi <= |reqs| == |answers|
    decreases hi
  {
    if lo == hi then 0
    else Grants(reqs, answers, a, lo, hi - 1) + if reqs[hi - 1].from == a && answers[hi - 1] then 1 else 0
  }

  lemma AcquireSpends(b: Bucket, rpm: nat, now: nat, spent: nat, start: nat)
    requires start <= b.lastRefill <= now
    requires spent * MINUTE + b.tokens <= Burst(rpm) + rpm * (b.lastRefill - start)
    ensures var (next, ok) := Acquire(b, rpm, now);
            (spent + if ok then 1 else 0) * MINUTE + next.tokens <= Burst(rpm) + rpm * (now - start)
  {
    assert rpm * (now - start) == rpm * (b.lastRefill - start) + (now - b.lastRefill) * rpm;
  }

  /** `g` grants since `start` and the units left in `b` together fit a burst plus the refill. */
  ghost predicate Conserves(rpm: nat, m: map<Address, Bucket>, a: Address, g: nat, start: nat) {
    g > 0 ==>
      && a in m && start <= m[a].lastRefill
      && g * MINUTE + m[a].tokens <= Burst(rpm) + rpm * (m[a].lastRefill - start)
  }

  lemma MulMonotone(k: nat, x: nat, y: nat)
    requires x <= y
    ensures 0 <= k * x <= k * y
  {
  }

  lemma ConservesStep(rpm: nat, m: map<Address, Bucket>, a: Address, g: nat, start: nat, r: Request)
    requires Conserves(rpm, m, a, g, start) && start <= r.at && (a in m ==> m[a].lastRefill <= r.at)
    ensures var (next, ok) := Acquire(RefBucket(rpm, m, r), rpm, r.at);
            Conserves(rpm, m[r.from := next], a, if r.from == a && ok then g + 1 else g, start)
  {
    if r.from == a && g > 0 {
      AcquireSpends(m[a], rpm, r.at, g, start);
    } else if r.from == a {
      MulMonotone(rpm, 0, r.at - start);
    }
  }

  lemma {:induction false} RefNeverAhead(rpm: nat, reqs: seq<Request>, a: Address, n: nat)
    requires Chronological(reqs) && n <= |reqs| && a in RefTable(rpm, reqs[..n])
    ensures n > 0 && RefTable(rpm, reqs[..n])[a].lastRefill <= reqs[n - 1].at
    decreases n
  {
    if n > 0 {
      RefTableSnoc(rpm, reqs, n - 1);
      if reqs[n - 1].from != a {
        RefNeverAhead(rpm, reqs, a, n - 1);
        assert NotAfter(reqs, n - 2, n - 1);
      }
    }
  }

  /** Seen from the next request. */
  lemma RefNotAhead(rpm: nat, reqs: seq<Request>, a: Address, n: nat)
    requires Chronological(reqs) && n < |reqs| && a in RefTable(rpm, reqs[..n])
    ensures RefTable(rpm, reqs[..n])[a].lastRefill <= reqs[n].at
  {
    RefNeverAhead(rpm, reqs, a, n);
    assert NotAfter(reqs, n - 1, n);
  }

  /** Units spent since request `lo` plus units left never exceed a burst plus the refill. */
  lemma {:induction false} TokensConserved(rpm: nat, reqs: seq<Request>, a: Address, lo: nat, n: nat)
    requires Chronological(reqs) && lo <= n <= |reqs| && lo < |reqs|
    ensures Conserves(rpm, RefTable(rpm, reqs[..n]), a, Grants(reqs, RefAnswers(rpm, reqs), a, lo, n), reqs[lo].at)
    decreases n
  {
    if n > lo {
      TokensConserved(rpm, reqs, a, lo, n - 1);
      RefTableSnoc(rpm, reqs, n - 1);
      var before := RefTable(rpm, reqs[..n - 1]);
      if a in before {
        RefNotAhead(rpm, reqs, a, n - 1);
      }
      assert NotAfter(reqs, lo, n - 1);
      ConservesStep(rpm, before, a, Grants(reqs, RefAnswers(rpm, reqs), a, lo, n - 1), reqs[lo].at, reqs[n - 1]);
    }
  }

  /** A limiter that keeps every bucket grants one address at most a burst plus the refill of any window. */
  lemma WindowBound(rpm: nat, reqs: seq<Request>, a: Address, lo: nat, hi: nat)
    requires Chronological(reqs) && lo < hi <= |reqs|
    ensures Grants(reqs, RefAnswers(rpm, reqs), a, lo, hi) * MINUTE <=
            Burst(rpm) + rpm * (reqs[hi - 1].at - reqs[lo].at)
  {
    TokensConserved(rpm, reqs, a, lo, hi);
    var m, g := RefTable(rpm, reqs[..hi]), Grants(reqs, RefAnswers(rpm, reqs), a, lo, hi);
    assert NotAfter(reqs, lo, hi - 1);
    if g > 0 {
      RefNeverAhead(rpm, reqs, a, hi);
      MulMonotone(rpm, m[a].lastRefill - reqs[lo].at, reqs[hi - 1].at - reqs[lo].at);
    } else {
      MulMonotone(rpm, 0, reqs[hi - 1].at - reqs[lo].at);
    }
  }

  // ---- ... is all that is ever withheld ---------------------------------------

  /** What was granted since `start` and what is left are together a whole burst and the whole refill since. */
  predicate Accounts(rpm: nat, b: Bucket, g: nat, start: nat) {
    start <= b.lastRefill && g * MINUTE + b.tokens == Burst(rpm) + rpm * (b.lastRefill - start)
  }

  /** As long as the bucket does not overflow nothing is lost; when it does the account starts anew. */
  lemma AcquireAccounts(b: Bucket, rpm: nat, now: nat, g: nat, start: nat)
    requires b.lastRefill <= now && Accounts(rpm, b, g, start)
    ensures var (next, ok) := Acquire(b, rpm, now);
            Accounts(rpm, next, if ok then g + 1 else g, start) || (ok && Accounts(rpm, next, 1, now))
    ensures !Acquire(b, rpm, now).1 ==> (g + 1) * MINUTE > Burst(rpm) + rpm * (now - start)
  {
    assert rpm * (now - start) == rpm * (b.lastRefill - start) + (now - b.lastRefill) * rpm;
    assert rpm * (now - now) == 0;
  }

  lemma FreshAccounts(rpm: nat, now: nat)
    ensures var (next, ok) := Acquire(Fresh(rpm, now), rpm, now); ok && Accounts(rpm, next, 1, now)
  {
    assert rpm * (now - now) == 0;
  }

  /** Some request of `a` from which on its bucket accounts for everything. */
  ghost predicate AccountsFrom(rpm: nat, reqs: seq<Request>, a: Address, n: nat, lo: nat) {
    && lo < n <= |reqs| && a in RefTable(rpm, reqs[..n])
    && Accounts(rpm, RefTable(rpm, reqs[..n])[a], Grants(reqs, RefAnswers(rpm, reqs), a, lo, n), reqs[lo].at)
  }

  lemma AccountsOver(rpm: nat, reqs: seq<Request>, a: Address, n: nat, lo: nat) returns (lo': nat)
    requires Chronological(reqs) && n < |reqs| && reqs[n].from == a && AccountsFrom(rpm, reqs, a, n, lo)
    ensures AccountsFrom(rpm, reqs, a, n + 1, lo')
  {
    var b := RefTable(rpm, reqs[..n])[a];
    RefNotAhead(rpm, reqs, a, n);
    RefTableSnoc(rpm, reqs, n);
    AcquireAccounts(b, rpm, reqs[n].at, Grants(reqs, RefAnswers(rpm, reqs), a, lo, n), reqs[lo].at);
    assert RefAnswers(rpm, reqs)[n] == Acquire(b, rpm, reqs[n].at).1;
    lo' := if AccountsFrom(rpm, reqs, a, n + 1, lo) then lo else n;
    assert Grants(reqs, RefAnswers(rpm, reqs), a, n, n) == 0;
  }

  lemma AccountsAtFirst(rpm: nat, reqs: seq<Request>, a: Address, n: nat)
    requires n < |reqs| && reqs[n].from == a && a !in RefTable(rpm, reqs[..n])
    ensures AccountsFrom(rpm, reqs, a, n + 1, n)
  {
    RefTableSnoc(rpm, reqs, n);
    FreshAccounts(rpm, reqs[n].at);
    assert RefAnswers(rpm, reqs)[n] == Acquire(Fresh(rpm, reqs[n].at), rpm, reqs[n].at).1;
    assert Grants(reqs, RefAnswers(rpm, reqs), a, n, n) == 0;
  }

  lemma AccountsPast(rpm: nat, reqs: seq<Request>, a: Address, n: nat, lo: nat)
    requires n < |reqs| && reqs[n].from != a && AccountsFrom(rpm, reqs, a, n, lo)
    ensures AccountsFrom(rpm, reqs, a, n + 1, lo)
  {
    RefTableSnoc(rpm, reqs, n);
  }

  lemma {:induction false} LastOverflow(rpm: nat, reqs: seq<Request>, a: Address, n: nat) returns (lo: nat)
    requires Chronological(reqs) && n <= |reqs| && a in RefTable(rpm, reqs[..n])
    ensures AccountsFrom(rpm, reqs, a, n, lo)
    decreases n
  {
    RefTableSnoc(rpm, reqs, n - 1);
    if reqs[n - 1].from != a {
      lo := LastOverflow(rpm, reqs, a, n - 1);
      AccountsPast(rpm, reqs, a, n - 1, lo);
    } else if a in RefTable(rpm, reqs[..n - 1]) {
      var before := LastOverflow(rpm, reqs, a, n - 1);
      lo := AccountsOver(rpm, reqs, a, n - 1, before);
    } else {
      AccountsAtFirst(rpm, reqs, a, n - 1);
      lo := n - 1;
    }
  }

  /** One more grant would break the bound of the window that starts at `lo`. */
  ghost predicate OverBudget(rpm: nat, reqs: seq<Request>, lo: nat, i: nat)
    requires lo <= i < |reqs|
  {
    (Grants(reqs, RefAnswers(rpm, reqs), reqs[i].from, lo, i) + 1) * 60_000_000_000 >
      (if rpm >= 1 then rpm else 1) * 60_000_000_000 + rpm * (reqs[i].at - reqs[lo].at)
  }

  lemma OverBudgetFrom(rpm: nat, reqs: seq<Request>, lo: nat, i: nat, g: nat)
    requires lo <= i < |reqs| && g == Grants(reqs, RefAnswers(rpm, reqs), reqs[i].from, lo, i)
    requires (g + 1) * MINUTE > Burst(rpm) + rpm * (reqs[i].at - reqs[lo].at)
    ensures OverBudget(rpm, reqs, lo, i)
  {
  }

  lemma RefusedOverBudget(rpm: nat, reqs: seq<Request>, i: nat) returns (lo: nat)
    requires Chronological(reqs) && i < |reqs| && !RefAnswer(rpm, reqs, i)
    ensures lo <= i && OverBudget(rpm, reqs, lo, i)
  {
    var a := reqs[i].from;
    FreshAccounts(rpm, reqs[i].at);
    lo := LastOverflow(rpm, reqs, a, i);
    RefNotAhead(rpm, reqs, a, i);
    var g := Grants(reqs, RefAnswers(rpm, reqs), a, lo, i);
    AcquireAccounts(RefTable(rpm, reqs[..i])[a], rpm, reqs[i].at, g, reqs[lo].at);
    OverBudgetFrom(rpm, reqs, lo, i, g);
  }

  /** A request is granted if and only if it keeps every window that ends with it within a burst and the refill. */
  lemma GrantedExactly(rpm: nat, reqs: seq<Request>, i: nat)
    requires Chronological(reqs) && i < |reqs|
    ensures RefAnswer(rpm, reqs, i) <==> forall lo :: 0 <= lo <= i ==> !OverBudget(rpm, reqs, lo, i)
  {
    if RefAnswer(rpm, reqs, i) {
      forall lo | 0 <= lo <= i ensures !OverBudget(rpm, reqs, lo, i) {
        WindowBound(rpm, reqs, reqs[i].from, lo, i + 1);
      }
    } else {
      var lo := RefusedOverBudget(rpm, reqs, i);
    }
  }

  // ---- Eviction goes unnoticed ------------------------------------------------

  /** Held entries agree with the reference; missing ones have been idle for a minute. */
  ghost predicate Agree(t: Table, m: map<Address, Bucket>, now: nat) {
    && (forall a :: a in t ==> a in m && t[a].bucket == m[a] && t[a].lastSeen == m[a].lastRefill / SECOND)
    && (forall a :: a in m ==> m[a].lastRefill <= now)
    && (forall a :: a in m && a !in t ==> m[a].lastRefill + MINUTE <= now)
  }

  /** A bucket idle for a minute answers, and looks afterwards, like a new one. */
  lemma IdleIsFresh(b: Bucket, rpm: nat, now: nat)
    requires rpm >= 1 && b.lastRefill + MINUTE <= now
    ensures Acquire(b, rpm, now) == Acquire(Fresh(rpm, now), rpm, now)
  {
    assert (now - b.lastRefill) * rpm >= MINUTE * rpm;
  }

  lemma EvictedWereIdle(cfg: Config, t: Table, m: map<Address, Bucket>, now: nat)
    requires cfg.idleTtl >= 60 && Agree(t, m, now)
    ensures Agree(Retained(cfg, t, now / SECOND), m, now)
  {
    var live := Retained(cfg, t, now / SECOND);
    forall a | a in m && a !in live ensures m[a].lastRefill + MINUTE <= now {
      if a in t {
        assert m[a].lastRefill / SECOND < now / SECOND - 60;
      }
    }
  }

  lemma UpdateAgrees(t: Table, m: map<Address, Bucket>, a: Address, next: Bucket)
    requires Agree(t, m, next.lastRefill)
    ensures Agree(t[a := Entry(next, next.lastRefill / SECOND)], m[a := next], next.lastRefill)
  {
  }

  lemma ServesAgrees(cfg: Config, t: Table, m: map<Address, Bucket>, last: nat, r: Request, t': Table, granted: bool)
    requires cfg.rpm >= 1 && cfg.idleTtl >= 60 && last <= r.at && Agree(t, m, last)
    requires Serves(cfg, t, r.from, r.at, t', granted)
    requires HasRoom(cfg, t, r)
    ensures var (next, ok) := Acquire(RefBucket(cfg.rpm, m, r), cfg.rpm, r.at);
            Agree(t', m[r.from := next], r.at) && granted == ok
  {
    var (next, ok) := Acquire(RefBucket(cfg.rpm, m, r), cfg.rpm, r.at);
    assert Agree(t, m, r.at);
    if r.from in t {
      UpdateAgrees(t, m, r.from, next);
    } else {
      var kept :| EvictsTo(cfg, t, r.at / SECOND, kept)
               && ServesFrom(cfg, kept, Fresh(cfg.rpm, r.at), r.from, r.at, t', granted);
      assert kept == Retained(cfg, t, r.at / SECOND);
      EvictedWereIdle(cfg, t, m, r.at);
      UpdateAgrees(kept, m, r.from, next);
      if r.from in m {
        IdleIsFresh(m[r.from], cfg.rpm, r.at);
      }
    }
  }

  lemma {:induction false} RunAgrees(cfg: Config, reqs: seq<Request>, tables: seq<Table>, answers: seq<bool>, n: nat)
    requires cfg.rpm >= 1 && cfg.idleTtl >= 60 && Chronological(reqs)
    requires IsRun(cfg, reqs, tables, answers) && LruQuiet(cfg, reqs, tables) && n <= |reqs|
    ensures Agree(tables[n], RefTable(cfg.rpm, reqs[..n]), if n == 0 then 0 else reqs[n - 1].at)
    ensures forall i :: 0 <= i < n ==> answers[i] == RefAnswer(cfg.rpm, reqs, i)
    decreases n
  {
    if n > 0 {
      RunAgrees(cfg, reqs, tables, answers, n - 1);
      RefTableSnoc(cfg.rpm, reqs, n - 1);
      var last := if n == 1 then 0 else reqs[n - 2].at;
      assert n > 1 ==> NotAfter(reqs, n - 2, n - 1);
      ServesAgrees(cfg, tables[n - 1], RefTable(cfg.rpm, reqs[..n - 1]), last, reqs[n - 1], tables[n], answers[n - 1]);
    }
  }

  /** No run in which the LRU loop stays quiet can tell eviction from keeping every bucket. */
  ghost predicate EvictionUnnoticed(cfg: Config) {
    forall reqs, tables, answers ::
      Chronological(reqs) && IsRun(cfg, reqs, tables, answers) && LruQuiet(cfg, reqs, tables) ==>
        answers == RefAnswers(cfg.rpm, reqs)
  }

  lemma UnnoticedWhenSlowToExpire(cfg: Config)
    requires cfg.rpm >= 1 && cfg.idleTtl >= 60
    ensures EvictionUnnoticed(cfg)
  {
    forall reqs, tables, answers
      | Chronological(reqs) && IsRun(cfg, reqs, tables, answers) && LruQuiet(cfg, reqs, tables)
      ensures answers == RefAnswers(cfg.rpm, reqs)
    {
      RunAgrees(cfg, reqs, tables, answers, |reqs|);
    }
  }

  /** The evicting limiter itself obeys the rate bound, address by address, in such runs. */
  lemma LimiterWindowBound(
    cfg: Config, reqs: seq<Request>, tables: seq<Table>, answers: seq<bool>, a: Address, lo: nat, hi: nat)
    requires cfg.rpm >= 1 && cfg.idleTtl >= 60 && Chronological(reqs)
    requires IsRun(cfg, reqs, tables, answers) && LruQuiet(cfg, reqs, tables) && lo < hi <= |reqs|
    ensures Grants(reqs, answers, a, lo, hi) * MINUTE <= Burst(cfg.rpm) + cfg.rpm * (reqs[hi - 1].at - reqs[lo].at)
  {
    UnnoticedWhenSlowToExpire(cfg);
    assert answers == RefAnswers(cfg.rpm, reqs);
    WindowBound(cfg.rpm, reqs, a, lo, hi);
  }

  /** ... and withholds nothing else. */
  lemma LimiterGrantsExactly(cfg: Config, reqs: seq<Request>, tables: seq<Table>, answers: seq<bool>, i: nat)
    requires cfg.rpm >= 1 && cfg.idleTtl >= 60 && Chronological(reqs)
    requires IsRun(cfg, reqs, tables, answers) && LruQuiet(cfg, reqs, tables) && i < |reqs|
    ensures answers[i] <==> forall lo :: 0 <= lo <= i ==> !OverBudget(cfg.rpm, reqs, lo, i)
  {
    RunAgrees(cfg, reqs, tables, answers, i + 1);
    GrantedExactly(cfg.rpm, reqs, i);
  }

  // ---- ... and noticed otherwise ----------------------------------------------

  /** Spend a burst as A, let B trigger eviction just late enough, spend a burst as A again. */
  function Telltale(cfg: Config): (reqs: seq<Request>) {
    var n := Slots(cfg.rpm);
    var late := (cfg.idleTtl + 1) * SECOND;
    seq(n, i => Request(0, SECOND - 1)) + [Request(1, late)] + seq(n, i => Request(0, late))
  }

  /** The table of the evicting limiter after `n` of those requests. */
  function TelltaleTable(cfg: Config, n: nat): Table
    requires n <= |Telltale(cfg)|
  {
    var burst := Slots(cfg.rpm);
    var late := (cfg.idleTtl + 1) * SECOND;
    if n == 0 then map[]
    else if n <= burst then map[0 := Entry(Bucket((burst - n) * MINUTE, SECOND - 1), 0)]
    else
      var b := Entry(Bucket((burst - 1) * MINUTE, late), cfg.idleTtl + 1);
      if n == burst + 1 then map[1 := b]
      else map[1 := b, 0 := Entry(Bucket((2 * burst + 1 - n) * MINUTE, late), cfg.idleTtl + 1)]
  }

  lemma AcquireAtOnce(k: nat, rpm: nat, now: nat)
    requires 1 <= k <= Slots(rpm)
    ensures Acquire(Bucket(k * MINUTE, now), rpm, now) == (Bucket((k - 1) * MINUTE, now), true)
  {
    assert 0 * rpm == 0;
    MulMonotone(MINUTE, k, Slots(rpm));
    MulMonotone(MINUTE, 1, k);
  }

  lemma TelltaleKnown(cfg: Config, n: nat)
    requires cfg.Valid() && n < |Telltale(cfg)| && n != 0 && n != Slots(cfg.rpm) && n != Slots(cfg.rpm) + 1
    ensures var r, t := Telltale(cfg)[n], TelltaleTable(cfg, n);
            HasRoom(cfg, t, r) && Serves(cfg, t, r.from, r.at, TelltaleTable(cfg, n + 1), true)
  {
    var t, r, burst := TelltaleTable(cfg, n), Telltale(cfg)[n], Slots(cfg.rpm);
    AcquireAtOnce(if n < burst then burst - n else 2 * burst + 1 - n, cfg.rpm, r.at);
    assert ServesFrom(cfg, t, t[0].bucket, 0, r.at, TelltaleTable(cfg, n + 1), true);
  }

  /** Eviction keeps the other address but drops the first one when it has been idle for too long. */
  lemma TelltaleRetained(cfg: Config, n: nat)
    requires n == 0 || n == Slots(cfg.rpm) || n == Slots(cfg.rpm) + 1
    ensures var t := TelltaleTable(cfg, n);
            Retained(cfg, t, Telltale(cfg)[n].at / SECOND) == if n == Slots(cfg.rpm) then map[] else t
  {
    assert (SECOND - 1) / SECOND == 0 && (cfg.idleTtl + 1) * SECOND / SECOND == cfg.idleTtl + 1;
  }

  lemma SmallTableKept(cfg: Config, t: Table, secs: nat, kept: Table)
    requires cfg.maxBuckets >= 2 && kept == Retained(cfg, t, secs) && (kept == map[] || exists a :: kept.Keys == {a})
    ensures |kept| < cfg.maxBuckets && EvictsTo(cfg, t, secs, kept)
  {
    if kept != map[] {
      var a :| kept.Keys == {a};
      assert |kept.Keys| == 1;
    }
  }

  lemma TelltaleEntry(cfg: Config, n: nat)
    requires n == 0 || n == Slots(cfg.rpm) || n == Slots(cfg.rpm) + 1
    ensures var r := Telltale(cfg)[n];
            var kept := if n == Slots(cfg.rpm) then map[] else TelltaleTable(cfg, n);
            && r.from !in TelltaleTable(cfg, n) && (kept == map[] || kept.Keys == {1})
            && ServesFrom(cfg, kept, Fresh(cfg.rpm, r.at), r.from, r.at, TelltaleTable(cfg, n + 1), true)
  {
    AcquireAtOnce(Slots(cfg.rpm), cfg.rpm, Telltale(cfg)[n].at);
    assert (SECOND - 1) / SECOND == 0 && (cfg.idleTtl + 1) * SECOND / SECOND == cfg.idleTtl + 1;
  }

  lemma TelltaleNew(cfg: Config, n: nat)
    requires cfg.Valid() && cfg.maxBuckets >= 2
    requires n == 0 || n == Slots(cfg.rpm) || n == Slots(cfg.rpm) + 1
    ensures var r, t := Telltale(cfg)[n], TelltaleTable(cfg, n);
            HasRoom(cfg, t, r) && Serves(cfg, t, r.from, r.at, TelltaleTable(cfg, n + 1), true)
  {
    TelltaleRetained(cfg, n);
    TelltaleEntry(cfg, n);
    var t, secs := TelltaleTable(cfg, n), Telltale(cfg)[n].at / SECOND;
    SmallTableKept(cfg, t, secs, Retained(cfg, t, secs));
  }

  lemma {:induction false} AllGranted(reqs: seq<Request>, answers: seq<bool>, a: Address, b: nat, hi: nat)
    requires hi <= |reqs| == |answers| && b < |reqs|
    requires forall i :: 0 <= i < |reqs| ==> answers[i] && (reqs[i].from == a <==> i != b)
    ensures Grants(reqs, answers, a, 0, hi) == if hi <= b then hi else hi - 1
    decreases hi
  {
    if hi > 0 {
      AllGranted(reqs, answers, a, b, hi - 1);
    }
  }

  lemma TelltaleIsRun(cfg: Config) returns (tables: seq<Table>, answers: seq<bool>)
    requires cfg.Valid() && cfg.maxBuckets >= 2
    ensures IsRun(cfg, Telltale(cfg), tables, answers) && LruQuiet(cfg, Telltale(cfg), tables)
    ensures forall i :: 0 <= i < |answers| ==> answers[i]
  {
    var n := |Telltale(cfg)|;
    tables := seq(n + 1, i requires 0 <= i <= n => TelltaleTable(cfg, i));
    answers := seq(n, i => true);
    forall i | 0 <= i < n
      ensures HasRoom(cfg, tables[i], Telltale(cfg)[i])
      ensures Serves(cfg, tables[i], Telltale(cfg)[i].from, Telltale(cfg)[i].at, tables[i + 1], answers[i])
    {
      if i == 0 || i == Slots(cfg.rpm) || i == Slots(cfg.rpm) + 1 {
        TelltaleNew(cfg, i);
      } else {
        TelltaleKnown(cfg, i);
      }
    }
  }

  lemma RefillTooSlow(rpm: nat, gap: nat)
    requires rpm == 0 || gap < MINUTE
    ensures rpm * gap < Slots(rpm) * MINUTE
  {
    if rpm >= 1 {
      MulMonotone(rpm, gap, MINUTE - 1);
    }
  }

  lemma TwoBurstsTooMany(reqs: seq<Request>, answers: seq<bool>, a: Address, n: nat, refill: nat)
    requires |reqs| == |answers| == 2 * n + 1 && refill < n * MINUTE
    requires forall i :: 0 <= i < |reqs| ==> (reqs[i].from == a <==> i != n)
    requires Grants(reqs, answers, a, 0, |reqs|) * MINUTE <= n * MINUTE + refill
    ensures exists i :: 0 <= i < |reqs| && !answers[i]
  {
    if forall i :: 0 <= i < |reqs| ==> answers[i] {
      AllGranted(reqs, answers, a, n, |reqs|);
      assert false;
    }
  }

  /** The reference cannot grant two bursts that close together. */
  lemma TwoBurstsRefused(rpm: nat, reqs: seq<Request>, a: Address, n: nat)
    requires Chronological(reqs) && |reqs| == 2 * n + 1 && n == Slots(rpm)
    requires forall i :: 0 <= i < |reqs| ==> (reqs[i].from == a <==> i != n)
    requires rpm * (reqs[2 * n].at - reqs[0].at) < n * MINUTE
    ensures exists i :: 0 <= i < |reqs| && !RefAnswers(rpm, reqs)[i]
  {
    WindowBound(rpm, reqs, a, 0, |reqs|);
    assert NotAfter(reqs, 0, 2 * n);
    MulMonotone(rpm, 0, reqs[2 * n].at - reqs[0].at);
    TwoBurstsTooMany(reqs, RefAnswers(rpm, reqs), a, n, rpm * (reqs[2 * n].at - reqs[0].at));
  }

  lemma TelltaleRefused(cfg: Config)
    requires cfg.rpm == 0 || cfg.idleTtl < 60
    ensures exists i :: 0 <= i < |Telltale(cfg)| && !RefAnswers(cfg.rpm, Telltale(cfg))[i]
  {
    var reqs, n := Telltale(cfg), Slots(cfg.rpm);
    assert reqs[0].at == SECOND - 1 && reqs[2 * n].at == (cfg.idleTtl + 1) * SECOND;
    RefillTooSlow(cfg.rpm, reqs[2 * n].at - reqs[0].at);
    TwoBurstsRefused(cfg.rpm, reqs, 0, n);
  }

  lemma NoticedWhenQuickToExpire(cfg: Config)
    requires cfg.Valid() && cfg.maxBuckets >= 2 && (cfg.rpm == 0 || cfg.idleTtl < 60)
    ensures !EvictionUnnoticed(cfg)
  {
    var reqs := Telltale(cfg);
    var tables, answers := TelltaleIsRun(cfg);
    TelltaleRefused(cfg);
    assert answers != RefAnswers(cfg.rpm, reqs);
  }

  /** Idle eviction is invisible exactly when buckets refill and outlive a full refill. */
  lemma EvictionUnnoticedExactly(cfg: Config)
    requires cfg.Valid() && cfg.maxBuckets >= 2
    ensures EvictionUnnoticed(cfg) <==> cfg.rpm >= 1 && cfg.idleTtl >= 60
  {
    if cfg.rpm >= 1 && cfg.idleTtl >= 60 {
      UnnoticedWhenSlowToExpire(cfg);
    } else {
      NoticedWhenQuickToExpire(cfg);
    }
  }
}

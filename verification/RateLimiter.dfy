/**
 * The per-address token-bucket limiter with idle and least-recently-used
 * eviction. Time is in nanoseconds and one token is `MINUTE` units, so a
 * bucket refills by `rpm` units per nanosecond and the arithmetic is exact.
 */
module RateLimiter {

  const SECOND: nat := 1_000_000_000
  const MINUTE: nat := 60 * SECOND

  type Address = nat

  // ---- One bucket ----------------------------------------------------------

  datatype Bucket = Bucket(tokens: nat, lastRefill: nat)

  /** Requests a full bucket can serve at once. */
  function Slots(rpm: nat): (n: nat)
    ensures n >= 1
  {
    if rpm >= 1 then rpm else 1
  }

  function Burst(rpm: nat): (cap: nat)
    ensures cap >= MINUTE
  {
    Slots(rpm) * MINUTE
  }

  function Fresh(rpm: nat, now: nat): Bucket {
    Bucket(Burst(rpm), now)
  }

  function Refilled(b: Bucket, rpm: nat, now: nat): (tokens: nat) {
    var elapsed := if now >= b.lastRefill then now - b.lastRefill else 0;
    var full := b.tokens + elapsed * rpm;
    if full <= Burst(rpm) then full else Burst(rpm)
  }

  function Acquire(b: Bucket, rpm: nat, now: nat): (r: (Bucket, bool))
    ensures r.0.lastRefill == now
    ensures r.0.tokens + (if r.1 then MINUTE else 0) <= Burst(rpm)
  {
    var tokens := Refilled(b, rpm, now);
    if tokens >= MINUTE then (Bucket(tokens - MINUTE, now), true) else (Bucket(tokens, now), false)
  }

  class RateLimiterInner {
    var tokens: nat
    const maxTokens: nat
    const refillRate: nat
    var lastRefill: nat

    ghost predicate Valid()
      reads this
    {
      maxTokens == Burst(refillRate) && tokens <= maxTokens
    }

    constructor (rpm: nat, now: nat)
      ensures Valid() && refillRate == rpm && Bucket(tokens, lastRefill) == Fresh(rpm, now)
    {
      tokens, maxTokens, refillRate, lastRefill := Burst(rpm), Burst(rpm), rpm, now;
    }

    method TryAcquire(now: nat) returns (granted: bool)
      requires Valid()
      modifies this
      ensures Valid()
      ensures (Bucket(tokens, lastRefill), granted) == Acquire(old(Bucket(tokens, lastRefill)), refillRate, now)
    {
      var elapsed := if now >= lastRefill then now - lastRefill else 0;
      tokens := if tokens + elapsed * refillRate <= maxTokens then tokens + elapsed * refillRate else maxTokens;
      lastRefill := now;
      if tokens >= MINUTE {
        tokens := tokens - MINUTE;
        return true;
      }
      return false;
    }
  }

  // ---- The evicting limiter ------------------------------------------------

  datatype Entry = Entry(bucket: Bucket, lastSeen: nat)

  type Table = map<Address, Entry>

  datatype Config = Config(rpm: nat, maxBuckets: nat, idleTtl: nat) {
    ghost predicate Valid() { maxBuckets >= 1 && idleTtl >= 1 }
  }

  /** Entries seen since `secs - idleTtl`, that difference saturating at zero. */
  function Retained(cfg: Config, t: Table, secs: nat): Table {
    var staleBefore := if secs >= cfg.idleTtl then secs - cfg.idleTtl else 0;
    map a | a in t && t[a].lastSeen >= staleBefore :: t[a]
  }

  /** `kept` is what idle expiry and then the LRU loop may leave of `t`. */
  ghost predicate EvictsTo(cfg: Config, t: Table, secs: nat, kept: Table) {
    var live := Retained(cfg, t, secs);
    && (forall a :: a in kept ==> a in live && kept[a] == live[a])
    && (|live| < cfg.maxBuckets ==> kept == live)
    && (|live| >= cfg.maxBuckets ==> |kept| == cfg.maxBuckets - 1)
    && (forall a, k :: a in live && a !in kept && k in kept ==> live[a].lastSeen <= kept[k].lastSeen)
  }

  /** One request: the table before and after, and the answer. */
  ghost predicate Serves(cfg: Config, t: Table, a: Address, now: nat, t': Table, granted: bool) {
    if a in t then ServesFrom(cfg, t, t[a].bucket, a, now, t', granted)
    else
      exists kept ::
        EvictsTo(cfg, t, now / SECOND, kept) && ServesFrom(cfg, kept, Fresh(cfg.rpm, now), a, now, t', granted)
  }

  ghost predicate ServesFrom(cfg: Config, t: Table, b: Bucket, a: Address, now: nat, t': Table, granted: bool) {
    t' == t[a := Entry(Acquire(b, cfg.rpm, now).0, now / SECOND)] && granted == Acquire(b, cfg.rpm, now).1
  }

  lemma {:induction false} Oldest(t: Table) returns (a: Address)
    requires t != map[]
    ensures a in t && forall k :: k in t ==> t[a].lastSeen <= t[k].lastSeen
    decreases |t|
  {
    a :| a in t;
    var rest := t - {a};
    assert forall k :: k in t && k != a ==> k in rest;
    if rest != map[] {
      var b := Oldest(rest);
      if t[b].lastSeen < t[a].lastSeen {
        a := b;
      }
    }
  }

  class PerIpRateLimiter {
    const cfg: Config
    var buckets: Table

    ghost predicate Valid()
      reads this
    {
      cfg.Valid() && |buckets| <= cfg.maxBuckets
    }

    constructor (rpm: nat, maxBuckets: nat, idleTtl: nat)
      ensures Valid() && buckets == map[] && cfg.rpm == rpm
      ensures cfg.maxBuckets == (if maxBuckets >= 1 then maxBuckets else 1)
      ensures cfg.idleTtl == (if idleTtl >= 1 then idleTtl else 1)
    {
      cfg := Config(rpm, if maxBuckets >= 1 then maxBuckets else 1, if idleTtl >= 1 then idleTtl else 1);
      buckets := map[];
    }

    method EvictStaleAndLru(secs: nat)
      requires Valid()
      modifies this
      ensures |buckets| < cfg.maxBuckets && EvictsTo(cfg, old(buckets), secs, buckets)
    {
      buckets := Retained(cfg, buckets, secs);
      ghost var live := buckets;
      while |buckets| >= cfg.maxBuckets
        invariant forall a :: a in buckets ==> a in live && buckets[a] == live[a]
        invariant |live| < cfg.maxBuckets ==> buckets == live
        invariant |live| >= cfg.maxBuckets ==> |buckets| >= cfg.maxBuckets - 1
        invariant forall a, k :: a in live && a !in buckets && k in buckets ==> live[a].lastSeen <= buckets[k].lastSeen
        decreases |buckets|
      {
        ghost var least := Oldest(buckets);
        var oldest :| oldest in buckets && forall k :: k in buckets ==> buckets[oldest].lastSeen <= buckets[k].lastSeen;
        assert |buckets - {oldest}| == |buckets| - 1 by {
          assert (buckets - {oldest}).Keys == buckets.Keys - {oldest};
        }
        buckets := buckets - {oldest};
      }
    }

    method TryAcquireAt(a: Address, now: nat) returns (granted: bool)
      requires Valid()
      modifies this
      ensures Valid()
      ensures Serves(cfg, old(buckets), a, now, buckets, granted)
    {
      var secs := now / SECOND;
      var bucket: Bucket;
      if a in buckets {
        bucket := buckets[a].bucket;
        assert buckets.Keys + {a} == buckets.Keys;
      } else {
        EvictStaleAndLru(secs);
        bucket := Fresh(cfg.rpm, now);
      }
      var (next, ok) := Acquire(bucket, cfg.rpm, now);
      assert buckets[a := Entry(next, secs)].Keys == buckets.Keys + {a};
      buckets := buckets[a := Entry(next, secs)];
      granted := ok;
    }
  }
}

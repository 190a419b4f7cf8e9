/**
 * The process-wide lock on the Google credential of one subject. Token grants,
 * outbound refreshes and explicit revocation work on the credential under it;
 * the login callback installs without it. An upstream looks its lock key up
 * before it locks: the subject of the row it finds, or else its own account
 * setting. A statement runs in a task of its own, so a handler dropped while it
 * waits frees the lock before its statement has run. The results say what the
 * lock protects, and exactly when.
 */
module CredentialLock {
  import opened Basics
  import opened CredentialRefresh
  import GoogleScopes

  /**
   * `fallbacks` are the keys upstreams of this subject lock when they find no row;
   * `drops` says whether handlers can be dropped while a statement of theirs is queued.
   */
  datatype Config = Config(subject: string, fallbacks: set<string>, drops: bool)

  datatype Job = TokenRefresh | OutboundRefresh | Revocation

  /** A job between two of its steps; all but `Waiting` and `Orphaned` hold the lock `key`. */
  datatype Worker =
    // lock key looked up
    | Waiting(job: Job, key: string)
    | Holding(job: Job, key: string)
    // the credential read is with the upstream, or about to go
    | Reading(job: Job, key: string, read: Credential)
    // refused; the row was read again
    | Condemning(job: Job, key: string, read: Credential, current: Credential)
    // dropped; its compare-and-delete is still queued
    | Orphaned(job: Job, key: string, read: Credential, target: Credential)

  /** A deletion, the credential its job had read and the one that went. */
  datatype Deletion = Deletion(job: Job, read: Credential, gone: Credential)

  datatype Sys = Sys(row: Row, locks: map<string, nat>, workers: map<nat, Worker>, deletions: seq<Deletion>)

  const INITIAL := Sys(None, map[], map[], [])

  // ---- Steps -----------------------------------------------------------------------------------

  datatype Step =
    | Login(refreshToken: string, scopes: seq<string>)
    | Start(pid: nat, job: Job, fallback: string)
    | Acquire(pid: nat)
    | Read(pid: nat)
    | Install(pid: nat, refreshToken: string, scopes: seq<string>)
    | Delete(pid: nat)
    | Drop(pid: nat)
    | Reread(pid: nat)
    | Finish(pid: nat)

  predicate Locked(w: Worker) { !w.Waiting? && !w.Orphaned? }

  /** The job is about to compare and delete. */
  predicate Deleting(w: Worker) { w.Condemning? || (w.Reading? && !w.job.OutboundRefresh?) }

  predicate Can(cfg: Config, s: Sys, a: Step) {
    match a
    case Login(_, _) => true
    case Start(pid, job, fallback) => pid !in s.workers && fallback in cfg.fallbacks + {cfg.subject}
    case Acquire(pid) => pid in s.workers && s.workers[pid].Waiting? && s.workers[pid].key !in s.locks
    case Read(pid) => pid in s.workers && s.workers[pid].Holding? && s.row.Some?
    case Install(pid, _, _) => pid in s.workers && s.workers[pid].Reading? && !s.workers[pid].job.Revocation?
    case Delete(pid) => pid in s.workers && (Deleting(s.workers[pid]) || s.workers[pid].Orphaned?)
    case Drop(pid) => cfg.drops && pid in s.workers && Deleting(s.workers[pid])
    case Reread(pid) =>
      pid in s.workers && s.workers[pid].Reading? && s.workers[pid].job.OutboundRefresh? && s.row.Some?
    case Finish(pid) => pid in s.workers
  }

  /** The job is over and its lock, if it had one, is free. */
  function Done(s: Sys, pid: nat): Sys
    requires pid in s.workers
  {
    s.(locks := if Locked(s.workers[pid]) then s.locks - {s.workers[pid].key} else s.locks,
        workers := s.workers - {pid})
  }

  /** The key is looked up first; a token grant knows its subject. */
  function KeyFor(cfg: Config, s: Sys, job: Job, fallback: string): string {
    if job.TokenRefresh? || s.row.Some? then cfg.subject else fallback
  }

  /** The credential whose generation a deletion names: the one read, or for an outbound refresh the one read again. */
  function Target(w: Worker): Credential
    requires Deleting(w) || w.Orphaned?
  {
    if w.Orphaned? then w.target else if w.Condemning? then w.current else w.read
  }

  /** Compare and delete. A miss sends a token refresh or a revocation back to read again. */
  function WithDelete(s: Sys, pid: nat): Sys
    requires pid in s.workers && (Deleting(s.workers[pid]) || s.workers[pid].Orphaned?)
  {
    var w := s.workers[pid];
    if Invalidates(s.row, Target(w).generation) then
      Done(s.(row := None, deletions := s.deletions + [Deletion(w.job, w.read, s.row.value)]), pid)
    else if w.Orphaned? then Done(s, pid)
    else s.(workers := s.workers[pid := Holding(w.job, w.key)])
  }

  /** The lock is free and the deletion still to come. A queued install needs no such state: it is a login to others. */
  function WithDrop(s: Sys, pid: nat): Sys
    requires pid in s.workers && Deleting(s.workers[pid])
  {
    var w := s.workers[pid];
    s.(locks := s.locks - {w.key}, workers := s.workers[pid := Orphaned(w.job, w.key, w.read, Target(w))])
  }

  function Next(cfg: Config, s: Sys, a: Step): Sys
    requires Can(cfg, s, a)
  {
    match a
    case Login(token, scopes) => s.(row := Upsert(s.row, token, scopes))
    case Start(pid, job, fallback) => s.(workers := s.workers[pid := Waiting(job, KeyFor(cfg, s, job, fallback))])
    case Acquire(pid) =>
      var w := s.workers[pid];
      s.(locks := s.locks[w.key := pid], workers := s.workers[pid := Holding(w.job, w.key)])
    case Read(pid) =>
      var w := s.workers[pid];
      s.(workers := s.workers[pid := Reading(w.job, w.key, s.row.value)])
    case Install(pid, token, scopes) => Done(s.(row := Upsert(s.row, token, scopes)), pid)
    case Delete(pid) => WithDelete(s, pid)
    case Drop(pid) => WithDrop(s, pid)
    case Reread(pid) =>
      var w := s.workers[pid];
      s.(workers := s.workers[pid := Condemning(w.job, w.key, w.read, s.row.value)])
    case Finish(pid) => Done(s, pid)
  }

  function RunFrom(cfg: Config, s: Sys, steps: seq<Step>): Option<Sys>
    decreases |steps|
  {
    if steps == [] then Some(s)
    else if Can(cfg, s, steps[0]) then RunFrom(cfg, Next(cfg, s, steps[0]), steps[1..])
    else None
  }

  ghost predicate Reaches(cfg: Config, s: Sys) {
    exists steps :: RunFrom(cfg, INITIAL, steps) == Some(s)
  }

  // ---- What the lock keeps -----------------------------------------------------------------------

  /** Upstreams fall back on no other key than the subject itself. */
  predicate OneKey(cfg: Config) {
    forall f :: f in cfg.fallbacks ==> f == cfg.subject
  }

  /** ... and no handler is dropped over a queued statement. */
  predicate Guarded(cfg: Config) {
    OneKey(cfg) && !cfg.drops
  }

  ghost predicate Exclusive(cfg: Config, s: Sys) {
    && (forall p :: p in s.workers ==> s.workers[p].key == cfg.subject && !s.workers[p].Orphaned?)
    && (forall p :: p in s.workers && Locked(s.workers[p]) ==> cfg.subject in s.locks && s.locks[cfg.subject] == p)
  }

  /** The row is still the credential in hand, or a later generation of it. */
  predicate Current(c: Credential, row: Row) {
    row.Some? && (row.value == c || c.generation < row.value.generation)
  }

  /** What a job under the lock has read can only have been replaced. */
  ghost predicate ReadsCurrent(s: Sys) {
    forall p :: p in s.workers ==>
      && (s.workers[p].Reading? ==> Current(s.workers[p].read, s.row))
      && (s.workers[p].Condemning? ==>
            && Current(s.workers[p].current, s.row)
            && s.workers[p].job.OutboundRefresh? && Current(s.workers[p].read, Some(s.workers[p].current)))
  }

  /** A deletion hits what its job read, or for an outbound refresh something of no earlier generation. */
  ghost predicate Accounted(d: Deletion) {
    if d.job.OutboundRefresh? then Current(d.read, Some(d.gone)) else d.gone == d.read
  }

  ghost predicate Inv(cfg: Config, s: Sys) {
    Exclusive(cfg, s) && ReadsCurrent(s) && forall d :: d in s.deletions ==> Accounted(d)
  }

  lemma InvStep(cfg: Config, s: Sys, a: Step)
    requires Guarded(cfg) && Can(cfg, s, a) && Inv(cfg, s)
    ensures Inv(cfg, Next(cfg, s, a))
  {
    if a.Delete? {
      DeleteAccounted(cfg, s, a.pid);
    }
  }

  lemma DeleteAccounted(cfg: Config, s: Sys, pid: nat)
    requires Can(cfg, s, Delete(pid)) && Inv(cfg, s)
    ensures Inv(cfg, WithDelete(s, pid))
  {
  }

  lemma {:induction false} RunKeepsInv(cfg: Config, s: Sys, steps: seq<Step>)
    requires Guarded(cfg) && Inv(cfg, s) && RunFrom(cfg, s, steps).Some?
    ensures Inv(cfg, RunFrom(cfg, s, steps).value)
    decreases |steps|
  {
    if steps != [] {
      InvStep(cfg, s, steps[0]);
      RunKeepsInv(cfg, Next(cfg, s, steps[0]), steps[1..]);
    }
  }

  // ---- Nobody else removes the row under the lock --------------------------------------------------

  predicate IsStepOf(a: Step, pid: nat) {
    !a.Login? && a.pid == pid
  }

  /** What a step does to the row. */
  function StepActs(cfg: Config, s: Sys, a: Step): seq<Act>
    requires Can(cfg, s, a)
  {
    if a.Login? || a.Install? then [Act.Install(a.refreshToken, a.scopes)]
    else if a.Delete? && Invalidates(s.row, Target(s.workers[a.pid]).generation) then [Remove]
    else []
  }

  /** What a run does to the row. */
  function RowActs(cfg: Config, s: Sys, steps: seq<Step>): seq<Act>
    decreases |steps|
  {
    if steps == [] || !Can(cfg, s, steps[0]) then []
    else StepActs(cfg, s, steps[0]) + RowActs(cfg, Next(cfg, s, steps[0]), steps[1..])
  }

  lemma {:induction false} ApplyConcat(row: Row, a: seq<Act>, b: seq<Act>)
    ensures Apply(row, a + b) == Apply(Apply(row, a), b)
    decreases |b|
  {
    if b == [] {
      assert a + b == a;
    } else {
      assert (a + b)[..|a + b| - 1] == a + b[..|b| - 1];
      ApplyConcat(row, a, b[..|b| - 1]);
    }
  }

  lemma StepActsApply(cfg: Config, s: Sys, a: Step)
    requires Can(cfg, s, a)
    ensures Next(cfg, s, a).row == Apply(s.row, StepActs(cfg, s, a))
  {
    var acts := StepActs(cfg, s, a);
    if acts != [] {
      assert acts[..0] == [];
    }
  }

  /** They are what changes the row. */
  lemma {:induction false} RowActsApply(cfg: Config, s: Sys, steps: seq<Step>)
    requires RunFrom(cfg, s, steps).Some?
    ensures RunFrom(cfg, s, steps).value.row == Apply(s.row, RowActs(cfg, s, steps))
    decreases |steps|
  {
    if steps != [] {
      var next := Next(cfg, s, steps[0]);
      StepActsApply(cfg, s, steps[0]);
      RowActsApply(cfg, next, steps[1..]);
      ApplyConcat(s.row, StepActs(cfg, s, steps[0]), RowActs(cfg, next, steps[1..]));
    }
  }

  /** A stretch of a run. */
  datatype Segment = Segment(start: Sys, steps: seq<Step>)

  /** Others are at work while the job holds the lock. */
  ghost predicate WhileLocked(cfg: Config, seg: Segment, pid: nat) {
    && Inv(cfg, seg.start) && pid in seg.start.workers && Locked(seg.start.workers[pid])
    && RunFrom(cfg, seg.start, seg.steps).Some? && forall a :: a in seg.steps ==> !IsStepOf(a, pid)
  }

  lemma OneStepWhileLocked(cfg: Config, s: Sys, a: Step, pid: nat)
    requires Guarded(cfg) && Inv(cfg, s) && pid in s.workers && Locked(s.workers[pid])
    requires Can(cfg, s, a) && !IsStepOf(a, pid)
    ensures OnlyInstalls(StepActs(cfg, s, a))
    ensures pid in Next(cfg, s, a).workers && Next(cfg, s, a).workers[pid] == s.workers[pid]
  {
  }

  /** Whatever others do while a job holds the lock, the row only sees installs. */
  lemma {:induction false} LockedGap(cfg: Config, seg: Segment, pid: nat)
    requires Guarded(cfg) && WhileLocked(cfg, seg, pid)
    ensures OnlyInstalls(RowActs(cfg, seg.start, seg.steps))
    decreases |seg.steps|
  {
    if seg.steps != [] {
      var s, a := seg.start, seg.steps[0];
      OneStepWhileLocked(cfg, s, a, pid);
      InvStep(cfg, s, a);
      assert forall b :: b in seg.steps[1..] ==> b in seg.steps;
      LockedGap(cfg, Segment(Next(cfg, s, a), seg.steps[1..]), pid);
    }
  }

  /** The refresh loop with its gaps filled by what others do under the lock: what it promises then holds outright. */
  method RefreshUnderLock(cfg: Config, store: CredentialStore, others: nat -> Segment, pid: nat, reply: nat -> Reply)
    returns (outcome: Outcome, ghost attempts: seq<Attempt>, ghost deleted: seq<Credential>)
    requires Guarded(cfg) && forall k :: WhileLocked(cfg, others(k), pid)
    modifies store
    ensures |attempts| <= 2 && outcome == Verdict(attempts, cfg.subject)
    ensures Advancing(attempts) && OnlyCondemned(deleted, attempts, cfg.subject)
    ensures attempts != [] && Condemns(Final(attempts), cfg.subject) ==> Outdated(Final(attempts).credential, store.row)
  {
    var gap := (k: nat) => RowActs(cfg, others(k).start, others(k).steps);
    forall k ensures OnlyInstalls(gap(k)) {
      LockedGap(cfg, others(k), pid);
    }
    outcome, attempts, deleted := RefreshGoogleProviderCredential(store, cfg.subject, gap, reply);
  }

  // ---- Which deletions hit a newer credential -----------------------------------------------------

  /** In no run does a token grant delete a credential other than the one Google refused. */
  ghost predicate GrantsDeleteOnlyRefused(cfg: Config) {
    forall s :: Reaches(cfg, s) ==>
      forall d :: d in s.deletions && d.job.TokenRefresh? ==> d.gone == d.read
  }

  lemma LockProtects(cfg: Config, s: Sys)
    requires Guarded(cfg) && Reaches(cfg, s)
    ensures forall d :: d in s.deletions ==> Accounted(d)
  {
    var steps :| RunFrom(cfg, INITIAL, steps) == Some(s);
    RunKeepsInv(cfg, INITIAL, steps);
  }

  lemma {:induction false} RunSnoc(cfg: Config, s: Sys, steps: seq<Step>, a: Step)
    requires RunFrom(cfg, s, steps).Some? && Can(cfg, RunFrom(cfg, s, steps).value, a)
    ensures RunFrom(cfg, s, steps + [a]) == Some(Next(cfg, RunFrom(cfg, s, steps).value, a))
    decreases |steps|
  {
    if steps == [] {
      assert (steps + [a])[1..] == [];
    } else {
      assert (steps + [a])[1..] == steps[1..] + [a];
      RunSnoc(cfg, Next(cfg, s, steps[0]), steps[1..], a);
    }
  }

  lemma ReachesNext(cfg: Config, s: Sys, a: Step)
    requires Reaches(cfg, s) && Can(cfg, s, a)
    ensures Reaches(cfg, Next(cfg, s, a))
  {
    var steps :| RunFrom(cfg, INITIAL, steps) == Some(s);
    RunSnoc(cfg, INITIAL, steps, a);
  }

  function Stored(refreshToken: string, generation: nat): Credential {
    Credential(generation, refreshToken, GoogleScopes.Merge([], []))
  }

  lemma FirstLogin(cfg: Config) returns (s: Sys)
    ensures Reaches(cfg, s) && s == INITIAL.(row := Some(Stored("first", 1)))
  {
    assert RunFrom(cfg, INITIAL, []) == Some(INITIAL);
    ReachesNext(cfg, INITIAL, Login("first", []));
    s := INITIAL.(row := Some(Stored("first", 1)));
  }

  lemma Overwrites(m: map<nat, Worker>, pid: nat, a: Worker, b: Worker)
    ensures m[pid := a][pid := b] == m[pid := b]
  {
  }

  lemma LocksAndReads(cfg: Config, s: Sys, pid: nat, job: Job)
    requires Reaches(cfg, s.(workers := s.workers[pid := Waiting(job, cfg.subject)]))
    requires s.row.Some? && cfg.subject !in s.locks
    ensures Reaches(cfg, s.(locks := s.locks[cfg.subject := pid],
                            workers := s.workers[pid := Reading(job, cfg.subject, s.row.value)]))
  {
    var s1 := s.(workers := s.workers[pid := Waiting(job, cfg.subject)]);
    Overwrites(s.workers, pid, Waiting(job, cfg.subject), Holding(job, cfg.subject));
    var s2 := s.(locks := s.locks[cfg.subject := pid], workers := s.workers[pid := Holding(job, cfg.subject)]);
    assert Next(cfg, s1, Acquire(pid)) == s2;
    ReachesNext(cfg, s1, Acquire(pid));
    Overwrites(s.workers, pid, Holding(job, cfg.subject), Reading(job, cfg.subject, s.row.value));
    ReachesNext(cfg, s2, Read(pid));
  }

  /** A job started while there is a row gets the subject's lock, if it is free, and reads the row. */
  lemma ReadsUnderLock(cfg: Config, s: Sys, pid: nat, job: Job) returns (s': Sys)
    requires Reaches(cfg, s) && pid !in s.workers && s.row.Some? && cfg.subject !in s.locks
    ensures Reaches(cfg, s')
    ensures s' == s.(locks := s.locks[cfg.subject := pid],
                     workers := s.workers[pid := Reading(job, cfg.subject, s.row.value)])
  {
    ReachesNext(cfg, s, Start(pid, job, cfg.subject));
    LocksAndReads(cfg, s, pid, job);
    s' := s.(locks := s.locks[cfg.subject := pid],
             workers := s.workers[pid := Reading(job, cfg.subject, s.row.value)]);
  }

  /** A revocation looks its key up before the first login, and a token refresh starts after it. */
  lemma StrayStarts(cfg: Config, fallback: string) returns (s: Sys)
    requires fallback in cfg.fallbacks && fallback != cfg.subject
    ensures Reaches(cfg, s) && s.row == Some(Stored("first", 1)) && s.locks == map[cfg.subject := 1]
            && s.deletions == []
    ensures s.workers ==
            map[0 := Waiting(Revocation, fallback), 1 := Reading(TokenRefresh, cfg.subject, Stored("first", 1))]
  {
    assert RunFrom(cfg, INITIAL, []) == Some(INITIAL);
    ReachesNext(cfg, INITIAL, Start(0, Revocation, fallback));
    var s1 := INITIAL.(workers := map[0 := Waiting(Revocation, fallback)]);
    ReachesNext(cfg, s1, Login("first", []));
    var s2 := s1.(row := Some(Stored("first", 1)));
    s := ReadsUnderLock(cfg, s2, 1, TokenRefresh);
  }

  /** Under its own key the revocation runs beside the refresh; a second login follows. */
  lemma StrayRevokes(cfg: Config, fallback: string) returns (s: Sys)
    requires fallback in cfg.fallbacks && fallback != cfg.subject
    ensures Reaches(cfg, s) && s.row == Some(Stored("second", 1)) && |s.deletions| == 1
    ensures 1 in s.workers && s.workers[1] == Reading(TokenRefresh, cfg.subject, Stored("first", 1))
  {
    var s0 := StrayStarts(cfg, fallback);
    ReachesNext(cfg, s0, Acquire(0));
    var s1 := Next(cfg, s0, Acquire(0));
    ReachesNext(cfg, s1, Read(0));
    var s2 := Next(cfg, s1, Read(0));
    ReachesNext(cfg, s2, Delete(0));
    var s3 := WithDelete(s2, 0);
    ReachesNext(cfg, s3, Login("second", []));
    s := s3.(row := Some(Stored("second", 1)));
  }

  /** The refresh, refused for the first credential, then deletes the second: both are of generation 1. */
  lemma StrayDeletesNewer(cfg: Config, fallback: string) returns (s: Sys)
    requires fallback in cfg.fallbacks && fallback != cfg.subject
    ensures Reaches(cfg, s) && Deletion(TokenRefresh, Stored("first", 1), Stored("second", 1)) in s.deletions
  {
    var before := StrayRevokes(cfg, fallback);
    ReachesNext(cfg, before, Delete(1));
    s := WithDelete(before, 1);
    assert s.deletions[1] == Deletion(TokenRefresh, Stored("first", 1), Stored("second", 1));
  }

  function Dropped(cfg: Config): Worker {
    Orphaned(TokenRefresh, cfg.subject, Stored("first", 1), Stored("first", 1))
  }

  /** A refused refresh is dropped over its deletion. */
  lemma DropStarts(cfg: Config) returns (s: Sys)
    requires cfg.drops
    ensures Reaches(cfg, s) && s == Sys(Some(Stored("first", 1)), map[], map[1 := Dropped(cfg)], [])
  {
    var s1 := FirstLogin(cfg);
    var s2 := ReadsUnderLock(cfg, s1, 1, TokenRefresh);
    assert s2.workers == map[1 := Reading(TokenRefresh, cfg.subject, Stored("first", 1))];
    ReachesNext(cfg, s2, Drop(1));
    s := WithDrop(s2, 1);
    assert s.locks == map[] && s.workers == map[1 := Dropped(cfg)];
  }

  /** A revocation and a second login get in before it. */
  lemma DropRevokes(cfg: Config) returns (s: Sys)
    requires cfg.drops
    ensures Reaches(cfg, s) && s.row == Some(Stored("first", 1)) && s.deletions == []
    ensures s.locks == map[cfg.subject := 0]
    ensures s.workers == map[1 := Dropped(cfg), 0 := Reading(Revocation, cfg.subject, Stored("first", 1))]
  {
    var before := DropStarts(cfg);
    s := ReadsUnderLock(cfg, before, 0, Revocation);
    assert s.workers == map[1 := Dropped(cfg), 0 := Reading(Revocation, cfg.subject, Stored("first", 1))];
  }

  lemma DropDeletesNewer(cfg: Config) returns (s: Sys)
    requires cfg.drops
    ensures Reaches(cfg, s) && Deletion(TokenRefresh, Stored("first", 1), Stored("second", 1)) in s.deletions
  {
    var s0 := DropRevokes(cfg);
    ReachesNext(cfg, s0, Delete(0));
    var s1 := WithDelete(s0, 0);
    ReachesNext(cfg, s1, Login("second", []));
    var s2 := s1.(row := Some(Stored("second", 1)));
    ReachesNext(cfg, s2, Delete(1));
    s := WithDelete(s2, 1);
    assert s.deletions[1] == Deletion(TokenRefresh, Stored("first", 1), Stored("second", 1));
  }

  /**
   * The lock protects token grants in every run if and only if no upstream can fall
   * back on another key and no handler can be dropped over a queued statement.
   */
  lemma ProtectedExactly(cfg: Config)
    ensures GrantsDeleteOnlyRefused(cfg) <==> Guarded(cfg)
  {
    if Guarded(cfg) {
      forall s | Reaches(cfg, s) ensures forall d :: d in s.deletions && d.job.TokenRefresh? ==> d.gone == d.read {
        LockProtects(cfg, s);
      }
    } else {
      var s;
      if cfg.drops {
        s := DropDeletesNewer(cfg);
      } else {
        var fallback :| fallback in cfg.fallbacks && fallback != cfg.subject;
        s := StrayDeletesNewer(cfg, fallback);
      }
      assert Stored("first", 1).refreshToken != Stored("second", 1).refreshToken;
    }
  }

  /**
   * An outbound refresh reads the row again after the refusal and deletes that, a newer
   * one if a login came in between.
   */
  lemma OutboundDeletesNewer(cfg: Config) returns (s: Sys)
    ensures Reaches(cfg, s) && s.deletions == [Deletion(OutboundRefresh, Stored("first", 1), Stored("second", 2))]
  {
    var s1 := FirstLogin(cfg);
    var s2 := ReadsUnderLock(cfg, s1, 0, OutboundRefresh);
    s := OutboundCondemns(cfg, s2);
  }

  lemma OutboundCondemns(cfg: Config, before: Sys) returns (s: Sys)
    requires Reaches(cfg, before) && before.row == Some(Stored("first", 1)) && before.deletions == []
    requires before.workers == map[0 := Reading(OutboundRefresh, cfg.subject, Stored("first", 1))]
    ensures Reaches(cfg, s) && s.deletions == [Deletion(OutboundRefresh, Stored("first", 1), Stored("second", 2))]
  {
    ReachesNext(cfg, before, Login("second", []));
    var s1 := before.(row := Some(Stored("second", 2)));
    ReachesNext(cfg, s1, Reread(0));
    var s2 := Next(cfg, s1, Reread(0));
    ReachesNext(cfg, s2, Delete(0));
    s := WithDelete(s2, 0);
  }

  /**
   * Before the delete: if it is going to hit, what it hits is the credential that was
   * refused if and only if the two reads saw the same generation.
   */
  lemma OutboundDeletesRefusedExactly(cfg: Config, s: Sys, pid: nat)
    requires Guarded(cfg) && Reaches(cfg, s) && pid in s.workers && s.workers[pid].Condemning?
    requires Invalidates(s.row, s.workers[pid].current.generation)
    ensures var w := s.workers[pid];
            && (s.row == Some(w.read) <==> w.current.generation == w.read.generation)
            && w.read.generation <= w.current.generation
            && s.row == Some(w.current)
  {
    var steps :| RunFrom(cfg, INITIAL, steps) == Some(s);
    RunKeepsInv(cfg, INITIAL, steps);
  }
}

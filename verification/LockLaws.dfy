/**
 * What the credential lock grants, as opposed to what it protects: it is free
 * exactly when no job is inside it, every waiting job can get it, a missed
 * deletion is tried again and a refreshed credential is stored.
 */
module LockLaws {
  import opened Basics
  import opened CredentialRefresh
  import opened CredentialLock
  import GoogleScopes

  // ---- The table of locks ----------------------------------------------------------------------

  /** The job is inside the lock of that key. */
  predicate Inside(s: Sys, pid: nat, key: string) {
    pid in s.workers && Locked(s.workers[pid]) && s.workers[pid].key == key
  }

  /** The table names the job that is inside each lock, and nothing else. */
  ghost predicate TableRight(s: Sys) {
    forall key, pid :: Inside(s, pid, key) <==> key in s.locks && s.locks[key] == pid
  }

  lemma DoneKeepsTable(s: Sys, pid: nat)
    requires TableRight(s) && pid in s.workers
    ensures TableRight(Done(s, pid))
  {
    var after, mine := Done(s, pid), s.workers[pid].key;
    forall key, p ensures Inside(after, p, key) <==> key in after.locks && after.locks[key] == p {
      assert Inside(s, p, key) <==> key in s.locks && s.locks[key] == p;
      assert Inside(s, pid, mine) <==> mine in s.locks && s.locks[mine] == pid;
      assert Inside(s, pid, key) <==> key in s.locks && s.locks[key] == pid;
    }
  }

  /** A job changes what it has in hand and stays where it is. */
  lemma MoveKeepsTable(s: Sys, pid: nat, w: Worker)
    requires TableRight(s) && pid in s.workers && w.key == s.workers[pid].key && Locked(w) && Locked(s.workers[pid])
    ensures TableRight(s.(workers := s.workers[pid := w]))
  {
    var after := s.(workers := s.workers[pid := w]);
    forall key, p ensures Inside(after, p, key) <==> Inside(s, p, key) {
    }
  }

  /** A job waits, or has been dropped: it is inside no lock. */
  lemma OutsideKeepsTable(s: Sys, pid: nat, w: Worker)
    requires TableRight(s) && !Locked(w) && (pid in s.workers ==> !Locked(s.workers[pid]))
    ensures TableRight(s.(workers := s.workers[pid := w]))
  {
    var after := s.(workers := s.workers[pid := w]);
    forall key, p ensures Inside(after, p, key) <==> Inside(s, p, key) {
    }
  }

  lemma AcquireKeepsTable(cfg: Config, s: Sys, pid: nat)
    requires TableRight(s) && Can(cfg, s, Acquire(pid))
    ensures TableRight(Next(cfg, s, Acquire(pid)))
  {
    var after, mine := Next(cfg, s, Acquire(pid)), s.workers[pid].key;
    forall key, p ensures Inside(after, p, key) <==> key in after.locks && after.locks[key] == p {
      assert Inside(s, p, key) <==> key in s.locks && s.locks[key] == p;
    }
  }

  lemma DropKeepsTable(s: Sys, pid: nat)
    requires TableRight(s) && pid in s.workers && Deleting(s.workers[pid])
    ensures TableRight(WithDrop(s, pid))
  {
    var after, mine := WithDrop(s, pid), s.workers[pid].key;
    forall key, p ensures Inside(after, p, key) <==> key in after.locks && after.locks[key] == p {
      assert Inside(s, p, key) <==> key in s.locks && s.locks[key] == p;
      assert Inside(s, pid, mine) <==> mine in s.locks && s.locks[mine] == pid;
    }
  }

  lemma RowAside(s: Sys, row: Row, deletions: seq<Deletion>)
    requires TableRight(s)
    ensures TableRight(s.(row := row, deletions := deletions))
  {
    forall key, p ensures Inside(s.(row := row, deletions := deletions), p, key) <==> Inside(s, p, key) {
    }
  }

  lemma DeleteKeepsTable(s: Sys, pid: nat)
    requires TableRight(s) && pid in s.workers && (Deleting(s.workers[pid]) || s.workers[pid].Orphaned?)
    ensures TableRight(WithDelete(s, pid))
  {
    var w := s.workers[pid];
    if Invalidates(s.row, Target(w).generation) {
      var deletions := s.deletions + [Deletion(w.job, w.read, s.row.value)];
      RowAside(s, None, deletions);
      DoneKeepsTable(s.(row := None, deletions := deletions), pid);
    } else if w.Orphaned? {
      DoneKeepsTable(s, pid);
    } else {
      MoveKeepsTable(s, pid, Holding(w.job, w.key));
    }
  }

  lemma StepKeepsTable(cfg: Config, s: Sys, a: Step)
    requires TableRight(s) && Can(cfg, s, a)
    ensures TableRight(Next(cfg, s, a))
  {
    match a
    case Login(token, scopes) => RowAside(s, Upsert(s.row, token, scopes), s.deletions);
    case Start(pid, job, fallback) => OutsideKeepsTable(s, pid, Waiting(job, KeyFor(cfg, s, job, fallback)));
    case Acquire(pid) => AcquireKeepsTable(cfg, s, pid);
    case Read(pid) =>
      MoveKeepsTable(s, pid, Reading(s.workers[pid].job, s.workers[pid].key, s.row.value));
    case Install(pid, token, scopes) =>
      RowAside(s, Upsert(s.row, token, scopes), s.deletions);
      DoneKeepsTable(s.(row := Upsert(s.row, token, scopes)), pid);
    case Delete(pid) => DeleteKeepsTable(s, pid);
    case Drop(pid) => DropKeepsTable(s, pid);
    case Reread(pid) =>
      var w := s.workers[pid];
      MoveKeepsTable(s, pid, Condemning(w.job, w.key, w.read, s.row.value));
    case Finish(pid) => DoneKeepsTable(s, pid);
  }

  lemma {:induction false} RunKeepsTable(cfg: Config, s: Sys, steps: seq<Step>)
    requires TableRight(s) && RunFrom(cfg, s, steps).Some?
    ensures TableRight(RunFrom(cfg, s, steps).value)
    decreases |steps|
  {
    if steps != [] {
      StepKeepsTable(cfg, s, steps[0]);
      RunKeepsTable(cfg, Next(cfg, s, steps[0]), steps[1..]);
    }
  }

  /** In every run, whatever the keys and however handlers are dropped, a lock has at most one job inside ... */
  lemma OneInside(cfg: Config, s: Sys, key: string, p: nat, q: nat)
    requires Reaches(cfg, s) && Inside(s, p, key) && Inside(s, q, key)
    ensures p == q
  {
    ReachedTable(cfg, s);
  }

  lemma ReachedTable(cfg: Config, s: Sys)
    requires Reaches(cfg, s)
    ensures TableRight(s)
  {
    var steps :| RunFrom(cfg, INITIAL, steps) == Some(s);
    RunKeepsTable(cfg, INITIAL, steps);
  }

  /** ... and a waiting job gets it if and only if no job is inside. */
  lemma AcquiresExactly(cfg: Config, s: Sys, pid: nat)
    requires Reaches(cfg, s) && pid in s.workers && s.workers[pid].Waiting?
    ensures Can(cfg, s, Acquire(pid)) <==> !exists p :: Inside(s, p, s.workers[pid].key)
    ensures Can(cfg, s, Acquire(pid)) ==>
              var after := Next(cfg, s, Acquire(pid));
              after.row == s.row && Inside(after, pid, s.workers[pid].key) && after.workers[pid].Holding?
  {
    ReachedTable(cfg, s);
    var key := s.workers[pid].key;
    if key in s.locks {
      assert Inside(s, s.locks[key], key);
    }
  }

  /** `pid` waits for the lock that `p` is inside. */
  predicate WaitsFor(s: Sys, pid: nat, p: nat) {
    pid in s.workers && s.workers[pid].Waiting? && Inside(s, p, s.workers[pid].key)
  }

  lemma DoneFrees(cfg: Config, s: Sys, pid: nat, p: nat)
    requires WaitsFor(s, pid, p)
    ensures Can(cfg, Done(s, p), Acquire(pid))
  {
  }

  /** No lock is ever stuck: the job inside can always end, and a waiting one can then go in ... */
  lemma NeverStuck(cfg: Config, s: Sys, pid: nat, p: nat)
    requires WaitsFor(s, pid, p)
    ensures Can(cfg, s, Finish(p)) && Can(cfg, Next(cfg, s, Finish(p)), Acquire(pid))
  {
    DoneFrees(cfg, s, pid, p);
  }

  /** ... as it can when that job stores a credential, deletes one or is dropped. */
  lemma WorkFrees(cfg: Config, s: Sys, pid: nat, p: nat, a: Step)
    requires WaitsFor(s, pid, p) && Can(cfg, s, a) && IsStepOf(a, p)
    requires a.Install? || a.Drop? || (a.Delete? && Next(cfg, s, a).row != s.row)
    ensures Can(cfg, Next(cfg, s, a), Acquire(pid))
  {
    match a
    case Install(_, token, scopes) => DoneFrees(cfg, s.(row := Upsert(s.row, token, scopes)), pid, p);
    case Drop(_) => DropFrees(cfg, s, pid, p);
    case Delete(_) => DeleteFrees(cfg, s, pid, p);
  }

  lemma DropFrees(cfg: Config, s: Sys, pid: nat, p: nat)
    requires WaitsFor(s, pid, p) && Deleting(s.workers[p])
    ensures Can(cfg, WithDrop(s, p), Acquire(pid))
  {
  }

  lemma DeleteFrees(cfg: Config, s: Sys, pid: nat, p: nat)
    requires WaitsFor(s, pid, p) && Deleting(s.workers[p]) && WithDelete(s, p).row != s.row
    ensures Can(cfg, WithDelete(s, p), Acquire(pid))
  {
    var w := s.workers[p];
    DoneFrees(cfg, s.(row := None, deletions := s.deletions + [Deletion(w.job, w.read, s.row.value)]), pid, p);
  }

  // ---- What a job does with the row -------------------------------------------------------------

  /** A job in its lock can read exactly what is stored. */
  lemma ReadsExactly(cfg: Config, s: Sys, pid: nat)
    requires pid in s.workers && s.workers[pid].Holding?
    ensures Can(cfg, s, Read(pid)) <==> s.row.Some?
    ensures Can(cfg, s, Read(pid)) ==>
              var after := Next(cfg, s, Read(pid));
              after.workers[pid].Reading? && after.workers[pid].read == s.row.value && after.row == s.row
  {
  }

  /** A refresh of either kind stores what it was given, once each, under the next generation, and is over. */
  lemma InstallsExactly(cfg: Config, s: Sys, pid: nat, token: string, scopes: seq<string>)
    requires pid in s.workers && s.workers[pid].Reading?
    ensures Can(cfg, s, Step.Install(pid, token, scopes)) <==> s.workers[pid].job != Revocation
    ensures Can(cfg, s, Step.Install(pid, token, scopes)) ==>
              var after := Next(cfg, s, Step.Install(pid, token, scopes));
              && pid !in after.workers && after.deletions == s.deletions
              && after.row.Some? && after.row.value.refreshToken == token
              && after.row.value.generation == (if s.row.Some? then s.row.value.generation + 1 else 1)
              && forall x :: x in after.row.value.scopes <==> x in GoogleScopes.Names(scopes)
  {
    GoogleScopes.MergeIsUnion([], scopes);
  }

  /**
   * Compare and delete: what is stored goes if and only if it is of the generation in
   * hand, and otherwise the job is back in its lock with everything else unchanged.
   */
  lemma DeletesExactly(cfg: Config, s: Sys, pid: nat)
    requires pid in s.workers && Deleting(s.workers[pid])
    ensures Can(cfg, s, Delete(pid))
    ensures var w, after := s.workers[pid], Next(cfg, s, Delete(pid));
            var generation := if w.Condemning? then w.current.generation else w.read.generation;
            if s.row.Some? && s.row.value.generation == generation then
              && after.row == None && pid !in after.workers
              && after.deletions == s.deletions + [Deletion(w.job, w.read, s.row.value)]
            else
              after == s.(workers := s.workers[pid := Holding(w.job, w.key)])
  {
  }

  /** A dropped job's deletion still does the same, and the job is over either way. */
  lemma QueuedExactly(cfg: Config, s: Sys, pid: nat)
    requires cfg.drops && pid in s.workers && Deleting(s.workers[pid])
    ensures Can(cfg, s, Drop(pid)) && Can(cfg, Next(cfg, s, Drop(pid)), Delete(pid))
    ensures var w, after := s.workers[pid], Next(cfg, Next(cfg, s, Drop(pid)), Delete(pid));
            var generation := if w.Condemning? then w.current.generation else w.read.generation;
            && pid !in after.workers
            && (if s.row.Some? && s.row.value.generation == generation then
                  after.row == None && after.deletions == s.deletions + [Deletion(w.job, w.read, s.row.value)]
                else
                  after.row == s.row && after.deletions == s.deletions)
  {
  }
}

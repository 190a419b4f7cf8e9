/**
 * Properties of how a run goes on: what is recorded stays recorded, nothing is
 * taken twice, and a lease is exclusive.
 */
module AuthRuns {
  import opened Basics
  import opened AuthStore
  import opened AuthProtocol
  import opened AuthSafety
  import opened AuthTheorems

  // ---- Records are permanent -----------------------------------------------------------------

  ghost predicate Grows(h: History, h': History) {
    && Extends(h.requests, h'.requests) && Extends(h.subjects, h'.subjects)
    && Extends(h.issued, h'.issued) && Extends(h.roots, h'.roots) && Extends(h.depths, h'.depths)
    && h.grants <= h'.grants
  }

  predicate FlowAction(a: Action) { a.InsertRequest? || a.TakeRequest? || a.Exchange? || a.InsertCode? }

  lemma FlowStepGrows(cfg: Config, s: Sys, a: Action)
    requires Can(cfg, s, a) && FlowAction(a) && Drawn(s) && CallbacksOwn(s)
    ensures Grows(s.hist, Next(cfg, s, a).hist)
  {
  }

  lemma CodeStepGrows(cfg: Config, s: Sys, a: Action)
    requires Can(cfg, s, a) && CodeAction(a) && !FlowAction(a) && Drawn(s)
    ensures Grows(s.hist, Next(cfg, s, a).hist)
  {
  }

  lemma TokenStepGrows(cfg: Config, s: Sys, a: Action)
    requires Can(cfg, s, a) && !CodeAction(a) && Drawn(s)
    ensures Grows(s.hist, Next(cfg, s, a).hist)
  {
  }

  lemma StepGrows(cfg: Config, s: Sys, a: Action)
    requires Can(cfg, s, a) && Inv(cfg, s)
    ensures Grows(s.hist, Next(cfg, s, a).hist)
  {
    if FlowAction(a) {
      FlowStepGrows(cfg, s, a);
    } else if CodeAction(a) {
      CodeStepGrows(cfg, s, a);
    } else {
      TokenStepGrows(cfg, s, a);
    }
  }

  lemma RunSplit(cfg: Config, actions: seq<Action>, a: Action)
    requires Run(cfg, actions + [a]).Some?
    ensures Run(cfg, actions).Some? && Can(cfg, Run(cfg, actions).value, a)
    ensures Run(cfg, actions + [a]).value == Next(cfg, Run(cfg, actions).value, a)
  {
    assert (actions + [a])[..|actions|] == actions;
  }

  /**
   * No request, subject, code or grant is ever overwritten in the record, so what the
   * grants are bound to is what was said first.
   */
  lemma {:induction false} RecordsPermanent(cfg: Config, actions: seq<Action>, more: seq<Action>)
    requires Run(cfg, actions + more).Some?
    ensures Run(cfg, actions).Some? && Grows(Run(cfg, actions).value.hist, Run(cfg, actions + more).value.hist)
    decreases |more|
  {
    if more == [] {
      assert actions + more == actions;
    } else {
      var n := |more| - 1;
      assert actions + more == (actions + more[..n]) + [more[n]];
      RunSplit(cfg, actions + more[..n], more[n]);
      RecordsPermanent(cfg, actions, more[..n]);
      RunKeepsInv(cfg, actions + more[..n]);
      StepGrows(cfg, Run(cfg, actions + more[..n]).value, more[n]);
    }
  }

  /** A token spent at some point of a run is not stored at any later point. */
  lemma SpentForGood(cfg: Config, actions: seq<Action>, more: seq<Action>, i: nat)
    requires Run(cfg, actions + more).Some? && Run(cfg, actions).Some? && i < |Run(cfg, actions).value.hist.grants|
    ensures var g, db := Run(cfg, actions).value.hist.grants[i], Run(cfg, actions + more).value.db;
            if g.ByCode? then g.code !in db.codes else g.token !in db.refresh
  {
    RecordsPermanent(cfg, actions, more);
    RunKeepsInv(cfg, actions + more);
    assert Run(cfg, actions + more).value.hist.grants[i] == Run(cfg, actions).value.hist.grants[i];
  }

  // ---- Taken once, whatever comes of it -----------------------------------------------------------

  /** A drawn identifier under which nothing is stored any more. */
  predicate GoneCode(s: Sys, key: string) { key in s.used && key !in s.db.codes }

  predicate GoneRequest(s: Sys, key: string) { key in s.used && key !in s.db.requests }

  lemma GoneCodeStep(cfg: Config, s: Sys, a: Action, key: string)
    requires Can(cfg, s, a) && GoneCode(s, key)
    ensures GoneCode(Next(cfg, s, a), key)
  {
  }

  lemma GoneRequestStep(cfg: Config, s: Sys, a: Action, key: string)
    requires Can(cfg, s, a) && GoneRequest(s, key)
    ensures GoneRequest(Next(cfg, s, a), key)
  {
  }

  lemma {:induction false} GoneRun(cfg: Config, actions: seq<Action>, more: seq<Action>, key: string)
    requires Run(cfg, actions + more).Some?
    ensures Run(cfg, actions).Some?
    ensures GoneCode(Run(cfg, actions).value, key) ==> GoneCode(Run(cfg, actions + more).value, key)
    ensures GoneRequest(Run(cfg, actions).value, key) ==> GoneRequest(Run(cfg, actions + more).value, key)
    decreases |more|
  {
    if more == [] {
      assert actions + more == actions;
    } else {
      var n := |more| - 1;
      assert actions + more == (actions + more[..n]) + [more[n]];
      RunSplit(cfg, actions + more[..n], more[n]);
      GoneRun(cfg, actions, more[..n], key);
      var before := Run(cfg, actions + more[..n]).value;
      if GoneCode(before, key) {
        GoneCodeStep(cfg, before, more[n], key);
      }
      if GoneRequest(before, key) {
        GoneRequestStep(cfg, before, more[n], key);
      }
    }
  }

  lemma TakeGone(cfg: Config, s: Sys, a: Action)
    requires Can(cfg, s, a) && Drawn(s)
    ensures a.Redeem? ==> GoneCode(Next(cfg, s, a), a.key)
    ensures a.TakeRequest? ==> GoneRequest(Next(cfg, s, a), a.key)
  {
  }

  /**
   * No code is redeemed twice, not even after a redemption that failed its checks, and no
   * request is called back twice.
   */
  lemma TakenOnce(cfg: Config, actions: seq<Action>, a: Action, more: seq<Action>, b: Action)
    requires Run(cfg, actions + [a] + more + [b]).Some?
    ensures a.Redeem? && b.Redeem? ==> a.key != b.key
    ensures a.TakeRequest? && b.TakeRequest? ==> a.key != b.key
  {
    RunSplit(cfg, actions + [a] + more, b);
    if (a.Redeem? && b.Redeem?) || (a.TakeRequest? && b.TakeRequest?) {
      GoneRun(cfg, actions + [a], more, a.key);
      RunSplit(cfg, actions, a);
      RunKeepsInv(cfg, actions);
      TakeGone(cfg, Run(cfg, actions).value, a);
    }
  }

  // ---- Leases ----------------------------------------------------------------------------------

  ghost predicate LeasesDistinct(s: Sys) {
    && (forall p :: p in s.handlers && HoldsToken(s.handlers[p]) ==> s.handlers[p].claimId in s.used)
    && (forall p, q ::
          p in s.handlers && q in s.handlers && p != q && HoldsToken(s.handlers[p]) && HoldsToken(s.handlers[q]) ==>
            s.handlers[p].claimId != s.handlers[q].claimId)
  }

  lemma LeasesTokenStep(cfg: Config, s: Sys, a: Action)
    requires Can(cfg, s, a) && TokenAction(a) && LeasesDistinct(s)
    ensures LeasesDistinct(Next(cfg, s, a))
  {
  }

  lemma LeasesCodeStep(cfg: Config, s: Sys, a: Action)
    requires Can(cfg, s, a) && CodeAction(a) && LeasesDistinct(s)
    ensures LeasesDistinct(Next(cfg, s, a))
  {
  }

  lemma LeasesOtherStep(cfg: Config, s: Sys, a: Action)
    requires Can(cfg, s, a) && !TokenAction(a) && !CodeAction(a) && LeasesDistinct(s)
    ensures LeasesDistinct(Next(cfg, s, a))
  {
  }

  lemma LeasesStep(cfg: Config, s: Sys, a: Action)
    requires Can(cfg, s, a) && LeasesDistinct(s)
    ensures LeasesDistinct(Next(cfg, s, a))
  {
    if TokenAction(a) {
      LeasesTokenStep(cfg, s, a);
    } else if CodeAction(a) {
      LeasesCodeStep(cfg, s, a);
    } else {
      LeasesOtherStep(cfg, s, a);
    }
  }

  lemma {:induction false} RunKeepsLeases(cfg: Config, actions: seq<Action>)
    requires Run(cfg, actions).Some?
    ensures LeasesDistinct(Run(cfg, actions).value)
    decreases |actions|
  {
    if actions != [] {
      var init := actions[..|actions| - 1];
      RunKeepsLeases(cfg, init);
      LeasesStep(cfg, Run(cfg, init).value, actions[|actions| - 1]);
    }
  }

  predicate HoldsLease(s: Sys, p: nat, token: string) {
    && p in s.handlers && HoldsToken(s.handlers[p]) && s.handlers[p].token == token
    && Owns(s.db.refresh, token, s.handlers[p].claimId) && s.db.refresh[token].data.claim.value.expiresAt > s.now
  }

  /** At most one handler holds the lease of a token, and while one does nobody else can claim the token. */
  lemma LeaseExclusive(cfg: Config, s: Sys, p: nat, q: nat, token: string)
    requires Reaches(cfg, s) && HoldsLease(s, p, token)
    ensures !Claimable(s.db.refresh, token, s.now) && (HoldsLease(s, q, token) ==> q == p)
  {
    var actions :| Run(cfg, actions) == Some(s);
    RunKeepsLeases(cfg, actions);
  }

  /** A rotation answers exactly when its handler still holds the lease of a token that has not expired. */
  lemma RotationAnswersExactly(cfg: Config, s: Sys, p: nat, key: string)
    requires Reaches(cfg, s) && Can(cfg, s, Rotate(p, key))
    ensures var s', token := Next(cfg, s, Rotate(p, key)), s.handlers[p].token;
            |s'.hist.grants| == |s.hist.grants| + 1 <==>
                HoldsLease(s, p, token) && s.db.refresh[token].expiresAt > s.now
  {
    ReachesInv(cfg, s);
  }
}

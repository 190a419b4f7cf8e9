/**
 * When an invalidation stops its subject. It deletes the credential and every
 * code and refresh token of the subject, but not what handlers have in hand: one
 * may be past its credential check, and one may write a credential back that it
 * found before.
 */
module AuthRevocation {
  import opened Basics
  import opened AuthStore
  import opened AuthProtocol
  import opened AuthSafety
  import opened AuthTheorems
  import opened AuthRuns
  import AuthLineage
  import PendingCapacity

  // ---- What handlers have in hand ----------------------------------------------------------------

  /** Has seen the credential of the subject and will answer without looking again. */
  predicate Answering(h: Handler, subject: string) {
    (h.Cleared? || h.Stored?) && h.row.subject == subject
  }

  /** Has found the credential of the subject and may write it back. */
  predicate LookingFor(h: Handler, subject: string) {
    h.Looking? && h.held.subject == subject
  }

  /** Some verifier answers the challenge, and a code lives long enough to be shown. */
  ghost predicate Redeemable(cfg: Config, challenge: string) {
    cfg.codeTtl >= 1 && exists v :: cfg.pkce(v) == challenge
  }

  /** Has a code of the subject, or will get one that can be redeemed. */
  ghost predicate WithCodeFor(cfg: Config, h: Handler, subject: string) {
    || (h.Redeemed? && h.row.subject == subject)
    || (h.Exchanged? && h.subject == subject && Redeemable(cfg, h.request.codeChallenge))
  }

  ghost predicate NobodyAnswering(s: Sys, subject: string) {
    forall p :: p in s.handlers ==> !Answering(s.handlers[p], subject)
  }

  ghost predicate NobodyLooking(s: Sys, subject: string) {
    forall p :: p in s.handlers ==> !LookingFor(s.handlers[p], subject)
  }

  ghost predicate NobodyWithCode(cfg: Config, s: Sys, subject: string) {
    forall p :: p in s.handlers ==> !WithCodeFor(cfg, s.handlers[p], subject)
  }

  ghost predicate NoTokens(s: Sys, subject: string) {
    forall t :: t in s.db.refresh ==> s.db.refresh[t].data.subject != subject
  }

  /** What an invalidation leaves. */
  ghost predicate Wiped(s: Sys, subject: string) {
    && subject !in s.db.credentials && NoTokens(s, subject)
    && forall c :: c in s.db.codes ==> s.db.codes[c].data.subject != subject
  }

  ghost predicate NoneFor(grants: seq<Grant>, from: nat, subject: string) {
    forall i :: from <= i < |grants| ==> grants[i].response.subject != subject
  }

  predicate LogsIn(a: Action, subject: string) { a.Exchange? && a.subject == subject }

  ghost predicate NoLogin(more: seq<Action>, subject: string) {
    forall i :: 0 <= i < |more| ==> !LogsIn(more[i], subject)
  }

  // ---- Two ways to stay silent -----------------------------------------------------------------

  /** No credential, and nobody to bring it back or to do without it. */
  ghost predicate Barred(s: Sys, subject: string) {
    subject !in s.db.credentials && NoTokens(s, subject) && NobodyAnswering(s, subject) && NobodyLooking(s, subject)
  }

  /** No code of the subject that could still be redeemed. */
  ghost predicate DeadCodes(cfg: Config, s: Sys, subject: string) {
    forall c :: c in s.db.codes && s.db.codes[c].data.subject == subject ==>
      s.db.codes[c].expiresAt <= s.now || forall v :: cfg.pkce(v) != s.db.codes[c].data.codeChallenge
  }

  /** Nothing to present: no code, no token, and nobody who holds or will get one. */
  ghost predicate Spent(cfg: Config, s: Sys, subject: string) {
    DeadCodes(cfg, s, subject) && NoTokens(s, subject) && NobodyAnswering(s, subject) && NobodyWithCode(cfg, s, subject)
  }

  ghost predicate Silent(cfg: Config, s: Sys, subject: string) {
    Barred(s, subject) || Spent(cfg, s, subject)
  }

  ghost predicate NoNewsFor(s: Sys, s': Sys, subject: string) {
    s.hist.grants <= s'.hist.grants && NoneFor(s'.hist.grants, |s.hist.grants|, subject)
  }

  predicate AnsweringAction(a: Action) { a.CheckCredential? || a.StoreRefresh? || a.RespondCode? }

  /** The token rotated is stored, so it is not the subject's, and neither is its successor. */
  lemma RotationNoTokens(cfg: Config, s: Sys, p: nat, key: string, subject: string)
    requires p in s.handlers && s.handlers[p].Renewed? && NoTokens(s, subject)
    requires TokensCarry(cfg, s) && HoldersCarry(cfg, s)
    ensures NoTokens(WithRotation(cfg, s, p, key), subject) && NoNewsFor(s, WithRotation(cfg, s, p, key), subject)
  {
    var h := s.handlers[p];
    if h.token in s.db.refresh {
      assert h.held.subject == s.db.refresh[h.token].data.subject;
    }
  }

  lemma BarredRequests(cfg: Config, s: Sys, a: Action, subject: string)
    requires Can(cfg, s, a) && (a.InsertRequest? || a.TakeRequest?) && Barred(s, subject)
    ensures Barred(Next(cfg, s, a), subject) && NoNewsFor(s, Next(cfg, s, a), subject)
  {
  }

  lemma BarredCallbacks(cfg: Config, s: Sys, a: Action, subject: string)
    requires Can(cfg, s, a) && (a.Exchange? || a.InsertCode?) && !LogsIn(a, subject) && Barred(s, subject)
    ensures Barred(Next(cfg, s, a), subject) && NoNewsFor(s, Next(cfg, s, a), subject)
  {
  }

  lemma BarredRedemption(cfg: Config, s: Sys, pid: nat, key: string, shown: Shown, subject: string)
    requires pid !in s.handlers && Take(s.db.codes, key, s.now).1.Some? && Barred(s, subject)
    ensures var s' := WithRedemption(cfg, s, pid, key, shown); Barred(s', subject) && NoNewsFor(s, s', subject)
  {
  }

  lemma BarredAnswers(cfg: Config, s: Sys, a: Action, subject: string)
    requires Can(cfg, s, a) && AnsweringAction(a) && Barred(s, subject)
    ensures Barred(Next(cfg, s, a), subject) && NoNewsFor(s, Next(cfg, s, a), subject)
  {
  }

  lemma BarredLeases(cfg: Config, s: Sys, a: Action, subject: string)
    requires Can(cfg, s, a) && (a.Claim? || a.Release?) && Barred(s, subject)
    ensures Barred(Next(cfg, s, a), subject) && NoNewsFor(s, Next(cfg, s, a), subject)
  {
  }

  lemma BarredLooks(cfg: Config, s: Sys, a: Action, subject: string)
    requires Can(cfg, s, a) && (a.Look? || a.Renew? || a.Condemn?) && Barred(s, subject)
    ensures Barred(Next(cfg, s, a), subject) && NoNewsFor(s, Next(cfg, s, a), subject)
  {
  }

  lemma BarredRotation(cfg: Config, s: Sys, p: nat, key: string, subject: string)
    requires p in s.handlers && s.handlers[p].Renewed? && Barred(s, subject)
    requires TokensCarry(cfg, s) && HoldersCarry(cfg, s)
    ensures var s' := WithRotation(cfg, s, p, key); Barred(s', subject) && NoNewsFor(s, s', subject)
  {
    RotationNoTokens(cfg, s, p, key, subject);
  }

  lemma BarredOthers(cfg: Config, s: Sys, a: Action, subject: string)
    requires Can(cfg, s, a) && !CodeAction(a) && !TokenAction(a) && Barred(s, subject)
    ensures Barred(Next(cfg, s, a), subject) && NoNewsFor(s, Next(cfg, s, a), subject)
  {
  }

  lemma BarredStep(cfg: Config, s: Sys, a: Action, subject: string)
    requires Can(cfg, s, a) && Inv(cfg, s) && Barred(s, subject) && !LogsIn(a, subject)
    ensures Barred(Next(cfg, s, a), subject) && NoNewsFor(s, Next(cfg, s, a), subject)
  {
    if AnsweringAction(a) {
      BarredAnswers(cfg, s, a, subject);
    } else if a.Redeem? {
      BarredRedemption(cfg, s, a.pid, a.key, a.shown, subject);
    } else if a.Exchange? || a.InsertCode? {
      BarredCallbacks(cfg, s, a, subject);
    } else if CodeAction(a) {
      BarredRequests(cfg, s, a, subject);
    } else if a.Rotate? {
      BarredRotation(cfg, s, a.pid, a.key, subject);
    } else if a.Claim? || a.Release? {
      BarredLeases(cfg, s, a, subject);
    } else if TokenAction(a) {
      BarredLooks(cfg, s, a, subject);
    } else {
      BarredOthers(cfg, s, a, subject);
    }
  }

  lemma SpentRequests(cfg: Config, s: Sys, a: Action, subject: string)
    requires Can(cfg, s, a) && (a.InsertRequest? || a.TakeRequest?) && Spent(cfg, s, subject)
    ensures Spent(cfg, Next(cfg, s, a), subject) && NoNewsFor(s, Next(cfg, s, a), subject)
  {
  }

  lemma SpentCallbacks(cfg: Config, s: Sys, a: Action, subject: string)
    requires Can(cfg, s, a) && (a.Exchange? || a.InsertCode?) && !LogsIn(a, subject) && Spent(cfg, s, subject)
    ensures Spent(cfg, Next(cfg, s, a), subject) && NoNewsFor(s, Next(cfg, s, a), subject)
  {
  }

  /** A code of the subject is dead: it is not found, or what is shown with it does not verify. */
  lemma SpentRedemption(cfg: Config, s: Sys, pid: nat, key: string, shown: Shown, subject: string)
    requires pid !in s.handlers && Take(s.db.codes, key, s.now).1.Some? && Spent(cfg, s, subject)
    ensures var s' := WithRedemption(cfg, s, pid, key, shown); Spent(cfg, s', subject) && NoNewsFor(s, s', subject)
  {
  }

  lemma SpentAnswers(cfg: Config, s: Sys, a: Action, subject: string)
    requires Can(cfg, s, a) && AnsweringAction(a) && Spent(cfg, s, subject)
    ensures Spent(cfg, Next(cfg, s, a), subject) && NoNewsFor(s, Next(cfg, s, a), subject)
  {
  }

  lemma SpentLeases(cfg: Config, s: Sys, a: Action, subject: string)
    requires Can(cfg, s, a) && (a.Claim? || a.Release?) && Spent(cfg, s, subject)
    ensures Spent(cfg, Next(cfg, s, a), subject) && NoNewsFor(s, Next(cfg, s, a), subject)
  {
  }

  lemma SpentLooks(cfg: Config, s: Sys, a: Action, subject: string)
    requires Can(cfg, s, a) && (a.Look? || a.Renew? || a.Condemn?) && Spent(cfg, s, subject)
    ensures Spent(cfg, Next(cfg, s, a), subject) && NoNewsFor(s, Next(cfg, s, a), subject)
  {
  }

  lemma SpentRotation(cfg: Config, s: Sys, p: nat, key: string, subject: string)
    requires p in s.handlers && s.handlers[p].Renewed? && Spent(cfg, s, subject)
    requires TokensCarry(cfg, s) && HoldersCarry(cfg, s)
    ensures var s' := WithRotation(cfg, s, p, key); Spent(cfg, s', subject) && NoNewsFor(s, s', subject)
  {
    RotationNoTokens(cfg, s, p, key, subject);
  }

  lemma SpentOthers(cfg: Config, s: Sys, a: Action, subject: string)
    requires Can(cfg, s, a) && !CodeAction(a) && !TokenAction(a) && Spent(cfg, s, subject)
    ensures Spent(cfg, Next(cfg, s, a), subject) && NoNewsFor(s, Next(cfg, s, a), subject)
  {
  }

  lemma SpentStep(cfg: Config, s: Sys, a: Action, subject: string)
    requires Can(cfg, s, a) && Inv(cfg, s) && Spent(cfg, s, subject) && !LogsIn(a, subject)
    ensures Spent(cfg, Next(cfg, s, a), subject) && NoNewsFor(s, Next(cfg, s, a), subject)
  {
    if AnsweringAction(a) {
      SpentAnswers(cfg, s, a, subject);
    } else if a.Redeem? {
      SpentRedemption(cfg, s, a.pid, a.key, a.shown, subject);
    } else if a.Exchange? || a.InsertCode? {
      SpentCallbacks(cfg, s, a, subject);
    } else if CodeAction(a) {
      SpentRequests(cfg, s, a, subject);
    } else if a.Rotate? {
      SpentRotation(cfg, s, a.pid, a.key, subject);
    } else if a.Claim? || a.Release? {
      SpentLeases(cfg, s, a, subject);
    } else if TokenAction(a) {
      SpentLooks(cfg, s, a, subject);
    } else {
      SpentOthers(cfg, s, a, subject);
    }
  }

  lemma SilentStep(cfg: Config, s: Sys, a: Action, subject: string)
    requires Can(cfg, s, a) && Inv(cfg, s) && Silent(cfg, s, subject) && !LogsIn(a, subject)
    ensures Silent(cfg, Next(cfg, s, a), subject) && NoNewsFor(s, Next(cfg, s, a), subject)
  {
    if Barred(s, subject) {
      BarredStep(cfg, s, a, subject);
    } else {
      SpentStep(cfg, s, a, subject);
    }
  }

  /** Silence of either kind lasts over any run without a login. */
  lemma {:induction false} SilentRun(cfg: Config, actions: seq<Action>, more: seq<Action>, subject: string)
    requires Run(cfg, actions).Some? && Run(cfg, actions + more).Some? && Silent(cfg, Run(cfg, actions).value, subject)
    requires NoLogin(more, subject)
    ensures Silent(cfg, Run(cfg, actions + more).value, subject)
    ensures NoNewsFor(Run(cfg, actions).value, Run(cfg, actions + more).value, subject)
    decreases |more|
  {
    if more == [] {
      assert actions + more == actions;
    } else {
      var n := |more| - 1;
      assert actions + more == (actions + more[..n]) + [more[n]];
      RunSplit(cfg, actions + more[..n], more[n]);
      SilentRun(cfg, actions, more[..n], subject);
      RunKeepsInv(cfg, actions + more[..n]);
      SilentStep(cfg, Run(cfg, actions + more[..n]).value, more[n], subject);
    }
  }

  // ---- Silent exactly when ------------------------------------------------------------------------

  /** The run gives a token for the subject after its first `n` responses. */
  ghost predicate Answered(cfg: Config, actions: seq<Action>, n: nat, subject: string) {
    Run(cfg, actions).Some? && !NoneFor(Run(cfg, actions).value.hist.grants, n, subject)
  }

  function Responses(cfg: Config, actions: seq<Action>): nat {
    if Run(cfg, actions).Some? then |Run(cfg, actions).value.hist.grants| else 0
  }

  /** Nobody gets a token for the subject after the run until the subject logs in again. */
  ghost predicate Silences(cfg: Config, actions: seq<Action>, subject: string) {
    forall more :: NoLogin(more, subject) ==> !Answered(cfg, actions + more, Responses(cfg, actions), subject)
  }

  lemma AnsweredLater(cfg: Config, actions: seq<Action>, m: nat, n: nat, subject: string)
    requires m <= n && Answered(cfg, actions, n, subject)
    ensures Answered(cfg, actions, m, subject)
  {
  }

  /** Silence lasts over a step that is no login. */
  lemma SilenceLasts(cfg: Config, actions: seq<Action>, a: Action, subject: string)
    requires Silences(cfg, actions, subject) && !LogsIn(a, subject)
    requires Responses(cfg, actions) <= Responses(cfg, actions + [a])
    ensures Silences(cfg, actions + [a], subject)
  {
    var m, n := Responses(cfg, actions), Responses(cfg, actions + [a]);
    forall more | NoLogin(more, subject) ensures !Answered(cfg, actions + [a] + more, n, subject) {
      assert NoLogin([a] + more, subject);
      assert actions + [a] + more == actions + ([a] + more);
      if Answered(cfg, actions + [a] + more, n, subject) {
        AnsweredLater(cfg, actions + [a] + more, m, n, subject);
      }
    }
  }

  lemma {:induction false} FreshKey(used: set<string>) returns (key: string)
    ensures key != "" && forall k :: k in used ==> |k| < |key|
  {
    key := "x";
    if used != {} {
      var k :| k in used;
      var rest := FreshKey(used - {k});
      key := rest + k;
      forall j | j in used ensures |j| < |key| {
        if j != k {
          assert j in used - {k};
        }
      }
    }
  }

  /** A handler about to answer answers. */
  lemma StoredAnswers(cfg: Config, actions: seq<Action>, p: nat, subject: string)
    requires Run(cfg, actions).Some? && p in Run(cfg, actions).value.handlers
    requires var h := Run(cfg, actions).value.handlers[p]; h.Stored? && h.row.subject == subject
    ensures !Silences(cfg, actions, subject)
  {
    var n := Responses(cfg, actions);
    RunSnoc(cfg, actions, RespondCode(p));
    var grants := Run(cfg, actions + [RespondCode(p)]).value.hist.grants;
    assert grants[n].response.subject == subject;
    assert NoLogin([RespondCode(p)], subject) && Answered(cfg, actions + [RespondCode(p)], n, subject);
  }

  lemma ClearedAnswers(cfg: Config, actions: seq<Action>, p: nat, subject: string)
    requires Run(cfg, actions).Some? && p in Run(cfg, actions).value.handlers
    requires var h := Run(cfg, actions).value.handlers[p]; h.Cleared? && h.row.subject == subject
    ensures !Silences(cfg, actions, subject)
  {
    var key := FreshKey(Run(cfg, actions).value.used);
    var store := StoreRefresh(p, key);
    RunSnoc(cfg, actions, store);
    StoredAnswers(cfg, actions + [store], p, subject);
    if Silences(cfg, actions, subject) {
      SilenceLasts(cfg, actions, store, subject);
    }
  }

  /** With the credential back, a handler that holds a code answers. */
  lemma RedeemedAnswers(cfg: Config, actions: seq<Action>, p: nat, subject: string)
    requires Run(cfg, actions).Some? && p in Run(cfg, actions).value.handlers
    requires subject in Run(cfg, actions).value.db.credentials
    requires var h := Run(cfg, actions).value.handlers[p]; h.Redeemed? && h.row.subject == subject
    ensures !Silences(cfg, actions, subject)
  {
    RunSnoc(cfg, actions, CheckCredential(p));
    ClearedAnswers(cfg, actions + [CheckCredential(p)], p, subject);
    if Silences(cfg, actions, subject) {
      SilenceLasts(cfg, actions, CheckCredential(p), subject);
    }
  }

  /** ... and so does anyone who shows the right verifier with a live code. */
  lemma LiveCodeAnswers(cfg: Config, actions: seq<Action>, p: nat, key: string, verifier: string, subject: string)
    requires Run(cfg, actions).Some? && Startable(cfg, Run(cfg, actions).value, p)
    requires subject in Run(cfg, actions).value.db.credentials
    requires var s := Run(cfg, actions).value;
             && key in s.db.codes && s.db.codes[key].expiresAt > s.now
             && var row := s.db.codes[key].data;
                row.subject == subject && row.challengeMethod == "S256" && cfg.pkce(verifier) == row.codeChallenge
    ensures !Silences(cfg, actions, subject)
  {
    var row := Run(cfg, actions).value.db.codes[key].data;
    var redeem := Redeem(p, key, Shown(row.clientId, row.redirectUri, verifier, None));
    RunSnoc(cfg, actions, redeem);
    RedeemedAnswers(cfg, actions + [redeem], p, subject);
    if Silences(cfg, actions, subject) {
      SilenceLasts(cfg, actions, redeem, subject);
    }
  }

  /** The handler that stored a code is dropped at the latest before it stores a native result. */
  lemma NativeAnswers(cfg: Config, actions: seq<Action>, p: nat, key: string, verifier: string, subject: string)
    requires Run(cfg, actions).Some? && p in Run(cfg, actions).value.handlers
    requires |Run(cfg, actions).value.handlers| <= cfg.maxHandlers && subject in Run(cfg, actions).value.db.credentials
    requires var s := Run(cfg, actions).value;
             && key in s.db.codes && s.db.codes[key].expiresAt > s.now
             && var row := s.db.codes[key].data;
                row.subject == subject && row.challengeMethod == "S256" && cfg.pkce(verifier) == row.codeChallenge
    ensures !Silences(cfg, actions, subject)
  {
    RunSnoc(cfg, actions, GiveUp(p));
    PendingCapacity.HandlerLeaves(Run(cfg, actions).value.handlers, p);
    LiveCodeAnswers(cfg, actions + [GiveUp(p)], p, key, verifier, subject);
    if Silences(cfg, actions, subject) {
      SilenceLasts(cfg, actions, GiveUp(p), subject);
    }
  }

  lemma ExchangedAnswers(cfg: Config, actions: seq<Action>, p: nat, subject: string)
    requires Run(cfg, actions).Some? && p in Run(cfg, actions).value.handlers
    requires subject in Run(cfg, actions).value.db.credentials
    requires var h := Run(cfg, actions).value.handlers[p];
             h.Exchanged? && h.subject == subject && Redeemable(cfg, h.request.codeChallenge)
    ensures !Silences(cfg, actions, subject)
  {
    var s := Run(cfg, actions).value;
    var h := s.handlers[p];
    var verifier :| cfg.pkce(verifier) == h.request.codeChallenge;
    var key := FreshKey(s.used);
    RunKeepsInv(cfg, actions);
    PendingCapacity.RunBounded(cfg, actions);
    PendingCapacity.HandlerLeaves(s.handlers, p);
    PendingCapacity.HandlerMoves(s.handlers, p, CodeStored(h.request.clientState, key));
    var insert := Action.InsertCode(p, key);
    RunSnoc(cfg, actions, insert);
    if h.request.redirectUri == cfg.nativeCallback {
      NativeAnswers(cfg, actions + [insert], p, key, verifier, subject);
    } else {
      LiveCodeAnswers(cfg, actions + [insert], p, key, verifier, subject);
    }
    if Silences(cfg, actions, subject) {
      SilenceLasts(cfg, actions, insert, subject);
    }
  }

  /** A handler that found the credential earlier brings it back for one that has a code. */
  lemma LookingAnswers(cfg: Config, actions: seq<Action>, l: nat, p: nat, subject: string)
    requires Run(cfg, actions).Some? && l in Run(cfg, actions).value.handlers && p in Run(cfg, actions).value.handlers
    requires LookingFor(Run(cfg, actions).value.handlers[l], subject)
    requires WithCodeFor(cfg, Run(cfg, actions).value.handlers[p], subject)
    ensures !Silences(cfg, actions, subject)
  {
    RunSnoc(cfg, actions, Renew(l));
    if Run(cfg, actions).value.handlers[p].Redeemed? {
      RedeemedAnswers(cfg, actions + [Renew(l)], p, subject);
    } else {
      ExchangedAnswers(cfg, actions + [Renew(l)], p, subject);
    }
    if Silences(cfg, actions, subject) {
      SilenceLasts(cfg, actions, Renew(l), subject);
    }
  }

  /** Nobody is past the credential check, and nobody can bring the credential back for one that has a code. */
  ghost predicate NobodyLeft(cfg: Config, s: Sys, subject: string) {
    NobodyAnswering(s, subject) && (NobodyLooking(s, subject) || NobodyWithCode(cfg, s, subject))
  }

  lemma SilentRunSilences(cfg: Config, actions: seq<Action>, subject: string)
    requires Run(cfg, actions).Some? && Silent(cfg, Run(cfg, actions).value, subject)
    ensures Silences(cfg, actions, subject)
  {
    forall more | NoLogin(more, subject) ensures !Answered(cfg, actions + more, Responses(cfg, actions), subject) {
      if Run(cfg, actions + more).Some? {
        SilentRun(cfg, actions, more, subject);
      }
    }
  }

  /**
   * After a run that left nothing of the subject stored, it is silenced until the
   * next login if and only if nobody is left.
   */
  lemma SilencedExactly(cfg: Config, actions: seq<Action>, subject: string)
    requires Run(cfg, actions).Some? && Wiped(Run(cfg, actions).value, subject)
    ensures Silences(cfg, actions, subject) <==> NobodyLeft(cfg, Run(cfg, actions).value, subject)
  {
    var s := Run(cfg, actions).value;
    if NobodyLeft(cfg, s, subject) {
      SilentRunSilences(cfg, actions, subject);
    } else if !NobodyAnswering(s, subject) {
      var p :| p in s.handlers && Answering(s.handlers[p], subject);
      if s.handlers[p].Stored? {
        StoredAnswers(cfg, actions, p, subject);
      } else {
        ClearedAnswers(cfg, actions, p, subject);
      }
    } else {
      var l :| l in s.handlers && LookingFor(s.handlers[l], subject);
      var p :| p in s.handlers && WithCodeFor(cfg, s.handlers[p], subject);
      LookingAnswers(cfg, actions, l, p, subject);
    }
  }

  /** An invalidation by an upstream or an operator leaves nothing stored and nobody changed. */
  lemma InvalidationStopsExactly(cfg: Config, actions: seq<Action>, subject: string, generation: nat)
    requires Run(cfg, actions).Some?
    requires var s := Run(cfg, actions).value; InvalidateCredential(s.db, subject, generation).1
    ensures Run(cfg, actions + [Action.Invalidate(subject, generation)]).Some?
    ensures Silences(cfg, actions + [Action.Invalidate(subject, generation)], subject) <==>
            NobodyLeft(cfg, Run(cfg, actions).value, subject)
  {
    var a := Action.Invalidate(subject, generation);
    RunSnoc(cfg, actions, a);
    SilencedExactly(cfg, actions + [a], subject);
    assert Run(cfg, actions + [a]).value.handlers == Run(cfg, actions).value.handlers;
  }

  /** One by a refused refresh grant takes that grant out of those who could bring the credential back. */
  lemma CondemnationStopsExactly(cfg: Config, actions: seq<Action>, p: nat)
    requires Run(cfg, actions).Some? && Can(cfg, Run(cfg, actions).value, Condemn(p))
    requires var s := Run(cfg, actions).value;
             InvalidateCredential(s.db, s.handlers[p].held.subject, s.handlers[p].generation).1
    ensures Run(cfg, actions + [Condemn(p)]).Some?
    ensures var s := Run(cfg, actions).value;
            var subject := s.handlers[p].held.subject;
            Silences(cfg, actions + [Condemn(p)], subject) <==>
            NobodyLeft(cfg, s.(handlers := s.handlers - {p}), subject)
  {
    var s := Run(cfg, actions).value;
    var subject := s.handlers[p].held.subject;
    RunSnoc(cfg, actions, Condemn(p));
    SilencedExactly(cfg, actions + [Condemn(p)], subject);
    OthersLeft(cfg, s, p, subject);
  }

  lemma OthersLeft(cfg: Config, s: Sys, p: nat, subject: string)
    requires p in s.handlers && s.handlers[p].Looking?
    ensures NobodyLeft(cfg, WithCondemnation(s, p), subject) <==>
            NobodyLeft(cfg, s.(handlers := s.handlers - {p}), subject)
  {
    var a, b := WithCondemnation(s, p).handlers, s.handlers - {p};
    assert forall q :: q in b ==> q in a && a[q] == b[q];
    assert forall q :: q in a && q != p ==> q in b && a[q] == b[q];
  }

  /**
   * Nobody needs to be past the credential check for an invalidation to be undone:
   * a refresh caught between finding the credential and writing it back does it.
   */
  lemma InvalidationWrittenBack(cfg: Config) returns (actions: seq<Action>, generation: nat)
    requires AuthLineage.Usable(cfg) && cfg.maxHandlers >= 2
    ensures Run(cfg, actions).Some? && NobodyAnswering(Run(cfg, actions).value, "sub")
    ensures InvalidateCredential(Run(cfg, actions).value.db, "sub", generation).1
    ensures !Silences(cfg, actions + [Action.Invalidate("sub", generation)], "sub")
  {
    var s := AuthLineage.LookingAndExchanged(cfg);
    actions :| Run(cfg, actions) == Some(s);
    generation := s.db.credentials["sub"];
    assert cfg.pkce("v") == s.handlers[1].request.codeChallenge;
    assert LookingFor(s.handlers[0], "sub") && WithCodeFor(cfg, s.handlers[1], "sub");
    InvalidationStopsExactly(cfg, actions, "sub", generation);
  }
}

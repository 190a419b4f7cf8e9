/**
 * What the protocol grants, as opposed to what it forbids: how long requests,
 * codes, tokens and leases can be used, when a redemption or a refresh goes on,
 * and that a lease left behind can be taken over.
 */
module AuthLiveness {
  import opened Basics
  import opened AuthStore
  import opened AuthProtocol
  import opened AuthSafety
  import opened AuthTheorems
  import opened AuthLineage
  import opened StoreLaws

  /** The same state some seconds later. */
  function Later(s: Sys, secs: nat): Sys {
    s.(now := s.now + secs)
  }

  // ---- How long things last ---------------------------------------------------------------------

  /** A request can be called back for five minutes. */
  lemma RequestLasts(cfg: Config, s: Sys, pid: nat, key: string, request: AuthRequest, secs: nat, p: nat)
    requires Can(cfg, s, Action.InsertRequest(pid, key, request)) && Drawn(s)
    ensures var after := Later(Next(cfg, s, Action.InsertRequest(pid, key, request)), secs);
            Startable(cfg, after, p) ==>
              && (Can(cfg, after, Action.TakeRequest(p, key)) <==> secs < 300)
              && (secs < 300 ==> Next(cfg, after, Action.TakeRequest(p, key)).handlers[p] == Called(key, request))
  {
  }

  /** So can a login of the user. */
  lemma LoginLasts(cfg: Config, s: Sys, pid: nat, key: string, login: LoginState, secs: nat)
    requires Can(cfg, s, Action.InsertLogin(pid, key, login)) && Drawn(s)
    ensures var after := Later(Next(cfg, s, Action.InsertLogin(pid, key, login)), secs);
            && Take(after.db.logins, key, after.now).1 == (if secs < 300 then Some(login) else None)
            && (secs < 300 ==> key !in Next(cfg, after, Action.TakeLogin(key)).db.logins)
  {
  }

  /** A code can be redeemed for as long as the configuration says. */
  lemma CodeLasts(cfg: Config, s: Sys, pid: nat, key: string, secs: nat, p: nat, shown: Shown)
    requires Can(cfg, s, Action.InsertCode(pid, key)) && Drawn(s)
    ensures var after := Later(Next(cfg, s, Action.InsertCode(pid, key)), secs);
            Startable(cfg, after, p) ==> (Can(cfg, after, Redeem(p, key, shown)) <==> secs < cfg.codeTtl)
  {
  }

  /** A native result can be polled, once, for as long; only callbacks to the native address store one. */
  lemma NativeLasts(cfg: Config, s: Sys, pid: nat, key: string, secs: nat)
    requires Can(cfg, s, Action.InsertCode(pid, key)) && Drawn(s)
    ensures var h, coded := s.handlers[pid], Next(cfg, s, Action.InsertCode(pid, key));
            && (Can(cfg, coded, InsertNative(pid)) <==> h.request.redirectUri == cfg.nativeCallback)
            && (Can(cfg, coded, InsertNative(pid)) ==>
                  var after := Later(Next(cfg, coded, InsertNative(pid)), secs);
                  var state := h.request.clientState;
                  && Take(after.db.natives, state, after.now).1 == (if secs < cfg.codeTtl then Some(key) else None)
                  && (secs < cfg.codeTtl ==> state !in Next(cfg, after, PollNative(state)).db.natives))
  {
  }

  /** A refresh token can be leased for as long as the configuration says, from when it was stored. */
  lemma TokenLasts(cfg: Config, s: Sys, pid: nat, key: string, secs: nat)
    requires Can(cfg, s, StoreRefresh(pid, key)) && Drawn(s)
    ensures var after := Later(Next(cfg, s, StoreRefresh(pid, key)), secs);
            Claimable(after.db.refresh, key, after.now) <==> secs < cfg.refreshTtl
  {
  }

  /** ... or from when it was rotated in. */
  lemma RotatedTokenLasts(cfg: Config, s: Sys, pid: nat, key: string, secs: nat)
    requires Can(cfg, s, Rotate(pid, key)) && Drawn(s)
    requires |Next(cfg, s, Rotate(pid, key)).hist.grants| > |s.hist.grants|
    ensures var after := Later(Next(cfg, s, Rotate(pid, key)), secs);
            Claimable(after.db.refresh, key, after.now) <==> secs < cfg.refreshTtl
  {
  }

  /** A revoked token is gone and no other is. */
  lemma RevokeExactly(cfg: Config, s: Sys, key: string)
    ensures var after := Next(cfg, s, Revoke(key));
            && key !in after.db.refresh && after == s.(db := s.db.(refresh := after.db.refresh))
            && forall t :: t != key ==>
                 && (t in after.db.refresh <==> t in s.db.refresh)
                 && (t in after.db.refresh ==> after.db.refresh[t] == s.db.refresh[t])
  {
  }

  // ---- When a grant goes on ------------------------------------------------------------------------

  /** A redemption goes on if and only if what is shown is what the request said; the code is gone either way. */
  lemma RedemptionGoesOnExactly(cfg: Config, s: Sys, p: nat, key: string, shown: Shown)
    requires Reaches(cfg, s) && Can(cfg, s, Redeem(p, key, shown))
    ensures key in s.hist.issued && s.hist.issued[key].state in s.hist.requests
    ensures var after, q := Next(cfg, s, Redeem(p, key, shown)), s.hist.requests[s.hist.issued[key].state];
            && key !in after.db.codes
            && (p in after.handlers <==>
                  && shown.clientId == q.clientId && shown.redirectUri == q.redirectUri
                  && cfg.pkce(shown.verifier) == q.codeChallenge
                  && (shown.resource == None || shown.resource == Some(q.resource)))
            && (p in after.handlers ==> after.handlers[p] == Redeemed(key, s.hist.issued[key].row, shown))
  {
    ReachesInv(cfg, s);
  }

  /** A code stored under any other challenge method is lost to whoever presents it. */
  lemma OtherMethodRefused(cfg: Config, s: Sys, p: nat, key: string, shown: Shown)
    requires Can(cfg, s, Redeem(p, key, shown)) && s.db.codes[key].data.challengeMethod != "S256"
    ensures var after := Next(cfg, s, Redeem(p, key, shown)); after.handlers == s.handlers && key !in after.db.codes
  {
  }

  /** A code grant past its checks goes on if and only if the subject has a credential. */
  lemma CheckGoesOnExactly(cfg: Config, s: Sys, p: nat)
    requires p in s.handlers && s.handlers[p].Redeemed?
    ensures Can(cfg, s, CheckCredential(p)) <==> s.handlers[p].row.subject in s.db.credentials
    ensures Can(cfg, s, CheckCredential(p)) ==>
              var h := s.handlers[p];
              Next(cfg, s, CheckCredential(p)) == s.(handlers := s.handlers[p := Cleared(h.code, h.row, h.shown)])
  {
  }

  /**
   * A refresh goes on to the provider if and only if it comes from the client of the
   * original request, asks for its resource or none, and the subject has a credential.
   */
  lemma RefreshGoesOnExactly(cfg: Config, s: Sys, p: nat)
    requires Reaches(cfg, s) && Settled(cfg) && p in s.handlers && s.handlers[p].Claimed?
    ensures Origin(s.hist, s.handlers[p].token).Some?
    ensures Origin(s.hist, s.handlers[p].token).value in s.hist.requests
    ensures Origin(s.hist, s.handlers[p].token).value in s.hist.subjects
    ensures var h, state := s.handlers[p], Origin(s.hist, s.handlers[p].token).value;
            var q := s.hist.requests[state];
            Can(cfg, s, Look(p)) <==>
            && h.clientId == q.clientId && (h.requested == None || h.requested == Some(cfg.settle(q.resource)))
            && s.hist.subjects[state] in s.db.credentials
  {
    ReachesInv(cfg, s);
  }

  // ---- What the other steps do --------------------------------------------------------------------

  /** The handler is over and its slot is free; the others go on as they were. */
  ghost predicate Over(before: Sys, after: Sys, p: nat) {
    && p !in after.handlers && after.hist == before.hist && after.now == before.now && after.used == before.used
    && forall q :: q != p ==>
         && (q in after.handlers <==> q in before.handlers)
         && (q in after.handlers ==> after.handlers[q] == before.handlers[q])
  }

  /** Any handler can give up, and touches nothing then. */
  lemma GiveUpExactly(cfg: Config, s: Sys, p: nat)
    requires p in s.handlers
    ensures Can(cfg, s, GiveUp(p)) && Over(s, Next(cfg, s, GiveUp(p)), p) && Next(cfg, s, GiveUp(p)).db == s.db
  {
  }

  /** A handler that has leased a token can let go of it, and is over then; it changes no token but that one. */
  lemma ReleaseEnds(cfg: Config, s: Sys, p: nat)
    requires p in s.handlers && HoldsToken(s.handlers[p])
    ensures Can(cfg, s, Release(p)) && Over(s, Next(cfg, s, Release(p)), p)
    ensures var after := Next(cfg, s, Release(p));
            after.db.(refresh := s.db.refresh) == s.db && SameBut(s.db.refresh, after.db.refresh, s.handlers[p].token)
  {
  }

  /** The provider's answer to a code installs a credential of the next generation for the subject it names. */
  lemma ExchangeExactly(cfg: Config, s: Sys, p: nat, subject: string)
    requires p in s.handlers && s.handlers[p].Called?
    ensures Can(cfg, s, Exchange(p, subject))
    ensures var h, after := s.handlers[p], Next(cfg, s, Exchange(p, subject));
            && after.handlers == s.handlers[p := Exchanged(h.state, h.request, subject)]
            && after.db.(credentials := s.db.credentials) == s.db && subject in after.db.credentials
            && after.db.credentials[subject] == if subject in s.db.credentials then s.db.credentials[subject] + 1 else 1
  {
  }

  /** So does its answer to a refresh, and the handler can rotate then. */
  lemma RenewExactly(cfg: Config, s: Sys, p: nat, key: string)
    requires p in s.handlers && s.handlers[p].Looking? && key !in s.used
    ensures Can(cfg, s, Renew(p)) && Can(cfg, Next(cfg, s, Renew(p)), Rotate(p, key))
    ensures var subject, after := s.handlers[p].held.subject, Next(cfg, s, Renew(p)).db;
            && after.(credentials := s.db.credentials) == s.db && subject in after.credentials
            && after.credentials[subject] == if subject in s.db.credentials then s.db.credentials[subject] + 1 else 1
  {
  }

  /** Nothing of the subject's is left: no credential, no code and no refresh token. */
  ghost predicate Stripped(db: Db, subject: string) {
    && subject !in db.credentials
    && (forall k :: k in db.codes ==> db.codes[k].data.subject != subject)
    && (forall k :: k in db.refresh ==> db.refresh[k].data.subject != subject)
  }

  /** A refusal takes what the handler saw, whenever it comes, if and only if that is what is stored by then. */
  lemma CondemnExactly(cfg: Config, s: Sys, p: nat)
    requires p in s.handlers && s.handlers[p].Looking?
    ensures Can(cfg, s, Condemn(p))
    ensures var h, after := s.handlers[p], Next(cfg, s, Condemn(p));
            && Can(cfg, after, Release(p)) && after.handlers[p].Claimed? && after.handlers[p].held == h.held
            && if h.held.subject in s.db.credentials && s.db.credentials[h.held.subject] == h.generation
               then Stripped(after.db, h.held.subject) else after.db == s.db
  {
  }

  /** ... so it does if nothing happened since the handler looked. */
  lemma LookThenCondemn(cfg: Config, s: Sys, p: nat, secs: nat)
    requires Can(cfg, s, Look(p))
    ensures Next(cfg, s, Look(p)).db == s.db && Can(cfg, Later(Next(cfg, s, Look(p)), secs), Condemn(p))
    ensures Stripped(Next(cfg, Later(Next(cfg, s, Look(p)), secs), Condemn(p)).db, s.handlers[p].held.subject)
  {
    CondemnExactly(cfg, Later(WithLook(s, p), secs), p);
  }

  /** A code grant whose token is stored can always answer, with that token, and says what the code said. */
  lemma CodeGrantAnswers(cfg: Config, s: Sys, p: nat)
    requires p in s.handlers && s.handlers[p].Stored?
    ensures Can(cfg, s, RespondCode(p)) && p !in Next(cfg, s, RespondCode(p)).handlers
    ensures var h, after := s.handlers[p], Next(cfg, s, RespondCode(p));
            && after.db == s.db && |after.hist.grants| == |s.hist.grants| + 1 && s.hist.grants <= after.hist.grants
            && var g := after.hist.grants[|s.hist.grants|];
               && g.ByCode? && g.code == h.code && g.shown == h.shown && g.token == h.token
               && g.response.clientId == h.row.clientId && g.response.subject == h.row.subject
               && g.response.scope == h.row.scope && g.response.resource == cfg.settle(h.row.resource)
  {
  }

  /** A rotation that comes too late changes nothing, and the handler can still let go. */
  lemma LateRotation(cfg: Config, s: Sys, p: nat, key: string)
    requires Can(cfg, s, Rotate(p, key)) && Drawn(s)
    ensures var h := s.handlers[p];
            var held := h.token in s.db.refresh && s.db.refresh[h.token].expiresAt > s.now
                        && s.db.refresh[h.token].data.claim.Some?
                        && s.db.refresh[h.token].data.claim.value.id == h.claimId
                        && s.db.refresh[h.token].data.claim.value.expiresAt > s.now;
            if held then |Next(cfg, s, Rotate(p, key)).hist.grants| == |s.hist.grants| + 1
            else Next(cfg, s, Rotate(p, key)) == s && Can(cfg, s, Release(p))
  {
  }

  /** A sweep leaves no expired row in any table, and touches nothing else. */
  lemma CleanupExactly(cfg: Config, s: Sys)
    ensures Can(cfg, s, Action.Cleanup)
    ensures var after := Next(cfg, s, Action.Cleanup);
            && after == s.(db := after.db) && after.db.credentials == s.db.credentials
            && OnlyLive(s.db.requests, after.db.requests, s.now) && OnlyLive(s.db.logins, after.db.logins, s.now)
            && OnlyLive(s.db.codes, after.db.codes, s.now) && OnlyLive(s.db.natives, after.db.natives, s.now)
            && OnlyLive(s.db.sessions, after.db.sessions, s.now) && OnlyLive(s.db.refresh, after.db.refresh, s.now)
  {
    SweepExactly(s.db, s.now);
  }

  // ---- Leases left behind --------------------------------------------------------------------------

  /** Whatever lease is on a live token, once its time is up the token can be leased again. */
  lemma LeaseRunsOut(cfg: Config, s: Sys, p: nat, key: string, claim: AuthStore.Claim, secs: nat)
    requires key in s.db.refresh && s.now + secs < s.db.refresh[key].expiresAt && claim.id !in s.used
    requires Startable(cfg, s, p)
    requires s.db.refresh[key].data.claim.Some? ==> s.db.refresh[key].data.claim.value.expiresAt <= s.now + secs
    ensures forall clientId, requested :: Can(cfg, Later(s, secs), Action.Claim(p, key, claim, clientId, requested))
    ensures Can(cfg, s, Tick(secs)) && Next(cfg, s, Tick(secs)) == Later(s, secs)
  {
  }

  /** While it has time left nobody gets the token. */
  lemma LeaseHolds(
    cfg: Config, s: Sys, p: nat, key: string, claim: AuthStore.Claim, clientId: string, requested: Option<string>)
    requires key in s.db.refresh && s.db.refresh[key].data.claim.Some?
             && s.now < s.db.refresh[key].data.claim.value.expiresAt
    ensures !Can(cfg, s, Action.Claim(p, key, claim, clientId, requested))
  {
  }

  /** A handler that lets go leaves a live token to be leased at once. */
  lemma ReleasedCanBeLeased(cfg: Config, s: Sys, pid: nat)
    requires Can(cfg, s, Release(pid)) && Owns(s.db.refresh, s.handlers[pid].token, s.handlers[pid].claimId)
    requires s.now < s.db.refresh[s.handlers[pid].token].expiresAt
    ensures Claimable(Next(cfg, s, Release(pid)).db.refresh, s.handlers[pid].token, s.now)
  {
  }

  const SECOND_LEASE := AuthStore.Claim.Claim("j", 60)

  /** The first handler has refreshed the credential when its lease runs out and a second one takes the token over. */
  lemma TakenOver(cfg: Config) returns (s: Sys)
    requires Usable(cfg) && cfg.maxHandlers >= 2 && cfg.refreshTtl > 30
    ensures Reaches(cfg, s) && s.now == 30 && s.used == {"q", "k", "t", "i", "j"} && "sub" in s.db.credentials
    ensures var row := TokenRow(cfg).(claim := Some(SECOND_LEASE));
            && s.db.refresh == map["t" := Row(row, cfg.refreshTtl)]
            && s.handlers ==
                map[0 := Renewed("t", "i", LeasedRow(cfg), "c", None), 1 := Claimed("t", "j", row, "c", None)]
    ensures |s.hist.grants| == 1
  {
    var s0 := TokenRenewed(cfg);
    ReachesNext(cfg, s0, Tick(30));
    var s1 := Later(s0, 30);
    ReachesNext(cfg, s1, Action.Claim(1, "t", SECOND_LEASE, "c", None));
    s := WithClaim(s1, 1, "t", SECOND_LEASE, "c", None);
  }

  lemma TakenOverRenewed(cfg: Config) returns (s: Sys)
    requires Usable(cfg) && cfg.maxHandlers >= 2 && cfg.refreshTtl > 30
    ensures Reaches(cfg, s) && s.now == 30 && s.used == {"q", "k", "t", "i", "j"}
    ensures var row := TokenRow(cfg).(claim := Some(SECOND_LEASE));
            && s.db.refresh == map["t" := Row(row, cfg.refreshTtl)]
            && s.handlers ==
                map[0 := Renewed("t", "i", LeasedRow(cfg), "c", None), 1 := Renewed("t", "j", row, "c", None)]
    ensures |s.hist.grants| == 1
  {
    var s0 := TakenOver(cfg);
    ReachesNext(cfg, s0, Look(1));
    var s1 := WithLook(s0, 1);
    ReachesNext(cfg, s1, Renew(1));
    s := WithRenewal(s1, 1);
  }

  /** The second handler answers. */
  lemma SecondRotates(cfg: Config) returns (s: Sys)
    requires Usable(cfg) && cfg.maxHandlers >= 2 && cfg.refreshTtl > 30
    ensures Reaches(cfg, s) && "t" !in s.db.refresh && s.used == {"q", "k", "t", "i", "j", "u"}
    ensures s.handlers == map[0 := Renewed("t", "i", LeasedRow(cfg), "c", None)]
    ensures |s.hist.grants| == 2 && s.hist.grants[1].ByRefresh? && s.hist.grants[1].token == "t"
  {
    var before := TakenOverRenewed(cfg);
    ReachesNext(cfg, before, Rotate(1, "u"));
    s := WithRotation(cfg, before, 1, "u");
    assert s.handlers == map[0 := Renewed("t", "i", LeasedRow(cfg), "c", None)];
  }

  /** The second handler answers, and the first one's rotation is refused. */
  lemma SecondAnswers(cfg: Config) returns (s: Sys)
    requires Usable(cfg) && cfg.maxHandlers >= 2 && cfg.refreshTtl > 30
    ensures Reaches(cfg, s) && |s.hist.grants| == 2 && s.hist.grants[1].ByRefresh? && s.hist.grants[1].token == "t"
    ensures Can(cfg, s, Rotate(0, "w")) && Next(cfg, s, Rotate(0, "w")) == s
  {
    s := SecondRotates(cfg);
  }
}

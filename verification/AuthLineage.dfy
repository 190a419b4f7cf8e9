/**
 * Whether all responses of one lineage agree depends on the default scope. A
 * complete flow, from the authorization request to the first refresh, shows
 * both that flows complete and how they disagree.
 */
module AuthLineage {
  import opened Basics
  import opened AuthStore
  import opened AuthProtocol
  import opened AuthSafety
  import opened AuthTheorems
  import Scopes
  import Text

  /** A configuration that lets a flow happen at all. */
  predicate Usable(cfg: Config) {
    cfg.maxPending >= 1 && cfg.maxHandlers >= 1 && cfg.codeTtl >= 1 && cfg.refreshTtl >= 1
  }

  function Request(cfg: Config): AuthRequest {
    AuthRequest("c", cfg.nativeCallback + "/", "s", "r", "", "p", cfg.pkce("v"), "S256")
  }

  function Presented(cfg: Config): Shown {
    Shown("c", cfg.nativeCallback + "/", "v", None)
  }

  function Code(cfg: Config): AuthCode {
    CodeRow(cfg, Request(cfg), "sub")
  }

  function TokenRow(cfg: Config): RefreshRow {
    RefreshRow("c", "sub", "r", cfg.elevate(""), None)
  }

  const LEASE := AuthStore.Claim.Claim("i", 30)

  /** The tables once the user has logged in, but for the code. */
  function LoggedIn(): Db {
    EMPTY.(credentials := map["sub" := 1])
  }

  /** What is on record once the code is out. */
  function Issued(cfg: Config): History {
    History(map["q" := Request(cfg)], map["q" := "sub"], map["k" := Issue("q", Code(cfg))], map[], map[], [])
  }

  predicate NothingPending(s: Sys) {
    s.db.requests == map[] && s.db.logins == map[] && s.db.natives == map[]
  }

  // ---- The flow, one handler at a time ------------------------------------------------------------

  lemma CapacityChecked(cfg: Config) returns (s: Sys)
    requires Usable(cfg)
    ensures Reaches(cfg, s) && s == INITIAL.(handlers := map[0 := Checked])
  {
    assert Run(cfg, []) == Some(INITIAL);
    ReachesNext(cfg, INITIAL, CheckCapacity(0));
    s := INITIAL.(handlers := map[0 := Checked]);
  }

  lemma RequestStored(cfg: Config) returns (s: Sys)
    requires Usable(cfg)
    ensures Reaches(cfg, s)
    ensures s == Sys(0, EMPTY.(requests := map["q" := Row(Request(cfg), REQUEST_TTL)]), map[], {"q"},
                     History(map["q" := Request(cfg)], map[], map[], map[], map[], []))
  {
    var checked := CapacityChecked(cfg);
    ReachesNext(cfg, checked, Action.InsertRequest(0, "q", Request(cfg)));
    s := WithRequest(checked, 0, "q", Request(cfg));
  }

  lemma CallbackHeld(cfg: Config) returns (s: Sys)
    requires Usable(cfg)
    ensures Reaches(cfg, s)
    ensures s == Sys(0, EMPTY, map[0 := Called("q", Request(cfg))], {"q"},
                     History(map["q" := Request(cfg)], map[], map[], map[], map[], []))
  {
    var before := RequestStored(cfg);
    ReachesNext(cfg, before, Action.TakeRequest(0, "q"));
    s := WithCall(before, 0, "q");
    assert s.db.requests == map[];
  }

  lemma CodeStoredFor(cfg: Config) returns (s: Sys)
    requires Usable(cfg)
    ensures Reaches(cfg, s)
    ensures s == Sys(0, LoggedIn().(codes := map["k" := Row(Code(cfg), cfg.codeTtl)]), map[], {"q", "k"}, Issued(cfg))
  {
    var before := CallbackHeld(cfg);
    ReachesNext(cfg, before, Exchange(0, "sub"));
    var exchanged := WithExchange(before, 0, "sub");
    ReachesNext(cfg, exchanged, Action.InsertCode(0, "k"));
    s := WithCode(cfg, exchanged, 0, "k");
    assert s.handlers == map[];
  }

  lemma CodeHeld(cfg: Config) returns (s: Sys)
    requires Usable(cfg)
    ensures Reaches(cfg, s)
    ensures s == Sys(0, LoggedIn(), map[0 := Redeemed("k", Code(cfg), Presented(cfg))], {"q", "k"}, Issued(cfg))
  {
    var before := CodeStoredFor(cfg);
    ReachesNext(cfg, before, Redeem(0, "k", Presented(cfg)));
    s := WithRedemption(cfg, before, 0, "k", Presented(cfg));
    assert s.db.codes == map[];
  }

  lemma CredentialSeen(cfg: Config) returns (s: Sys)
    requires Usable(cfg)
    ensures Reaches(cfg, s)
    ensures s == Sys(0, LoggedIn(), map[0 := Cleared("k", Code(cfg), Presented(cfg))], {"q", "k"}, Issued(cfg))
  {
    var held := CodeHeld(cfg);
    ReachesNext(cfg, held, CheckCredential(0));
    s := WithCheck(held, 0);
  }

  /** What the handler does once it has seen the credential. */
  lemma ThenAnswers(cfg: Config, before: Sys) returns (s: Sys)
    requires Reaches(cfg, before) && before.handlers == map[0 := Cleared("k", Code(cfg), Presented(cfg))]
    requires "t" !in before.used && "t" !in before.db.refresh
    ensures Reaches(cfg, s) && s == WithCodeGrant(cfg, WithRefresh(cfg, before, 0, "t"), 0)
    ensures s.now == before.now && s.handlers == map[] && s.db == before.db.(refresh := s.db.refresh)
    ensures s.used == before.used + {"t"}
    ensures s.db.refresh == before.db.refresh["t" := Row(TokenRow(cfg), before.now + cfg.refreshTtl)]
    ensures s.hist.roots == before.hist.roots["t" := "k"]
    ensures s.hist.grants == before.hist.grants + [ByCode("k", Presented(cfg), CodeResponse(cfg, Code(cfg)), "t")]
  {
    ReachesNext(cfg, before, StoreRefresh(0, "t"));
    var stored := WithRefresh(cfg, before, 0, "t");
    ReachesNext(cfg, stored, RespondCode(0));
    s := WithCodeGrant(cfg, stored, 0);
    assert s.handlers == map[];
  }

  /**
   * The credential check and the storing of the refresh token are two steps: an
   * invalidation in between does not stop the response.
   */
  lemma InvalidationOvertaken(cfg: Config) returns (before: Sys, after: Sys)
    requires Usable(cfg)
    ensures Reaches(cfg, before) && "sub" in before.db.credentials && before.hist.grants == []
    ensures 0 in before.handlers && before.handlers[0].Cleared?
    ensures InvalidateCredential(before.db, "sub", 1).1
    ensures Reaches(cfg, after) && "sub" !in after.db.credentials && "t" in after.db.refresh
    ensures |after.hist.grants| == 1 && after.hist.grants[0].response.subject == "sub"
    ensures after == WithCodeGrant(cfg, WithRefresh(cfg, Next(cfg, before, Action.Invalidate("sub", 1)), 0, "t"), 0)
  {
    before := CredentialSeen(cfg);
    ReachesNext(cfg, before, Action.Invalidate("sub", 1));
    var revoked := before.(db := InvalidateCredential(before.db, "sub", 1).0);
    after := ThenAnswers(cfg, revoked);
  }

  lemma CodeAnswered(cfg: Config) returns (s: Sys)
    requires Usable(cfg)
    ensures NothingPending(s)
    ensures Reaches(cfg, s)
    ensures s.now == 0 && s.handlers == map[] && s.used == {"q", "k", "t"} && "sub" in s.db.credentials
    ensures s.db.refresh == map["t" := Row(TokenRow(cfg), cfg.refreshTtl)]
    ensures s.hist.roots == map["t" := "k"]
    ensures s.hist.grants == [ByCode("k", Presented(cfg), CodeResponse(cfg, Code(cfg)), "t")]
  {
    var before := CredentialSeen(cfg);
    s := ThenAnswers(cfg, before);
  }

  function LeasedRow(cfg: Config): RefreshRow {
    TokenRow(cfg).(claim := Some(LEASE))
  }

  lemma TokenHeld(cfg: Config) returns (s: Sys)
    requires Usable(cfg)
    ensures NothingPending(s)
    ensures Reaches(cfg, s)
    ensures s.now == 0 && s.handlers == map[0 := Claimed("t", "i", LeasedRow(cfg), "c", None)]
            && s.used == {"q", "k", "t", "i"}
    ensures s.db.refresh == map["t" := Row(LeasedRow(cfg), cfg.refreshTtl)] && "sub" in s.db.credentials
    ensures s.hist.roots == map["t" := "k"]
    ensures s.hist.grants == [ByCode("k", Presented(cfg), CodeResponse(cfg, Code(cfg)), "t")]
  {
    var before := CodeAnswered(cfg);
    ReachesNext(cfg, before, Action.Claim(0, "t", LEASE, "c", None));
    s := WithClaim(before, 0, "t", LEASE, "c", None);
  }

  lemma CredentialFound(cfg: Config) returns (s: Sys)
    requires Usable(cfg)
    ensures Reaches(cfg, s) && NothingPending(s)
    ensures s.now == 0 && s.used == {"q", "k", "t", "i"} && "sub" in s.db.credentials
    ensures exists g :: s.handlers == map[0 := Looking("t", "i", LeasedRow(cfg), "c", None, g)]
  {
    var before := TokenHeld(cfg);
    ReachesNext(cfg, before, Look(0));
    s := WithLook(before, 0);
  }

  lemma SecondCheck(cfg: Config) returns (s: Sys)
    requires Usable(cfg) && cfg.maxHandlers >= 2
    ensures Reaches(cfg, s) && NothingPending(s)
    ensures s.now == 0 && s.used == {"q", "k", "t", "i"} && "sub" in s.db.credentials
    ensures exists g :: s.handlers == map[0 := Looking("t", "i", LeasedRow(cfg), "c", None, g), 1 := Checked]
  {
    var before := CredentialFound(cfg);
    var g :| before.handlers == map[0 := Looking("t", "i", LeasedRow(cfg), "c", None, g)];
    assert Pending(before.db, 0) == 0;
    ReachesNext(cfg, before, CheckCapacity(1));
    s := before.(handlers := before.handlers[1 := Checked]);
    assert s.handlers == map[0 := Looking("t", "i", LeasedRow(cfg), "c", None, g), 1 := Checked];
  }

  /** While that refresh is under way the user authorizes a second request. */
  lemma SecondRequest(cfg: Config) returns (s: Sys)
    requires Usable(cfg) && cfg.maxHandlers >= 2
    ensures Reaches(cfg, s) && s.now == 0 && "sub" in s.db.credentials
    ensures s.db.requests == map["r" := Row(Request(cfg), REQUEST_TTL)]
    ensures exists g :: s.handlers == map[0 := Looking("t", "i", LeasedRow(cfg), "c", None, g)]
  {
    var before := SecondCheck(cfg);
    var g :| before.handlers == map[0 := Looking("t", "i", LeasedRow(cfg), "c", None, g), 1 := Checked];
    ReachesNext(cfg, before, Action.InsertRequest(1, "r", Request(cfg)));
    s := WithRequest(before, 1, "r", Request(cfg));
    assert s.handlers == map[0 := Looking("t", "i", LeasedRow(cfg), "c", None, g)];
  }

  /** One handler between finding the credential and writing it back, and one with a code to come. */
  lemma LookingAndExchanged(cfg: Config) returns (s: Sys)
    requires Usable(cfg) && cfg.maxHandlers >= 2
    ensures Reaches(cfg, s) && "sub" in s.db.credentials
    ensures exists g :: s.handlers == map[0 := Looking("t", "i", LeasedRow(cfg), "c", None, g),
                                          1 := Exchanged("r", Request(cfg), "sub")]
  {
    var s0 := SecondRequest(cfg);
    var g :| s0.handlers == map[0 := Looking("t", "i", LeasedRow(cfg), "c", None, g)];
    ReachesNext(cfg, s0, Action.TakeRequest(1, "r"));
    var s1 := WithCall(s0, 1, "r");
    ReachesNext(cfg, s1, Exchange(1, "sub"));
    s := WithExchange(s1, 1, "sub");
    assert s.handlers == map[0 := Looking("t", "i", LeasedRow(cfg), "c", None, g),
                             1 := Exchanged("r", Request(cfg), "sub")];
  }

  lemma TokenRenewed(cfg: Config) returns (s: Sys)
    requires Usable(cfg)
    ensures Reaches(cfg, s)
    ensures s.now == 0 && s.handlers == map[0 := Renewed("t", "i", LeasedRow(cfg), "c", None)]
            && s.used == {"q", "k", "t", "i"}
    ensures s.db.refresh == map["t" := Row(LeasedRow(cfg), cfg.refreshTtl)] && "sub" in s.db.credentials
    ensures s.hist.roots == map["t" := "k"]
    ensures s.hist.grants == [ByCode("k", Presented(cfg), CodeResponse(cfg, Code(cfg)), "t")]
  {
    var before := TokenHeld(cfg);
    ReachesNext(cfg, before, Look(0));
    var looking := WithLook(before, 0);
    ReachesNext(cfg, looking, Renew(0));
    s := WithRenewal(looking, 0);
  }

  /** A flow completes and is refreshed: its two responses elevate the requested scope once and twice. */
  lemma Refreshed(cfg: Config) returns (s: Sys)
    requires Usable(cfg)
    ensures Reaches(cfg, s) && |s.hist.grants| == 2 && s.hist.grants[0].ByCode? && s.hist.grants[1].ByRefresh?
    ensures s.hist.grants[0].token == s.hist.grants[1].token
    ensures s.hist.grants[0].response.scope == cfg.elevate("")
    ensures s.hist.grants[1].response.scope == cfg.elevate(cfg.elevate(""))
  {
    var before := TokenRenewed(cfg);
    ReachesNext(cfg, before, Rotate(0, "u"));
    s := WithRotation(cfg, before, 0, "u");
  }

  /**
   * In the program, all responses of a lineage agree, in every run, exactly when the base
   * of the default scope holds no white space.
   */
  lemma OneVoiceExactly(cfg: Config, defaultScope: string, canonical: string)
    requires Concrete(cfg, defaultScope, canonical) && Usable(cfg)
    ensures (forall s :: Reaches(cfg, s) ==> OneVoice(s)) <==> Text.NoSpace(Scopes.Base(defaultScope))
  {
    RegularExactly(cfg, defaultScope, canonical);
    forall s | Reaches(cfg, s) && Regular(cfg) ensures OneVoice(s) {
      RegularSpeaksOnce(cfg, s);
    }
    if forall s :: Reaches(cfg, s) ==> OneVoice(s) {
      var s := Refreshed(cfg);
      RefreshResponseBound(cfg, s, 1);
      assert GrantOrigin(s.hist, s.hist.grants[0]) == GrantOrigin(s.hist, s.hist.grants[1]);
      assert s.hist.grants[0].response == s.hist.grants[1].response;
      Scopes.ElevateIdempotentExactly("", defaultScope);
    }
  }
}

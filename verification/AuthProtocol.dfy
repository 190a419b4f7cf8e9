/**
 * The OAuth handlers as steps over the shared store. A handler is in flight
 * between two of its store operations; any other step may come in between.
 * `History` records what was ever issued and is read by no step.
 */
module AuthProtocol {
  import opened Basics
  import opened AuthStore
  import Scopes
  import Text

  const REQUEST_TTL: nat := 300

  datatype Config = Config(
    maxPending: nat, maxHandlers: nat, codeTtl: nat, refreshTtl: nat,
    nativeCallback: string,
    pkce: string -> string,        // the S256 challenge of a verifier
    elevate: string -> string,     // the scope an allowlisted user gets
    settle: string -> string)      // the resource a possibly blank stored one stands for

  /** The program's own scope elevation and resource defaulting. */
  ghost predicate Concrete(cfg: Config, defaultScope: string, canonical: string) {
    && (forall s :: cfg.elevate(s) == Scopes.Elevate(s, defaultScope))
    && (forall r :: cfg.settle(r) == if Text.Trim(r) == "" then canonical else r)
  }

  /** Settling a resource twice is settling it once. */
  ghost predicate Settled(cfg: Config) {
    forall r :: cfg.settle(cfg.settle(r)) == cfg.settle(r)
  }

  /** Elevating a scope twice is elevating it once. */
  ghost predicate Steady(cfg: Config) {
    forall s :: cfg.elevate(cfg.elevate(s)) == cfg.elevate(s)
  }

  ghost predicate Regular(cfg: Config) {
    Settled(cfg) && Steady(cfg)
  }

  /** The program settles resources whatever its default scope is. */
  lemma ConcreteSettled(cfg: Config, defaultScope: string, canonical: string)
    requires Concrete(cfg, defaultScope, canonical)
    ensures Settled(cfg)
  {
  }

  /** The program is regular exactly when the base of its default scope holds no white space. */
  lemma RegularExactly(cfg: Config, defaultScope: string, canonical: string)
    requires Concrete(cfg, defaultScope, canonical)
    ensures Regular(cfg) <==> Text.NoSpace(Scopes.Base(defaultScope))
  {
    Scopes.ElevateIdempotentExactly("", defaultScope);
    assert cfg.elevate(cfg.elevate("")) == Scopes.Elevate(Scopes.Elevate("", defaultScope), defaultScope);
    forall s ensures cfg.elevate(cfg.elevate(s)) == cfg.elevate(s) <==> Text.NoSpace(Scopes.Base(defaultScope)) {
      Scopes.ElevateIdempotentExactly(s, defaultScope);
    }
  }

  /** What a client presents with an authorization code. */
  datatype Shown = Shown(clientId: string, redirectUri: string, verifier: string, resource: Option<string>)

  /** What an access token says. */
  datatype Response = Response(clientId: string, subject: string, resource: string, scope: string)

  /** A handler between two store operations. */
  datatype Handler =
    // capacity granted, nothing inserted yet
    | Checked
    // callback holds the request it took
    | Called(state: string, request: AuthRequest)
    // ... and the provider's answer
    | Exchanged(state: string, request: AuthRequest, subject: string)
    // ... and owes a native result
    | CodeStored(clientState: string, code: string)
    // code consumed and verified
    | Redeemed(code: string, row: AuthCode, shown: Shown)
    // ... the subject's credential was seen
    | Cleared(code: string, row: AuthCode, shown: Shown)
    // ... refresh token stored
    | Stored(code: string, row: AuthCode, shown: Shown, token: string)
    // refresh token leased
    | Claimed(token: string, claimId: string, held: RefreshRow, clientId: string, requested: Option<string>)
    // ... provider credential found, and its refresh under way
    | Looking(
        token: string, claimId: string, held: RefreshRow, clientId: string, requested: Option<string>, generation: nat)
    // ... and written back
    | Renewed(token: string, claimId: string, held: RefreshRow, clientId: string, requested: Option<string>)

  /** The handler has leased a refresh token. */
  predicate HoldsToken(h: Handler) { h.Claimed? || h.Looking? || h.Renewed? }

  datatype Issue = Issue(state: string, row: AuthCode)

  datatype Grant =
    | ByCode(code: string, shown: Shown, response: Response, token: string)
    | ByRefresh(token: string, clientId: string, requested: Option<string>, response: Response, newToken: string)

  datatype History = History(
    requests: map<string, AuthRequest>,   // every request ever stored, by state
    subjects: map<string, string>,        // whom the provider named for it
    issued: map<string, Issue>,           // every code ever stored
    roots: map<string, string>,           // every refresh token ever stored, and the code it descends from
    depths: map<string, nat>,             // ... after how many refreshes
    grants: seq<Grant>)                   // every token response

  datatype Sys = Sys(now: int, db: Db, handlers: map<nat, Handler>, used: set<string>, hist: History)

  const INITIAL := Sys(0, EMPTY, map[], {}, History(map[], map[], map[], map[], map[], []))

  // ---- What the handlers compute -------------------------------------------------------

  function CodeRow(cfg: Config, request: AuthRequest, subject: string): AuthCode {
    AuthCode(request.clientId, subject, request.redirectUri, request.resource,
             cfg.elevate(request.scope), request.codeChallenge, request.challengeMethod)
  }

  /** `validate_authorization_code_row` and the resource comparison after it. */
  predicate Verified(cfg: Config, row: AuthCode, shown: Shown) {
    && row.clientId == shown.clientId
    && row.redirectUri == shown.redirectUri
    && row.challengeMethod == "S256"
    && cfg.pkce(shown.verifier) == row.codeChallenge
    && (shown.resource.Some? ==> shown.resource.value == row.resource)
  }

  function CodeResponse(cfg: Config, row: AuthCode): Response {
    Response(row.clientId, row.subject, cfg.settle(row.resource), row.scope)
  }

  /** The row a refresh rotates to: same client and subject, settled resource, elevated scope. */
  function Successor(cfg: Config, held: RefreshRow): RefreshRow {
    RefreshRow(held.clientId, held.subject, cfg.settle(held.resource), cfg.elevate(held.scope), None)
  }

  function RowResponse(row: RefreshRow): Response {
    Response(row.clientId, row.subject, row.resource, row.scope)
  }

  // ---- Steps ---------------------------------------------------------------------------------

  datatype Action =
    | Tick(secs: nat)
    | CheckCapacity(pid: nat)
    | InsertRequest(pid: nat, key: string, request: AuthRequest)
    | InsertLogin(pid: nat, key: string, login: LoginState)
    | GiveUp(pid: nat)
    | TakeRequest(pid: nat, key: string)
    | TakeLogin(key: string)
    | Exchange(pid: nat, subject: string)
    | InsertCode(pid: nat, key: string)
    | InsertNative(pid: nat)
    | PollNative(key: string)
    | Redeem(pid: nat, key: string, shown: Shown)
    | CheckCredential(pid: nat)
    | StoreRefresh(pid: nat, key: string)
    | RespondCode(pid: nat)
    | Claim(pid: nat, key: string, claim: AuthStore.Claim, clientId: string, requested: Option<string>)
    | Look(pid: nat)
    | Renew(pid: nat)
    | Condemn(pid: nat)
    | Rotate(pid: nat, key: string)
    | Release(pid: nat)
    | Invalidate(subject: string, generation: nat)
    | Revoke(key: string)
    | Cleanup

  /** A new handler needs a free identifier and a free slot. */
  predicate Startable(cfg: Config, s: Sys, pid: nat) {
    pid !in s.handlers && |s.handlers| < cfg.maxHandlers
  }

  predicate Can(cfg: Config, s: Sys, a: Action) {
    match a
    case Tick(_) => true
    case CheckCapacity(pid) => Startable(cfg, s, pid) && Pending(s.db, s.now) < cfg.maxPending
    case InsertRequest(pid, key, request) =>
      pid in s.handlers && s.handlers[pid].Checked? && key !in s.used && request.challengeMethod == "S256"
    case InsertLogin(pid, key, _) => pid in s.handlers && s.handlers[pid].Checked? && key !in s.used
    case GiveUp(pid) => pid in s.handlers
    case TakeRequest(pid, key) => Startable(cfg, s, pid) && Take(s.db.requests, key, s.now).1.Some?
    case TakeLogin(_) => true
    case Exchange(pid, _) => pid in s.handlers && s.handlers[pid].Called?
    case InsertCode(pid, key) => pid in s.handlers && s.handlers[pid].Exchanged? && key !in s.used
    case InsertNative(pid) => pid in s.handlers && s.handlers[pid].CodeStored?
    case PollNative(_) => true
    case Redeem(pid, key, _) => Startable(cfg, s, pid) && Take(s.db.codes, key, s.now).1.Some?
    case CheckCredential(pid) =>
      pid in s.handlers && s.handlers[pid].Redeemed? && s.handlers[pid].row.subject in s.db.credentials
    case StoreRefresh(pid, key) => pid in s.handlers && s.handlers[pid].Cleared? && key !in s.used
    case RespondCode(pid) => pid in s.handlers && s.handlers[pid].Stored?
    case Claim(pid, key, claim, _, _) => Startable(cfg, s, pid) && claim.id !in s.used
        && Claimable(s.db.refresh, key, s.now)
    case Look(pid) =>
      && pid in s.handlers && s.handlers[pid].Claimed?
      && var h := s.handlers[pid];
         && h.held.clientId == h.clientId && (h.requested.Some? ==> h.requested.value == cfg.settle(h.held.resource))
         && h.held.subject in s.db.credentials
    case Renew(pid) => pid in s.handlers && s.handlers[pid].Looking?
    case Condemn(pid) => pid in s.handlers && s.handlers[pid].Looking?
    case Rotate(pid, key) => pid in s.handlers && s.handlers[pid].Renewed? && key !in s.used
    case Release(pid) => pid in s.handlers && HoldsToken(s.handlers[pid])
    case Invalidate(_, _) => true
    case Revoke(_) => true
    case Cleanup => true
  }

  // Each step is a function of its own; `Next` picks one.

  function WithRequest(s: Sys, pid: nat, key: string, request: AuthRequest): Sys {
    s.(db := s.db.(requests := Insert(s.db.requests, key, Row(request, s.now + REQUEST_TTL)).0),
       handlers := s.handlers - {pid}, used := s.used + {key},
       hist := s.hist.(requests := s.hist.requests[key := request]))
  }

  function WithLogin(s: Sys, pid: nat, key: string, login: LoginState): Sys {
    s.(db := s.db.(logins := Insert(s.db.logins, key, Row(login, s.now + REQUEST_TTL)).0),
       handlers := s.handlers - {pid}, used := s.used + {key})
  }

  function WithCall(s: Sys, pid: nat, key: string): Sys
    requires Take(s.db.requests, key, s.now).1.Some?
  {
    s.(db := s.db.(requests := Take(s.db.requests, key, s.now).0),
       handlers := s.handlers[pid := Called(key, Take(s.db.requests, key, s.now).1.value)])
  }

  function WithExchange(s: Sys, pid: nat, subject: string): Sys
    requires pid in s.handlers && s.handlers[pid].Called?
  {
    s.(db := InstallCredential(s.db, subject),
       handlers := s.handlers[pid := Exchanged(s.handlers[pid].state, s.handlers[pid].request, subject)],
       hist := s.hist.(subjects := s.hist.subjects[s.handlers[pid].state := subject]))
  }

  function WithCode(cfg: Config, s: Sys, pid: nat, key: string): Sys
    requires pid in s.handlers && s.handlers[pid].Exchanged?
  {
    var h := s.handlers[pid];
    var row := CodeRow(cfg, h.request, h.subject);
    s.(db := s.db.(codes := Insert(s.db.codes, key, Row(row, s.now + cfg.codeTtl)).0),
       handlers := if h.request.redirectUri == cfg.nativeCallback
                   then s.handlers[pid := CodeStored(h.request.clientState, key)] else s.handlers - {pid},
       used := s.used + {key},
       hist := s.hist.(issued := s.hist.issued[key := Issue(h.state, row)]))
  }

  function WithNative(cfg: Config, s: Sys, pid: nat): Sys
    requires pid in s.handlers && s.handlers[pid].CodeStored?
  {
    var h := s.handlers[pid];
    s.(db := s.db.(natives := s.db.natives[h.clientState := Row(h.code, s.now + cfg.codeTtl)]),
        handlers := s.handlers - {pid})
  }

  /** The code is gone either way; the handler goes on only if everything presented with it checks out. */
  function WithRedemption(cfg: Config, s: Sys, pid: nat, key: string, shown: Shown): Sys
    requires Take(s.db.codes, key, s.now).1.Some?
  {
    var row := Take(s.db.codes, key, s.now).1.value;
    s.(db := s.db.(codes := Take(s.db.codes, key, s.now).0),
       handlers := if Verified(cfg, row, shown) then s.handlers[pid := Redeemed(key, row, shown)] else s.handlers)
  }

  /** The credential is only looked at; it may be gone again before the token is stored. */
  function WithCheck(s: Sys, pid: nat): Sys
    requires pid in s.handlers && s.handlers[pid].Redeemed?
  {
    var h := s.handlers[pid];
    s.(handlers := s.handlers[pid := Cleared(h.code, h.row, h.shown)])
  }

  function WithRefresh(cfg: Config, s: Sys, pid: nat, key: string): Sys
    requires pid in s.handlers && s.handlers[pid].Cleared?
  {
    var h := s.handlers[pid];
    var row := RefreshRow(h.row.clientId, h.row.subject, h.row.resource, h.row.scope, None);
    s.(db := s.db.(refresh := UpsertToken(s.db.refresh, key, Row(row, s.now + cfg.refreshTtl))),
       handlers := s.handlers[pid := Stored(h.code, h.row, h.shown, key)], used := s.used + {key},
       hist := s.hist.(roots := s.hist.roots[key := h.code], depths := s.hist.depths[key := 0]))
  }

  function WithCodeGrant(cfg: Config, s: Sys, pid: nat): Sys
    requires pid in s.handlers && s.handlers[pid].Stored?
  {
    var h := s.handlers[pid];
    s.(handlers := s.handlers - {pid},
       hist := s.hist.(grants := s.hist.grants + [ByCode(h.code, h.shown, CodeResponse(cfg, h.row), h.token)]))
  }

  function WithClaim(
    s: Sys, pid: nat, key: string, claim: AuthStore.Claim, clientId: string, requested: Option<string>): Sys
    requires Claimable(s.db.refresh, key, s.now)
  {
    var held := ClaimToken(s.db.refresh, key, claim, s.now).1.value;
    s.(db := s.db.(refresh := ClaimToken(s.db.refresh, key, claim, s.now).0),
       handlers := s.handlers[pid := Claimed(key, claim.id, held, clientId, requested)], used := s.used + {claim.id})
  }

  function WithLook(s: Sys, pid: nat): Sys
    requires pid in s.handlers && s.handlers[pid].Claimed? && s.handlers[pid].held.subject in s.db.credentials
  {
    var h := s.handlers[pid];
    var generation := s.db.credentials[h.held.subject];
    s.(handlers := s.handlers[pid := Looking(h.token, h.claimId, h.held, h.clientId, h.requested, generation)])
  }

  /** The provider refused: compare and delete. The handler will release, or look again if it missed. */
  function WithCondemnation(s: Sys, pid: nat): Sys
    requires pid in s.handlers && s.handlers[pid].Looking?
  {
    var h := s.handlers[pid];
    s.(db := InvalidateCredential(s.db, h.held.subject, h.generation).0,
       handlers := s.handlers[pid := Claimed(h.token, h.claimId, h.held, h.clientId, h.requested)])
  }

  /** The refreshed credential is written back, whatever is stored by then. */
  function WithRenewal(s: Sys, pid: nat): Sys
    requires pid in s.handlers && s.handlers[pid].Looking?
  {
    var h := s.handlers[pid];
    s.(db := InstallCredential(s.db, h.held.subject),
       handlers := s.handlers[pid := Renewed(h.token, h.claimId, h.held, h.clientId, h.requested)])
  }

  /** Rotation answers only if the lease is still held; otherwise nothing changes and the handler will release. */
  function WithRotation(cfg: Config, s: Sys, pid: nat, key: string): Sys
    requires pid in s.handlers && s.handlers[pid].Renewed?
  {
    var h := s.handlers[pid];
    var row := Successor(cfg, h.held);
    var (t, ok) := RotateClaimed(s.db.refresh, h.token, h.claimId, key, Row(row, s.now + cfg.refreshTtl), s.now);
    if !ok then s
    else
      s.(db := s.db.(refresh := t), handlers := s.handlers - {pid}, used := s.used + {key},
         hist := s.hist.(
           roots := s.hist.roots[key := if h.token in s.hist.roots then s.hist.roots[h.token] else h.token],
           depths := s.hist.depths[key := 1 + if h.token in s.hist.depths then s.hist.depths[h.token] else 0],
           grants := s.hist.grants + [ByRefresh(h.token, h.clientId, h.requested, RowResponse(row), key)]))
  }

  function WithRelease(s: Sys, pid: nat): Sys
    requires pid in s.handlers && HoldsToken(s.handlers[pid])
  {
    var h := s.handlers[pid];
    s.(db := s.db.(refresh := ReleaseClaim(s.db.refresh, h.token, h.claimId)), handlers := s.handlers - {pid})
  }

  function Next(cfg: Config, s: Sys, a: Action): Sys
    requires Can(cfg, s, a)
  {
    match a
    case Tick(secs) => s.(now := s.now + secs)
    case CheckCapacity(pid) => s.(handlers := s.handlers[pid := Checked])
    case InsertRequest(pid, key, request) => WithRequest(s, pid, key, request)
    case InsertLogin(pid, key, login) => WithLogin(s, pid, key, login)
    case GiveUp(pid) => s.(handlers := s.handlers - {pid})
    case TakeRequest(pid, key) => WithCall(s, pid, key)
    case TakeLogin(key) => s.(db := s.db.(logins := Take(s.db.logins, key, s.now).0))
    case Exchange(pid, subject) => WithExchange(s, pid, subject)
    case InsertCode(pid, key) => WithCode(cfg, s, pid, key)
    case InsertNative(pid) => WithNative(cfg, s, pid)
    case PollNative(key) => s.(db := s.db.(natives := Take(s.db.natives, key, s.now).0))
    case Redeem(pid, key, shown) => WithRedemption(cfg, s, pid, key, shown)
    case CheckCredential(pid) => WithCheck(s, pid)
    case StoreRefresh(pid, key) => WithRefresh(cfg, s, pid, key)
    case RespondCode(pid) => WithCodeGrant(cfg, s, pid)
    case Claim(pid, key, claim, clientId, requested) => WithClaim(s, pid, key, claim, clientId, requested)
    case Look(pid) => WithLook(s, pid)
    case Renew(pid) => WithRenewal(s, pid)
    case Condemn(pid) => WithCondemnation(s, pid)
    case Rotate(pid, key) => WithRotation(cfg, s, pid, key)
    case Release(pid) => WithRelease(s, pid)
    case Invalidate(subject, g) => s.(db := InvalidateCredential(s.db, subject, g).0)
    case Revoke(key) => s.(db := s.db.(refresh := s.db.refresh - {key}))
    case Cleanup => s.(db := Swept(s.db, s.now))
  }

  /** The state after a run, if every step of it was possible. */
  function Run(cfg: Config, actions: seq<Action>): Option<Sys> {
    if actions == [] then Some(INITIAL)
    else
      var before, a := Run(cfg, actions[..|actions| - 1]), actions[|actions| - 1];
      if before.Some? && Can(cfg, before.value, a) then Some(Next(cfg, before.value, a)) else None
  }

  lemma RunSnoc(cfg: Config, actions: seq<Action>, a: Action)
    requires Run(cfg, actions).Some? && Can(cfg, Run(cfg, actions).value, a)
    ensures Run(cfg, actions + [a]) == Some(Next(cfg, Run(cfg, actions).value, a))
  {
    assert (actions + [a])[..|actions|] == actions;
  }

  ghost predicate Reaches(cfg: Config, s: Sys) {
    exists actions :: Run(cfg, actions) == Some(s)
  }

  lemma ReachesNext(cfg: Config, s: Sys, a: Action)
    requires Reaches(cfg, s) && Can(cfg, s, a)
    ensures Reaches(cfg, Next(cfg, s, a))
  {
    var actions :| Run(cfg, actions) == Some(s);
    RunSnoc(cfg, actions, a);
  }
}

/**
 * What holds in every interleaving of the handlers: requests, codes and
 * refresh tokens are each spent at most once, and every token response says
 * what the originating authorization request and the provider said.
 */
module AuthSafety {
  import opened Basics
  import opened AuthStore
  import opened AuthProtocol

  // ---- The invariant, table by table ------------------------------------------------------

  predicate HoldsState(h: Handler) { h.Called? || h.Exchanged? }

  predicate HoldsCode(h: Handler) { Owes(h) || h.Stored? }

  /** The code is spent and no refresh token has come of it yet. */
  predicate Owes(h: Handler) { h.Redeemed? || h.Cleared? }

  /** Every identifier in sight has been drawn before, so a fresh one collides with nothing. */
  ghost predicate Drawn(s: Sys) {
    && s.db.requests.Keys <= s.used && s.db.logins.Keys <= s.used && s.db.codes.Keys <= s.used
    && s.db.refresh.Keys <= s.used
    && s.hist.requests.Keys <= s.used && s.hist.issued.Keys <= s.used && s.hist.roots.Keys <= s.used
    && s.hist.depths.Keys <= s.used
  }

  /** A stored request is the recorded one and no code has come of it. */
  ghost predicate RequestsUnspent(s: Sys) {
    && (forall k :: k in s.db.requests ==> k in s.hist.requests && s.db.requests[k].data == s.hist.requests[k])
    && (forall k :: k in s.hist.requests ==> s.hist.requests[k].challengeMethod == "S256")
    && (forall c :: c in s.hist.issued ==> s.hist.issued[c].state !in s.db.requests)
    && (forall k :: k in s.hist.subjects ==> k in s.hist.requests && k !in s.db.requests)
  }

  /** A callback in flight owns the request it took: nobody else has it, and no code has come of it. */
  ghost predicate CallbacksOwn(s: Sys) {
    && (forall p :: p in s.handlers && HoldsState(s.handlers[p]) ==>
          var h := s.handlers[p];
          && h.state in s.hist.requests && h.request == s.hist.requests[h.state] && h.state !in s.db.requests
          && (h.Called? ==> h.state !in s.hist.subjects)
          && (h.Exchanged? ==> h.state in s.hist.subjects && s.hist.subjects[h.state] == h.subject)
          && (forall c :: c in s.hist.issued ==> s.hist.issued[c].state != h.state))
    && (forall p, q ::
          p in s.handlers && q in s.handlers && p != q && HoldsState(s.handlers[p]) && HoldsState(s.handlers[q]) ==>
            s.handlers[p].state != s.handlers[q].state)
  }

  /** Every code derives from a recorded request, a different one each. */
  ghost predicate CodesDerived(cfg: Config, s: Sys) {
    && (forall c :: c in s.hist.issued ==>
          var i := s.hist.issued[c];
          && i.state in s.hist.requests && i.state in s.hist.subjects
          && i.row == CodeRow(cfg, s.hist.requests[i.state], s.hist.subjects[i.state]))
    && (forall c, d :: c in s.hist.issued && d in s.hist.issued && c != d ==>
        s.hist.issued[c].state != s.hist.issued[d].state)
  }

  /** A stored code is the recorded one; a code in a grant or a handler is no longer stored. */
  ghost predicate CodesUnspent(cfg: Config, s: Sys) {
    && (forall c :: c in s.db.codes ==> c in s.hist.issued && s.db.codes[c].data == s.hist.issued[c].row)
    && (forall p :: p in s.handlers && HoldsCode(s.handlers[p]) ==>
          var h := s.handlers[p];
          && h.code in s.hist.issued && h.row == s.hist.issued[h.code].row && h.code !in s.db.codes
          && Verified(cfg, h.row, h.shown)
          && (forall i :: 0 <= i < |s.hist.grants| && s.hist.grants[i].ByCode? ==> s.hist.grants[i].code != h.code))
    && (forall p, q ::
          p in s.handlers && q in s.handlers && p != q && HoldsCode(s.handlers[p]) && HoldsCode(s.handlers[q]) ==>
            s.handlers[p].code != s.handlers[q].code)
  }

  ghost predicate CodeGrantsGood(cfg: Config, s: Sys) {
    && (forall i :: 0 <= i < |s.hist.grants| && s.hist.grants[i].ByCode? ==>
          var g := s.hist.grants[i];
          && g.code in s.hist.issued && g.code !in s.db.codes
          && Verified(cfg, s.hist.issued[g.code].row, g.shown)
          && g.response == CodeResponse(cfg, s.hist.issued[g.code].row)
          && g.token in s.hist.roots && s.hist.roots[g.token] == g.code)
    && (forall i, j :: 0 <= i < j < |s.hist.grants| && s.hist.grants[i].ByCode? && s.hist.grants[j].ByCode? ==>
          s.hist.grants[i].code != s.hist.grants[j].code)
  }

  /** `f` applied `n` times. */
  function Iterated(f: string -> string, n: nat, x: string): string {
    if n == 0 then x else f(Iterated(f, n - 1, x))
  }

  /** After `depth` refreshes the row carries on what the code said; a blank resource may have been settled. */
  ghost predicate Carries(cfg: Config, code: AuthCode, row: RefreshRow, depth: nat) {
    && row.clientId == code.clientId && row.subject == code.subject
    && row.scope == Iterated(cfg.elevate, depth, code.scope)
    && (Settled(cfg) ==> cfg.settle(row.resource) == cfg.settle(code.resource))
  }

  /** Refresh tokens descend from a code that was issued, redeemed, and given to no second token. */
  ghost predicate RootsRedeemed(s: Sys) {
    forall t :: t in s.hist.roots ==>
      && s.hist.roots[t] in s.hist.issued && s.hist.roots[t] !in s.db.codes
      && (forall p :: p in s.handlers && Owes(s.handlers[p]) ==> s.handlers[p].code != s.hist.roots[t])
  }

  /** At most one refresh token is stored per code, and it carries on what the code said. */
  ghost predicate TokensCarry(cfg: Config, s: Sys) {
    && (forall t :: t in s.db.refresh ==>
          && t in s.hist.roots && s.hist.roots[t] in s.hist.issued && t in s.hist.depths
          && Carries(cfg, s.hist.issued[s.hist.roots[t]].row, s.db.refresh[t].data, s.hist.depths[t]))
    && (forall t, u :: t in s.db.refresh && u in s.db.refresh && t != u ==> s.hist.roots[t] != s.hist.roots[u])
  }

  /** The response is for the client that asked, and for the resource it asked for, if any. */
  predicate Permitted(clientId: string, requested: Option<string>, r: Response) {
    clientId == r.clientId && (requested.Some? ==> requested.value == r.resource)
  }

  /** So does the copy a refresh in flight holds, wherever the row is by now. */
  ghost predicate HoldersCarry(cfg: Config, s: Sys) {
    && (forall p :: p in s.handlers && HoldsToken(s.handlers[p]) ==>
          var h := s.handlers[p];
          && h.token in s.hist.roots && s.hist.roots[h.token] in s.hist.issued && h.token in s.hist.depths
          && Carries(cfg, s.hist.issued[s.hist.roots[h.token]].row, h.held, s.hist.depths[h.token])
          && (h.Looking? || h.Renewed? ==> Permitted(h.clientId, h.requested, RowResponse(Successor(cfg, h.held)))))
    && (forall p :: p in s.handlers && s.handlers[p].Stored? ==>
          s.handlers[p].token in s.hist.roots && s.hist.roots[s.handlers[p].token] == s.handlers[p].code)
  }

  /** A response names the code's client, subject and settled resource, and its scope elevated once per refresh. */
  ghost predicate Says(cfg: Config, r: Response, code: AuthCode, depth: nat) {
    && r.clientId == code.clientId && r.subject == code.subject
    && r.scope == Iterated(cfg.elevate, depth, code.scope)
    && (Settled(cfg) ==> r.resource == cfg.settle(code.resource))
  }

  /** The token is spent, its successor has the same root, and the response says what that code said. */
  ghost predicate RefreshGood(cfg: Config, s: Sys, g: Grant)
    requires g.ByRefresh?
  {
    && g.token in s.hist.roots && g.token !in s.db.refresh
    && g.newToken in s.hist.roots && s.hist.roots[g.newToken] == s.hist.roots[g.token]
    && s.hist.roots[g.token] in s.hist.issued && g.token in s.hist.depths && g.newToken in s.hist.depths
    && s.hist.depths[g.newToken] == s.hist.depths[g.token] + 1
    && Says(cfg, g.response, s.hist.issued[s.hist.roots[g.token]].row, s.hist.depths[g.newToken])
    && Permitted(g.clientId, g.requested, g.response)
  }

  ghost predicate RefreshGrantsGood(cfg: Config, s: Sys) {
    && (forall i :: 0 <= i < |s.hist.grants| && s.hist.grants[i].ByRefresh? ==> RefreshGood(cfg, s, s.hist.grants[i]))
    && (forall i, j :: 0 <= i < j < |s.hist.grants| && s.hist.grants[i].ByRefresh? && s.hist.grants[j].ByRefresh? ==>
          s.hist.grants[i].token != s.hist.grants[j].token)
  }

  ghost predicate Inv(cfg: Config, s: Sys) {
    && Drawn(s) && RequestsUnspent(s) && CallbacksOwn(s) && CodesDerived(cfg, s)
    && CodesUnspent(cfg, s) && CodeGrantsGood(cfg, s)
    && RootsRedeemed(s) && TokensCarry(cfg, s) && HoldersCarry(cfg, s) && RefreshGrantsGood(cfg, s)
  }

  // ---- Steps that bring in nothing new ------------------------------------------------------

  ghost predicate Extends<T>(m: map<string, T>, m': map<string, T>) {
    forall k :: k in m ==> k in m' && m'[k] == m[k]
  }

  /** Rows are old ones, or have an identifier never seen before. */
  ghost predicate NoneRevived<T>(t: map<string, T>, t': map<string, T>, used: set<string>) {
    forall k :: k in t' ==> (k in t && t'[k] == t[k]) || k !in used
  }

  ghost predicate FlowQuiet(s: Sys, s': Sys) {
    && (forall k :: k in s'.db.requests ==> k in s.db.requests && s'.db.requests[k] == s.db.requests[k])
    && s'.hist.requests == s.hist.requests && s'.hist.subjects == s.hist.subjects && s'.hist.issued == s.hist.issued
    && (forall p :: p in s'.handlers && HoldsState(s'.handlers[p]) ==>
        p in s.handlers && s.handlers[p] == s'.handlers[p])
  }

  lemma FlowQuietKeeps(cfg: Config, s: Sys, s': Sys)
    requires FlowQuiet(s, s') && RequestsUnspent(s) && CallbacksOwn(s) && CodesDerived(cfg, s)
    ensures RequestsUnspent(s') && CallbacksOwn(s') && CodesDerived(cfg, s')
  {
  }

  ghost predicate CodesQuiet(s: Sys, s': Sys) {
    && (forall k :: k in s'.db.codes ==> k in s.db.codes && s'.db.codes[k] == s.db.codes[k])
    && s'.hist.issued == s.hist.issued && Extends(s.hist.roots, s'.hist.roots)
    && s.hist.grants <= s'.hist.grants
    && (forall i :: |s.hist.grants| <= i < |s'.hist.grants| ==> s'.hist.grants[i].ByRefresh?)
    && (forall p :: p in s'.handlers && HoldsCode(s'.handlers[p]) ==>
        p in s.handlers && s.handlers[p] == s'.handlers[p])
  }

  lemma CodesQuietKeeps(cfg: Config, s: Sys, s': Sys)
    requires CodesQuiet(s, s') && CodesUnspent(cfg, s) && CodeGrantsGood(cfg, s)
    ensures CodesUnspent(cfg, s') && CodeGrantsGood(cfg, s')
  {
  }

  ghost predicate RootsQuiet(s: Sys, s': Sys) {
    && NoneRevived(s.db.codes, s'.db.codes, s.used) && Extends(s.hist.issued, s'.hist.issued)
    && s'.hist.roots == s.hist.roots
    && (forall p :: p in s'.handlers && Owes(s'.handlers[p]) ==> p in s.handlers && s.handlers[p] == s'.handlers[p])
  }

  lemma RootsQuietKeeps(s: Sys, s': Sys)
    requires RootsQuiet(s, s') && Drawn(s) && RootsRedeemed(s)
    ensures RootsRedeemed(s')
  {
  }

  /** The lease columns may change, nothing else. */
  ghost predicate TokensQuiet(s: Sys, s': Sys) {
    && Extends(s.hist.issued, s'.hist.issued) && s'.hist.roots == s.hist.roots && s'.hist.depths == s.hist.depths
    && (forall t :: t in s'.db.refresh ==>
          t in s.db.refresh && s'.db.refresh[t].data == s.db.refresh[t].data.(claim := s'.db.refresh[t].data.claim))
  }

  lemma TokensQuietKeeps(cfg: Config, s: Sys, s': Sys)
    requires TokensQuiet(s, s') && TokensCarry(cfg, s)
    ensures TokensCarry(cfg, s')
  {
  }

  ghost predicate HoldersQuiet(s: Sys, s': Sys) {
    && Extends(s.hist.issued, s'.hist.issued) && Extends(s.hist.roots, s'.hist.roots)
    && Extends(s.hist.depths, s'.hist.depths)
    && (forall p :: p in s'.handlers && (HoldsToken(s'.handlers[p]) || s'.handlers[p].Stored?) ==>
          p in s.handlers && s.handlers[p] == s'.handlers[p])
  }

  lemma HoldersQuietKeeps(cfg: Config, s: Sys, s': Sys)
    requires HoldersQuiet(s, s') && HoldersCarry(cfg, s)
    ensures HoldersCarry(cfg, s')
  {
  }

  ghost predicate GrantsQuiet(s: Sys, s': Sys) {
    && (forall t :: t in s'.db.refresh ==> t in s.db.refresh || t !in s.used)
    && Extends(s.hist.issued, s'.hist.issued) && Extends(s.hist.roots, s'.hist.roots)
    && Extends(s.hist.depths, s'.hist.depths) && s.hist.grants <= s'.hist.grants
    && (forall i :: |s.hist.grants| <= i < |s'.hist.grants| ==> s'.hist.grants[i].ByCode?)
  }

  lemma GrantsQuietKeeps(cfg: Config, s: Sys, s': Sys)
    requires GrantsQuiet(s, s') && Drawn(s) && RefreshGrantsGood(cfg, s)
    ensures RefreshGrantsGood(cfg, s')
  {
  }

  /** Nothing of interest changes but by going away. */
  ghost predicate Quiet(s: Sys, s': Sys) {
    FlowQuiet(s, s') && CodesQuiet(s, s') && RootsQuiet(s, s') && TokensQuiet(s, s') && HoldersQuiet(s, s')
        && GrantsQuiet(s, s')
  }

  lemma QuietKeeps(cfg: Config, s: Sys, s': Sys)
    requires Inv(cfg, s) && Quiet(s, s') && Drawn(s')
    ensures Inv(cfg, s')
  {
    FlowQuietKeeps(cfg, s, s');
    CodesQuietKeeps(cfg, s, s');
    RootsQuietKeeps(s, s');
    TokensQuietKeeps(cfg, s, s');
    HoldersQuietKeeps(cfg, s, s');
    GrantsQuietKeeps(cfg, s, s');
  }

  predicate IdleAction(a: Action) { a.Tick? || a.CheckCapacity? || a.GiveUp? }

  predicate SideAction(a: Action) { a.InsertLogin? || a.TakeLogin? || a.InsertNative? || a.PollNative? }

  predicate SweepingAction(a: Action) { a.Invalidate? || a.Revoke? || a.Cleanup? }

  /** Time passes, handlers end or pass a capacity check: nothing else. */
  lemma IdleQuiet(s: Sys, now: int, handlers: map<nat, Handler>)
    requires forall p :: p in handlers ==> handlers[p].Checked? || (p in s.handlers && handlers[p] == s.handlers[p])
    ensures Quiet(s, s.(now := now, handlers := handlers))
  {
  }

  lemma IdleActions(cfg: Config, s: Sys, a: Action)
    requires Can(cfg, s, a) && IdleAction(a)
    ensures Quiet(s, Next(cfg, s, a))
  {
    IdleQuiet(s, Next(cfg, s, a).now, Next(cfg, s, a).handlers);
  }

  lemma SideActions(cfg: Config, s: Sys, a: Action)
    requires Can(cfg, s, a) && SideAction(a)
    ensures Quiet(s, Next(cfg, s, a))
  {
  }

  lemma SweepingActions(cfg: Config, s: Sys, a: Action)
    requires Can(cfg, s, a) && SweepingAction(a)
    ensures Quiet(s, Next(cfg, s, a))
  {
  }

  lemma DrawnCodeStep(cfg: Config, s: Sys, a: Action)
    requires Can(cfg, s, a) && CodeAction(a) && Drawn(s)
    ensures Drawn(Next(cfg, s, a))
  {
  }

  lemma DrawnOtherStep(cfg: Config, s: Sys, a: Action)
    requires Can(cfg, s, a) && !CodeAction(a) && Drawn(s)
    ensures Drawn(Next(cfg, s, a))
  {
  }

  lemma DrawnStep(cfg: Config, s: Sys, a: Action)
    requires Can(cfg, s, a) && Drawn(s)
    ensures Drawn(Next(cfg, s, a))
  {
    if CodeAction(a) {
      DrawnCodeStep(cfg, s, a);
    } else {
      DrawnOtherStep(cfg, s, a);
    }
  }

  // ---- Steps on requests and callbacks ---------------------------------------------------------

  lemma RequestFlow(cfg: Config, s: Sys, pid: nat, key: string, request: AuthRequest)
    requires pid in s.handlers && s.handlers[pid].Checked? && key !in s.used && request.challengeMethod == "S256"
    requires Drawn(s) && RequestsUnspent(s) && CallbacksOwn(s) && CodesDerived(cfg, s)
    ensures var s' := WithRequest(s, pid, key, request);
            RequestsUnspent(s') && CallbacksOwn(s') && CodesDerived(cfg, s')
  {
  }

  lemma CallFlow(cfg: Config, s: Sys, pid: nat, key: string)
    requires pid !in s.handlers && Take(s.db.requests, key, s.now).1.Some?
    requires Drawn(s) && RequestsUnspent(s) && CallbacksOwn(s) && CodesDerived(cfg, s)
    ensures var s' := WithCall(s, pid, key); RequestsUnspent(s') && CallbacksOwn(s') && CodesDerived(cfg, s')
  {
  }

  lemma ExchangeFlow(cfg: Config, s: Sys, pid: nat, subject: string)
    requires pid in s.handlers && s.handlers[pid].Called?
    requires Drawn(s) && RequestsUnspent(s) && CallbacksOwn(s) && CodesDerived(cfg, s)
    ensures var s' := WithExchange(s, pid, subject); RequestsUnspent(s') && CallbacksOwn(s') && CodesDerived(cfg, s')
  {
  }

  lemma CodeFlow(cfg: Config, s: Sys, pid: nat, key: string)
    requires pid in s.handlers && s.handlers[pid].Exchanged? && key !in s.used
    requires Drawn(s) && RequestsUnspent(s) && CallbacksOwn(s) && CodesDerived(cfg, s)
    ensures var s' := WithCode(cfg, s, pid, key); RequestsUnspent(s') && CallbacksOwn(s') && CodesDerived(cfg, s')
  {
  }

  // ---- Steps on codes --------------------------------------------------------------------------------

  lemma CodeCodes(cfg: Config, s: Sys, pid: nat, key: string)
    requires pid in s.handlers && s.handlers[pid].Exchanged? && key !in s.used
    requires Drawn(s) && CodesUnspent(cfg, s) && CodeGrantsGood(cfg, s)
    ensures var s' := WithCode(cfg, s, pid, key); CodesUnspent(cfg, s') && CodeGrantsGood(cfg, s')
  {
  }

  lemma RedemptionCodes(cfg: Config, s: Sys, pid: nat, key: string, shown: Shown)
    requires pid !in s.handlers && Take(s.db.codes, key, s.now).1.Some?
    requires Drawn(s) && CodesUnspent(cfg, s) && CodeGrantsGood(cfg, s)
    ensures var s' := WithRedemption(cfg, s, pid, key, shown); CodesUnspent(cfg, s') && CodeGrantsGood(cfg, s')
  {
  }

  lemma CheckCodes(cfg: Config, s: Sys, pid: nat)
    requires pid in s.handlers && s.handlers[pid].Redeemed?
    requires CodesUnspent(cfg, s) && CodeGrantsGood(cfg, s)
    ensures var s' := WithCheck(s, pid); CodesUnspent(cfg, s') && CodeGrantsGood(cfg, s')
  {
  }

  lemma CheckRoots(s: Sys, pid: nat)
    requires pid in s.handlers && s.handlers[pid].Redeemed? && RootsRedeemed(s)
    ensures RootsRedeemed(WithCheck(s, pid))
  {
  }

  lemma RefreshCodes(cfg: Config, s: Sys, pid: nat, key: string)
    requires pid in s.handlers && s.handlers[pid].Cleared? && key !in s.used
    requires Drawn(s) && CodesUnspent(cfg, s) && CodeGrantsGood(cfg, s)
    ensures var s' := WithRefresh(cfg, s, pid, key); CodesUnspent(cfg, s') && CodeGrantsGood(cfg, s')
  {
  }

  lemma GrantCodes(cfg: Config, s: Sys, pid: nat)
    requires pid in s.handlers && s.handlers[pid].Stored?
    requires Drawn(s) && CodesUnspent(cfg, s) && CodeGrantsGood(cfg, s) && HoldersCarry(cfg, s)
    ensures var s' := WithCodeGrant(cfg, s, pid); CodesUnspent(cfg, s') && CodeGrantsGood(cfg, s')
  {
  }

  // ---- Steps on refresh tokens -------------------------------------------------------------------------

  lemma RedemptionRoots(cfg: Config, s: Sys, pid: nat, key: string, shown: Shown)
    requires pid !in s.handlers && Take(s.db.codes, key, s.now).1.Some?
    requires Drawn(s) && RootsRedeemed(s)
    ensures var s' := WithRedemption(cfg, s, pid, key, shown); RootsRedeemed(s')
  {
  }

  lemma RefreshRoots(cfg: Config, s: Sys, pid: nat, key: string)
    requires pid in s.handlers && s.handlers[pid].Cleared? && key !in s.used
    requires Drawn(s) && RootsRedeemed(s) && CodesUnspent(cfg, s)
    ensures var s' := WithRefresh(cfg, s, pid, key); RootsRedeemed(s')
  {
  }

  lemma RotationRoots(cfg: Config, s: Sys, pid: nat, key: string)
    requires pid in s.handlers && s.handlers[pid].Renewed? && key !in s.used
    requires Drawn(s) && RootsRedeemed(s) && HoldersCarry(cfg, s)
    ensures var s' := WithRotation(cfg, s, pid, key); RootsRedeemed(s')
  {
  }

  lemma RefreshTokens(cfg: Config, s: Sys, pid: nat, key: string)
    requires pid in s.handlers && s.handlers[pid].Cleared? && key !in s.used
    requires Drawn(s) && RootsRedeemed(s) && CodesUnspent(cfg, s) && TokensCarry(cfg, s)
    ensures var s' := WithRefresh(cfg, s, pid, key); TokensCarry(cfg, s')
  {
  }

  lemma RotationTokens(cfg: Config, s: Sys, pid: nat, key: string)
    requires pid in s.handlers && s.handlers[pid].Renewed? && key !in s.used
    requires Drawn(s) && TokensCarry(cfg, s) && HoldersCarry(cfg, s)
    ensures var s' := WithRotation(cfg, s, pid, key); TokensCarry(cfg, s')
  {
  }

  lemma RefreshHolders(cfg: Config, s: Sys, pid: nat, key: string)
    requires pid in s.handlers && s.handlers[pid].Cleared? && key !in s.used
    requires Drawn(s) && CodesUnspent(cfg, s) && HoldersCarry(cfg, s)
    ensures var s' := WithRefresh(cfg, s, pid, key); HoldersCarry(cfg, s')
  {
  }

  lemma ClaimHolders(
    cfg: Config, s: Sys, pid: nat, key: string, claim: AuthStore.Claim, clientId: string, requested: Option<string>)
    requires Claimable(s.db.refresh, key, s.now)
    requires TokensCarry(cfg, s) && HoldersCarry(cfg, s)
    ensures var s' := WithClaim(s, pid, key, claim, clientId, requested); HoldersCarry(cfg, s')
  {
  }

  lemma LookHolders(cfg: Config, s: Sys, pid: nat)
    requires Can(cfg, s, Look(pid))
    requires HoldersCarry(cfg, s)
    ensures var s' := WithLook(s, pid); HoldersCarry(cfg, s')
  {
  }

  lemma CondemnationHolders(cfg: Config, s: Sys, pid: nat)
    requires pid in s.handlers && s.handlers[pid].Looking?
    requires HoldersCarry(cfg, s)
    ensures var s' := WithCondemnation(s, pid); HoldersCarry(cfg, s')
  {
  }

  lemma RenewalHolders(cfg: Config, s: Sys, pid: nat)
    requires pid in s.handlers && s.handlers[pid].Looking?
    requires HoldersCarry(cfg, s)
    ensures var s' := WithRenewal(s, pid); HoldersCarry(cfg, s')
  {
  }

  lemma RotationHolders(cfg: Config, s: Sys, pid: nat, key: string)
    requires pid in s.handlers && s.handlers[pid].Renewed? && key !in s.used
    requires Drawn(s) && HoldersCarry(cfg, s)
    ensures var s' := WithRotation(cfg, s, pid, key); HoldersCarry(cfg, s')
  {
  }

  lemma RotationOldGrants(cfg: Config, s: Sys, pid: nat, key: string, g: Grant)
    requires pid in s.handlers && s.handlers[pid].Renewed? && key !in s.used
    requires Drawn(s) && g.ByRefresh? && RefreshGood(cfg, s, g)
    ensures RefreshGood(cfg, WithRotation(cfg, s, pid, key), g)
  {
  }

  /** The token rotated was stored until now, so no earlier grant spent it. */
  lemma RotationNewGrant(cfg: Config, s: Sys, pid: nat, key: string)
    requires pid in s.handlers && s.handlers[pid].Renewed? && key !in s.used
    requires Drawn(s) && HoldersCarry(cfg, s) && WithRotation(cfg, s, pid, key) != s
    ensures var s', h := WithRotation(cfg, s, pid, key), s.handlers[pid];
            && h.token in s.db.refresh && |s'.hist.grants| == |s.hist.grants| + 1
            && s'.hist.grants[..|s.hist.grants|] == s.hist.grants
            && var g := s'.hist.grants[|s.hist.grants|];
               g.ByRefresh? && g.token == h.token && RefreshGood(cfg, s', g)
  {
  }

  /** No earlier refresh was for a token that is still stored. */
  lemma NotSpentYet(cfg: Config, s: Sys, token: string)
    requires RefreshGrantsGood(cfg, s) && token in s.db.refresh
    ensures forall i :: 0 <= i < |s.hist.grants| && s.hist.grants[i].ByRefresh? ==> s.hist.grants[i].token != token
  {
  }

  lemma RotationGrants(cfg: Config, s: Sys, pid: nat, key: string)
    requires pid in s.handlers && s.handlers[pid].Renewed? && key !in s.used
    requires Drawn(s) && HoldersCarry(cfg, s) && RefreshGrantsGood(cfg, s)
    ensures var s' := WithRotation(cfg, s, pid, key); RefreshGrantsGood(cfg, s')
  {
    var s', n := WithRotation(cfg, s, pid, key), |s.hist.grants|;
    if s' != s {
      RotationNewGrant(cfg, s, pid, key);
      NotSpentYet(cfg, s, s.handlers[pid].token);
      var grants := s'.hist.grants;
      forall i | 0 <= i < n ensures grants[i] == s.hist.grants[i] {
        assert grants[i] == grants[..n][i];
      }
      forall i | 0 <= i < |grants| && grants[i].ByRefresh? ensures RefreshGood(cfg, s', grants[i]) {
        if i < n {
          RotationOldGrants(cfg, s, pid, key, grants[i]);
        }
      }
    }
  }

  // ---- Step by step -------------------------------------------------------------------------------------

  lemma RequestShape(cfg: Config, s: Sys, pid: nat, key: string, request: AuthRequest)
    requires pid in s.handlers && s.handlers[pid].Checked? && key !in s.used && request.challengeMethod == "S256"
    ensures var s' := WithRequest(s, pid, key, request);
            CodesQuiet(s, s') && RootsQuiet(s, s') && TokensQuiet(s, s') && HoldersQuiet(s, s') && GrantsQuiet(s, s')
  {
  }

  lemma RequestKeeps(cfg: Config, s: Sys, pid: nat, key: string, request: AuthRequest)
    requires pid in s.handlers && s.handlers[pid].Checked? && key !in s.used && request.challengeMethod == "S256"
    requires Inv(cfg, s) && Drawn(WithRequest(s, pid, key, request))
    ensures Inv(cfg, WithRequest(s, pid, key, request))
  {
    var s' := WithRequest(s, pid, key, request);
    RequestShape(cfg, s, pid, key, request);
    RequestFlow(cfg, s, pid, key, request);
    CodesQuietKeeps(cfg, s, s');
    RootsQuietKeeps(s, s');
    TokensQuietKeeps(cfg, s, s');
    HoldersQuietKeeps(cfg, s, s');
    GrantsQuietKeeps(cfg, s, s');
  }

  lemma CallShape(cfg: Config, s: Sys, pid: nat, key: string)
    requires pid !in s.handlers && Take(s.db.requests, key, s.now).1.Some?
    ensures var s' := WithCall(s, pid, key);
            CodesQuiet(s, s') && RootsQuiet(s, s') && TokensQuiet(s, s') && HoldersQuiet(s, s') && GrantsQuiet(s, s')
  {
  }

  lemma CallKeeps(cfg: Config, s: Sys, pid: nat, key: string)
    requires pid !in s.handlers && Take(s.db.requests, key, s.now).1.Some?
    requires Inv(cfg, s) && Drawn(WithCall(s, pid, key))
    ensures Inv(cfg, WithCall(s, pid, key))
  {
    var s' := WithCall(s, pid, key);
    CallShape(cfg, s, pid, key);
    CallFlow(cfg, s, pid, key);
    CodesQuietKeeps(cfg, s, s');
    RootsQuietKeeps(s, s');
    TokensQuietKeeps(cfg, s, s');
    HoldersQuietKeeps(cfg, s, s');
    GrantsQuietKeeps(cfg, s, s');
  }

  lemma ExchangeShape(cfg: Config, s: Sys, pid: nat, subject: string)
    requires pid in s.handlers && s.handlers[pid].Called?
    ensures var s' := WithExchange(s, pid, subject);
            CodesQuiet(s, s') && RootsQuiet(s, s') && TokensQuiet(s, s') && HoldersQuiet(s, s') && GrantsQuiet(s, s')
  {
  }

  lemma ExchangeKeeps(cfg: Config, s: Sys, pid: nat, subject: string)
    requires pid in s.handlers && s.handlers[pid].Called?
    requires Inv(cfg, s) && Drawn(WithExchange(s, pid, subject))
    ensures Inv(cfg, WithExchange(s, pid, subject))
  {
    var s' := WithExchange(s, pid, subject);
    ExchangeShape(cfg, s, pid, subject);
    ExchangeFlow(cfg, s, pid, subject);
    CodesQuietKeeps(cfg, s, s');
    RootsQuietKeeps(s, s');
    TokensQuietKeeps(cfg, s, s');
    HoldersQuietKeeps(cfg, s, s');
    GrantsQuietKeeps(cfg, s, s');
  }

  lemma CodeShape(cfg: Config, s: Sys, pid: nat, key: string)
    requires pid in s.handlers && s.handlers[pid].Exchanged? && key !in s.used
    requires Drawn(s)
    ensures var s' := WithCode(cfg, s, pid, key);
            RootsQuiet(s, s') && TokensQuiet(s, s') && HoldersQuiet(s, s') && GrantsQuiet(s, s')
  {
  }

  lemma CodeKeeps(cfg: Config, s: Sys, pid: nat, key: string)
    requires pid in s.handlers && s.handlers[pid].Exchanged? && key !in s.used
    requires Inv(cfg, s) && Drawn(WithCode(cfg, s, pid, key))
    ensures Inv(cfg, WithCode(cfg, s, pid, key))
  {
    var s' := WithCode(cfg, s, pid, key);
    CodeShape(cfg, s, pid, key);
    CodeFlow(cfg, s, pid, key);
    CodeCodes(cfg, s, pid, key);
    RootsQuietKeeps(s, s');
    TokensQuietKeeps(cfg, s, s');
    HoldersQuietKeeps(cfg, s, s');
    GrantsQuietKeeps(cfg, s, s');
  }

  lemma RedemptionShape(cfg: Config, s: Sys, pid: nat, key: string, shown: Shown)
    requires pid !in s.handlers && Take(s.db.codes, key, s.now).1.Some?
    ensures var s' := WithRedemption(cfg, s, pid, key, shown);
            FlowQuiet(s, s') && TokensQuiet(s, s') && HoldersQuiet(s, s') && GrantsQuiet(s, s')
  {
  }

  lemma RedemptionKeeps(cfg: Config, s: Sys, pid: nat, key: string, shown: Shown)
    requires pid !in s.handlers && Take(s.db.codes, key, s.now).1.Some?
    requires Inv(cfg, s) && Drawn(WithRedemption(cfg, s, pid, key, shown))
    ensures Inv(cfg, WithRedemption(cfg, s, pid, key, shown))
  {
    var s' := WithRedemption(cfg, s, pid, key, shown);
    RedemptionShape(cfg, s, pid, key, shown);
    FlowQuietKeeps(cfg, s, s');
    RedemptionCodes(cfg, s, pid, key, shown);
    RedemptionRoots(cfg, s, pid, key, shown);
    TokensQuietKeeps(cfg, s, s');
    HoldersQuietKeeps(cfg, s, s');
    GrantsQuietKeeps(cfg, s, s');
  }

  lemma CheckShape(s: Sys, pid: nat)
    requires pid in s.handlers && s.handlers[pid].Redeemed?
    ensures var s' := WithCheck(s, pid);
            FlowQuiet(s, s') && TokensQuiet(s, s') && HoldersQuiet(s, s') && GrantsQuiet(s, s')
  {
  }

  lemma CheckKeeps(cfg: Config, s: Sys, pid: nat)
    requires pid in s.handlers && s.handlers[pid].Redeemed?
    requires Inv(cfg, s) && Drawn(WithCheck(s, pid))
    ensures Inv(cfg, WithCheck(s, pid))
  {
    var s' := WithCheck(s, pid);
    CheckShape(s, pid);
    FlowQuietKeeps(cfg, s, s');
    CheckCodes(cfg, s, pid);
    CheckRoots(s, pid);
    TokensQuietKeeps(cfg, s, s');
    HoldersQuietKeeps(cfg, s, s');
    GrantsQuietKeeps(cfg, s, s');
  }

  lemma RefreshShape(cfg: Config, s: Sys, pid: nat, key: string)
    requires pid in s.handlers && s.handlers[pid].Cleared? && key !in s.used
    requires Drawn(s)
    ensures var s' := WithRefresh(cfg, s, pid, key); FlowQuiet(s, s') && GrantsQuiet(s, s')
  {
  }

  lemma RefreshKeeps(cfg: Config, s: Sys, pid: nat, key: string)
    requires pid in s.handlers && s.handlers[pid].Cleared? && key !in s.used
    requires Inv(cfg, s) && Drawn(WithRefresh(cfg, s, pid, key))
    ensures Inv(cfg, WithRefresh(cfg, s, pid, key))
  {
    var s' := WithRefresh(cfg, s, pid, key);
    RefreshShape(cfg, s, pid, key);
    FlowQuietKeeps(cfg, s, s');
    RefreshCodes(cfg, s, pid, key);
    RefreshRoots(cfg, s, pid, key);
    RefreshTokens(cfg, s, pid, key);
    RefreshHolders(cfg, s, pid, key);
    GrantsQuietKeeps(cfg, s, s');
  }

  lemma CodeGrantShape(cfg: Config, s: Sys, pid: nat)
    requires pid in s.handlers && s.handlers[pid].Stored?
    ensures var s' := WithCodeGrant(cfg, s, pid);
            FlowQuiet(s, s') && RootsQuiet(s, s') && TokensQuiet(s, s') && HoldersQuiet(s, s') && GrantsQuiet(s, s')
  {
  }

  lemma CodeGrantKeeps(cfg: Config, s: Sys, pid: nat)
    requires pid in s.handlers && s.handlers[pid].Stored?
    requires Inv(cfg, s) && Drawn(WithCodeGrant(cfg, s, pid))
    ensures Inv(cfg, WithCodeGrant(cfg, s, pid))
  {
    var s' := WithCodeGrant(cfg, s, pid);
    CodeGrantShape(cfg, s, pid);
    FlowQuietKeeps(cfg, s, s');
    GrantCodes(cfg, s, pid);
    RootsQuietKeeps(s, s');
    TokensQuietKeeps(cfg, s, s');
    HoldersQuietKeeps(cfg, s, s');
    GrantsQuietKeeps(cfg, s, s');
  }

  lemma ClaimShape(
    cfg: Config, s: Sys, pid: nat, key: string, claim: AuthStore.Claim, clientId: string, requested: Option<string>)
    requires pid !in s.handlers && Claimable(s.db.refresh, key, s.now)
    ensures var s' := WithClaim(s, pid, key, claim, clientId, requested);
            FlowQuiet(s, s') && CodesQuiet(s, s') && RootsQuiet(s, s') && TokensQuiet(s, s') && GrantsQuiet(s, s')
  {
  }

  lemma ClaimKeeps(
    cfg: Config, s: Sys, pid: nat, key: string, claim: AuthStore.Claim, clientId: string, requested: Option<string>)
    requires pid !in s.handlers && Claimable(s.db.refresh, key, s.now)
    requires Inv(cfg, s) && Drawn(WithClaim(s, pid, key, claim, clientId, requested))
    ensures Inv(cfg, WithClaim(s, pid, key, claim, clientId, requested))
  {
    var s' := WithClaim(s, pid, key, claim, clientId, requested);
    ClaimShape(cfg, s, pid, key, claim, clientId, requested);
    FlowQuietKeeps(cfg, s, s');
    CodesQuietKeeps(cfg, s, s');
    RootsQuietKeeps(s, s');
    TokensQuietKeeps(cfg, s, s');
    ClaimHolders(cfg, s, pid, key, claim, clientId, requested);
    GrantsQuietKeeps(cfg, s, s');
  }

  lemma LookShape(cfg: Config, s: Sys, pid: nat)
    requires Can(cfg, s, Look(pid))
    ensures var s' := WithLook(s, pid);
            FlowQuiet(s, s') && CodesQuiet(s, s') && RootsQuiet(s, s') && TokensQuiet(s, s') && GrantsQuiet(s, s')
  {
  }

  lemma LookKeeps(cfg: Config, s: Sys, pid: nat)
    requires Can(cfg, s, Look(pid))
    requires Inv(cfg, s) && Drawn(WithLook(s, pid))
    ensures Inv(cfg, WithLook(s, pid))
  {
    var s' := WithLook(s, pid);
    LookShape(cfg, s, pid);
    FlowQuietKeeps(cfg, s, s');
    CodesQuietKeeps(cfg, s, s');
    RootsQuietKeeps(s, s');
    TokensQuietKeeps(cfg, s, s');
    LookHolders(cfg, s, pid);
    GrantsQuietKeeps(cfg, s, s');
  }

  lemma RenewalShape(cfg: Config, s: Sys, pid: nat)
    requires pid in s.handlers && s.handlers[pid].Looking?
    ensures var s' := WithRenewal(s, pid);
            FlowQuiet(s, s') && CodesQuiet(s, s') && RootsQuiet(s, s') && TokensQuiet(s, s') && GrantsQuiet(s, s')
  {
  }

  lemma RenewalKeeps(cfg: Config, s: Sys, pid: nat)
    requires pid in s.handlers && s.handlers[pid].Looking?
    requires Inv(cfg, s) && Drawn(WithRenewal(s, pid))
    ensures Inv(cfg, WithRenewal(s, pid))
  {
    var s' := WithRenewal(s, pid);
    RenewalShape(cfg, s, pid);
    FlowQuietKeeps(cfg, s, s');
    CodesQuietKeeps(cfg, s, s');
    RootsQuietKeeps(s, s');
    TokensQuietKeeps(cfg, s, s');
    RenewalHolders(cfg, s, pid);
    GrantsQuietKeeps(cfg, s, s');
  }

  lemma CondemnationShape(cfg: Config, s: Sys, pid: nat)
    requires pid in s.handlers && s.handlers[pid].Looking?
    ensures var s' := WithCondemnation(s, pid);
            FlowQuiet(s, s') && CodesQuiet(s, s') && RootsQuiet(s, s') && TokensQuiet(s, s') && GrantsQuiet(s, s')
  {
  }

  lemma CondemnationKeeps(cfg: Config, s: Sys, pid: nat)
    requires pid in s.handlers && s.handlers[pid].Looking?
    requires Inv(cfg, s) && Drawn(WithCondemnation(s, pid))
    ensures Inv(cfg, WithCondemnation(s, pid))
  {
    var s' := WithCondemnation(s, pid);
    CondemnationShape(cfg, s, pid);
    FlowQuietKeeps(cfg, s, s');
    CodesQuietKeeps(cfg, s, s');
    RootsQuietKeeps(s, s');
    TokensQuietKeeps(cfg, s, s');
    CondemnationHolders(cfg, s, pid);
    GrantsQuietKeeps(cfg, s, s');
  }

  lemma RotationShape(cfg: Config, s: Sys, pid: nat, key: string)
    requires pid in s.handlers && s.handlers[pid].Renewed? && key !in s.used
    requires Drawn(s)
    ensures var s' := WithRotation(cfg, s, pid, key); FlowQuiet(s, s') && CodesQuiet(s, s')
  {
  }

  lemma RotationKeeps(cfg: Config, s: Sys, pid: nat, key: string)
    requires pid in s.handlers && s.handlers[pid].Renewed? && key !in s.used
    requires Inv(cfg, s) && Drawn(WithRotation(cfg, s, pid, key))
    ensures Inv(cfg, WithRotation(cfg, s, pid, key))
  {
    var s' := WithRotation(cfg, s, pid, key);
    RotationShape(cfg, s, pid, key);
    FlowQuietKeeps(cfg, s, s');
    CodesQuietKeeps(cfg, s, s');
    RotationRoots(cfg, s, pid, key);
    RotationTokens(cfg, s, pid, key);
    RotationHolders(cfg, s, pid, key);
    RotationGrants(cfg, s, pid, key);
  }

  lemma ReleaseShape(cfg: Config, s: Sys, pid: nat)
    requires pid in s.handlers && HoldsToken(s.handlers[pid])
    ensures var s' := WithRelease(s, pid);
            FlowQuiet(s, s') && CodesQuiet(s, s') && RootsQuiet(s, s') && TokensQuiet(s, s') && HoldersQuiet(s, s')
                && GrantsQuiet(s, s')
  {
  }

  lemma ReleaseKeeps(cfg: Config, s: Sys, pid: nat)
    requires pid in s.handlers && HoldsToken(s.handlers[pid])
    requires Inv(cfg, s) && Drawn(WithRelease(s, pid))
    ensures Inv(cfg, WithRelease(s, pid))
  {
    var s' := WithRelease(s, pid);
    ReleaseShape(cfg, s, pid);
    FlowQuietKeeps(cfg, s, s');
    CodesQuietKeeps(cfg, s, s');
    RootsQuietKeeps(s, s');
    TokensQuietKeeps(cfg, s, s');
    HoldersQuietKeeps(cfg, s, s');
    GrantsQuietKeeps(cfg, s, s');
  }

  // ---- Every run --------------------------------------------------------------------------------

  lemma QuietStep(cfg: Config, s: Sys, a: Action)
    requires Can(cfg, s, a) && (IdleAction(a) || SideAction(a) || SweepingAction(a))
    ensures Quiet(s, Next(cfg, s, a))
  {
    if IdleAction(a) {
      IdleActions(cfg, s, a);
    } else if SideAction(a) {
      SideActions(cfg, s, a);
    } else {
      SweepingActions(cfg, s, a);
    }
  }

  predicate CodeAction(a: Action) {
    a.InsertRequest? || a.TakeRequest? || a.Exchange? || a.InsertCode? || a.Redeem? || a.CheckCredential?
        || a.StoreRefresh? || a.RespondCode?
  }

  lemma CodeStep(cfg: Config, s: Sys, a: Action)
    requires Can(cfg, s, a) && CodeAction(a) && Inv(cfg, s) && Drawn(Next(cfg, s, a))
    ensures Inv(cfg, Next(cfg, s, a))
  {
    match a
    case InsertRequest(pid, key, request) => RequestKeeps(cfg, s, pid, key, request);
    case TakeRequest(pid, key) => CallKeeps(cfg, s, pid, key);
    case Exchange(pid, subject) => ExchangeKeeps(cfg, s, pid, subject);
    case InsertCode(pid, key) => CodeKeeps(cfg, s, pid, key);
    case Redeem(pid, key, shown) => RedemptionKeeps(cfg, s, pid, key, shown);
    case CheckCredential(pid) => CheckKeeps(cfg, s, pid);
    case StoreRefresh(pid, key) => RefreshKeeps(cfg, s, pid, key);
    case RespondCode(pid) => CodeGrantKeeps(cfg, s, pid);
  }

  predicate TokenAction(a: Action) {
    a.Claim? || a.Look? || a.Renew? || a.Condemn? || a.Rotate? || a.Release?
  }

  lemma TokenStep(cfg: Config, s: Sys, a: Action)
    requires Can(cfg, s, a) && TokenAction(a) && Inv(cfg, s) && Drawn(Next(cfg, s, a))
    ensures Inv(cfg, Next(cfg, s, a))
  {
    match a
    case Claim(pid, key, claim, clientId, requested) => ClaimKeeps(cfg, s, pid, key, claim, clientId, requested);
    case Look(pid) => LookKeeps(cfg, s, pid);
    case Renew(pid) => RenewalKeeps(cfg, s, pid);
    case Condemn(pid) => CondemnationKeeps(cfg, s, pid);
    case Rotate(pid, key) => RotationKeeps(cfg, s, pid, key);
    case Release(pid) => ReleaseKeeps(cfg, s, pid);
  }

  lemma InvStep(cfg: Config, s: Sys, a: Action)
    requires Can(cfg, s, a) && Inv(cfg, s)
    ensures Inv(cfg, Next(cfg, s, a))
  {
    DrawnStep(cfg, s, a);
    if CodeAction(a) {
      CodeStep(cfg, s, a);
    } else if TokenAction(a) {
      TokenStep(cfg, s, a);
    } else {
      QuietStep(cfg, s, a);
      QuietKeeps(cfg, s, Next(cfg, s, a));
    }
  }

  lemma {:induction false} RunKeepsInv(cfg: Config, actions: seq<Action>)
    requires Run(cfg, actions).Some?
    ensures Inv(cfg, Run(cfg, actions).value)
    decreases |actions|
  {
    if actions != [] {
      var init := actions[..|actions| - 1];
      RunKeepsInv(cfg, init);
      InvStep(cfg, Run(cfg, init).value, actions[|actions| - 1]);
    }
  }
}

/**
 * What clients and users can rely on, in every reachable state and across
 * every interleaving of handlers.
 */
module AuthTheorems {
  import opened Basics
  import opened AuthStore
  import opened AuthProtocol
  import opened AuthSafety
  import Text

  lemma ReachesInv(cfg: Config, s: Sys)
    requires Reaches(cfg, s)
    ensures Inv(cfg, s)
  {
    var actions :| Run(cfg, actions) == Some(s);
    RunKeepsInv(cfg, actions);
  }

  // ---- Spent at most once ------------------------------------------------------------------------

  predicate IsCodeGrant(s: Sys, i: nat) { i < |s.hist.grants| && s.hist.grants[i].ByCode? }

  predicate IsRefreshGrant(s: Sys, i: nat) { i < |s.hist.grants| && s.hist.grants[i].ByRefresh? }

  /** A request leads to at most one code. */
  lemma OneCodePerRequest(cfg: Config, s: Sys, c: string, d: string)
    requires Reaches(cfg, s) && c in s.hist.issued && d in s.hist.issued
             && s.hist.issued[c].state == s.hist.issued[d].state
    ensures c == d && s.hist.issued[c].state in s.hist.requests && s.hist.issued[c].state !in s.db.requests
  {
    ReachesInv(cfg, s);
  }

  /** A request leads to at most one code response, whose code is no longer stored. */
  lemma OneCodeResponsePerRequest(cfg: Config, s: Sys, i: nat, j: nat)
    requires Reaches(cfg, s) && IsCodeGrant(s, i) && IsCodeGrant(s, j)
    ensures var g, g' := s.hist.grants[i], s.hist.grants[j];
            && g.code in s.hist.issued && g'.code in s.hist.issued && g.code !in s.db.codes
            && (s.hist.issued[g.code].state == s.hist.issued[g'.code].state ==> i == j)
  {
    ReachesInv(cfg, s);
  }

  /** A refresh token leads to at most one response, however leases expire and are retaken, and is gone after it. */
  lemma OneResponsePerRefreshToken(cfg: Config, s: Sys, i: nat, j: nat)
    requires Reaches(cfg, s) && IsRefreshGrant(s, i) && IsRefreshGrant(s, j)
    requires s.hist.grants[i].token == s.hist.grants[j].token
    ensures i == j && s.hist.grants[i].token !in s.db.refresh
  {
    ReachesInv(cfg, s);
  }

  /** The request a refresh token goes back to. */
  function Origin(h: History, token: string): Option<string> {
    if token in h.roots && h.roots[token] in h.issued then Some(h.issued[h.roots[token]].state) else None
  }

  /** At most one refresh token is stored per authorization request. */
  lemma OneTokenPerRequest(cfg: Config, s: Sys, t: string, u: string)
    requires Reaches(cfg, s) && t in s.db.refresh && u in s.db.refresh
    ensures Origin(s.hist, t).Some? && (Origin(s.hist, t) == Origin(s.hist, u) <==> t == u)
  {
    ReachesInv(cfg, s);
  }

  // ---- Bound to the request ---------------------------------------------------------------------

  ghost predicate Injective(f: string -> string) {
    forall v, w :: f(v) == f(w) ==> v == w
  }

  /** Whoever exchanged the code presented the request's redirect and the preimage of its challenge. */
  lemma CodeResponseBound(cfg: Config, s: Sys, i: nat)
    requires Reaches(cfg, s) && IsCodeGrant(s, i)
    ensures var g := s.hist.grants[i];
            && g.code in s.hist.issued
            && var state := s.hist.issued[g.code].state;
               && state in s.hist.requests && state in s.hist.subjects
               && var q := s.hist.requests[state];
                  && g.shown.clientId == q.clientId && g.shown.redirectUri == q.redirectUri
                  && q.challengeMethod == "S256" && cfg.pkce(g.shown.verifier) == q.codeChallenge
                  && (g.shown.resource.Some? ==> g.shown.resource.value == q.resource)
                  && g.response ==
                      Response(q.clientId, s.hist.subjects[state], cfg.settle(q.resource), cfg.elevate(q.scope))
                  && Origin(s.hist, g.token) == Some(state)
  {
    ReachesInv(cfg, s);
  }

  /** With a challenge function that does not collide, only the verifier behind the request's challenge will do. */
  lemma OnlyTheVerifierRedeems(cfg: Config, s: Sys, i: nat, verifier: string)
    requires Reaches(cfg, s) && IsCodeGrant(s, i) && Injective(cfg.pkce)
    requires var code := s.hist.grants[i].code;
             && code in s.hist.issued && s.hist.issued[code].state in s.hist.requests
             && s.hist.requests[s.hist.issued[code].state].codeChallenge == cfg.pkce(verifier)
    ensures s.hist.grants[i].shown.verifier == verifier
  {
    CodeResponseBound(cfg, s, i);
  }

  /** How many refreshes a refresh token is away from its code. */
  function Depth(h: History, token: string): nat {
    if token in h.depths then h.depths[token] else 0
  }

  /**
   * A refresh answers the client of the request, for its subject and resource;
   * its scope is the request's, elevated once for the code and once per refresh.
   */
  lemma RefreshResponseBound(cfg: Config, s: Sys, i: nat)
    requires Reaches(cfg, s) && IsRefreshGrant(s, i)
    ensures var g := s.hist.grants[i];
            && Origin(s.hist, g.token).Some? && Origin(s.hist, g.newToken) == Origin(s.hist, g.token)
            && Depth(s.hist, g.newToken) == Depth(s.hist, g.token) + 1
            && var state := Origin(s.hist, g.token).value;
               && state in s.hist.requests && state in s.hist.subjects
               && var q := s.hist.requests[state];
                  && g.clientId == q.clientId && g.response.clientId == q.clientId
                  && g.response.subject == s.hist.subjects[state]
                  && (g.requested.Some? ==> g.requested.value == g.response.resource)
                  && g.response.scope == Iterated(cfg.elevate, Depth(s.hist, g.newToken), cfg.elevate(q.scope))
                  && (Settled(cfg) ==> g.response.resource == cfg.settle(q.resource))
  {
    ReachesInv(cfg, s);
  }

  /**
   * In the program every response, after any number of refreshes, is for the resource of
   * the request or, if that was blank, the canonical one.
   */
  lemma ResourceKept(cfg: Config, defaultScope: string, canonical: string, s: Sys, i: nat)
    requires Concrete(cfg, defaultScope, canonical) && Reaches(cfg, s) && i < |s.hist.grants|
    ensures var o := GrantOrigin(s.hist, s.hist.grants[i]);
            && o.Some? && o.value in s.hist.requests
            && var asked := s.hist.requests[o.value].resource;
               s.hist.grants[i].response.resource == if Text.Trim(asked) == "" then canonical else asked
  {
    ConcreteSettled(cfg, defaultScope, canonical);
    if s.hist.grants[i].ByCode? {
      CodeResponseBound(cfg, s, i);
    } else {
      RefreshResponseBound(cfg, s, i);
    }
  }

  // ---- One lineage, one answer -----------------------------------------------------------------

  function GrantOrigin(h: History, g: Grant): Option<string> {
    if g.ByCode? then Origin(h, g.token) else Origin(h, g.newToken)
  }

  /** All responses that go back to one request say the same. */
  ghost predicate OneVoice(s: Sys) {
    var grants := s.hist.grants;
    forall i, j :: 0 <= i < |grants| && 0 <= j < |grants| ==>
      GrantOrigin(s.hist, grants[i]) == GrantOrigin(s.hist, grants[j]) ==> grants[i].response == grants[j].response
  }

  lemma {:induction false} SteadyStops(cfg: Config, n: nat, scope: string)
    requires Steady(cfg)
    ensures Iterated(cfg.elevate, n, cfg.elevate(scope)) == cfg.elevate(scope)
  {
    if n > 0 {
      SteadyStops(cfg, n - 1, scope);
    }
  }

  lemma RegularSpeaksOnce(cfg: Config, s: Sys)
    requires Reaches(cfg, s) && Regular(cfg)
    ensures OneVoice(s)
  {
    forall i | 0 <= i < |s.hist.grants|
      ensures var o := GrantOrigin(s.hist, s.hist.grants[i]);
              && o.Some? && o.value in s.hist.requests && o.value in s.hist.subjects
              && var q := s.hist.requests[o.value];
                 s.hist.grants[i].response ==
                     Response(q.clientId, s.hist.subjects[o.value], cfg.settle(q.resource), cfg.elevate(q.scope))
    {
      if s.hist.grants[i].ByCode? {
        CodeResponseBound(cfg, s, i);
      } else {
        RefreshResponseBound(cfg, s, i);
        var o := GrantOrigin(s.hist, s.hist.grants[i]).value;
        SteadyStops(cfg, Depth(s.hist, s.hist.grants[i].newToken), s.hist.requests[o].scope);
      }
    }
  }
}

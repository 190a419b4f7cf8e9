/**
 * What the access tokens of a run can carry. A stored request has been
 * validated against what its resource supported at that moment; elevation, at
 * the code and at every refresh, adds the admin scope and nothing else.
 */
module AuthScopes {
  import opened Basics
  import opened AuthStore
  import opened AuthProtocol
  import opened AuthSafety
  import opened AuthTheorems
  import opened Text
  import Scopes

  /** Some asked-for scope was accepted for the resource and became this one. */
  ghost predicate Validated(scopes: Scopes.Config, r: Scopes.Resource, scope: string) {
    Scopes.Tokens(r) && exists asked :: Scopes.ValidateScope(scopes, r, asked) == Scopes.Ok(scope)
  }

  /** What the registry answers for each resource. */
  type Registry = string -> Option<seq<string>>

  /** A settled resource is the canonical one or a protected route with the scopes the registry gives it. */
  function ResourceIn(registry: Registry, canonical: string, resource: string): Scopes.Resource {
    if resource == canonical then Scopes.Canonical else Scopes.Protected(registry(resource))
  }

  /** Every request the run inserts was validated for its own resource, as the registry was `at` that moment. */
  ghost predicate ValidatedInserts(
    cfg: Config, scopes: Scopes.Config, canonical: string, at: string -> Registry, actions: seq<Action>)
  {
    forall a :: a in actions && a.InsertRequest? ==>
      Validated(scopes, ResourceIn(at(a.key), canonical, cfg.settle(a.request.resource)), a.request.scope)
  }

  /** Supported by the resource, part of the default scope of the canonical one, or of the admin scope. */
  ghost predicate Allowed(scopes: Scopes.Config, r: Scopes.Resource, w: string) {
    || (Scopes.Supported(scopes, r).Ok? && w in Scopes.Supported(scopes, r).value)
    || (r.Canonical? && w in Words(scopes.defaultScope))
    || w in Words(Scopes.AdminScope(scopes.defaultScope))
  }

  /** Recorded requests were inserted by the run. */
  lemma {:induction false} RequestsInserted(cfg: Config, actions: seq<Action>, key: string)
    requires Run(cfg, actions).Some? && key in Run(cfg, actions).value.hist.requests
    ensures exists a :: a in actions && a.InsertRequest? && a.key == key
                     && a.request == Run(cfg, actions).value.hist.requests[key]
    decreases |actions|
  {
    var init, last := actions[..|actions| - 1], actions[|actions| - 1];
    var before := Run(cfg, init).value;
    RequestsGrow(cfg, before, last);
    if last.InsertRequest? && last.key == key {
      assert last in actions;
    } else {
      RequestsInserted(cfg, init, key);
      var a :| a in init && a.InsertRequest? && a.key == key && a.request == before.hist.requests[key];
      assert a in actions;
    }
  }

  lemma RequestsGrow(cfg: Config, s: Sys, a: Action)
    requires Can(cfg, s, a)
    ensures a.InsertRequest? ==> Next(cfg, s, a).hist.requests == s.hist.requests[a.key := a.request]
    ensures !a.InsertRequest? ==> Next(cfg, s, a).hist.requests == s.hist.requests
  {
    if !a.InsertRequest? {
      OtherRequests(cfg, s, a);
    }
  }

  lemma OtherRequests(cfg: Config, s: Sys, a: Action)
    requires Can(cfg, s, a) && !a.InsertRequest?
    ensures Next(cfg, s, a).hist.requests == s.hist.requests
  {
    if CodeAction(a) {
      assert Next(cfg, s, a).hist.requests == s.hist.requests;
    }
  }

  lemma ValidatedAllowed(scopes: Scopes.Config, r: Scopes.Resource, scope: string, w: string)
    requires Validated(scopes, r, scope) && w in Words(scope)
    ensures Allowed(scopes, r, w)
  {
    var asked :| Scopes.ValidateScope(scopes, r, asked) == Scopes.Ok(scope);
    Scopes.ValidatedWithin(scopes, r, asked);
  }

  lemma {:induction false} IteratedKeeps(f: string -> string, kept: string -> bool, n: nat, x: string)
    requires kept(x) && forall y :: kept(y) ==> kept(f(y))
    ensures kept(Iterated(f, n, x))
  {
    if n > 0 {
      IteratedKeeps(f, kept, n - 1, x);
    }
  }

  /** However often a scope is elevated, it gains no token but the admin scope's. */
  lemma IteratedWords(cfg: Config, defaultScope: string, canonical: string, n: nat, scope: string, w: string)
    requires Concrete(cfg, defaultScope, canonical) && w in Words(Iterated(cfg.elevate, n, scope))
    ensures w in Words(scope) || w in Words(Scopes.AdminScope(defaultScope))
  {
    var without := y => w !in Words(y);
    if without(scope) && without(Scopes.AdminScope(defaultScope)) {
      forall y | without(y) ensures without(cfg.elevate(y)) {
        if w in Words(cfg.elevate(y)) {
          Scopes.ElevateAdds(y, defaultScope, w);
        }
      }
      IteratedKeeps(cfg.elevate, without, n, scope);
    }
  }

  /** The scope of any response is the request's, elevated at least once, and its resource the request's, settled. */
  lemma ResponseScope(cfg: Config, s: Sys, i: nat) returns (n: nat)
    requires Reaches(cfg, s) && i < |s.hist.grants| && Settled(cfg)
    ensures var o, r := GrantOrigin(s.hist, s.hist.grants[i]), s.hist.grants[i].response;
            && o.Some? && o.value in s.hist.requests
            && r.scope == Iterated(cfg.elevate, n, cfg.elevate(s.hist.requests[o.value].scope))
            && r.resource == cfg.settle(s.hist.requests[o.value].resource)
  {
    if s.hist.grants[i].ByCode? {
      CodeResponseBound(cfg, s, i);
      n := 0;
    } else {
      RefreshResponseBound(cfg, s, i);
      n := Depth(s.hist, s.hist.grants[i].newToken);
    }
  }

  /** Tokens of a scope validated once and elevated any number of times. */
  lemma ElevatedAllowed(
    cfg: Config, scopes: Scopes.Config, canonical: string, r: Scopes.Resource, n: nat, scope: string, w: string)
    requires Concrete(cfg, scopes.defaultScope, canonical) && Validated(scopes, r, scope)
    requires w in Words(Iterated(cfg.elevate, n, cfg.elevate(scope)))
    ensures Allowed(scopes, r, w)
  {
    IteratedWords(cfg, scopes.defaultScope, canonical, n, cfg.elevate(scope), w);
    if w in Words(cfg.elevate(scope)) {
      assert cfg.elevate(scope) == Iterated(cfg.elevate, 1, scope);
      IteratedWords(cfg, scopes.defaultScope, canonical, 1, scope, w);
    }
    if w in Words(scope) {
      ValidatedAllowed(scopes, r, scope, w);
    }
  }

  /**
   * Every token of every response of every run is allowed by what the resource the
   * response is for supported when its request was validated.
   */
  lemma EveryTokenAllowed(
    cfg: Config, scopes: Scopes.Config, canonical: string, at: string -> Registry, actions: seq<Action>,
    i: nat, w: string)
    requires Concrete(cfg, scopes.defaultScope, canonical) && ValidatedInserts(cfg, scopes, canonical, at, actions)
    requires Run(cfg, actions).Some? && i < |Run(cfg, actions).value.hist.grants|
    requires w in Words(Run(cfg, actions).value.hist.grants[i].response.scope)
    ensures var h := Run(cfg, actions).value.hist;
            && GrantOrigin(h, h.grants[i]).Some?
            && var registry := at(GrantOrigin(h, h.grants[i]).value);
               Allowed(scopes, ResourceIn(registry, canonical, h.grants[i].response.resource), w)
  {
    var s := Run(cfg, actions).value;
    ConcreteSettled(cfg, scopes.defaultScope, canonical);
    var n := ResponseScope(cfg, s, i);
    var key := GrantOrigin(s.hist, s.hist.grants[i]).value;
    RequestsInserted(cfg, actions, key);
    var q := s.hist.requests[key];
    var r := ResourceIn(at(key), canonical, cfg.settle(q.resource));
    ElevatedAllowed(cfg, scopes, canonical, r, n, q.scope, w);
  }

  /** With a sound default scope: supported by that resource, or the admin scope itself. */
  lemma EveryTokenContained(
    cfg: Config, scopes: Scopes.Config, canonical: string, at: string -> Registry, actions: seq<Action>,
    i: nat, w: string)
    requires Concrete(cfg, scopes.defaultScope, canonical) && ValidatedInserts(cfg, scopes, canonical, at, actions)
    requires Scopes.Within(scopes.defaultScope, scopes.supported) && NoSpace(Scopes.Base(scopes.defaultScope))
    requires Run(cfg, actions).Some? && i < |Run(cfg, actions).value.hist.grants|
    requires w in Words(Run(cfg, actions).value.hist.grants[i].response.scope)
    ensures var h := Run(cfg, actions).value.hist;
            && GrantOrigin(h, h.grants[i]).Some?
            && var registry := at(GrantOrigin(h, h.grants[i]).value);
               var r := ResourceIn(registry, canonical, h.grants[i].response.resource);
               var supported := Scopes.Supported(scopes, r);
               (supported.Ok? && w in supported.value) || w == Scopes.AdminScope(scopes.defaultScope)
  {
    EveryTokenAllowed(cfg, scopes, canonical, at, actions, i, w);
    Scopes.ElevatedWords("", scopes.defaultScope);
  }
}

/**
 * Scope strings: validation against a resource, elevation of allowlisted
 * users, and the scope checks of the grants. The results say which scope
 * tokens an access token can end up carrying.
 */
module Scopes {
  import opened Basics
  import opened Text

  datatype Result<T> = Ok(value: T) | Denied

  // ---- Elevation --------------------------------------------------------------

  /** `default_scope.split(':').next()`: everything before the first colon. */
  function Base(defaultScope: string): (b: string)
    ensures b <= defaultScope && ':' !in b
    ensures b == defaultScope || defaultScope[|b|] == ':'
  {
    if defaultScope == "" || defaultScope[0] == ':' then ""
    else [defaultScope[0]] + Base(defaultScope[1..])
  }

  function AdminScope(defaultScope: string): string {
    Base(defaultScope) + ":admin"
  }

  /** What comes after the first colon, if there is one, is replaced. */
  lemma AdminExactly(base: string, rest: string)
    requires ':' !in base
    ensures AdminScope(base) == base + ":admin" && AdminScope(base + ":" + rest) == base + ":admin"
  {
    BaseExactly(base, "");
    BaseExactly(base, ":" + rest);
    assert base + "" == base && base + (":" + rest) == base + ":" + rest;
  }

  lemma {:induction false} BaseExactly(base: string, rest: string)
    requires ':' !in base && (rest == "" || rest[0] == ':')
    ensures Base(base + rest) == base
    decreases |base|
  {
    if base == "" {
      assert base + rest == rest;
    } else {
      assert (base + rest)[1..] == base[1..] + rest;
      BaseExactly(base[1..], rest);
    }
  }

  function Elevate(scope: string, defaultScope: string): string {
    var ws, admin := Words(scope), AdminScope(defaultScope);
    Join(if admin in ws then ws else ws + [admin])
  }

  /** The tokens asked for, in order, and then the admin scope unless it is among them. */
  method ElevateScopeForAllowedUser(scope: string, defaultScope: string) returns (r: string)
    ensures r == Elevate(scope, defaultScope)
    ensures Words(r) == Words(scope) +
            if AdminScope(defaultScope) in Words(scope) then [] else Words(AdminScope(defaultScope))
    ensures NoSpace(Base(defaultScope)) ==> AdminScope(defaultScope) in Words(r)
  {
    ElevatedWords(scope, defaultScope);
    var adminScope := AdminScope(defaultScope);
    var scopes := Words(scope);
    if adminScope !in scopes {
      scopes := scopes + [adminScope];
    }
    r := Join(scopes);
  }

  lemma AdminIsWord(defaultScope: string)
    ensures IsWord(AdminScope(defaultScope)) <==> NoSpace(Base(defaultScope))
  {
    var base, admin := Base(defaultScope), AdminScope(defaultScope);
    assert forall i :: 0 <= i < |base| ==> admin[i] == base[i];
    assert forall i :: |base| <= i < |admin| ==> admin[i] == ":admin"[i - |base|];
  }

  /** The tokens of an elevated scope, for every default scope, and the one token the admin scope should be. */
  lemma ElevatedWords(scope: string, defaultScope: string)
    ensures var ws, admin := Words(scope), AdminScope(defaultScope);
            Words(Elevate(scope, defaultScope)) == ws + if admin in ws then [] else Words(admin)
    ensures NoSpace(Base(defaultScope)) ==> Words(AdminScope(defaultScope)) == [AdminScope(defaultScope)]
  {
    WordsAreWords(scope);
    AdminIsWord(defaultScope);
    var ws, admin := Words(scope), AdminScope(defaultScope);
    if admin in ws {
      WordsOfJoin(ws);
      assert ws + [] == ws;
    } else {
      WordsOfJoinThen(ws, admin);
    }
    if IsWord(admin) {
      WordsOfJoin([admin]);
    }
  }

  /** Elevation adds tokens of the admin scope only. */
  lemma ElevateAdds(scope: string, defaultScope: string, w: string)
    requires w in Words(Elevate(scope, defaultScope))
    ensures w in Words(scope) || w in Words(AdminScope(defaultScope))
  {
    ElevatedWords(scope, defaultScope);
  }

  lemma NonBlankHasWord(s: string, i: nat)
    requires i < |s| && !IsSpace(s[i])
    ensures Words(s) != []
    decreases |s|
  {
    if IsSpace(s[0]) {
      NonBlankHasWord(s[1..], i - 1);
    }
  }

  lemma LongerAgain(ws: seq<string>, more: seq<string>, admin: string)
    requires AllWords(ws) && AllWords(more) && more != []
    ensures |Join(ws + more + [admin])| > |Join(ws + [admin])|
  {
    JoinSnocLength(ws + more, admin);
    JoinSnocLength(ws, admin);
    JoinGrows(ws, more);
  }

  lemma {:induction false} JoinGrows(ws: seq<string>, more: seq<string>)
    requires AllWords(ws) && AllWords(more) && more != []
    ensures |Join(ws + more)| > 0 && (ws != [] ==> |Join(ws + more)| > |Join(ws)|)
    decreases |more|
  {
    var init, last := more[..|more| - 1], more[|more| - 1];
    assert ws + more == (ws + init) + [last];
    JoinSnocLength(ws + init, last);
    if init == [] {
      assert ws + init == ws;
    } else {
      JoinGrows(ws, init);
    }
  }

  /** Without white space in the base a second elevation finds the admin scope and changes nothing. */
  lemma ElevateIdempotent(scope: string, defaultScope: string)
    requires NoSpace(Base(defaultScope))
    ensures Elevate(Elevate(scope, defaultScope), defaultScope) == Elevate(scope, defaultScope)
  {
    var ws, admin := Words(scope), AdminScope(defaultScope);
    ElevatedWords(scope, defaultScope);
    var once := if admin in ws then ws else ws + [admin];
    assert ws + [] == ws;
    assert Elevate(scope, defaultScope) == Join(once) && Words(Join(once)) == once && admin in once;
  }

  /** With it, the admin scope falls apart when split, is never found, and the string grows. */
  lemma ElevateGrows(scope: string, defaultScope: string)
    requires !NoSpace(Base(defaultScope))
    ensures Elevate(Elevate(scope, defaultScope), defaultScope) != Elevate(scope, defaultScope)
  {
    var ws, admin := Words(scope), AdminScope(defaultScope);
    var once, more := Elevate(scope, defaultScope), Words(AdminScope(defaultScope));
    WordsAreWords(scope);
    WordsAreWords(admin);
    WordsAreWords(once);
    AdminIsWord(defaultScope);
    WordsOfJoinThen(ws, admin);
    assert admin[|Base(defaultScope)|] == ':';
    NonBlankHasWord(admin, |Base(defaultScope)|);
    assert Elevate(once, defaultScope) == Join(ws + more + [admin]);
    LongerAgain(ws, more, admin);
  }

  /** Elevating twice is elevating once, for every scope, exactly when the scope's base holds no white space. */
  lemma ElevateIdempotentExactly(scope: string, defaultScope: string)
    ensures Elevate(Elevate(scope, defaultScope), defaultScope) == Elevate(scope, defaultScope)
            <==> NoSpace(Base(defaultScope))
  {
    if NoSpace(Base(defaultScope)) {
      ElevateIdempotent(scope, defaultScope);
    } else {
      ElevateGrows(scope, defaultScope);
    }
  }

  // ---- Validation ---------------------------------------------------------------

  datatype Config = Config(defaultScope: string, supported: seq<string>)

  /** The resource a token is for: the canonical one, or a protected route with its scopes, if any. */
  datatype Resource = Canonical | Protected(scopes: Option<seq<string>>)

  function Supported(cfg: Config, r: Resource): Result<seq<string>> {
    match r
    case Canonical => Ok(cfg.supported)
    case Protected(None) => Denied
    case Protected(Some(scopes)) => if scopes == [] then Denied else Ok(scopes)
  }

  function ValidateScope(cfg: Config, r: Resource, scope: string): Result<string> {
    match Supported(cfg, r)
    case Denied => Denied
    case Ok(supported) =>
      var normalized := Trim(scope);
      if normalized == "" then Ok(if r.Canonical? then cfg.defaultScope else Join(supported))
      else
        var requested := Words(normalized);
        if forall w :: w in requested ==> w in supported then Ok(Join(requested)) else Denied
  }

  ghost predicate Within(scope: string, allowed: seq<string>) {
    forall w :: w in Words(scope) ==> w in allowed
  }

  /** Resource scopes are tokens, which the registry checks when they are stored. */
  ghost predicate Tokens(r: Resource) {
    r.Protected? && r.scopes.Some? ==> AllWords(r.scopes.value)
  }

  /** These are the scopes the resource offers, and it offers some. */
  predicate Offers(cfg: Config, r: Resource, scopes: seq<string>) {
    (r == Canonical && scopes == cfg.supported) || (r == Protected(Some(scopes)) && scopes != [])
  }

  /** A scope is accepted if and only if the resource offers every token of it; which scope it becomes. */
  lemma ValidatedExactly(cfg: Config, r: Resource, scope: string)
    requires Tokens(r)
    ensures ValidateScope(cfg, r, scope).Ok? <==> exists offered :: Offers(cfg, r, offered) && Within(scope, offered)
    ensures ValidateScope(cfg, r, scope).Ok? ==>
              var s := ValidateScope(cfg, r, scope).value;
              if Words(scope) != [] then s == Join(Words(scope)) && Words(s) == Words(scope)
              else if r.Canonical? then s == cfg.defaultScope
              else r.scopes.Some? && Words(s) == r.scopes.value
  {
    WordsOfTrim(scope);
    WordsAreWords(scope);
    WordsOfJoin(Words(scope));
    match r
    case Canonical => assert Offers(cfg, r, cfg.supported);
    case Protected(None) =>
    case Protected(Some(scopes)) =>
      WordsOfJoin(scopes);
      assert scopes != [] ==> Offers(cfg, r, scopes);
  }

  /** Validation never widens a request, and keeps it inside the resource's scopes but for the default. */
  lemma ValidatedWithin(cfg: Config, r: Resource, scope: string)
    requires ValidateScope(cfg, r, scope).Ok? && Tokens(r)
    ensures var s := ValidateScope(cfg, r, scope).value;
            && (Words(scope) != [] ==> Words(s) == Words(scope))
            && (Within(s, Supported(cfg, r).value) || (Words(scope) == [] && r.Canonical? && s == cfg.defaultScope))
  {
    ValidatedExactly(cfg, r, scope);
  }

  /** Every accepted scope is supported by its resource exactly when the default scope's own tokens are. */
  lemma SupportedExactly(cfg: Config)
    ensures (forall r, scope :: Tokens(r) && ValidateScope(cfg, r, scope).Ok? ==>
               Within(ValidateScope(cfg, r, scope).value, Supported(cfg, r).value))
            <==> Within(cfg.defaultScope, cfg.supported)
  {
    if Within(cfg.defaultScope, cfg.supported) {
      forall r, scope | Tokens(r) && ValidateScope(cfg, r, scope).Ok?
        ensures Within(ValidateScope(cfg, r, scope).value, Supported(cfg, r).value)
      {
        ValidatedWithin(cfg, r, scope);
      }
    } else {
      assert Tokens(Canonical) && ValidateScope(cfg, Canonical, "") == Ok(cfg.defaultScope);
    }
  }

  /** The start-up check on the configuration is enough, for a default scope that is one token. */
  lemma ConfigCheckSuffices(cfg: Config)
    requires cfg.defaultScope in cfg.supported && IsWord(cfg.defaultScope)
    ensures Within(cfg.defaultScope, cfg.supported)
  {
    WordsOfJoin([cfg.defaultScope]);
  }

  // ---- The grants ----------------------------------------------------------------

  /** Inside the grant, if there is one. */
  function Limited(v: Result<string>, grant: seq<string>): Result<string> {
    if v.Ok? && grant != [] && !(forall w :: w in Words(v.value) ==> w in grant) then Denied else v
  }

  /** Scope of a client-credentials token: `grant` is the machine client's own list. */
  function MachineScope(cfg: Config, r: Resource, grant: seq<string>, requested: Option<string>): Result<string> {
    var asked := if requested.Some? then requested.value else if grant == [] then cfg.defaultScope else "";
    Limited(ValidateScope(cfg, r, if asked == "" then Join(grant) else asked), grant)
  }

  /** Both are accepted and the second has nothing that the first has not. */
  function Narrowed(wide: Result<string>, narrow: Result<string>): Result<string> {
    if wide.Ok? && narrow.Ok? && forall w :: w in Words(narrow.value) ==> w in Words(wide.value) then narrow else Denied
  }

  /** Scope of an enterprise token: `claimed` is the scope the signed assertion carries. */
  function EnterpriseScope(cfg: Config, r: Resource, claimed: string, requested: Option<string>): Result<string> {
    if requested == None then ValidateScope(cfg, r, claimed)
    else Narrowed(ValidateScope(cfg, r, claimed), ValidateScope(cfg, r, requested.value))
  }

  /** The resource offers every token of the scope. */
  ghost predicate Accepts(cfg: Config, r: Resource, scope: string) {
    exists offered :: Offers(cfg, r, offered) && Within(scope, offered)
  }

  /** What a non-blank scope is validated to. */
  lemma ValidatedAsked(cfg: Config, r: Resource, asked: string)
    requires Tokens(r) && Words(asked) != []
    ensures asked != "" && (ValidateScope(cfg, r, asked).Ok? <==> Accepts(cfg, r, asked))
    ensures ValidateScope(cfg, r, asked).Ok? ==> Words(ValidateScope(cfg, r, asked).value) == Words(asked)
  {
    ValidatedExactly(cfg, r, asked);
  }

  lemma LimitedExactly(v: Result<string>, asked: string, grant: seq<string>)
    requires v.Ok? ==> Words(v.value) == Words(asked)
    ensures Limited(v, grant).Ok? <==> v.Ok? && (grant == [] || Within(asked, grant))
    ensures Limited(v, grant).Ok? ==> Words(Limited(v, grant).value) == Words(asked)
  {
  }

  /** A client asking for something gets exactly that, if the resource offers it and the grant, if any, has it. */
  lemma MachineAskedExactly(cfg: Config, r: Resource, grant: seq<string>, asked: string)
    requires Tokens(r) && Words(asked) != []
    ensures var s := MachineScope(cfg, r, grant, Some(asked));
            && (s.Ok? <==> Accepts(cfg, r, asked) && (grant == [] || Within(asked, grant)))
            && (s.Ok? ==> Words(s.value) == Words(asked))
  {
    ValidatedAsked(cfg, r, asked);
    LimitedExactly(ValidateScope(cfg, r, asked), asked, grant);
  }

  /** A client asking for nothing gets its grant, or the default scope if it has none. */
  lemma MachineDefaultExactly(cfg: Config, r: Resource, grant: seq<string>)
    requires Tokens(r) && AllWords(grant) && (grant == [] ==> Words(cfg.defaultScope) != [])
    ensures var s, given := MachineScope(cfg, r, grant, None), if grant == [] then cfg.defaultScope else Join(grant);
            && (s.Ok? <==> Accepts(cfg, r, given))
            && (s.Ok? ==> Words(s.value) == if grant == [] then Words(cfg.defaultScope) else grant)
  {
    var given := if grant == [] then cfg.defaultScope else Join(grant);
    WordsOfJoin(grant);
    ValidatedAsked(cfg, r, given);
    LimitedExactly(ValidateScope(cfg, r, given), given, grant);
  }

  lemma NarrowedExactly(wide: Result<string>, claimed: string, narrow: Result<string>, asked: string)
    requires wide.Ok? ==> Words(wide.value) == Words(claimed)
    requires narrow.Ok? ==> Words(narrow.value) == Words(asked)
    ensures Narrowed(wide, narrow).Ok? <==> wide.Ok? && narrow.Ok? && Within(asked, Words(claimed))
    ensures Narrowed(wide, narrow).Ok? ==> Words(Narrowed(wide, narrow).value) == Words(asked)
  {
  }

  /** The assertion's scope is given whole when nothing is asked for. */
  lemma EnterpriseWholeExactly(cfg: Config, r: Resource, claimed: string)
    requires Tokens(r) && Words(claimed) != []
    ensures var s := EnterpriseScope(cfg, r, claimed, None);
            (s.Ok? <==> Accepts(cfg, r, claimed)) && (s.Ok? ==> Words(s.value) == Words(claimed))
  {
    ValidatedAsked(cfg, r, claimed);
  }

  /**
   * Otherwise what is asked for is given, if the assertion has it all and the resource
   * offers the assertion's scope.
   */
  lemma EnterprisePartExactly(cfg: Config, r: Resource, claimed: string, asked: string)
    requires Tokens(r) && Words(claimed) != [] && Words(asked) != []
    ensures var s := EnterpriseScope(cfg, r, claimed, Some(asked));
            && (s.Ok? <==> Accepts(cfg, r, claimed) && Within(asked, Words(claimed)))
            && (s.Ok? ==> Words(s.value) == Words(asked))
  {
    ValidatedAsked(cfg, r, claimed);
    ValidatedAsked(cfg, r, asked);
    if Accepts(cfg, r, claimed) && Within(asked, Words(claimed)) {
      NarrowerAccepted(cfg, r, claimed, asked);
    }
    NarrowedExactly(ValidateScope(cfg, r, claimed), claimed, ValidateScope(cfg, r, asked), asked);
  }

  lemma NarrowerAccepted(cfg: Config, r: Resource, wide: string, narrow: string)
    requires Accepts(cfg, r, wide) && Within(narrow, Words(wide))
    ensures Accepts(cfg, r, narrow)
  {
    var offered :| Offers(cfg, r, offered) && Within(wide, offered);
    assert Within(narrow, offered);
  }

  /** Tokens a client-credentials token carries. */
  lemma MachineScopeContained(cfg: Config, r: Resource, grant: seq<string>, requested: Option<string>, w: string)
    requires Within(cfg.defaultScope, cfg.supported) && Tokens(r)
    requires MachineScope(cfg, r, grant, requested).Ok? && w in Words(MachineScope(cfg, r, grant, requested).value)
    ensures w in Supported(cfg, r).value && (grant != [] ==> w in grant)
  {
    var asked := if requested.Some? then requested.value else if grant == [] then cfg.defaultScope else "";
    ValidatedWithin(cfg, r, if asked == "" then Join(grant) else asked);
  }

  /** Tokens an enterprise token carries. */
  lemma EnterpriseScopeContained(cfg: Config, r: Resource, claimed: string, requested: Option<string>, w: string)
    requires Within(cfg.defaultScope, cfg.supported) && Tokens(r)
    requires EnterpriseScope(cfg, r, claimed, requested).Ok?
             && w in Words(EnterpriseScope(cfg, r, claimed, requested).value)
    ensures w in Supported(cfg, r).value && (Words(claimed) != [] ==> w in Words(claimed))
  {
    ValidatedWithin(cfg, r, claimed);
    if requested.Some? {
      ValidatedWithin(cfg, r, requested.value);
    }
  }
}

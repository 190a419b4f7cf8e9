# Labby: verified model

Labby is a gateway with its own OAuth authorization server (`labby-auth`), a
sandbox that stores run artifacts (`labby-codemode`) and an admin front end.
This project models the parts of it whose correctness rests on arguments that
span several operations, and proves those arguments in Dafny 4.11.
`dafny verify dfyconfig.toml` checks everything.

## What is modelled

**Authorization server.** `AuthStore` holds the expiring tables and the class
`SqliteStore` with one method per statement or transaction. `AuthProtocol`
turns the handlers (`authorize`, `browser_login`, `callback`, the code grant,
the refresh grant) into steps over that store. A handler is in flight between
two of its store operations, and any other step may come in between, including
time passing, sweeps, revocation, invalidation of a provider credential and a
handler that is dropped half way. A run is any sequence of possible steps. Each
run carries a history (every request, subject, code, refresh token and response
ever seen) that no step reads, so that the theorems can speak about the past.

- `AuthSafety` proves an invariant of ten parts for every run.
- `AuthTheorems` draws the single-use and binding theorems from it:
  section 4.1.2 of RFC 6749 (a code is used once, and only by the client and
  redirect it was issued for), section 4.6 of RFC 7636 (the verifier must hash
  to the challenge), section 6 of RFC 6749 (a refresh answers the client and
  subject of the original grant), section 2 of RFC 8707 (the resource, after
  any number of refreshes and whatever the default scope is).
- `AuthScopes` bounds the scope tokens of every response of every run.
- `AuthRuns` is about how runs go on: records are permanent, nothing is taken
  twice, leases are exclusive.
- `AuthRevocation` says exactly when an invalidation stops its subject.
- `AuthLiveness` is about what the server grants, as opposed to what it forbids:
  how long requests, codes, tokens and leases can be used, exactly when a grant
  goes on, and that a lease left behind can be taken over.
- `StoreLaws` says what each store operation does row by row, without naming the
  functions that specify the store.
- `AuthLineage` contains a complete flow and the exact condition under which
  all responses of one lineage agree.
- `PendingCapacity` bounds the pending rows under interleaving and shows that
  the bound is reached.
- `CredentialRefresh` is the retry loop on the Google credential, with
  arbitrary activity of other requests before each of its store steps.
- `CredentialLock` is the process-wide lock around that loop, with the outbound
  refreshes and revocations that share it and the logins that do not, as a
  transition system of its own. `LockLaws` shows that no lock is ever stuck and
  what each job does with the row.

**Others.** `RedirectGlob` is the redirect allowlist matcher; `RateLimiter` and
`RateLimiterRuns` the per-address limiter; `ResourceRegistry` the lease
registry and `RegistryLaws` what its operations mean and how long a lease
counts; `Scopes` and `GoogleScopes` the scope strings; `StdioCommand` the
command-line scanner and printer of the admin front end; `ArtifactRetention`
the artifact prune and the directory walk under it; `Text` trimming, splitting,
joining and string order; `Basics` what several modules share.

## Findings

Some statements one would like to make about the code are false as they stand.
Each has a run or an input that shows it and the exact condition under which it
holds.

- *An in-flight invalidation cannot delete a newer credential*
  (`crates/labby-auth/src/types.rs:213-214`). The generation restarts at 1 when
  the row is inserted anew, so this rests on the per-subject lock, and there are
  two ways around that. An upstream looks its lock key up before it locks, and
  without a row it falls back on its account setting
  (`crates/labby-auth/src/upstream/manager.rs:1019-1027`); a revocation that did
  so before the first login then runs beside a token refresh:
  `CredentialLock.StrayDeletesNewer`. And a statement runs in a task of its own
  (`crates/labby-auth/src/sqlite.rs:924-942`), so a handler dropped while it waits
  frees the lock before its deletion has run: `CredentialLock.DropDeletesNewer`.
  Token grants are protected in every run if and only if neither can happen:
  `CredentialLock.ProtectedExactly`. Against the first it is enough to configure
  the account as the Google subject, not the email.
- *An outbound refresh deletes only the credential Google refused.* It reads the
  row again after the refusal and deletes what it finds
  (`crates/labby-auth/src/upstream/manager.rs:1078-1087`), which is newer if a
  login came in between: `CredentialLock.OutboundDeletesNewer`. It deletes the
  refused one if and only if the generation has not moved:
  `CredentialLock.OutboundDeletesRefusedExactly`.
- *Scope elevation is idempotent* (`crates/labby-auth/src/token.rs:1010-1013`).
  This holds exactly when the base of the default scope holds no white space:
  `Scopes.ElevateIdempotentExactly`. The same condition decides whether the
  responses of a lineage can drift: `AuthLineage.OneVoiceExactly`. How they drift
  is in `AuthTheorems.RefreshResponseBound`.
- *Idle eviction in the limiter is invisible.* Over all runs in which the LRU
  loop removes nothing, this holds exactly when the limit is at least one request
  per minute and the idle time at least 60 seconds:
  `RateLimiterRuns.EvictionUnnoticedExactly`.
- *Invalidating a credential stops its subject.* The code grant looks at the
  credential and stores the refresh token in two steps, so an invalidation in
  between is overtaken: `AuthLineage.InvalidationOvertaken`. A refresh grant finds
  the credential and writes it back in two steps, so one that gets in between is
  undone, and a code still in hand can then be answered:
  `AuthRevocation.InvalidationWrittenBack`. The subject is stopped until its next
  login if and only if no handler is past the credential check, and there are not
  both one that may write the credential back and one that has, or will get, a
  code that can be redeemed: `AuthRevocation.InvalidationStopsExactly`, and
  `AuthRevocation.CondemnationStopsExactly` when a refused refresh grant does it
  itself.

## Modelling decisions

- Time is an integer that never goes back; random identifiers are values never
  drawn before; SHA-256 of a PKCE verifier is an arbitrary function, assumed
  injective only where a lemma says so.
- Every SQL statement or transaction is atomic, and so is counting pending rows.
  The model reads the clock inside the statement; the code reads it before it
  queues the statement (for example `crates/labby-auth/src/sqlite.rs:207` and
  `258`), so its idea of now can be earlier by the time spent waiting.
- A statement runs in a task of its own and is not cancelled with its handler. In
  `AuthProtocol` a dropped handler counts as in flight until its statement has
  run. In `CredentialLock` the lock is freed at once and the deletion stays queued.
- A login is the step in which the callback writes the credential.
- `AuthProtocol` does not know the lock: other parties may invalidate at any
  moment. Where the lock holds, nobody else invalidates while a refresh grant is
  between finding the credential and writing it back.
- The limiter counts nanoseconds and gives a token 60,000,000,000 units, so that
  refilling is exact. Bucket selection among equally old victims is left open.
- White space is what each language takes it to be: the Unicode property in the
  Rust parts (`Text`), the ECMAScript class in the front end (`StdioCommand`).
- The byte and count limits, saturation at 2^64-1 and all comparison
  directions are those of the code.

## Model

| member | source | states |
|---|---|---|
| RedirectGlob.WildcardMatches | crates/labby-auth/src/authorize.rs:909-946 | the program returns true exactly when the value matches the pattern under the declarative meaning, in which each star stands for any string |
| RedirectGlob.ScanPieces | crates/labby-auth/src/authorize.rs:925-946 | the greedy leftmost loop with its final ends-with test decides whether the pieces can be laid down in order at all |
| RedirectGlob.MatchesIsSegmented | crates/labby-auth/src/authorize.rs:913-923 | splitting at stars loses nothing: a value matches exactly when the pieces, first and last anchored, can be placed in order |
| RedirectGlob.FloatingIsInOrder | crates/labby-auth/src/authorize.rs:918-923 | dropping the empty pieces and remembering only whether the last one was empty keeps the meaning |
| RedirectGlob.Exchange | crates/labby-auth/src/authorize.rs:935-938 | any placement of the first piece can be traded for its leftmost occurrence: the rest can still be placed after it |
| RedirectGlob.LastPieceAnchored | crates/labby-auth/src/authorize.rs:941-943 | for an end-anchored last piece, found at or after the cursor together with ends-with is exactly a placement at the end |
| StdioCommand.ParseStdioCommandLine | apps/gateway-admin/lib/stdio-command.ts:10-80 | the character loop computes the scanner fold and its three errors |
| StdioCommand.ParseReadsWords | apps/gateway-admin/lib/stdio-command.ts:10-80 | on every line, errors included, and whatever white space stands before and after it, the scanner gives what an independent nested reader of words and quotes makes of the bare line |
| StdioCommand.ParseJoined | apps/gateway-admin/lib/stdio-command.ts:65-87 | every list of strings, empty ones included, is recovered from its quoted join, with the rewrite to env |
| StdioCommand.ScanQuoted | apps/gateway-admin/lib/stdio-command.ts:82-87 | scanning a quoted token appends exactly that token, whatever quotes, backslashes or blanks it holds |
| StdioCommand.RoundTrip | apps/gateway-admin/lib/stdio-command.ts:10-92 | parsing the printed pair gives the pair back exactly when the command is non-empty, no argument is empty, and the command is an assignment only without arguments |
| StdioCommand.NormalForm | apps/gateway-admin/lib/stdio-command.ts:65-92 | for every accepted line, printing and parsing again gives the same command with empty arguments dropped |
| StdioCommand.ParsedShape | apps/gateway-admin/lib/stdio-command.ts:59-78 | an accepted line has a non-empty command, which is an assignment only when it stands alone |
| Basics.TrimExactly | apps/gateway-admin/lib/stdio-command.ts:17 | trimming blank, bare and blank text in a row gives the bare text, whatever counts as blank |
| Basics.TrimStartExactly | apps/gateway-admin/lib/stdio-command.ts:17 | what is left is the suffix before which everything is blank and which does not start blank |
| StdioCommand.EnvAssignmentExactly | apps/gateway-admin/lib/stdio-command.ts:6-8 | a token is an assignment if and only if it is a name, an equals sign and anything |
| StdioCommand.QuoteExactly | apps/gateway-admin/lib/stdio-command.ts:82-87 | a token is printed as it is if and only if it is not empty and holds no white space, quote or backslash; otherwise between single quotes |
| StdioCommand.EscapeExactly | apps/gateway-admin/lib/stdio-command.ts:86 | inside the quotes each single quote is rewritten and nothing else |
| StdioCommand.FormatExactly | apps/gateway-admin/lib/stdio-command.ts:89-92 | the quoted command, and if a non-empty part follows one blank and the rest printed in the same way; a missing and an empty command print alike |
| StdioCommand.DropEmptyExactly | apps/gateway-admin/lib/stdio-command.ts:90 | an empty part is left out wherever it is, and everything else stays in its place |
| StdioCommand.SpaceList | apps/gateway-admin/lib/stdio-command.ts:43 | the characters that are white space |
| RateLimiter.RateLimiterInner.TryAcquire | crates/labby-auth/src/state.rs:54-65 | the object refills, caps, and spends one token exactly as the bucket function, and keeps tokens within the maximum |
| RateLimiter.Acquire | crates/labby-auth/src/state.rs:54-65 | what is left and what was spent together never exceed a burst |
| RateLimiter.PerIpRateLimiter.EvictStaleAndLru | crates/labby-auth/src/state.rs:151-164 | room is made: expired entries go, then least recently seen ones until one slot is free, and nobody evicted was seen later than anybody kept |
| RateLimiter.PerIpRateLimiter.TryAcquireAt | crates/labby-auth/src/state.rs:118-149 | a known address keeps its bucket; an unknown one starts full after eviction; the map stays within its cap |
| RateLimiterRuns.BucketsBounded | crates/labby-auth/src/state.rs:118-164 | in every run, under any churn of addresses, at most max_buckets entries are held |
| RateLimiterRuns.TokensConserved | crates/labby-auth/src/state.rs:43-65 | grants since any request and units left together fit a burst plus the refill since then |
| RateLimiterRuns.WindowBound | crates/labby-auth/src/state.rs:43-65 | in any window an address is granted at most max(rpm,1) plus rpm times the window's length in minutes |
| RateLimiterRuns.GrantedExactly | crates/labby-auth/src/state.rs:54-65 | a request is granted if and only if it goes over the budget of no window that ends with it: the budget is a burst plus the refill since the window began |
| RateLimiterRuns.AcquireAccounts | crates/labby-auth/src/state.rs:54-65 | as long as the bucket does not overflow no unit is lost, an overflow starts the account anew, and a refused request is over the budget of the account |
| RateLimiterRuns.RunAgrees | crates/labby-auth/src/state.rs:118-164 | for any number of addresses, a run in which idle expiry alone makes room agrees step by step with one that keeps every bucket, because what it evicted would be full again |
| RateLimiterRuns.LimiterWindowBound | crates/labby-auth/src/state.rs:43-164 | the evicting limiter itself obeys the window bound in every run in which the LRU loop removes nothing |
| RateLimiterRuns.LimiterGrantsExactly | crates/labby-auth/src/state.rs:118-164 | the same if-and-only-if for the evicting limiter, with at least one request per minute and 60 seconds of idle time, in every run in which the LRU loop removes nothing |
| RateLimiterRuns.RecentKept | crates/labby-auth/src/state.rs:151-164 | in every run an address keeps its entry until it has been idle for too long or as many other addresses as fit were seen since |
| RateLimiterRuns.EvictionUnnoticedExactly | crates/labby-auth/src/state.rs:118-164 | no run in which the LRU loop removes nothing can tell eviction from keeping everything, if and only if rpm is at least 1 and the idle time at least 60 seconds |
| ResourceRegistry.Registry.ReplaceConfiguredResourceScopes | crates/labby-auth/src/resource_registry.rs:87-100 | all or nothing: the first invalid entry is reported and nothing changes |
| ResourceRegistry.Registry.CreateResourceLeaseAt | crates/labby-auth/src/resource_registry.rs:112-147 | the checks in order, the prune, the stored lease and the returned one |
| ResourceRegistry.Registry.RenewResourceLeaseAt | crates/labby-auth/src/resource_registry.rs:157-176 | only a lease that survives the prune is renewed, to now plus the given time |
| ResourceRegistry.Registry.ReleaseResourceLease | crates/labby-auth/src/resource_registry.rs:178-187 | the lease is removed, or reported missing if it has expired |
| ResourceRegistry.Registry.EffectiveResourceScopesAt | crates/labby-auth/src/resource_registry.rs:205-224 | the result is the one ascending list of exactly the configured scopes and those of every live lease on the resource |
| ResourceRegistry.Registry.PruneExpiredResourceLeases | crates/labby-auth/src/resource_registry.rs:189-198 | exactly the expired leases go and their number is returned |
| ResourceRegistry.PruningUnnoticed | crates/labby-auth/src/resource_registry.rs:87-253 | in every run under a clock that never goes back, every answer but the prune count equals that of a registry that never prunes |
| ResourceRegistry.ExpiryBounded | crates/labby-auth/src/resource_registry.rs:306-311 | every stored expiry is at most the last observed time plus a day |
| ResourceRegistry.ExpiredStaysExpired | crates/labby-auth/src/resource_registry.rs:157-176 | once gone or expired a lease can not be renewed by any later call, unless a new lease was created under its identifier |
| RegistryLaws.CreateExactly | crates/labby-auth/src/resource_registry.rs:112-147 | a lease is created if and only if no check finds a fault, the first fault found is the answer, and the stored and the returned lease expire at now plus the time asked for |
| RegistryLaws.RenewExactly | crates/labby-auth/src/resource_registry.rs:157-176 | a lease is renewed if and only if the time is valid and the lease is there with time left; it then expires at now plus the time asked for, and nothing else about it changes |
| RegistryLaws.ReleaseExactly | crates/labby-auth/src/resource_registry.rs:178-187 | a live lease is released and gone, any other is not found, and other live leases stay |
| RegistryLaws.LookupExactly | crates/labby-auth/src/resource_registry.rs:205-223 | a scope is effective if and only if it is configured for the resource or some live lease on it has it |
| RegistryLaws.LeaseLasts | crates/labby-auth/src/resource_registry.rs:112-203 | in every run of the program under a clock that never goes back, a lease that nobody renews or releases is held at a later time if and only if that time is before the call plus the time asked for |
| RegistryLaws.LeaseSeen | crates/labby-auth/src/resource_registry.rs:112-223 | a later lookup lists a scope of that lease if and only if the time asked for is not up, or the scope is configured or held by another live lease |
| RegistryLaws.CountExactly | crates/labby-auth/src/resource_registry.rs:189-252 | counting and listing see exactly the live leases, and a prune reports how many were not |
| RegistryLaws.LooksPrune | crates/labby-auth/src/resource_registry.rs:189-252 | a call that only looks clears away exactly the expired leases |
| RegistryLaws.BlindExactly | crates/labby-auth/src/resource_registry.rs:205-252 | before the epoch, or for what is no resource, it sees nothing and changes nothing |
| RegistryLaws.ReplacedExactly | crates/labby-auth/src/resource_registry.rs:87-100 | a new configuration is taken if and only if every entry is good |
| RegistryLaws.LastEntryCounts | crates/labby-auth/src/resource_registry.rs:87-100 | of several entries for one resource the last one counts |
| RegistryLaws.NoEntryNoScopes | crates/labby-auth/src/resource_registry.rs:87-100 | a resource without an entry has no configured scopes |
| RegistryLaws.ValidatedScopesExactly | crates/labby-auth/src/resource_registry.rs:286-297 | a list of scopes is accepted if and only if it is not empty and every entry, trimmed, is a token, and then stands for the trimmed entries |
| RegistryLaws.Utf8OfOne | crates/labby-auth/src/resource_registry.rs:124 | how many bytes one character of an owner counts |
| RegistryLaws.Utf8Concat | crates/labby-auth/src/resource_registry.rs:124 | the bytes of a string are those of its parts |
| RegistryLaws.ValidScopeExactly | crates/labby-auth/src/resource_registry.rs:299-304 | the characters a scope may hold |
| RegistryLaws.CanonicalResourceExactly | crates/labby-auth/src/resource_registry.rs:270-284 | white space around a resource and one slash at its end are dropped, and what is left must pass the address check |
| ArtifactRetention.DirSizeBytes | crates/labby-codemode/src/artifacts.rs:209-229 | the explicit-stack walk ends on every finite tree with the sum of the sizes of its readable files, or 2^64-1 if that is less |
| ArtifactRetention.BytesExactly | crates/labby-codemode/src/artifacts.rs:209-229 | the recursive sum is the sum over the list of files that can be reached and read |
| ArtifactRetention.OrderDoesNotMatter | crates/labby-codemode/src/artifacts.rs:209-229 | trees that differ only in the order of entries, in any directory, have the same sum |
| ArtifactRetention.DecideRemovals | crates/labby-codemode/src/artifacts.rs:393-410 | the loop with its saturating running total removes exactly what the unsaturated rule says |
| ArtifactRetention.PruneArtifactRuns | crates/labby-codemode/src/artifacts.rs:308-424 | on a store of directory trees, exactly the ULID-named directories that the rule picks by their walked sizes and that can be removed are gone, and everything else is still there |
| ArtifactRetention.ChooseRemovals | crates/labby-codemode/src/artifacts.rs:370-410 | sorting newest first, walking each run if there is a byte budget, and deciding; nothing is removed when both rules are off |
| ArtifactRetention.RemovalsExactly | crates/labby-codemode/src/artifacts.rs:393-410 | removed are exactly the inactive runs past the longest newest-first prefix within both limits |
| ArtifactRetention.RemovedExactly | crates/labby-codemode/src/artifacts.rs:393-410 | a run is removed if and only if it is inactive and its position from the newest, or the bytes up to and including it, are past a limit that is switched on |
| Text.LessExactly | crates/labby-codemode/src/artifacts.rs:370 | a name comes before another if and only if it is smaller at the first difference, or a proper prefix |
| ArtifactRetention.RemovedAreOlder | crates/labby-codemode/src/artifacts.rs:370-410 | every removed run is older than every kept run that is not active |
| ArtifactRetention.PruneTwice | crates/labby-codemode/src/artifacts.rs:308-424 | what one prune leaves, listed in any order, a second one leaves alone |
| Scopes.ElevateScopeForAllowedUser | crates/labby-auth/src/authorize.rs:761-776 | splitting the result gives the tokens asked for, in order, followed by those of the admin scope unless it was among them |
| Scopes.ElevatedWords | crates/labby-auth/src/authorize.rs:761-776 | the same for every default scope, and that the admin scope is one token when its base holds no white space |
| Scopes.ElevateIdempotentExactly | crates/labby-auth/src/authorize.rs:761-776 | elevating twice is elevating once, if and only if the base of the default scope holds no white space |
| Scopes.AdminExactly | crates/labby-auth/src/authorize.rs:761-776 | the admin scope is everything before the first colon of the default scope, and :admin |
| Text.WordsExactly | crates/labby-auth/src/authorize.rs:761-839 | splitting gives the one list of non-blank words that stand in the string in that order with white space between, before and after them |
| Text.WordsOfTrim | crates/labby-auth/src/authorize.rs:778-839 | trimming a string first changes none of its words |
| Text.JoinConcat | crates/labby-auth/src/authorize.rs:761-839 | joining two lists is joining each, with one blank between if neither is empty |
| Text.SpaceList | crates/labby-auth/src/authorize.rs:761-839 | the characters that are white space |
| Scopes.ValidatedWithin | crates/labby-auth/src/authorize.rs:778-839 | validation keeps the tokens of a non-blank request as they are and stays inside the resource's scopes, but for the default scope |
| Scopes.ValidatedExactly | crates/labby-auth/src/authorize.rs:778-839 | a scope is accepted if and only if the resource offers scopes and every token of the request is among them, and which scope it becomes |
| Scopes.SupportedExactly | crates/labby-auth/src/authorize.rs:778-839 | every accepted scope is supported by its resource, if and only if the tokens of the default scope are supported |
| Scopes.ConfigCheckSuffices | crates/labby-auth/src/config.rs:298-303 | the start-up check gives that condition for a default scope that is one token |
| AuthScopes.EveryTokenAllowed | crates/labby-auth/src/token.rs:761-768 | in every run of the program whose stored requests were validated, each token of each response, after any number of refreshes, was supported by the very resource the response is for when its request was validated, is part of the default scope of the canonical resource, or of the admin scope |
| AuthScopes.EveryTokenContained | crates/labby-auth/src/authorize.rs:761-839 | with a supported default scope without white space in its base: supported by that resource, or the admin scope itself |
| AuthScopes.RequestsInserted | crates/labby-auth/src/authorize.rs:264-279 | every recorded request was inserted by a step of the run |
| Scopes.MachineScopeContained | crates/labby-auth/src/token.rs:369-396 | a client-credentials token carries supported scopes inside a non-empty machine grant |
| Scopes.EnterpriseScopeContained | crates/labby-auth/src/token.rs:218-232 | an ID-JAG token carries supported scopes inside a non-blank claimed scope |
| Scopes.MachineAskedExactly | crates/labby-auth/src/token.rs:373-396 | a machine client that asks for something gets exactly those tokens, if and only if the resource offers them and its grant, if any, has them |
| Scopes.MachineDefaultExactly | crates/labby-auth/src/token.rs:373-396 | one that asks for nothing gets its grant, or the default scope if it has none |
| Scopes.EnterpriseWholeExactly | crates/labby-auth/src/token.rs:218-232 | an ID-JAG without a request is given whole, if and only if the resource offers it |
| Scopes.EnterprisePartExactly | crates/labby-auth/src/token.rs:218-232 | with a request exactly the requested tokens are given, if and only if the ID-JAG has them and the resource offers what the ID-JAG has |
| GoogleScopes.MergeGoogleScopes | crates/labby-auth/src/google.rs:199-210 | the program returns a strictly ascending list of exactly the canonical non-empty names of both lists |
| GoogleScopes.MergeIsUnion | crates/labby-auth/src/google.rs:185-210 | the result is strictly ascending and holds exactly the canonical non-empty names of both lists |
| GoogleScopes.CanonicalExactly | crates/labby-auth/src/google.rs:185-204 | white space around a name is dropped, the two long names become short and nothing else changes |
| GoogleScopes.MergeUnique | crates/labby-auth/src/google.rs:199-210 | it is the only such list |
| GoogleScopes.MergeCommutes | crates/labby-auth/src/google.rs:199-210 | the order of the two lists does not matter |
| GoogleScopes.MergeAssociates | crates/labby-auth/src/google.rs:199-210 | neither does grouping |
| GoogleScopes.MergeAbsorbs | crates/labby-auth/src/google.rs:199-210 | merging the same again, or normalising the result, changes nothing |
| CredentialRefresh.GrantsAccumulate | crates/labby-auth/src/authorize.rs:448-454 | over any sequence of logins, refreshes and invalidations that do not interleave, the stored names are exactly those granted since the last invalidation |
| CredentialRefresh.GenerationCounts | crates/labby-auth/src/sqlite/google_credentials.rs:226-253 | after any activity the generation is the number of writes since the row last vanished |
| CredentialRefresh.StaleInvalidationExactly | crates/labby-auth/src/sqlite/tokens.rs:402-447 | a stale compare-and-delete succeeds if and only if the row is untouched, or was removed and then written as often as the stale generation says |
| CredentialRefresh.RefreshOnce | crates/labby-auth/src/token.rs:857-952 | one round: the stored row and the verdict follow the answer, case by case; only a condemned credential of the generation in hand is deleted, and a retry is due exactly if the row has changed |
| CredentialRefresh.RefreshGoogleProviderCredential | crates/labby-auth/src/token.rs:833-956 | at most two attempts and one deletion, a second attempt exactly when the first was refused and another credential is there, and then with that one; the last answer decides the outcome; success is for the requested subject and stores the merged scopes; while others only install, everything deleted was refused first and nothing newer is lost |
| CredentialRefresh.UpdatedExactly | crates/labby-auth/src/token.rs:885-913 | after a success the row holds the returned token, or the presented one if none came back, and exactly the names of both lists |
| CredentialLock.RefreshUnderLock | crates/labby-auth/src/token.rs:838-956 | the same loop with its gaps filled by any activity of others while it holds the lock: the promises hold without an assumption on the gaps |
| CredentialLock.LockedGap | crates/labby-auth/src/google_refresh.rs:10-21 | under the same two conditions, whatever others do while a job holds the lock of the subject, the row only sees installs |
| CredentialLock.RowActsApply | crates/labby-auth/src/sqlite/google_credentials.rs:198-275 | the acts read off a run are what changes the row |
| CredentialLock.LockProtects | crates/labby-auth/src/upstream/manager.rs:1014-1031 | if upstreams lock no other key and no handler is dropped over a queued statement, every deletion of every run hits what its job read, or for an outbound refresh nothing older |
| CredentialLock.ProtectedExactly | crates/labby-auth/src/upstream/manager.rs:1014-1031 | token grants delete only refused credentials in every run, if and only if no upstream can fall back on another lock key and no handler can be dropped over a queued statement |
| CredentialLock.StrayDeletesNewer | crates/labby-auth/src/upstream/manager.rs:376-399 | the run in which a revocation with another key lets a token refresh delete a credential it never presented |
| CredentialLock.DropDeletesNewer | crates/labby-auth/src/sqlite.rs:924-942 | the run in which the queued deletion of a dropped refresh hits a credential it never presented |
| CredentialLock.OutboundDeletesNewer | crates/labby-auth/src/upstream/manager.rs:1078-1087 | the run in which an outbound refresh deletes the credential of a login that came in between |
| CredentialLock.OutboundDeletesRefusedExactly | crates/labby-auth/src/upstream/manager.rs:1078-1087 | before the deletion: if it is going to hit, it hits the refused credential if and only if both reads saw the same generation, and never an older one |
| LockLaws.OneInside | crates/labby-auth/src/google_refresh.rs:10-21 | in every run, whatever the keys and however handlers are dropped, at most one job is inside a lock |
| LockLaws.AcquiresExactly | crates/labby-auth/src/token.rs:839-840 | a waiting job gets the lock if and only if no job is inside it |
| LockLaws.ReadsExactly | crates/labby-auth/src/token.rs:841-856 | a job in its lock reads exactly what is stored |
| LockLaws.NeverStuck | crates/labby-auth/src/google_refresh.rs:10-21 | the job inside can always end, and a waiting one can then go in |
| LockLaws.WorkFrees | crates/labby-auth/src/upstream/manager.rs:385-399 | so it can when that job has stored a credential, deleted one or was dropped |
| LockLaws.InstallsExactly | crates/labby-auth/src/sqlite/google_credentials.rs:198-273 | either kind of refresh stores its token and names under the next generation and is over |
| LockLaws.DeletesExactly | crates/labby-auth/src/token.rs:915-948 | what is stored goes if and only if it is of the generation in hand; otherwise the job is back in its lock and nothing else has changed |
| LockLaws.QueuedExactly | crates/labby-auth/src/sqlite.rs:924-942 | the queued deletion of a dropped job does the same |
| AuthStore.SqliteStore.TakeAuthorizationRequest | crates/labby-auth/src/sqlite.rs:202-226 | a live request is returned and deleted in one step |
| AuthStore.SqliteStore.RedeemAuthCode | crates/labby-auth/src/sqlite.rs:256-278 | a live code is returned and deleted in one step |
| AuthStore.SqliteStore.CountPendingOauthStates | crates/labby-auth/src/sqlite.rs:373-403 | the count is the size of the set of live rows of the three pending tables, each named by its table and key |
| AuthStore.SqliteStore.UpsertRefreshToken | crates/labby-auth/src/sqlite/tokens.rs:99-134 | a conflicting row is overwritten but keeps its lease |
| AuthStore.SqliteStore.ClaimRefreshToken | crates/labby-auth/src/sqlite/tokens.rs:16-72 | the lease is taken if and only if the token is live and no lease is held or the held one has expired |
| AuthStore.SqliteStore.ReleaseRefreshClaim | crates/labby-auth/src/sqlite/tokens.rs:74-93 | only the owner's lease is released |
| AuthStore.SqliteStore.RotateClaimedRefreshToken | crates/labby-auth/src/sqlite/tokens.rs:191-244 | the old row goes and the new one comes in one transaction, only for the holder of a live lease on a live token |
| AuthStore.SqliteStore.InvalidateGoogleProviderCredential | crates/labby-auth/src/sqlite/tokens.rs:402-447 | a matching generation is deleted together with every code and refresh token of the subject |
| AuthStore.SqliteStore.CleanupExpired | crates/labby-auth/src/sqlite.rs:485-523 | exactly the expired rows of all tables go, outbound credentials only if they cannot be refreshed, and the total is their number |
| AuthStore.SweepingUnnoticed | crates/labby-auth/src/sqlite.rs:202-523 | with fresh keys and a clock that never goes back, sweeps at any points of a run change no answer of any other operation |
| AuthStore.PendingExactly | crates/labby-auth/src/sqlite.rs:373-403 | the sum of three counts is the number of live rows of the three tables |
| StoreLaws.RequestKept | crates/labby-auth/src/sqlite.rs:172-226 | a stored request is found once, until its time is up, and storing and taking it touch nothing else |
| StoreLaws.CodeKept | crates/labby-auth/src/sqlite.rs:228-278 | the same for a code |
| StoreLaws.LoginKept | crates/labby-auth/src/sqlite.rs:350-424 | the same for the state of a browser login |
| StoreLaws.KeyInUse | crates/labby-auth/src/sqlite.rs:172-252 | a key in use, expired or not, refuses a second row |
| StoreLaws.NativeKept | crates/labby-auth/src/sqlite.rs:435-480 | a native result replaces an earlier one and is handed out once |
| StoreLaws.SessionKept | crates/labby-auth/src/sqlite.rs:280-342 | a session is found as often as asked for until it expires or is revoked |
| StoreLaws.TokenKept | crates/labby-auth/src/sqlite/tokens.rs:99-134 | a stored token is found until it expires or is revoked, and a row it replaces keeps its lease |
| StoreLaws.ClaimExactly | crates/labby-auth/src/sqlite/tokens.rs:16-72 | a lease is taken if and only if the token is live and has no lease with time left; the answer carries the new lease, and no other row changes |
| StoreLaws.ReleaseExactly | crates/labby-auth/src/sqlite/tokens.rs:74-92 | only the holder ends a lease, and a live token can then be leased at once |
| StoreLaws.RotateExactly | crates/labby-auth/src/sqlite/tokens.rs:191-244 | the holder of a live lease on a live token trades it for the new one, nobody else does, and no other row changes |
| StoreLaws.InvalidateExactly | crates/labby-auth/src/sqlite/tokens.rs:402-446 | the right generation takes exactly the credential, codes and tokens of the subject; a wrong one takes nothing |
| StoreLaws.SweepExactly | crates/labby-auth/src/sqlite.rs:485-523 | no expired row is left in any table and every other row is as it was |
| StoreLaws.InstallExactly | crates/labby-auth/src/sqlite/google_credentials.rs:198-273 | a write advances the generation of its subject, or starts it at 1, and touches no other |
| StoreLaws.StillGoodExactly | crates/labby-auth/src/sqlite.rs:512-519 | an outbound credential survives a sweep if and only if it can be refreshed or has time left |
| AuthProtocol.RegularExactly | crates/labby-auth/src/token.rs:978-1014 | elevating and settling a blank resource are both idempotent in the program if and only if the base of the default scope holds no white space |
| AuthSafety.InvStep | crates/labby-auth/src/token.rs:645-831 | every step of every handler keeps the invariant |
| AuthSafety.RunKeepsInv | crates/labby-auth/src/token.rs:645-1055 | the invariant holds after every run |
| AuthTheorems.OneCodePerRequest | crates/labby-auth/src/authorize.rs:385-551 | in every run an authorization request leads to at most one code and is no longer stored once it has |
| AuthTheorems.OneCodeResponsePerRequest | crates/labby-auth/src/token.rs:678-768 | in every run a request leads to at most one code response, and its code is gone |
| AuthTheorems.OneResponsePerRefreshToken | crates/labby-auth/src/token.rs:771-831 | in every run a refresh token leads to at most one response, whatever the lease times, and is gone after it |
| AuthTheorems.OneTokenPerRequest | crates/labby-auth/src/token.rs:725-743 | at most one refresh token is stored per authorization request |
| AuthTheorems.CodeResponseBound | crates/labby-auth/src/token.rs:678-768 | a code response says the client, subject, settled resource and elevated scope of its request; whoever redeemed showed that request's client, redirect, resource and a verifier hashing to its S256 challenge |
| AuthTheorems.OnlyTheVerifierRedeems | crates/labby-auth/src/token.rs:1110-1168 | if the challenge function is injective, the verifier shown is the one behind the request's challenge |
| AuthTheorems.RefreshResponseBound | crates/labby-auth/src/token.rs:958-1055 | the response to the n-th refresh of a lineage answers the original client and subject and the resource asked for, is for the settled original resource, and carries the original scope elevated n+1 times |
| AuthTheorems.ResourceKept | crates/labby-auth/src/token.rs:978-1000 | in the program every response is for the resource of its request or, if that was blank, the canonical one, whatever the default scope |
| AuthTheorems.RegularSpeaksOnce | crates/labby-auth/src/token.rs:958-1055 | for a regular program all responses that go back to one request are equal |
| AuthLineage.Refreshed | crates/labby-auth/src/token.rs:645-1055 | a complete flow from request to first refresh is possible, and elevates the requested scope once and then twice |
| AuthLineage.OneVoiceExactly | crates/labby-auth/src/token.rs:958-1055 | in the program all responses of one request agree in every run, if and only if the base of the default scope holds no white space |
| AuthLineage.InvalidationOvertaken | crates/labby-auth/src/token.rs:708-743 | a run in which a response and a stored refresh token follow a successful invalidation that fell between the credential check and the insert |
| AuthRuns.RecordsPermanent | crates/labby-auth/src/authorize.rs:385-551 | no later step overwrites the recorded request, subject, code, lineage or response, so grants are bound to what was said first |
| AuthRuns.SpentForGood | crates/labby-auth/src/token.rs:678-831 | a code or refresh token that was answered is stored at no later point of the run |
| AuthRuns.TakenOnce | crates/labby-auth/src/token.rs:678-706 | no code is redeemed twice, not even after a redemption that failed its checks, and no request is called back twice |
| AuthRuns.LeaseExclusive | crates/labby-auth/src/token.rs:800-811 | at most one handler holds the lease of a token, and while one does nobody can claim it |
| AuthRuns.RotationAnswersExactly | crates/labby-auth/src/token.rs:1036-1042 | a rotation answers if and only if its handler still holds the lease of a token that has not expired |
| AuthLiveness.RequestLasts | crates/labby-auth/src/authorize.rs:264-279 | a request can be called back for exactly 300 seconds |
| AuthLiveness.LoginLasts | crates/labby-auth/src/authorize.rs:95-104 | the state of a browser login can be taken, once, for exactly 300 seconds |
| AuthLiveness.CodeLasts | crates/labby-auth/src/authorize.rs:534-551 | a code can be redeemed for exactly the configured time |
| AuthLiveness.NativeLasts | crates/labby-auth/src/authorize.rs:568-583 | a callback to the native address, and no other, stores a result that can be polled once, for exactly that time |
| AuthLiveness.TokenLasts | crates/labby-auth/src/token.rs:726-744 | a refresh token can be leased for exactly the configured time |
| AuthLiveness.RotatedTokenLasts | crates/labby-auth/src/token.rs:1004-1042 | so can one that was rotated in |
| AuthLiveness.RedemptionGoesOnExactly | crates/labby-auth/src/token.rs:678-706 | in every run a redemption goes on if and only if client, redirect, verifier and resource are those of the original request, and the code is gone either way |
| AuthLiveness.OtherMethodRefused | crates/labby-auth/src/token.rs:1143-1152 | a code stored under another challenge method is lost |
| AuthLiveness.CheckGoesOnExactly | crates/labby-auth/src/token.rs:708-724 | a code grant goes on if and only if the subject has a credential |
| AuthLiveness.CodeGrantAnswers | crates/labby-auth/src/token.rs:754-769 | a code grant whose token is stored can always answer, once, with that token and what the code said |
| AuthLiveness.ExchangeExactly | crates/labby-auth/src/authorize.rs:491-509 | the answer to a callback installs a credential of the next generation for the subject it names |
| AuthLiveness.RenewExactly | crates/labby-auth/src/token.rs:885-913 | so does the answer to a refresh, and the handler can rotate then |
| AuthLiveness.RevokeExactly | crates/labby-auth/src/sqlite/tokens.rs:448-461 | a revoked token is gone and no other is |
| AuthLiveness.CleanupExactly | crates/labby-auth/src/sqlite.rs:485-523 | a sweep as a step of a run leaves no expired row and touches nothing else |
| AuthLiveness.GiveUpExactly | crates/labby-auth/src/token.rs:694-706 | a handler that ends half way touches no row, and its slot is free |
| AuthLiveness.RefreshGoesOnExactly | crates/labby-auth/src/token.rs:958-1002 | in every run a refresh goes on to the provider if and only if it comes from the client of the original request, asks for its resource or none, and the subject has a credential |
| AuthLiveness.CondemnExactly | crates/labby-auth/src/token.rs:915-934 | a refusal takes everything of the subject if and only if the stored generation is the one the handler saw |
| AuthLiveness.LookThenCondemn | crates/labby-auth/src/token.rs:841-934 | so it does if nothing happened in between |
| AuthLiveness.LateRotation | crates/labby-auth/src/token.rs:1038-1042 | a rotation without a live lease on a live token changes nothing, and the handler can still release |
| AuthLiveness.LeaseRunsOut | crates/labby-auth/src/sqlite/tokens.rs:16-72 | from every state with a live token, letting its lease run out makes a claim possible |
| AuthLiveness.LeaseHolds | crates/labby-auth/src/sqlite/tokens.rs:16-72 | while the lease has time left nobody can claim |
| AuthLiveness.ReleasedCanBeLeased | crates/labby-auth/src/token.rs:824-829 | a handler that fails leaves a live token to be leased at once |
| AuthLiveness.ReleaseEnds | crates/labby-auth/src/token.rs:824-829 | it can always do so, is over then and touches no other token |
| AuthLiveness.SecondAnswers | crates/labby-auth/src/token.rs:771-831 | the reachable run in which a second handler retakes an expired lease and answers, and the rotation of the first is refused |
| AuthRevocation.SilencedExactly | crates/labby-auth/src/token.rs:708-743 | in any run that left no credential, code or refresh token of a subject, no continuation without a login gives a token for it, if and only if no handler is past the credential check and there are not both one that may write the credential back and one with a code to present |
| AuthRevocation.InvalidationStopsExactly | crates/labby-auth/src/sqlite/tokens.rs:402-447 | the same condition, on the handlers in flight, decides for every successful invalidation by others |
| AuthRevocation.CondemnationStopsExactly | crates/labby-auth/src/token.rs:914-935 | the same for one by a refused refresh grant, which itself no longer counts |
| AuthRevocation.InvalidationWrittenBack | crates/labby-auth/src/token.rs:841-910 | a reachable state in which nobody is past the credential check and an invalidation still does not stop the subject |
| AuthRevocation.SilentRun | crates/labby-auth/src/token.rs:645-1055 | two ways of being silent, no credential and nobody to bring it back, or nothing to present, each last over any run without a login |
| PendingCapacity.PendingBound | crates/labby-auth/src/state.rs:381-390 | with at most N handlers in flight, the live rows of requests, logins and native results, counted as one set of rows, together with the handlers that may still insert stay at most max_pending - 1 + N in every interleaving; with one handler the cap itself holds |
| PendingCapacity.PendingBoundReached | crates/labby-auth/src/authorize.rs:81-104 | some interleaving of checks and inserts stores exactly that many rows of that set |
| PendingCapacity.CapacityExactly | crates/labby-auth/src/state.rs:381-390 | a new authorization is let in if and only if a handler is free and fewer than max_pending rows are live in the three tables |

## Left out

- HTTP extraction, redirects, headers, JSON, logging, URL parsing, JWT signing and verification, encryption and hashing of stored tokens: plumbing or library behaviour. A stored hash is identified with the token it stands for.
- SQL text, migrations, the connection pool and file permissions. The foreign key from refresh tokens to registered clients, created-at columns and 64-bit overflow of expiry times are not modelled.
- Operations on the upstream OAuth tables, allowed users, dynamic registrations and assertion replay. Of these only the two swept tables are in the store.
- The browser login callback after it takes its state: it only creates a session. Session rows are in `AuthStore` and in no handler.
- `authenticate_oauth_client`, the email allowlist and rate limits in front of the handlers: a handler that is refused is one that is dropped.
- CredentialRefresh.RefreshGoogleProviderCredential: email, access token and timestamps of the bundle are dropped; gaps are arbitrary here and come from the lock in `CredentialLock.RefreshUnderLock`.
- CredentialRefresh.GrantsAccumulate: for handlers that do not interleave. `callback` reads, merges and writes without the per-subject lock, so an interleaved writer can lose a scope.
- CredentialLock.ProtectedExactly: one subject at a time. The lookup by account, the number of retries and the upstream's own cache of failures are not modelled.
- RateLimiter.PerIpRateLimiter.TryAcquireAt: one call is atomic, so the race between the fast path and an eviction is not modelled; floating-point rounding of the refill is not either.
- RateLimiterRuns.EvictionUnnoticedExactly: for a map of at least two buckets; the direction from the condition to invisibility needs no such bound. When the LRU loop does fire, an evicted bucket comes back full by design.
- ResourceRegistry.PruningUnnoticed: for a clock that does not go back. Random identifiers are part of the request.
- ArtifactRetention.PruneArtifactRuns: runs that register after the snapshot of active runs are not modelled, as the code promises nothing for them. The store does not change during the walks.
- `host_pattern_matches`, `redirect_pattern_matches`, `normalize_artifact_path`, CIMD and JWKS fetching, configuration parsing, metadata documents, and the user interface.

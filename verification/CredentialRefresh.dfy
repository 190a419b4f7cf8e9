/**
 * Refreshing the one Google credential of a subject while other requests keep
 * installing newer ones. Deletion compares generations; the results say what
 * that protects, and exactly when it does not.
 */
module CredentialRefresh {
  import opened Basics
  import opened GoogleScopes
  import opened Text

  /** The row of one subject in `google_provider_credentials`. */
  datatype Credential = Credential(generation: nat, refreshToken: string, scopes: seq<string>)

  type Row = Option<Credential>

  // ---- Store operations ----------------------------------------------------------

  /** Every successful write advances the generation; the first one starts at 1. */
  function NextGeneration(row: Row): nat {
    if row.Some? then row.value.generation + 1 else 1
  }

  function Upsert(row: Row, refreshToken: string, scopes: seq<string>): Row {
    Some(Credential(NextGeneration(row), refreshToken, Merge([], scopes)))
  }

  predicate Invalidates(row: Row, generation: nat) {
    row.Some? && row.value.generation == generation
  }

  function Invalidate(row: Row, generation: nat): Row {
    if Invalidates(row, generation) then None else row
  }

  // ---- Granted scopes over sequential runs --------------------------------------------

  /** What handlers that do not interleave do to the row: a login, a refresh that succeeded, an invalidation. */
  datatype Event =
    | LoggedIn(refreshToken: string, scopes: seq<string>)
    | WasRefreshed(refreshToken: string, scopes: seq<string>)
    | WasInvalidated

  function StoredScopes(row: Row): seq<string> {
    if row.Some? then row.value.scopes else []
  }

  /** A login and a refresh write what was stored merged with what Google returned. */
  function RowOf(events: seq<Event>): Row {
    if events == [] then None
    else
      var before, last := RowOf(events[..|events| - 1]), events[|events| - 1];
      if last.WasInvalidated? then None
      else Upsert(before, last.refreshToken, Merge(StoredScopes(before), last.scopes))
  }

  /** The i-th event granted the name and no invalidation came after it. */
  ghost predicate GrantedBy(events: seq<Event>, i: nat, name: string) {
    i < |events| && WasInvalidated !in events[i..] && name in Names(events[i].scopes)
  }

  lemma GrantedBefore(events: seq<Event>, last: Event, name: string)
    requires !last.WasInvalidated?
    ensures (exists i :: GrantedBy(events + [last], i, name)) <==>
            name in Names(last.scopes) || exists i :: GrantedBy(events, i, name)
  {
    var all := events + [last];
    forall i: nat | i < |events| ensures GrantedBy(all, i, name) <==> GrantedBy(events, i, name) {
      assert all[i..] == events[i..] + [last];
    }
    assert all[|events|..] == [last];
    assert GrantedBy(all, |events|, name) <==> name in Names(last.scopes);
  }

  lemma NoneSince(events: seq<Event>, name: string)
    requires events != [] && events[|events| - 1].WasInvalidated?
    ensures !exists i :: GrantedBy(events, i, name)
  {
    forall i: nat | i < |events| ensures WasInvalidated in events[i..] {
      assert events[i..][|events| - 1 - i] == WasInvalidated;
    }
  }

  lemma RowAfterWrite(events: seq<Event>, last: Event)
    requires !last.WasInvalidated?
    ensures Names(StoredScopes(RowOf(events + [last]))) == Names(StoredScopes(RowOf(events))) + Names(last.scopes)
  {
    assert (events + [last])[..|events|] == events;
    WrittenNames(RowOf(events), last.refreshToken, last.scopes);
  }

  lemma WrittenNames(row: Row, refreshToken: string, scopes: seq<string>)
    ensures Names(StoredScopes(Upsert(row, refreshToken, Merge(StoredScopes(row), scopes)))) ==
            Names(StoredScopes(row)) + Names(scopes)
  {
    NamesOfMerge(StoredScopes(row), scopes);
    NamesOfMerge([], Merge(StoredScopes(row), scopes));
  }

  /** The stored names are exactly those granted since the last invalidation: none is lost, none is left over. */
  lemma {:induction false} GrantsAccumulate(events: seq<Event>, name: string)
    ensures name in Names(StoredScopes(RowOf(events))) <==> exists i :: GrantedBy(events, i, name)
    decreases |events|
  {
    if events != [] {
      var init, last := events[..|events| - 1], events[|events| - 1];
      assert events == init + [last];
      GrantsAccumulate(init, name);
      if last.WasInvalidated? {
        NoneSince(events, name);
      } else {
        GrantedBefore(init, last, name);
        RowAfterWrite(init, last);
      }
    }
  }

  // ---- Other requests --------------------------------------------------------------

  /** What anybody else can do to the row between two of our steps. */
  datatype Act = Install(refreshToken: string, scopes: seq<string>) | Remove

  function Apply(row: Row, acts: seq<Act>): Row {
    if acts == [] then row
    else
      var before, last := Apply(row, acts[..|acts| - 1]), acts[|acts| - 1];
      match last
      case Install(token, scopes) => Upsert(before, token, scopes)
      case Remove => None
  }

  ghost predicate OnlyInstalls(acts: seq<Act>) {
    Remove !in acts
  }

  function InstallsSinceRemove(acts: seq<Act>): nat {
    if acts == [] || acts[|acts| - 1].Remove? then 0
    else 1 + InstallsSinceRemove(acts[..|acts| - 1])
  }

  /** The generation after any activity, as the number of writes since the row last vanished. */
  lemma {:induction false} GenerationCounts(row: Row, acts: seq<Act>)
    ensures var r, n := Apply(row, acts), InstallsSinceRemove(acts);
            if OnlyInstalls(acts) then
              && n == |acts|
              && (acts == [] ==> r == row)
              && (acts != [] || row.Some? ==>
                  r.Some? && r.value.generation == n + if row.Some? then row.value.generation else 0)
            else if n == 0 then r == None
            else r.Some? && r.value.generation == n
    decreases |acts|
  {
    if acts != [] {
      var init, last := acts[..|acts| - 1], acts[|acts| - 1];
      assert acts == init + [last];
      GenerationCounts(row, init);
    }
  }

  /** While nobody removes the row it is either untouched or of a later generation. */
  lemma InstallsAdvance(c: Credential, acts: seq<Act>)
    requires OnlyInstalls(acts)
    ensures var r := Apply(Some(c), acts); r.Some? && (r == Some(c) || c.generation < r.value.generation)
  {
    GenerationCounts(Some(c), acts);
  }

  /**
   * A stale compare-and-delete succeeds exactly when the row is untouched, or was removed
   * and written `generation` times.
   */
  lemma StaleInvalidationExactly(c: Credential, acts: seq<Act>)
    requires c.generation >= 1
    ensures Invalidates(Apply(Some(c), acts), c.generation) <==>
            acts == [] || (Remove in acts && InstallsSinceRemove(acts) == c.generation)
  {
    GenerationCounts(Some(c), acts);
  }

  // ---- The refresh loop ---------------------------------------------------------------

  datatype Reply = Refreshed(subject: string, refreshToken: Option<string>, scopes: seq<string>) | NeedsReauth | Failed

  datatype Outcome = Success(subject: string) | Reauthorize | WrongAccount | Error

  /** An upstream attempt: the credential presented and what came back. */
  datatype Attempt = Attempt(credential: Credential, reply: Reply)

  predicate Condemns(a: Attempt, subject: string) {
    a.reply.NeedsReauth? || (a.reply.Refreshed? && a.reply.subject != subject)
  }

  /** The stored row is what the refresh of `credential` said. */
  predicate Updated(row: Row, credential: Credential, token: Option<string>, scopes: seq<string>) {
    && row.Some? && row.value.scopes == Merge(credential.scopes, scopes)
    && row.value.refreshToken == if token.Some? then token.value else credential.refreshToken
  }

  class CredentialStore {
    var row: Row

    method InvalidateGeneration(generation: nat) returns (invalidated: bool)
      modifies this
      ensures row == Invalidate(old(row), generation) && invalidated == Invalidates(old(row), generation)
    {
      invalidated := row.Some? && row.value.generation == generation;
      if invalidated {
        row := None;
      }
    }

    method UpsertBundle(refreshToken: string, scopes: seq<string>)
      modifies this
      ensures row == Upsert(old(row), refreshToken, scopes)
    {
      var generation := if row.Some? then row.value.generation + 1 else 1;
      var normal := MergeGoogleScopes([], scopes);
      row := Some(Credential(generation, refreshToken, normal));
    }

    /** After a refresh: the returned token, or the one presented if none came back, and all scopes so far. */
    method InstallRefreshed(credential: Credential, token: Option<string>, scopes: seq<string>)
      modifies this
      ensures Updated(row, credential, token, scopes)
      ensures row ==
              Upsert(old(row), if token.Some? then token.value else credential.refreshToken,
                  Merge(credential.scopes, scopes))
    {
      var next := if token.Some? then token.value else credential.refreshToken;
      var granted := MergeGoogleScopes(credential.scopes, scopes);
      UpsertBundle(next, granted);
      MergeAbsorbs(credential.scopes, scopes);
    }

    /** Interference: what other requests did in the meantime. */
    method Meanwhile(acts: seq<Act>)
      modifies this
      ensures row == Apply(old(row), acts)
    {
      row := Apply(row, acts);
    }

    method FindAfter(acts: seq<Act>) returns (r: Row)
      modifies this
      ensures r == row == Apply(old(row), acts)
      ensures OnlyInstalls(acts) && old(row).Some? ==> r.Some? && old(row).value.generation <= r.value.generation
    {
      if OnlyInstalls(acts) && row.Some? {
        InstallsAdvance(row.value, acts);
      }
      Meanwhile(acts);
      r := row;
    }
  }

  /** Everything deleted here was read here and then condemned by the upstream's answer to it. */
  ghost predicate OnlyCondemned(deleted: seq<Credential>, attempts: seq<Attempt>, subject: string) {
    forall d :: d in deleted ==> exists a :: a in attempts && a.credential == d && Condemns(a, subject)
  }

  ghost predicate OthersInstall(gap: nat -> seq<Act>) {
    forall k :: OnlyInstalls(gap(k))
  }

  function Final(attempts: seq<Attempt>): Attempt
    requires attempts != []
  {
    attempts[|attempts| - 1]
  }

  function LastTried(attempts: seq<Attempt>): Row {
    if attempts == [] then None else Some(Final(attempts).credential)
  }

  function Judged(a: Attempt, subject: string): Outcome {
    match a.reply
    case Refreshed(who, _, _) => if who == subject then Success(subject) else WrongAccount
    case NeedsReauth => Reauthorize
    case Failed => Error
  }

  /** The upstream's last answer decides; without one there was nothing to present. */
  function Verdict(attempts: seq<Attempt>, subject: string): Outcome {
    if attempts == [] then Reauthorize else Judged(Final(attempts), subject)
  }

  lemma LastCondemned(attempts: seq<Attempt>, deleted: seq<Credential>, subject: string)
    requires attempts != [] && Condemns(Final(attempts), subject)
    requires deleted == [] || deleted == [Final(attempts).credential]
    ensures OnlyCondemned(deleted, attempts, subject)
  {
    assert Final(attempts) in attempts;
  }

  /** Every attempt but the last was rejected, and each later one presents a later generation. */
  ghost predicate Advancing(attempts: seq<Attempt>) {
    forall i, j :: 0 <= i < j < |attempts| ==>
      attempts[i].reply.NeedsReauth? && attempts[i].credential.generation < attempts[j].credential.generation
  }

  /** What is stored, if anything, is of a later generation. */
  predicate Outdated(c: Credential, row: Row) {
    row.Some? ==> c.generation < row.value.generation
  }

  /**
   * One round: `acts` is what others did while the upstream answered. No outcome means
   * the row has changed and a retry is due.
   */
  method RefreshOnce(store: CredentialStore, a: Attempt, subject: string, acts: seq<Act>)
    returns (outcome: Option<Outcome>, ghost deleted: seq<Credential>)
    requires store.row == Some(a.credential)
    modifies store
    ensures |deleted| <= 1
    ensures outcome.Some? ==> outcome.value == Judged(a, subject)
    ensures outcome == None ==> deleted == [] && (OnlyInstalls(acts) ==> store.row.Some?)
    ensures Judged(a, subject).Success? ==>
              outcome.Some? && deleted == [] && Updated(store.row, a.credential, a.reply.refreshToken, a.reply.scopes)
    ensures var found := Apply(Some(a.credential), acts);
            && (a.reply.Failed? ==> store.row == found)
            && (a.reply.NeedsReauth? || (a.reply.Refreshed? && a.reply.subject != subject) ==>
                  store.row == if found.Some? && found.value.generation == a.credential.generation then None else found)
            && (a.reply.Refreshed? && a.reply.subject == subject ==>
                  store.row.Some? && store.row.value.generation == NextGeneration(found))
            && (outcome == None <==> a.reply.NeedsReauth? && store.row == found)
    ensures OnlyInstalls(acts) && Condemns(a, subject) ==>
              Outdated(a.credential, store.row) && (deleted == [] || deleted == [a.credential])
    ensures !Condemns(a, subject) ==> deleted == []
  {
    store.Meanwhile(acts);
    if OnlyInstalls(acts) {
      InstallsAdvance(a.credential, acts);
    }
    ghost var current := store.row;
    match a.reply {
      case Refreshed(who, token, scopes) =>
        if who != subject {
          var hit := store.InvalidateGeneration(a.credential.generation);
          return Some(WrongAccount), if hit then [current.value] else [];
        }
        store.InstallRefreshed(a.credential, token, scopes);
        return Some(Success(who)), [];
      case NeedsReauth =>
        var hit := store.InvalidateGeneration(a.credential.generation);
        if hit {
          return Some(Reauthorize), [current.value];
        }
        return None, [];
      case Failed =>
        return Some(Error), [];
    }
  }

  /** The attempts so far were all refused, and under installs only each presented a later generation. */
  ghost predicate Refused(attempts: seq<Attempt>, reply: nat -> Reply) {
    forall i :: 0 <= i < |attempts| ==> attempts[i].reply == reply(i) && attempts[i].reply.NeedsReauth?
  }

  lemma OneMoreAttempt(attempts: seq<Attempt>, a: Attempt, reply: nat -> Reply)
    requires Refused(attempts, reply) && a.reply == reply(|attempts|)
    ensures forall i :: 0 <= i <= |attempts| ==> (attempts + [a])[i].reply == reply(i)
    ensures a.reply.NeedsReauth? ==> Refused(attempts + [a], reply)
    ensures attempts == [] || (|attempts| == 1 && Final(attempts).credential.generation < a.credential.generation) ==>
              Advancing(attempts + [a])
  {
  }

  /** What is there to try next, if the credential was refused: nothing if it was still the stored one. */
  function Replacement(c: Credential, gap: nat -> seq<Act>): Row {
    var found := Apply(Some(c), gap(0));
    if found.Some? && found.value.generation == c.generation then None else Apply(found, gap(1))
  }

  /** A successful refresh stores all names so far, once each, and the token that is good from now on. */
  lemma UpdatedExactly(row: Row, credential: Credential, token: Option<string>, scopes: seq<string>)
    requires Updated(row, credential, token, scopes)
    ensures row.Some? && StrictlySorted(row.value.scopes)
    ensures forall x :: x in row.value.scopes <==> x in Names(credential.scopes) || x in Names(scopes)
    ensures token.Some? ==> row.value.refreshToken == token.value
    ensures token == None ==> row.value.refreshToken == credential.refreshToken
  {
    MergeIsUnion(credential.scopes, scopes);
  }

  /**
   * `gap(k)` is the activity of other requests before our k-th store step after
   * the first, and `reply(i)` the upstream's answer to attempt i; both are arbitrary.
   */
  method RefreshGoogleProviderCredential(
    store: CredentialStore, subject: string, gap: nat -> seq<Act>, reply: nat -> Reply)
    returns (outcome: Outcome, ghost attempts: seq<Attempt>, ghost deleted: seq<Credential>)
    modifies store
    ensures |attempts| <= 2 && |deleted| <= 1
    ensures forall i :: 0 <= i < |attempts| ==> attempts[i].reply == reply(i)
    ensures old(store.row) == if attempts == [] then None else Some(attempts[0].credential)
    ensures outcome == Verdict(attempts, subject)
    ensures attempts == [] ==> outcome == Reauthorize
    ensures attempts != [] ==>
              var r := Final(attempts).reply;
              && (r.Refreshed? && r.subject == subject ==> outcome == Success(subject))
              && (r.Refreshed? && r.subject != subject ==> outcome == WrongAccount)
              && (r.NeedsReauth? ==> outcome == Reauthorize) && (r.Failed? ==> outcome == Error)
    ensures outcome.Success? ==>
              && deleted == []
              && var last := Final(attempts);
                 Updated(store.row, last.credential, last.reply.refreshToken, last.reply.scopes)
    ensures attempts != [] && attempts[0].reply.NeedsReauth? ==>
              var again := Replacement(attempts[0].credential, gap);
              if again == None then |attempts| == 1 else |attempts| == 2 && again == Some(attempts[1].credential)
    ensures attempts != [] && !attempts[0].reply.NeedsReauth? ==> |attempts| == 1
    ensures OthersInstall(gap) ==> Advancing(attempts) && OnlyCondemned(deleted, attempts, subject)
    ensures OthersInstall(gap) && attempts != [] && Condemns(Final(attempts), subject) ==>
              Outdated(Final(attempts).credential, store.row)
  {
    attempts, deleted := [], [];
    var found := store.row;
    if found == None {
      return Reauthorize, attempts, deleted;
    }
    var credential := found.value;
    ghost var first := credential;
    var attempt := 0;
    while attempt < 2
      invariant 0 <= attempt <= 2 && |attempts| == attempt && deleted == []
      invariant attempt < 2 ==> store.row == Some(credential)
      invariant if attempt == 0 then credential == first else attempts[0].credential == first
      invariant Refused(attempts, reply)
      invariant attempt == 1 ==> Replacement(first, gap) == Some(credential)
      invariant attempt == 2 ==> Replacement(first, gap) == LastTried(attempts)
      invariant OthersInstall(gap) ==> Advancing(attempts)
      invariant OthersInstall(gap) && attempts != [] ==> Outdated(Final(attempts).credential, store.row)
    {
      var a := Attempt(credential, reply(attempt));
      OneMoreAttempt(attempts, a, reply);
      attempts := attempts + [a];
      var done;
      done, deleted := RefreshOnce(store, a, subject, gap(2 * attempt));
      if Condemns(a, subject) && OthersInstall(gap) {
        LastCondemned(attempts, deleted, subject);
      }
      if done.Some? {
        return done.value, attempts, deleted;
      }
      if attempt == 1 {
        return Reauthorize, attempts, deleted;
      }
      var replacement := store.FindAfter(gap(2 * attempt + 1));
      if replacement == None {
        return Reauthorize, attempts, deleted;
      }
      credential := replacement.value;
      attempt := attempt + 1;
    }
    outcome := Reauthorize;
  }
}

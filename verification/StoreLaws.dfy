/**
 * What each store operation does, row by row: what was stored is what is found,
 * for as long as it was stored for, and nothing else changes.
 */
module StoreLaws {
  import opened Basics
  import opened AuthStore

  // ---- Rows of one table ------------------------------------------------------------------------

  /** Rows under other keys are the same in both tables. */
  ghost predicate SameBut<T>(a: Table<T>, b: Table<T>, key: string) {
    forall k :: k != key ==> (k in a <==> k in b) && (k in a ==> a[k] == b[k])
  }

  /** The row is there and has time left. */
  predicate LiveIn<T>(t: Table<T>, key: string, now: int) {
    key in t && t[key].expiresAt > now
  }

  /** A live row is handed out and gone; any other row stays where it is. */
  lemma TakeExactly<T>(t: Table<T>, key: string, now: int)
    ensures var (after, found) := Take(t, key, now);
            && SameBut(t, after, key)
            && (found.Some? <==> LiveIn(t, key, now))
            && (found.Some? ==> found.value == t[key].data && key !in after)
            && (found == None ==> after == t)
  {
  }

  /** An insert succeeds if and only if the key is free, expired or not. */
  lemma InsertExactly<T>(t: Table<T>, key: string, row: Row<T>)
    ensures var (after, ok) := Insert(t, key, row);
            && (ok <==> key !in t)
            && (ok ==> key in after && after[key] == row && SameBut(t, after, key))
            && (!ok ==> after == t)
  {
  }

  // ---- Requests, logins and codes ----------------------------------------------------------------

  /** A stored request is found once, until its time is up, and storing it touches nothing else. */
  lemma RequestKept(db: Db, key: string, row: Row<AuthRequest>, now: int, later: int)
    requires key !in db.requests
    ensures var (after, ok) := Exec(db, InsertRequest(key, row), now);
            && ok == Flag(true) && after.(requests := db.requests) == db && SameBut(db.requests, after.requests, key)
            && var (taken, found) := Exec(after, TakeRequest(key), later);
               && found == Answer.Request(if row.expiresAt > later then Some(row.data) else None)
               && taken.(requests := db.requests) == db
               && (row.expiresAt > later ==> Exec(taken, TakeRequest(key), later).1 == Answer.Request(None))
  {
  }

  lemma LoginKept(db: Db, key: string, row: Row<LoginState>, now: int, later: int)
    requires key !in db.logins
    ensures var (after, ok) := Exec(db, InsertLogin(key, row), now);
            && ok == Flag(true) && after.(logins := db.logins) == db && SameBut(db.logins, after.logins, key)
            && var (taken, found) := Exec(after, TakeLogin(key), later);
               && found == Login(if row.expiresAt > later then Some(row.data) else None)
               && taken.(logins := db.logins) == db
               && (row.expiresAt > later ==> Exec(taken, TakeLogin(key), later).1 == Login(None))
  {
  }

  lemma CodeKept(db: Db, key: string, row: Row<AuthCode>, now: int, later: int)
    requires key !in db.codes
    ensures var (after, ok) := Exec(db, InsertCode(key, row), now);
            && ok == Flag(true) && after.(codes := db.codes) == db && SameBut(db.codes, after.codes, key)
            && var (taken, found) := Exec(after, RedeemCode(key), later);
               && found == Code(if row.expiresAt > later then Some(row.data) else None)
               && taken.(codes := db.codes) == db
               && (row.expiresAt > later ==> Exec(taken, RedeemCode(key), later).1 == Code(None))
  {
  }

  /** A key that is in use refuses a second row. */
  lemma KeyInUse(db: Db, key: string, request: Row<AuthRequest>, login: Row<LoginState>, code: Row<AuthCode>, now: int)
    ensures key in db.requests ==> Exec(db, InsertRequest(key, request), now) == (db, Flag(false))
    ensures key in db.logins ==> Exec(db, InsertLogin(key, login), now) == (db, Flag(false))
    ensures key in db.codes ==> Exec(db, InsertCode(key, code), now) == (db, Flag(false))
  {
  }

  /** A native result replaces an earlier one and is handed out once. */
  lemma NativeKept(db: Db, key: string, row: Row<string>, now: int, later: int)
    ensures var (after, ok) := Exec(db, UpsertNative(key, row), now);
            && ok == Unit && after.(natives := db.natives) == db && SameBut(db.natives, after.natives, key)
            && var (taken, found) := Exec(after, TakeNative(key), later);
               && found == Native(if row.expiresAt > later then Some(row.data) else None)
               && taken.(natives := db.natives) == db
               && (row.expiresAt > later ==> Exec(taken, TakeNative(key), later).1 == Native(None))
  {
  }

  /** A session replaces an earlier one and is found, as often as asked for, until it expires or is revoked. */
  lemma SessionKept(db: Db, key: string, row: Row<Session>, now: int, later: int)
    ensures var (after, ok) := Exec(db, UpsertSession(key, row), now);
            && ok == Unit && after.(sessions := db.sessions) == db && SameBut(db.sessions, after.sessions, key)
            && Exec(after, FindSession(key), later) ==
                (after, Found(if row.expiresAt > later then Some(row.data) else None))
            && var (revoked, done) := Exec(after, RevokeSession(key), now);
               && done == Unit && revoked.(sessions := db.sessions) == db && SameBut(db.sessions, revoked.sessions, key)
               && Exec(revoked, FindSession(key), later).1 == Found(None)
  {
  }

  // ---- Refresh tokens ------------------------------------------------------------------------------

  /** A stored token is found until it expires or is revoked; a row it replaces keeps its lease. */
  lemma TokenKept(db: Db, key: string, row: Row<RefreshRow>, now: int, later: int)
    ensures var (after, ok) := Exec(db, UpsertRefresh(key, row), now);
            var data := if key in db.refresh then row.data.(claim := db.refresh[key].data.claim) else row.data;
            && ok == Unit && after.(refresh := db.refresh) == db && SameBut(db.refresh, after.refresh, key)
            && Exec(after, FindRefresh(key), later) ==
                (after, Refresh(if row.expiresAt > later then Some(data) else None))
            && var (revoked, done) := Exec(after, RevokeRefresh(key), now);
               && done == Unit && revoked.(refresh := db.refresh) == db && SameBut(db.refresh, revoked.refresh, key)
               && Exec(revoked, FindRefresh(key), later).1 == Refresh(None)
  {
  }

  /** A lease is taken if and only if the token is live and no lease on it has time left. */
  lemma ClaimExactly(db: Db, key: string, claim: Claim, now: int)
    ensures var (after, answer) := Exec(db, ClaimRefresh(key, claim), now);
            && answer.Refresh?
            && (answer.token.Some? <==>
                  && key in db.refresh && db.refresh[key].expiresAt > now
                  && (db.refresh[key].data.claim == None || db.refresh[key].data.claim.value.expiresAt <= now))
            && (answer.token == None ==> after == db)
            && (answer.token.Some? ==>
                  && answer.token.value == db.refresh[key].data.(claim := Some(claim))
                  && after.(refresh := db.refresh) == db && SameBut(db.refresh, after.refresh, key)
                  && key in after.refresh && after.refresh[key] == Row(answer.token.value, db.refresh[key].expiresAt))
  {
  }

  /** Only the holder's release ends a lease, and then a live token can be leased again at once. */
  lemma ReleaseExactly(db: Db, key: string, claimId: string, next: Claim, now: int)
    ensures var (after, answer) := Exec(db, ReleaseRefresh(key, claimId), now);
            && answer == Unit && after.(refresh := db.refresh) == db && SameBut(db.refresh, after.refresh, key)
            && (key in db.refresh && db.refresh[key].data.claim.Some?
                && db.refresh[key].data.claim.value.id == claimId ==>
                  && key in after.refresh && after.refresh[key].data == db.refresh[key].data.(claim := None)
                  && after.refresh[key].expiresAt == db.refresh[key].expiresAt
                  && (db.refresh[key].expiresAt > now ==> Exec(after, ClaimRefresh(key, next), now).1.token.Some?))
            && (!(key in db.refresh && db.refresh[key].data.claim.Some?
                && db.refresh[key].data.claim.value.id == claimId) ==>
                  after == db)
  {
  }

  /** The holder of a live lease on a live token trades it for the new one, and nobody else does. */
  lemma RotateExactly(db: Db, key: string, claimId: string, newKey: string, row: Row<RefreshRow>, now: int)
    requires newKey !in db.refresh
    ensures var (after, answer) := Exec(db, RotateRefresh(key, claimId, newKey, row), now);
            && answer.Flag?
            && (answer.ok <==>
                  && key in db.refresh && db.refresh[key].expiresAt > now && db.refresh[key].data.claim.Some?
                  && db.refresh[key].data.claim.value.id == claimId && db.refresh[key].data.claim.value.expiresAt > now)
            && (!answer.ok ==> after == db)
            && (answer.ok ==>
                  && after.(refresh := db.refresh) == db
                  && key !in after.refresh && newKey in after.refresh && after.refresh[newKey] == row
                  && forall k :: k != key && k != newKey ==>
                       (k in after.refresh <==> k in db.refresh)
                           && (k in after.refresh ==> after.refresh[k] == db.refresh[k]))
  {
  }

  // ---- Credentials -----------------------------------------------------------------------------------

  /** An install advances the generation, or starts it at one. */
  lemma InstallExactly(db: Db, subject: string)
    ensures var after := Exec(db, Install(subject), 0).0;
            && after.(credentials := db.credentials) == db && subject in after.credentials
            && after.credentials[subject] == (if subject in db.credentials then db.credentials[subject] + 1 else 1)
            && forall s :: s != subject ==>
                 && (s in after.credentials <==> s in db.credentials)
                 && (s in after.credentials ==> after.credentials[s] == db.credentials[s])
  {
  }

  /**
   * An invalidation of the right generation takes the credential, the codes and the
   * tokens of the subject, and no more.
   */
  lemma InvalidateExactly(db: Db, subject: string, generation: nat, now: int)
    ensures var (after, answer) := Exec(db, Invalidate(subject, generation), now);
            && answer.Flag? && (answer.ok <==> subject in db.credentials && db.credentials[subject] == generation)
            && (!answer.ok ==> after == db)
            && (answer.ok ==>
                  && after.(credentials := db.credentials, codes := db.codes, refresh := db.refresh) == db
                  && after.credentials == db.credentials - {subject}
                  && (forall k :: k in after.codes <==> k in db.codes && db.codes[k].data.subject != subject)
                  && (forall k :: k in after.codes ==> after.codes[k] == db.codes[k])
                  && (forall k :: k in after.refresh <==> k in db.refresh && db.refresh[k].data.subject != subject)
                  && (forall k :: k in after.refresh ==> after.refresh[k] == db.refresh[k]))
  {
  }

  // ---- Sweeping and counting ------------------------------------------------------------------------

  /** Of the rows those with time left are there, unchanged. */
  ghost predicate OnlyLive<T>(before: Table<T>, after: Table<T>, now: int) {
    && (forall k :: k in after <==> LiveIn(before, k, now))
    && (forall k :: k in after ==> after[k] == before[k])
  }

  /** A sweep leaves no expired row in any table and every other row as it was. */
  lemma SweepExactly(db: Db, now: int)
    ensures var after := Exec(db, Cleanup, now).0;
            && OnlyLive(db.requests, after.requests, now) && OnlyLive(db.logins, after.logins, now)
            && OnlyLive(db.codes, after.codes, now) && OnlyLive(db.natives, after.natives, now)
            && OnlyLive(db.sessions, after.sessions, now) && OnlyLive(db.refresh, after.refresh, now)
            && after.credentials == db.credentials
  {
  }

  /** Of the outbound credentials a sweep leaves those that are good or can be refreshed. */
  lemma StillGoodExactly(t: map<string, UpstreamCredential>, now: int)
    ensures forall k :: k in StillGood(t, now) <==> k in t && (t[k].refreshable || now < t[k].accessExpiresAt)
    ensures forall k :: k in StillGood(t, now) ==> StillGood(t, now)[k] == t[k]
  {
  }
}

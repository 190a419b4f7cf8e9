/**
 * The authorization server's tables. Rows expire; every read or take tests
 * expiry itself, and a sweep deletes what is expired. `Exec` is one statement
 * or transaction on the whole database; `SqliteStore` is the store object.
 */
module AuthStore {
  import opened Basics

  // ---- Expiring tables ------------------------------------------------------------

  datatype Row<T> = Row(data: T, expiresAt: int)

  type Table<T> = map<string, Row<T>>

  function Live<T>(t: Table<T>, now: int): Table<T> {
    map k | k in t && t[k].expiresAt > now :: t[k]
  }

  /** `DELETE ... WHERE key = ? AND expires_at > ? RETURNING ...` */
  function Take<T>(t: Table<T>, key: string, now: int): (Table<T>, Option<T>) {
    if key in t && t[key].expiresAt > now then (t - {key}, Some(t[key].data)) else (t, None)
  }

  function Find<T>(t: Table<T>, key: string, now: int): Option<T> {
    if key in t && t[key].expiresAt > now then Some(t[key].data) else None
  }

  /** A plain `INSERT`: refused when the primary key is present, expired or not. */
  function Insert<T>(t: Table<T>, key: string, row: Row<T>): (Table<T>, bool) {
    if key in t then (t, false) else (t[key := row], true)
  }

  // ---- Rows -------------------------------------------------------------------------

  datatype AuthRequest = AuthRequest(
    clientId: string, redirectUri: string, clientState: string, resource: string, scope: string,
    providerVerifier: string, codeChallenge: string, challengeMethod: string)

  datatype LoginState = LoginState(returnTo: string, providerVerifier: string)

  datatype AuthCode = AuthCode(
    clientId: string, subject: string, redirectUri: string, resource: string, scope: string,
    codeChallenge: string, challengeMethod: string)

  datatype Session = Session(subject: string, email: Option<string>, csrfToken: string)

  datatype Claim = Claim(id: string, expiresAt: int)

  datatype RefreshRow = RefreshRow(clientId: string, subject: string, resource: string, scope: string,
      claim: Option<Claim>)

  /** The columns of an outbound credential that a sweep looks at. */
  datatype UpstreamCredential = UpstreamCredential(accessExpiresAt: int, refreshable: bool)

  datatype Db = Db(
    requests: Table<AuthRequest>, logins: Table<LoginState>, codes: Table<AuthCode>,
    natives: Table<string>, sessions: Table<Session>, refresh: Table<RefreshRow>,
    credentials: map<string, nat>)

  const EMPTY := Db(map[], map[], map[], map[], map[], map[], map[])

  function Pending(db: Db, now: int): nat {
    |Live(db.requests, now)| + |Live(db.logins, now)| + |Live(db.natives, now)|
  }

  /** A row of one of the three tables of pending states. */
  datatype PendingRow = RequestRow(key: string) | LoginRow(key: string) | NativeRow(key: string)

  ghost function RequestRows(t: Table<AuthRequest>, now: int): set<PendingRow> {
    set k | k in t && now < t[k].expiresAt :: RequestRow(k)
  }

  ghost function LoginRows(t: Table<LoginState>, now: int): set<PendingRow> {
    set k | k in t && now < t[k].expiresAt :: LoginRow(k)
  }

  ghost function NativeRows(t: Table<string>, now: int): set<PendingRow> {
    set k | k in t && now < t[k].expiresAt :: NativeRow(k)
  }

  /** The rows a client or the user still has to come back for. */
  ghost function PendingRows(db: Db, now: int): set<PendingRow> {
    RequestRows(db.requests, now) + LoginRows(db.logins, now) + NativeRows(db.natives, now)
  }

  /** As many rows as keys, if each key has its own row and each row its key. */
  lemma {:induction false} SameCount(keys: set<string>, rows: set<PendingRow>, f: string -> PendingRow)
    requires forall k :: k in keys ==> f(k) in rows && f(k).key == k
    requires forall r :: r in rows ==> r.key in keys && f(r.key) == r
    ensures |rows| == |keys|
    decreases keys
  {
    if keys != {} {
      var k :| k in keys;
      SameCount(keys - {k}, rows - {f(k)}, f);
    } else {
      assert rows == {};
    }
  }

  lemma RequestCount(t: Table<AuthRequest>, now: int)
    ensures |RequestRows(t, now)| == |Live(t, now)|
  {
    SameCount(Live(t, now).Keys, RequestRows(t, now), k => RequestRow(k));
  }

  lemma LoginCount(t: Table<LoginState>, now: int)
    ensures |LoginRows(t, now)| == |Live(t, now)|
  {
    SameCount(Live(t, now).Keys, LoginRows(t, now), k => LoginRow(k));
  }

  lemma NativeCount(t: Table<string>, now: int)
    ensures |NativeRows(t, now)| == |Live(t, now)|
  {
    SameCount(Live(t, now).Keys, NativeRows(t, now), k => NativeRow(k));
  }

  lemma DisjointCount(a: set<PendingRow>, b: set<PendingRow>, c: set<PendingRow>)
    requires (forall x :: x in a ==> x.RequestRow?) && (forall x :: x in b ==> x.LoginRow?)
    requires forall x :: x in c ==> x.NativeRow?
    ensures |a + b + c| == |a| + |b| + |c|
  {
    assert a !! b && (a + b) !! c;
  }

  /** The count is the number of those rows. */
  lemma PendingExactly(db: Db, now: int)
    ensures Pending(db, now) == |PendingRows(db, now)|
  {
    RequestCount(db.requests, now);
    LoginCount(db.logins, now);
    NativeCount(db.natives, now);
    DisjointCount(RequestRows(db.requests, now), LoginRows(db.logins, now), NativeRows(db.natives, now));
  }

  // ---- Refresh tokens ------------------------------------------------------------------

  /** Whether a lease on the token can be taken: nobody holds it, or the holder's time is up. */
  predicate Claimable(t: Table<RefreshRow>, token: string, now: int) {
    && token in t && t[token].expiresAt > now
    && (t[token].data.claim == None || t[token].data.claim.value.expiresAt <= now)
  }

  function ClaimToken(
    t: Table<RefreshRow>, token: string, claim: Claim, now: int): (Table<RefreshRow>, Option<RefreshRow>) {
    if !Claimable(t, token, now) then (t, None)
    else
      var data := t[token].data.(claim := Some(claim));
      (t[token := Row(data, t[token].expiresAt)], Some(data))
  }

  /** `INSERT ... ON CONFLICT DO UPDATE`: the lease columns of an existing row are left alone. */
  function UpsertToken(t: Table<RefreshRow>, token: string, row: Row<RefreshRow>): Table<RefreshRow> {
    t[token := if token in t then row.(data := row.data.(claim := t[token].data.claim)) else row]
  }

  predicate Owns(t: Table<RefreshRow>, token: string, claimId: string) {
    token in t && t[token].data.claim.Some? && t[token].data.claim.value.id == claimId
  }

  function ReleaseClaim(t: Table<RefreshRow>, token: string, claimId: string): Table<RefreshRow> {
    if Owns(t, token, claimId) then t[token := t[token].(data := t[token].data.(claim := None))] else t
  }

  /** Delete the old row if the caller still holds its lease, and insert the new one, in one transaction. */
  function RotateClaimed(
    t: Table<RefreshRow>, token: string, claimId: string, newToken: string, row: Row<RefreshRow>, now: int)
    : (Table<RefreshRow>, bool)
  {
    if Owns(t, token, claimId) && t[token].data.claim.value.expiresAt > now && t[token].expiresAt > now
        && newToken !in t - {token} then
      ((t - {token})[newToken := row], true)
    else (t, false)
  }

  // ---- Google credentials ------------------------------------------------------------------

  function InstallCredential(db: Db, subject: string): Db {
    var next := if subject in db.credentials then db.credentials[subject] + 1 else 1;
    db.(credentials := db.credentials[subject := next])
  }

  function NotOfCode(t: Table<AuthCode>, subject: string): Table<AuthCode> {
    map k | k in t && t[k].data.subject != subject :: t[k]
  }

  function NotOfToken(t: Table<RefreshRow>, subject: string): Table<RefreshRow> {
    map k | k in t && t[k].data.subject != subject :: t[k]
  }

  /** Compare-and-delete, taking every code and refresh token of the subject along. */
  function InvalidateCredential(db: Db, subject: string, generation: nat): (Db, bool) {
    if subject in db.credentials && db.credentials[subject] == generation then
      (db.(credentials := db.credentials - {subject},
           codes := NotOfCode(db.codes, subject),
           refresh := NotOfToken(db.refresh, subject)), true)
    else (db, false)
  }

  function Swept(db: Db, now: int): Db {
    db.(requests := Live(db.requests, now), logins := Live(db.logins, now), codes := Live(db.codes, now),
        natives := Live(db.natives, now), sessions := Live(db.sessions, now), refresh := Live(db.refresh, now))
  }

  // ---- One statement at a time -----------------------------------------------------------------

  datatype Op =
    | InsertRequest(key: string, request: Row<AuthRequest>)
    | TakeRequest(key: string)
    | InsertLogin(key: string, login: Row<LoginState>)
    | TakeLogin(key: string)
    | InsertCode(key: string, code: Row<AuthCode>)
    | RedeemCode(key: string)
    | UpsertNative(key: string, native: Row<string>)
    | TakeNative(key: string)
    | CountPending
    | UpsertSession(key: string, session: Row<Session>)
    | FindSession(key: string)
    | RevokeSession(key: string)
    | UpsertRefresh(key: string, token: Row<RefreshRow>)
    | FindRefresh(key: string)
    | RevokeRefresh(key: string)
    | ClaimRefresh(key: string, claim: Claim)
    | ReleaseRefresh(key: string, claimId: string)
    | RotateRefresh(key: string, claimId: string, newKey: string, token: Row<RefreshRow>)
    | Install(subject: string)
    | Invalidate(subject: string, generation: nat)
    | Cleanup

  datatype Answer =
    | Unit
    | Flag(ok: bool)
    | Request(request: Option<AuthRequest>)
    | Login(login: Option<LoginState>)
    | Code(code: Option<AuthCode>)
    | Native(native: Option<string>)
    | Found(session: Option<Session>)
    | Refresh(token: Option<RefreshRow>)
    | Count(n: nat)

  function Exec(db: Db, op: Op, now: int): (Db, Answer) {
    match op
    case InsertRequest(k, row) => var (t, ok) := Insert(db.requests, k, row); (db.(requests := t), Flag(ok))
    case TakeRequest(k) => var (t, r) := Take(db.requests, k, now); (db.(requests := t), Request(r))
    case InsertLogin(k, row) => var (t, ok) := Insert(db.logins, k, row); (db.(logins := t), Flag(ok))
    case TakeLogin(k) => var (t, r) := Take(db.logins, k, now); (db.(logins := t), Login(r))
    case InsertCode(k, row) => var (t, ok) := Insert(db.codes, k, row); (db.(codes := t), Flag(ok))
    case RedeemCode(k) => var (t, r) := Take(db.codes, k, now); (db.(codes := t), Code(r))
    case UpsertNative(k, row) => (db.(natives := db.natives[k := row]), Unit)
    case TakeNative(k) => var (t, r) := Take(db.natives, k, now); (db.(natives := t), Native(r))
    case CountPending => (db, Count(Pending(db, now)))
    case UpsertSession(k, row) => (db.(sessions := db.sessions[k := row]), Unit)
    case FindSession(k) => (db, Found(Find(db.sessions, k, now)))
    case RevokeSession(k) => (db.(sessions := db.sessions - {k}), Unit)
    case UpsertRefresh(k, row) => (db.(refresh := UpsertToken(db.refresh, k, row)), Unit)
    case FindRefresh(k) => (db, Refresh(Find(db.refresh, k, now)))
    case RevokeRefresh(k) => (db.(refresh := db.refresh - {k}), Unit)
    case ClaimRefresh(k, c) => var (t, r) := ClaimToken(db.refresh, k, c, now); (db.(refresh := t), Refresh(r))
    case ReleaseRefresh(k, id) => (db.(refresh := ReleaseClaim(db.refresh, k, id)), Unit)
    case RotateRefresh(k, id, nk, row) =>
      var (t, ok) := RotateClaimed(db.refresh, k, id, nk, row, now); (db.(refresh := t), Flag(ok))
    case Install(subject) => (InstallCredential(db, subject), Unit)
    case Invalidate(subject, g) => var (d, ok) := InvalidateCredential(db, subject, g); (d, Flag(ok))
    case Cleanup => (Swept(db, now), Unit)
  }

  // ---- The store object ----------------------------------------------------------------------------

  class SqliteStore {
    var requests: Table<AuthRequest>
    var logins: Table<LoginState>
    var codes: Table<AuthCode>
    var natives: Table<string>
    var sessions: Table<Session>
    var refresh: Table<RefreshRow>
    var credentials: map<string, nat>
    var upstreamStates: Table<string>
    var upstreamCredentials: map<string, UpstreamCredential>

    ghost function View(): Db
      reads this
    {
      Db(requests, logins, codes, natives, sessions, refresh, credentials)
    }

    constructor ()
      ensures View() == EMPTY && upstreamStates == map[] && upstreamCredentials == map[]
    {
      requests, logins, codes, natives := map[], map[], map[], map[];
      sessions, refresh, credentials := map[], map[], map[];
      upstreamStates, upstreamCredentials := map[], map[];
    }

    method InsertAuthorizationRequest(state: string, row: Row<AuthRequest>, now: int) returns (ok: bool)
      modifies this`requests
      ensures (View(), Flag(ok)) == Exec(old(View()), InsertRequest(state, row), now)
    {
      ok := state !in requests;
      if ok { requests := requests[state := row]; }
    }

    method TakeAuthorizationRequest(state: string, now: int) returns (r: Option<AuthRequest>)
      modifies this`requests
      ensures (View(), Request(r)) == Exec(old(View()), TakeRequest(state), now)
    {
      if state !in requests || requests[state].expiresAt <= now { return None; }
      r := Some(requests[state].data);
      requests := requests - {state};
    }

    method InsertAuthCode(code: string, row: Row<AuthCode>, now: int) returns (ok: bool)
      modifies this`codes
      ensures (View(), Flag(ok)) == Exec(old(View()), InsertCode(code, row), now)
    {
      ok := code !in codes;
      if ok { codes := codes[code := row]; }
    }

    method RedeemAuthCode(code: string, now: int) returns (r: Option<AuthCode>)
      modifies this`codes
      ensures (View(), Code(r)) == Exec(old(View()), RedeemCode(code), now)
    {
      if code !in codes || codes[code].expiresAt <= now { return None; }
      r := Some(codes[code].data);
      codes := codes - {code};
    }

    method InsertNativeAuthorizationResult(state: string, row: Row<string>, now: int)
      modifies this`natives
      ensures (View(), Unit) == Exec(old(View()), UpsertNative(state, row), now)
    {
      natives := natives[state := row];
    }

    method TakeNativeAuthorizationResult(state: string, now: int) returns (r: Option<string>)
      modifies this`natives
      ensures (View(), Native(r)) == Exec(old(View()), TakeNative(state), now)
    {
      if state !in natives || natives[state].expiresAt <= now { return None; }
      r := Some(natives[state].data);
      natives := natives - {state};
    }

    method CountPendingOauthStates(now: int) returns (n: nat)
      ensures (View(), Count(n)) == Exec(View(), CountPending, now)
      ensures n == |PendingRows(View(), now)|
    {
      var a := |Live(requests, now)|;
      var b := |Live(logins, now)|;
      var c := |Live(natives, now)|;
      n := a + b + c;
      assert n == Pending(View(), now);
      PendingExactly(View(), now);
    }

    method UpsertRefreshToken(token: string, row: Row<RefreshRow>, now: int)
      modifies this`refresh
      ensures (View(), Unit) == Exec(old(View()), UpsertRefresh(token, row), now)
    {
      var claim := if token in refresh then refresh[token].data.claim else row.data.claim;
      refresh := refresh[token := row.(data := row.data.(claim := claim))];
    }

    method ClaimRefreshToken(token: string, claim: Claim, now: int) returns (r: Option<RefreshRow>)
      modifies this`refresh
      ensures (View(), Refresh(r)) == Exec(old(View()), ClaimRefresh(token, claim), now)
    {
      if token !in refresh || refresh[token].expiresAt <= now { return None; }
      var row := refresh[token];
      if row.data.claim.Some? && row.data.claim.value.expiresAt > now { return None; }
      var data := row.data.(claim := Some(claim));
      refresh := refresh[token := Row(data, row.expiresAt)];
      r := Some(data);
    }

    method ReleaseRefreshClaim(token: string, claimId: string, now: int)
      modifies this`refresh
      ensures (View(), Unit) == Exec(old(View()), ReleaseRefresh(token, claimId), now)
    {
      if token in refresh && refresh[token].data.claim.Some? && refresh[token].data.claim.value.id == claimId {
        var row := refresh[token];
        refresh := refresh[token := row.(data := row.data.(claim := None))];
      }
    }

    method RotateClaimedRefreshToken(token: string, claimId: string, newToken: string, row: Row<RefreshRow>, now: int)
      returns (ok: bool)
      modifies this`refresh
      ensures (View(), Flag(ok)) == Exec(old(View()), RotateRefresh(token, claimId, newToken, row), now)
    {
      if token !in refresh || refresh[token].data.claim == None { return false; }
      var held := refresh[token];
      if held.data.claim.value.id != claimId || held.data.claim.value.expiresAt <= now || held.expiresAt <= now {
        return false;
      }
      var rest := refresh - {token};
      if newToken in rest { return false; }
      refresh := rest[newToken := row];
      ok := true;
    }

    method InvalidateGoogleProviderCredential(subject: string, generation: nat, now: int) returns (invalidated: bool)
      modifies this`credentials, this`codes, this`refresh
      ensures (View(), Flag(invalidated)) == Exec(old(View()), Invalidate(subject, generation), now)
    {
      if subject !in credentials || credentials[subject] != generation { return false; }
      credentials := credentials - {subject};
      codes := map k | k in codes && codes[k].data.subject != subject :: codes[k];
      refresh := map k | k in refresh && refresh[k].data.subject != subject :: refresh[k];
      invalidated := true;
    }

    method CleanupExpired(now: int) returns (total: nat)
      modifies this
      ensures View() == Swept(old(View()), now)
      ensures upstreamStates == Live(old(upstreamStates), now)
      ensures upstreamCredentials == StillGood(old(upstreamCredentials), now)
      ensures total == old(Size(View()) + |upstreamStates| + |upstreamCredentials|)
                       - (Size(View()) + |upstreamStates| + |upstreamCredentials|)
    {
      total := SweepOwnTables(now);
      var states, n1 := Sweep(upstreamStates, now);
      var usable, n2 := SweepUnrefreshable(upstreamCredentials, now);
      upstreamStates, upstreamCredentials := states, usable;
      total := total + n1 + n2;
    }

    method SweepOwnTables(now: int) returns (total: nat)
      modifies this`requests, this`codes, this`refresh, this`sessions, this`logins, this`natives
      ensures View() == Swept(old(View()), now)
      ensures total == Size(old(View())) - Size(View())
    {
      ghost var before := View();
      var r, n1 := Sweep(requests, now);
      var c, n2 := Sweep(codes, now);
      var t, n3 := Sweep(refresh, now);
      var s, n4 := Sweep(sessions, now);
      var l, n5 := Sweep(logins, now);
      var n, n6 := Sweep(natives, now);
      requests, codes, refresh, sessions, logins, natives := r, c, t, s, l, n;
      total := n1 + n2 + n3 + n4 + n5 + n6;
      SizeOfSwept(before, View(), n1, n2, n3, n4, n5, n6);
    }
  }

  /** Credentials that are still good or can be refreshed. */
  function StillGood(t: map<string, UpstreamCredential>, now: int): map<string, UpstreamCredential> {
    map k | k in t && (t[k].accessExpiresAt > now || t[k].refreshable) :: t[k]
  }

  /** `DELETE ... WHERE access_token_expires_at <= ? AND refresh_token_present = 0` */
  method SweepUnrefreshable(t: map<string, UpstreamCredential>, now: int)
    returns (kept: map<string, UpstreamCredential>, deleted: nat)
    ensures kept == StillGood(t, now) && deleted == |t| - |kept|
  {
    FewerElements(StillGood(t, now).Keys, t.Keys);
    kept := map k | k in t && (t[k].accessExpiresAt > now || t[k].refreshable) :: t[k];
    deleted := |t| - |kept|;
  }

  /** Rows in the expiring tables. */
  function Size(db: Db): nat {
    |db.requests| + |db.codes| + |db.refresh| + |db.sessions| + |db.logins| + |db.natives|
  }

  lemma SizeOfSwept(a: Db, b: Db, n1: nat, n2: nat, n3: nat, n4: nat, n5: nat, n6: nat)
    requires |a.requests| - |b.requests| == n1 && |a.codes| - |b.codes| == n2 && |a.refresh| - |b.refresh| == n3
    requires |a.sessions| - |b.sessions| == n4 && |a.logins| - |b.logins| == n5 && |a.natives| - |b.natives| == n6
    ensures Size(a) - Size(b) == n1 + n2 + n3 + n4 + n5 + n6
  {
  }

  /** `DELETE FROM table WHERE expires_at <= ?` */
  method Sweep<T>(t: Table<T>, now: int) returns (kept: Table<T>, deleted: nat)
    ensures kept == Live(t, now) && deleted == |t| - |kept|
  {
    FewerElements(Live(t, now).Keys, t.Keys);
    kept := map k | k in t && t[k].expiresAt > now :: t[k];
    deleted := |t| - |kept|;
  }

  // ---- Sweeping changes no answer --------------------------------------------------------------

  datatype Call = Call(op: Op, now: int)

  function After(db: Db, calls: seq<Call>): Db {
    if calls == [] then db
    else Exec(After(db, calls[..|calls| - 1]), calls[|calls| - 1].op, calls[|calls| - 1].now).0
  }

  /** The answers, in order, of every call that is not a sweep. */
  function Answers(db: Db, calls: seq<Call>): seq<Answer> {
    if calls == [] then []
    else
      var init, last := calls[..|calls| - 1], calls[|calls| - 1];
      Answers(db, init) + if last.op.Cleanup? then [] else [Exec(After(db, init), last.op, last.now).1]
  }

  function WithoutSweeps(calls: seq<Call>): seq<Call> {
    if calls == [] then []
    else
      var init, last := calls[..|calls| - 1], calls[|calls| - 1];
      WithoutSweeps(init) + if last.op.Cleanup? then [] else [last]
  }

  ghost predicate Chronological(calls: seq<Call>) {
    forall i, j :: 0 <= i < j < |calls| ==> calls[i].now <= calls[j].now
  }

  /** The primary key an operation inserts, if it is a plain insert. */
  function Inserted(op: Op): Option<string> {
    match op
    case InsertRequest(k, _) => Some(k)
    case InsertLogin(k, _) => Some(k)
    case InsertCode(k, _) => Some(k)
    case UpsertRefresh(k, _) => Some(k)
    case RotateRefresh(_, _, k, _) => Some(k)
    case _ => None
  }

  /** Random identifiers: no key is inserted twice in a run. */
  ghost predicate FreshKeys(calls: seq<Call>) {
    forall i, j :: 0 <= i < j < |calls| && Inserted(calls[i].op).Some? ==>
        Inserted(calls[i].op) != Inserted(calls[j].op)
  }

  /** Same live rows, now and (rows only age) at any later time. */
  ghost predicate SameLive(a: Db, b: Db, now: int) {
    && Live(a.requests, now) == Live(b.requests, now)
    && Live(a.logins, now) == Live(b.logins, now)
    && Live(a.codes, now) == Live(b.codes, now)
    && Live(a.natives, now) == Live(b.natives, now)
    && Live(a.sessions, now) == Live(b.sessions, now)
    && Live(a.refresh, now) == Live(b.refresh, now)
    && a.credentials == b.credentials
  }

  /** Every key in a table with plain inserts has been inserted before. */
  ghost predicate KeysWithin(db: Db, keys: set<string>) {
    db.requests.Keys <= keys && db.logins.Keys <= keys && db.codes.Keys <= keys && db.refresh.Keys <= keys
  }

  lemma LiveAges<T>(a: Table<T>, b: Table<T>, now: int, later: int)
    requires Live(a, now) == Live(b, now) && now <= later
    ensures Live(a, later) == Live(b, later)
  {
    assert forall k :: k in Live(a, later) ==> k in Live(a, now) && Live(a, now)[k] == a[k];
    assert forall k :: k in Live(b, later) ==> k in Live(b, now) && Live(b, now)[k] == b[k];
  }

  lemma SameLiveAges(a: Db, b: Db, now: int, later: int)
    requires SameLive(a, b, now) && now <= later
    ensures SameLive(a, b, later)
  {
    LiveAges(a.requests, b.requests, now, later);
    LiveAges(a.logins, b.logins, now, later);
    LiveAges(a.codes, b.codes, now, later);
    LiveAges(a.natives, b.natives, now, later);
    LiveAges(a.sessions, b.sessions, now, later);
    LiveAges(a.refresh, b.refresh, now, later);
  }

  lemma LiveUpdate<T>(t: Table<T>, now: int, k: string, row: Row<T>)
    ensures Live(t[k := row], now) == if row.expiresAt > now then Live(t, now)[k := row] else Live(t, now) - {k}
    ensures Live(t - {k}, now) == Live(t, now) - {k}
    ensures k in t && t[k].expiresAt <= now && row.expiresAt <= now ==> Live(t[k := row], now) == Live(t, now)
  {
  }

  lemma SameRow<T>(a: Table<T>, b: Table<T>, now: int, k: string)
    requires Live(a, now) == Live(b, now)
    ensures (k in a && a[k].expiresAt > now) <==> (k in b && b[k].expiresAt > now)
    ensures k in a && a[k].expiresAt > now ==> a[k] == b[k]
  {
    assert k in Live(a, now) <==> k in Live(b, now);
    assert k in Live(a, now) ==> Live(a, now)[k] == a[k] && Live(b, now)[k] == b[k];
  }

  /** Taking a row, or writing one, keeps the live rows in step. */
  lemma SameChange<T>(a: Table<T>, b: Table<T>, now: int, k: string, row: Row<T>)
    requires Live(a, now) == Live(b, now)
    ensures Take(a, k, now).1 == Take(b, k, now).1 && Find(a, k, now) == Find(b, k, now)
    ensures Live(Take(a, k, now).0, now) == Live(Take(b, k, now).0, now)
    ensures Live(a - {k}, now) == Live(b - {k}, now)
    ensures Live(a[k := row], now) == Live(b[k := row], now)
  {
    SameRow(a, b, now, k);
    LiveUpdate(a, now, k, row);
    LiveUpdate(b, now, k, row);
  }

  lemma SameClaim(a: Table<RefreshRow>, b: Table<RefreshRow>, now: int, k: string, c: Claim)
    requires Live(a, now) == Live(b, now)
    ensures ClaimToken(a, k, c, now).1 == ClaimToken(b, k, c, now).1
    ensures Live(ClaimToken(a, k, c, now).0, now) == Live(ClaimToken(b, k, c, now).0, now)
  {
    SameRow(a, b, now, k);
    if Claimable(a, k, now) {
      SameChange(a, b, now, k, Row(a[k].data.(claim := Some(c)), a[k].expiresAt));
    }
  }

  lemma ReleaseOfDead(t: Table<RefreshRow>, now: int, k: string, id: string)
    requires k in t ==> t[k].expiresAt <= now
    ensures Live(ReleaseClaim(t, k, id), now) == Live(t, now)
  {
  }

  lemma SameRelease(a: Table<RefreshRow>, b: Table<RefreshRow>, now: int, k: string, id: string)
    requires Live(a, now) == Live(b, now)
    ensures Live(ReleaseClaim(a, k, id), now) == Live(ReleaseClaim(b, k, id), now)
  {
    SameRow(a, b, now, k);
    if k in a && a[k].expiresAt > now {
      SameChange(a, b, now, k, a[k].(data := a[k].data.(claim := None)));
    } else {
      ReleaseOfDead(a, now, k, id);
      ReleaseOfDead(b, now, k, id);
    }
  }

  lemma SameRotate(
    a: Table<RefreshRow>, b: Table<RefreshRow>, now: int, k: string, id: string, nk: string, row: Row<RefreshRow>)
    requires Live(a, now) == Live(b, now) && nk !in a && nk !in b
    ensures RotateClaimed(a, k, id, nk, row, now).1 == RotateClaimed(b, k, id, nk, row, now).1
    ensures Live(RotateClaimed(a, k, id, nk, row, now).0, now) == Live(RotateClaimed(b, k, id, nk, row, now).0, now)
  {
    SameRow(a, b, now, k);
    SameChange(a, b, now, k, row);
    SameChange(a - {k}, b - {k}, now, nk, row);
  }

  lemma LiveNotOfCode(t: Table<AuthCode>, now: int, subject: string)
    ensures Live(NotOfCode(t, subject), now) == NotOfCode(Live(t, now), subject)
  {
  }

  lemma LiveNotOfToken(t: Table<RefreshRow>, now: int, subject: string)
    ensures Live(NotOfToken(t, subject), now) == NotOfToken(Live(t, now), subject)
  {
  }

  lemma SameInvalidate(a: Db, b: Db, now: int, subject: string)
    requires SameLive(a, b, now)
    ensures Live(NotOfCode(a.codes, subject), now) == Live(NotOfCode(b.codes, subject), now)
    ensures Live(NotOfToken(a.refresh, subject), now) == Live(NotOfToken(b.refresh, subject), now)
  {
    LiveNotOfCode(a.codes, now, subject);
    LiveNotOfCode(b.codes, now, subject);
    LiveNotOfToken(a.refresh, now, subject);
    LiveNotOfToken(b.refresh, now, subject);
  }

  ghost predicate NotYet(db: Db, op: Op) {
    Inserted(op).Some? ==>
      var k := Inserted(op).value;
      k !in db.requests && k !in db.logins && k !in db.codes && k !in db.refresh
  }

  predicate OnTokens(op: Op) {
    op.UpsertRefresh? || op.FindRefresh? || op.RevokeRefresh? || op.ClaimRefresh? || op.ReleaseRefresh?
        || op.RotateRefresh?
  }

  predicate OnSessions(op: Op) {
    op.UpsertSession? || op.FindSession? || op.RevokeSession? || op.Install?
  }

  lemma TokenOpsAgree(a: Db, b: Db, op: Op, now: int)
    requires SameLive(a, b, now) && NotYet(a, op) && NotYet(b, op) && OnTokens(op)
    ensures Exec(a, op, now).1 == Exec(b, op, now).1
    ensures SameLive(Exec(a, op, now).0, Exec(b, op, now).0, now)
  {
    if OnLeases(op) {
      LeaseOpsAgree(a, b, op, now);
    } else {
      match op
      case UpsertRefresh(k, row) => SameChange(a.refresh, b.refresh, now, k, row);
      case FindRefresh(k) => SameRow(a.refresh, b.refresh, now, k);
      case RevokeRefresh(k) => SameChange(a.refresh, b.refresh, now, k, Row(RefreshRow("", "", "", "", None), 0));
    }
  }

  predicate OnLeases(op: Op) {
    op.ClaimRefresh? || op.ReleaseRefresh? || op.RotateRefresh?
  }

  lemma LeaseOpsAgree(a: Db, b: Db, op: Op, now: int)
    requires SameLive(a, b, now) && NotYet(a, op) && NotYet(b, op) && OnLeases(op)
    ensures Exec(a, op, now).1 == Exec(b, op, now).1
    ensures SameLive(Exec(a, op, now).0, Exec(b, op, now).0, now)
  {
    match op
    case ClaimRefresh(k, c) => SameClaim(a.refresh, b.refresh, now, k, c);
    case ReleaseRefresh(k, id) => SameRelease(a.refresh, b.refresh, now, k, id);
    case RotateRefresh(k, id, nk, row) => SameRotate(a.refresh, b.refresh, now, k, id, nk, row);
  }

  lemma SessionOpsAgree(a: Db, b: Db, op: Op, now: int)
    requires SameLive(a, b, now) && OnSessions(op)
    ensures Exec(a, op, now).1 == Exec(b, op, now).1
    ensures SameLive(Exec(a, op, now).0, Exec(b, op, now).0, now)
  {
    match op
    case UpsertSession(k, row) => SameChange(a.sessions, b.sessions, now, k, row);
    case FindSession(k) => SameRow(a.sessions, b.sessions, now, k);
    case RevokeSession(k) => SameChange(a.sessions, b.sessions, now, k, Row(Session("", None, ""), 0));
    case Install(_) =>
  }

  lemma InvalidateAgrees(a: Db, b: Db, subject: string, generation: nat, now: int)
    requires SameLive(a, b, now)
    ensures InvalidateCredential(a, subject, generation).1 == InvalidateCredential(b, subject, generation).1
    ensures SameLive(InvalidateCredential(a, subject, generation).0, InvalidateCredential(b, subject, generation).0,
            now)
  {
    SameInvalidate(a, b, now, subject);
  }

  /** Databases with the same live rows answer alike and stay alike. */
  lemma ExecSameLive(a: Db, b: Db, op: Op, now: int)
    requires SameLive(a, b, now) && NotYet(a, op) && NotYet(b, op) && !op.Cleanup?
    ensures Exec(a, op, now).1 == Exec(b, op, now).1
    ensures SameLive(Exec(a, op, now).0, Exec(b, op, now).0, now)
  {
    if OnTokens(op) {
      TokenOpsAgree(a, b, op, now);
    } else if OnSessions(op) {
      SessionOpsAgree(a, b, op, now);
    } else {
      match op
      case InsertRequest(k, row) => SameChange(a.requests, b.requests, now, k, row);
      case TakeRequest(k) => SameChange(a.requests, b.requests, now, k,
          Row(AuthRequest("", "", "", "", "", "", "", ""), 0));
      case InsertLogin(k, row) => SameChange(a.logins, b.logins, now, k, row);
      case TakeLogin(k) => SameChange(a.logins, b.logins, now, k, Row(LoginState("", ""), 0));
      case InsertCode(k, row) => SameChange(a.codes, b.codes, now, k, row);
      case RedeemCode(k) => SameChange(a.codes, b.codes, now, k, Row(AuthCode("", "", "", "", "", "", ""), 0));
      case UpsertNative(k, row) => SameChange(a.natives, b.natives, now, k, row);
      case TakeNative(k) => SameChange(a.natives, b.natives, now, k, Row("", 0));
      case CountPending =>
      case Invalidate(subject, g) => InvalidateAgrees(a, b, subject, g, now);
    }
  }

  lemma SweepKeepsLive(db: Db, now: int)
    ensures SameLive(Swept(db, now), db, now)
  {
  }

  ghost function InsertedKeys(calls: seq<Call>): set<string> {
    set c | c in calls && Inserted(c.op).Some? :: Inserted(c.op).value
  }

  lemma ExecKeys(db: Db, op: Op, now: int, keys: set<string>)
    requires KeysWithin(db, keys)
    ensures KeysWithin(Exec(db, op, now).0, if Inserted(op).Some? then keys + {Inserted(op).value} else keys)
  {
  }

  lemma {:induction false} WithoutSweepsKeeps(calls: seq<Call>)
    ensures forall c :: c in WithoutSweeps(calls) ==> c in calls
    decreases |calls|
  {
    if calls != [] {
      assert calls == calls[..|calls| - 1] + [calls[|calls| - 1]];
      WithoutSweepsKeeps(calls[..|calls| - 1]);
    }
  }

  lemma {:induction false} AfterKeys(calls: seq<Call>)
    ensures KeysWithin(After(EMPTY, calls), InsertedKeys(calls))
    decreases |calls|
  {
    if calls != [] {
      var init, last := calls[..|calls| - 1], calls[|calls| - 1];
      assert calls == init + [last];
      AfterKeys(init);
      ExecKeys(After(EMPTY, init), last.op, last.now, InsertedKeys(init));
      assert InsertedKeys(calls) == InsertedKeys(init) +
             if Inserted(last.op).Some? then {Inserted(last.op).value} else {};
    }
  }

  lemma AfterSnoc(calls: seq<Call>, c: Call)
    ensures After(EMPTY, calls + [c]) == Exec(After(EMPTY, calls), c.op, c.now).0
    ensures Answers(EMPTY, calls + [c]) == Answers(EMPTY, calls) +
            if c.op.Cleanup? then [] else [Exec(After(EMPTY, calls), c.op, c.now).1]
    ensures WithoutSweeps(calls + [c]) == WithoutSweeps(calls) + if c.op.Cleanup? then [] else [c]
  {
    assert (calls + [c])[..|calls|] == calls;
  }

  lemma FreshAgainst(init: seq<Call>, last: Call, db: Db)
    requires FreshKeys(init + [last]) && KeysWithin(db, InsertedKeys(init))
    ensures NotYet(db, last.op)
  {
    var calls := init + [last];
    forall c | c in init && Inserted(c.op).Some? ensures Inserted(c.op) != Inserted(last.op) {
      var i :| 0 <= i < |init| && init[i] == c;
      assert calls[i] == c && calls[|init|] == last;
    }
  }

  lemma FreshInBoth(init: seq<Call>, last: Call)
    requires FreshKeys(init + [last])
    ensures NotYet(After(EMPTY, init), last.op) && NotYet(After(EMPTY, WithoutSweeps(init)), last.op)
  {
    AfterKeys(init);
    AfterKeys(WithoutSweeps(init));
    WithoutSweepsKeeps(init);
    assert InsertedKeys(WithoutSweeps(init)) <= InsertedKeys(init);
    FreshAgainst(init, last, After(EMPTY, init));
    FreshAgainst(init, last, After(EMPTY, WithoutSweeps(init)));
  }

  /** One more call, sweep or not, keeps a swept and an unswept run in step. */
  lemma OneMoreCall(init: seq<Call>, last: Call)
    requires FreshKeys(init + [last])
    requires SameLive(After(EMPTY, init), After(EMPTY, WithoutSweeps(init)), last.now)
    requires Answers(EMPTY, init) == Answers(EMPTY, WithoutSweeps(init))
    ensures SameLive(After(EMPTY, init + [last]), After(EMPTY, WithoutSweeps(init + [last])), last.now)
    ensures Answers(EMPTY, init + [last]) == Answers(EMPTY, WithoutSweeps(init + [last]))
  {
    var quiet := WithoutSweeps(init);
    AfterSnoc(init, last);
    if last.op.Cleanup? {
      SweepKeepsLive(After(EMPTY, init), last.now);
      assert quiet + [] == quiet;
    } else {
      AfterSnoc(quiet, last);
      FreshInBoth(init, last);
      ExecSameLive(After(EMPTY, init), After(EMPTY, quiet), last.op, last.now);
    }
  }

  lemma {:induction false} SweepsKeepStep(calls: seq<Call>, now: int)
    requires Chronological(calls) && FreshKeys(calls) && forall c :: c in calls ==> c.now <= now
    ensures SameLive(After(EMPTY, calls), After(EMPTY, WithoutSweeps(calls)), now)
    ensures Answers(EMPTY, calls) == Answers(EMPTY, WithoutSweeps(calls))
    decreases |calls|
  {
    if calls != [] {
      var init, last := calls[..|calls| - 1], calls[|calls| - 1];
      assert calls == init + [last];
      forall c | c in init ensures c.now <= last.now {
        var i :| 0 <= i < |init| && init[i] == c;
        assert calls[i] == c;
      }
      SweepsKeepStep(init, last.now);
      OneMoreCall(init, last);
      SameLiveAges(After(EMPTY, calls), After(EMPTY, WithoutSweeps(calls)), last.now, now);
    }
  }

  /** Sweeping expired rows, at any points of any run, changes no answer. */
  lemma SweepingUnnoticed(calls: seq<Call>)
    requires Chronological(calls) && FreshKeys(calls)
    ensures Answers(EMPTY, calls) == Answers(EMPTY, WithoutSweeps(calls))
  {
    SweepsKeepStep(calls, if calls == [] then 0 else calls[|calls| - 1].now);
  }
}

/**
 * The bearer-session registry: the `tokens` table shared by the login
 * endpoint (AuthController::postLogin) and the request middleware
 * (AuthJWT::handle).
 *
 * Each row records one issued session: the token the client presents
 * (`tokenId`), the token the server most recently refreshed for it
 * (`refreshToken`), its owner, and a logout reason. The signed-token codec
 * is not modelled: it enters as two functions, `decode` (read the claims
 * of a stored token, or fail) and `verify` (authenticate-and-refresh a
 * token, with the library's three failure kinds). Times are whole minutes.
 */
module Sessions {
  import opened Common

  /** The `logout_reason` column: 0 active, 1 superseded by a login on
    * another device, 2 user name changed, 3 user deactivated. */
  datatype LogoutReason = Active | OtherDevice | NameChanged | Deactivated

  function ReasonCode(reason: LogoutReason): (code: int)
    ensures 0 <= code <= 3
    ensures code == 0 <==> reason == Active
    ensures code == 1 <==> reason == OtherDevice
  {
    match reason
    case Active => 0
    case OtherDevice => 1
    case NameChanged => 2
    case Deactivated => 3
  }

  datatype Row = Row(tokenId: string, userId: int, refreshToken: string, reason: LogoutReason)

  /** The claims the codec reads from a token: subject, the optional
    * `device` claim, and expiry (minutes). */
  datatype Claims = Claims(sub: int, device: Option<string>, exp: int)

  /** Outcome of authenticating and refreshing a token. */
  datatype Verdict = Valid(claims: Claims) | TokenInvalid | TokenExpired | OtherFailure

  /** What the credential check yields about the account it matched. */
  datatype Account = Account(id: int, isActive: bool)

  datatype LoginError = InvalidCredentials | AccountDeactivated

  function LoginStatus(e: LoginError): (status: int)
    ensures status == 403 <==> e == InvalidCredentials
    ensures status == 401 <==> e == AccountDeactivated
  {
    match e
    case InvalidCredentials => 403
    case AccountDeactivated => 401
  }

  function LoginMessage(e: LoginError): string {
    match e
    case InvalidCredentials => "Invalid credentials"
    case AccountDeactivated => "Your account deactivated"
  }

  datatype LoginOutcome = LoggedIn(token: string) | LoginFailed(error: LoginError)

  datatype AuthError =
    | UsedOnOtherDevice
    | UserNameChanged
    | UserDeactivated
    | SessionInvalid
    | SessionExpired
    | Forbidden

  /** 401 asks the client to log in again; 403 refuses the request. */
  function AuthStatus(e: AuthError): (status: int)
    ensures status == 403 <==> e in {SessionInvalid, Forbidden}
    ensures status == 401 <==> e !in {SessionInvalid, Forbidden}
  {
    match e
    case UsedOnOtherDevice => 401
    case UserNameChanged => 401
    case UserDeactivated => 401
    case SessionInvalid => 403
    case SessionExpired => 401
    case Forbidden => 403
  }

  function AuthMessage(e: AuthError): string {
    match e
    case UsedOnOtherDevice => "Your account was used in other device."
    case UserNameChanged => "Your user name was changed. Please, enter valid credentials"
    case UserDeactivated => "The user was deactivated. You no longer have access to the system. Please, consult your administration."
    case SessionInvalid => "Session is Invalid"
    case SessionExpired => "Your session has expired. Please, log into the App again"
    case Forbidden => "Forbidden"
  }

  /** `Pass` carries the authenticated user id when that user exists. */
  datatype AuthOutcome = Pass(principal: Option<int>) | Reject(error: AuthError)

  // ---------------------------------------------------------------------
  // Table invariant

  /** Two rows may share the table: distinct presented tokens, distinct
    * stored tokens, and never two active sessions of one user. */
  predicate Compatible(a: Row, b: Row) {
    && a.tokenId != b.tokenId
    && a.refreshToken != b.refreshToken
    && !(a.userId == b.userId && a.reason == Active && b.reason == Active)
  }

  predicate TableInvariant(rows: seq<Row>) {
    Pairwise(rows, Compatible)
  }

  /** `t` is not yet used as a presented or stored token. */
  predicate FreshToken(rows: seq<Row>, t: string) {
    forall i :: 0 <= i < |rows| ==> rows[i].tokenId != t && rows[i].refreshToken != t
  }

  /** Distinct rows of a valid table hold distinct stored tokens. */
  lemma DistinctRowsDistinctRefresh(rows: seq<Row>, i: int, j: int)
    requires TableInvariant(rows) && 0 <= i < |rows| && 0 <= j < |rows| && i != j
    ensures rows[i].refreshToken != rows[j].refreshToken
  {
    if i < j {
      assert Compatible(rows[i], rows[j]);
    } else {
      assert Compatible(rows[j], rows[i]);
    }
  }

  // ---------------------------------------------------------------------
  // Row selectors and updates used by both operations

  function ForUser(u: int): Row -> bool {
    (r: Row) => r.userId == u
  }

  function UserRows(rows: seq<Row>, u: int): seq<Row> {
    Filter(rows, ForUser(u))
  }

  function IsSuperseded(): Row -> bool {
    (r: Row) => r.reason == OtherDevice
  }

  function SupersededOf(u: int): Row -> bool {
    (r: Row) => r.userId == u && r.reason == OtherDevice
  }

  function NotActiveOf(u: int): Row -> bool {
    (r: Row) => !(r.userId == u && r.reason == Active)
  }

  /** Rows that survive the login cleanup: everything except the user's
    * rows whose reason is not "other device". */
  function KeptAtLogin(u: int): Row -> bool {
    (r: Row) => !(r.userId == u && r.reason != OtherDevice)
  }

  function MarkIn(refresh: string): Row -> Row {
    (r: Row) => if r.refreshToken == refresh && r.reason == Active then r.(reason := OtherDevice) else r
  }

  function Rotate(tokenId: string, refreshed: string): Row -> Row {
    (r: Row) => if r.tokenId == tokenId then r.(refreshToken := refreshed) else r
  }

  /** The user's first active row, in table order. */
  function FirstActive(rows: seq<Row>, u: int): (found: Option<Row>)
    ensures found.Some? ==> found.value in rows && found.value.userId == u && found.value.reason == Active
    ensures found.None? ==> forall r :: r in rows ==> !(r.userId == u && r.reason == Active)
  {
    if rows == [] then None
    else if rows[0].userId == u && rows[0].reason == Active then Some(rows[0])
    else FirstActive(rows[1..], u)
  }

  /** The first row whose presented token is `tokenId`; none when the
    * request carries no token. */
  function Lookup(rows: seq<Row>, tokenId: Option<string>): (found: Option<Row>)
    ensures found.Some? ==> tokenId.Some? && found.value in rows && found.value.tokenId == tokenId.value
    ensures found.None? ==> tokenId.None? || forall r :: r in rows ==> r.tokenId != tokenId.value
  {
    if tokenId.None? || rows == [] then None
    else if rows[0].tokenId == tokenId.value then Some(rows[0])
    else Lookup(rows[1..], tokenId)
  }

  lemma {:induction false} LookupFindsRow(rows: seq<Row>, x: Row)
    requires TableInvariant(rows) && x in rows
    ensures Lookup(rows, Some(x.tokenId)) == Some(x)
  {
    if rows[0] != x {
      var k :| 0 <= k < |rows| && rows[k] == x;
      assert Compatible(rows[0], rows[k]);
      assert rows[1..][k - 1] == x;
      assert TableInvariant(rows[1..]) by {
        forall i, j | 0 <= i < j < |rows[1..]|
          ensures Compatible(rows[1..][i], rows[1..][j])
        {
          assert rows[1..][i] == rows[i + 1] && rows[1..][j] == rows[j + 1];
        }
      }
      LookupFindsRow(rows[1..], x);
    }
  }

  /** The update the middleware issues: the row(s) presented as `tokenId`
    * now store `refreshed`. */
  function SetRefresh(rows: seq<Row>, tokenId: string, refreshed: string): (r: seq<Row>)
    ensures |r| == |rows|
    ensures forall i :: 0 <= i < |rows| ==>
      && r[i].tokenId == rows[i].tokenId
      && r[i].userId == rows[i].userId
      && r[i].reason == rows[i].reason
      && r[i].refreshToken == (if rows[i].tokenId == tokenId then refreshed else rows[i].refreshToken)
  {
    MapSeq(rows, Rotate(tokenId, refreshed))
  }

  // ---------------------------------------------------------------------
  // Login

  /** Before a login, the user's first active session is examined: if its
    * stored token cannot be decoded, every active row of the user is
    * deleted; if its `device` claim differs from the device now logging
    * in (a token without the claim always differs), the rows holding that
    * stored token are marked "other device". */
  function CheckOldSession(rows: seq<Row>, u: int, device: string, decode: string -> Option<Claims>): seq<Row> {
    match FirstActive(rows, u)
    case None => rows
    case Some(current) =>
      match decode(current.refreshToken)
      case None => Filter(rows, NotActiveOf(u))
      case Some(c) => if c.device != Some(device) then MapSeq(rows, MarkIn(current.refreshToken)) else rows
  }

  /** The table after a successful login that issued `issued`. */
  function LoginRows(rows: seq<Row>, u: int, device: string, issued: string, decode: string -> Option<Claims>): seq<Row> {
    Filter(CheckOldSession(rows, u, device, decode), KeptAtLogin(u)) + [Row(issued, u, issued, Active)]
  }

  /** The login finds an active session opened from a different device. */
  predicate Takeover(rows: seq<Row>, u: int, device: string, decode: string -> Option<Claims>) {
    && FirstActive(rows, u).Some?
    && decode(FirstActive(rows, u).value.refreshToken).Some?
    && decode(FirstActive(rows, u).value.refreshToken).value.device != Some(device)
  }

  // ---------------------------------------------------------------------
  // Request authentication

  /** Per-user session-length override (`token_ttl_min`, 0 when unset)
    * shortens a token issued for the configured `jwtTtl`: the request is
    * expired once the override window has passed. */
  predicate OverrideExpired(c: Claims, ttlMin: map<int, nat>, jwtTtl: int, now: int) {
    c.sub in ttlMin && ttlMin[c.sub] != 0 && c.exp - jwtTtl + ttlMin[c.sub] < now
  }

  function RevokedError(reason: LogoutReason): (e: AuthError)
    requires reason != Active
    ensures AuthStatus(e) == 401
  {
    match reason
    case OtherDevice => UsedOnOtherDevice
    case NameChanged => UserNameChanged
    case Deactivated => UserDeactivated
  }

  /** The catch clause: an invalid token is a 403 "Session is Invalid", an
    * expired one a 401, and any other failure a 403 "Forbidden". */
  function FailureError(v: Verdict): (e: AuthError)
    requires !v.Valid?
    ensures v.TokenInvalid? <==> e == SessionInvalid
    ensures v.TokenExpired? <==> e == SessionExpired
    ensures v.OtherFailure? <==> e == Forbidden
    ensures AuthStatus(e) == (if v.TokenExpired? then 401 else 403)
  {
    match v
    case TokenInvalid => SessionInvalid
    case TokenExpired => SessionExpired
    case OtherFailure => Forbidden
  }

  /** The middleware's decision. `ttlMin` holds `token_ttl_min` for every
    * existing user (0 when unset). A request without a stored row fails
    * verification of the absent token, which the library reports as a
    * generic failure. */
  function AuthDecision(rows: seq<Row>, presented: Option<string>, verify: string -> Verdict,
                        ttlMin: map<int, nat>, jwtTtl: int, now: int): (outcome: AuthOutcome)
    ensures outcome.Pass? ==> Lookup(rows, presented).Some? && presented.Some?
  {
    match Lookup(rows, presented)
    case None => Reject(Forbidden)
    case Some(row) =>
      if row.reason != Active then Reject(RevokedError(row.reason))
      else match verify(row.refreshToken)
        case Valid(c) =>
          if OverrideExpired(c, ttlMin, jwtTtl, now) then Reject(SessionExpired)
          else Pass(if c.sub in ttlMin then Some(c.sub) else None)
        case _ => Reject(FailureError(verify(row.refreshToken)))
  }

  // ---------------------------------------------------------------------
  // The table

  class TokenTable {
    var rows: seq<Row>

    ghost predicate Valid()
      reads this
    {
      TableInvariant(rows)
    }

    constructor ()
      ensures rows == [] && Valid()
    {
      rows := [];
    }

    /** POST /login. `account` is the account matched by the credentials,
      * if any; `issued` is the token the codec mints for it. */
    method Login(account: Option<Account>, device: string, issued: string, decode: string -> Option<Claims>)
      returns (outcome: LoginOutcome)
      modifies this
      ensures account.None? ==> outcome == LoginFailed(InvalidCredentials) && rows == old(rows)
      ensures account.Some? && !account.value.isActive ==>
        outcome == LoginFailed(AccountDeactivated) && rows == old(rows)
      ensures account.Some? && account.value.isActive ==>
        outcome == LoggedIn(issued) && rows == LoginRows(old(rows), account.value.id, device, issued, decode)
      ensures old(Valid()) && FreshToken(old(rows), issued) ==> Valid()
    {
      if account.None? {
        return LoginFailed(InvalidCredentials);
      }
      var user := account.value;
      if !user.isActive {
        return LoginFailed(AccountDeactivated);
      }
      ghost var before := rows;
      var current := FirstActive(rows, user.id);
      if current.Some? {
        var claims := decode(current.value.refreshToken);
        if claims.None? {
          rows := Filter(rows, NotActiveOf(user.id));
        } else if claims.value.device != Some(device) {
          rows := MapSeq(rows, MarkIn(current.value.refreshToken));
        }
      }
      rows := Filter(rows, KeptAtLogin(user.id));
      rows := rows + [Row(issued, user.id, issued, Active)];
      outcome := LoggedIn(issued);
      if TableInvariant(before) && FreshToken(before, issued) {
        LoginKeepsInvariant(before, user.id, device, issued, decode);
      }
    }

    /** The middleware: on success the row's stored token becomes
      * `refreshed`, the token the library issued on refresh. */
    method Authenticate(presented: Option<string>, verify: string -> Verdict, ttlMin: map<int, nat>,
                        jwtTtl: int, now: int, refreshed: string)
      returns (outcome: AuthOutcome)
      modifies this
      ensures outcome == AuthDecision(old(rows), presented, verify, ttlMin, jwtTtl, now)
      ensures outcome.Pass? ==> rows == SetRefresh(old(rows), presented.value, refreshed)
      ensures outcome.Reject? ==> rows == old(rows)
      ensures old(Valid()) && FreshToken(old(rows), refreshed) ==> Valid()
    {
      var row := Lookup(rows, presented);
      if row.None? {
        return Reject(Forbidden);
      }
      if row.value.reason == OtherDevice {
        return Reject(UsedOnOtherDevice);
      } else if row.value.reason == NameChanged {
        return Reject(UserNameChanged);
      } else if row.value.reason == Deactivated {
        return Reject(UserDeactivated);
      }
      var verdict := verify(row.value.refreshToken);
      if !verdict.Valid? {
        return Reject(FailureError(verdict));
      }
      if OverrideExpired(verdict.claims, ttlMin, jwtTtl, now) {
        return Reject(SessionExpired);
      }
      ghost var before := rows;
      rows := SetRefresh(rows, presented.value, refreshed);
      outcome := Pass(if verdict.claims.sub in ttlMin then Some(verdict.claims.sub) else None);
      if TableInvariant(before) && FreshToken(before, refreshed) {
        RotationKeepsInvariant(before, presented.value, refreshed);
      }
    }
  }

  // ---------------------------------------------------------------------
  // Properties

  lemma CheckOldSessionKeepsInvariant(rows: seq<Row>, u: int, device: string, issued: string,
                                      decode: string -> Option<Claims>)
    requires TableInvariant(rows) && FreshToken(rows, issued)
    ensures var mid := CheckOldSession(rows, u, device, decode);
      TableInvariant(mid) && forall r :: r in mid ==> r.tokenId != issued && r.refreshToken != issued
  {
    var mid := CheckOldSession(rows, u, device, decode);
    if mid == Filter(rows, NotActiveOf(u)) {
      FilterPairwise(rows, NotActiveOf(u), Compatible);
    } else if mid != rows {
      var old_ := FirstActive(rows, u).value;
      assert mid == MapSeq(rows, MarkIn(old_.refreshToken));
      forall i, j | 0 <= i < j < |mid|
        ensures Compatible(mid[i], mid[j])
      {
        assert Compatible(rows[i], rows[j]);
      }
    }
  }

  /** Login keeps the table invariant when the issued token is new. */
  lemma {:induction false} LoginKeepsInvariant(rows: seq<Row>, u: int, device: string, issued: string,
                                               decode: string -> Option<Claims>)
    requires TableInvariant(rows) && FreshToken(rows, issued)
    ensures TableInvariant(LoginRows(rows, u, device, issued, decode))
  {
    var mid := CheckOldSession(rows, u, device, decode);
    CheckOldSessionKeepsInvariant(rows, u, device, issued, decode);
    var kept := Filter(mid, KeptAtLogin(u));
    FilterPairwise(mid, KeptAtLogin(u), Compatible);
    var newRow := Row(issued, u, issued, Active);
    var after := kept + [newRow];
    forall i, j | 0 <= i < j < |after|
      ensures Compatible(after[i], after[j])
    {
      if j == |kept| {
        assert after[i] == kept[i] && kept[i] in mid;
      } else {
        assert after[i] == kept[i] && after[j] == kept[j];
      }
    }
  }

  /** Without a takeover, the user's rows after login are exactly the
    * previously superseded ones followed by the new active session: all
    * other sessions of the user are gone. */
  lemma {:induction false} LoginWithoutTakeover(rows: seq<Row>, u: int, device: string, issued: string,
                                                decode: string -> Option<Claims>)
    requires !Takeover(rows, u, device, decode)
    ensures UserRows(LoginRows(rows, u, device, issued, decode), u)
         == Filter(UserRows(rows, u), IsSuperseded()) + [Row(issued, u, issued, Active)]
  {
    var mid := CheckOldSession(rows, u, device, decode);
    var newRow := Row(issued, u, issued, Active);
    FilterAppend(Filter(mid, KeptAtLogin(u)), [newRow], ForUser(u));
    assert Filter([newRow], ForUser(u)) == [newRow] by {
      assert Filter([newRow], ForUser(u)) == [newRow] + Filter([newRow][1..], ForUser(u));
      assert [newRow][1..] == [];
    }
    FilterFilter(mid, KeptAtLogin(u), ForUser(u), SupersededOf(u));
    FilterFilter(rows, ForUser(u), IsSuperseded(), SupersededOf(u));
    if mid != rows {
      assert mid == Filter(rows, NotActiveOf(u));
      FilterFilter(rows, NotActiveOf(u), SupersededOf(u), SupersededOf(u));
    }
  }

  /** Logging in from the device that opened the current session closes
    * that session instead of marking it. */
  lemma LoginSameDeviceClosesSession(rows: seq<Row>, u: int, device: string, issued: string,
                                     decode: string -> Option<Claims>)
    requires FirstActive(rows, u).Some? && !Takeover(rows, u, device, decode)
    requires issued != FirstActive(rows, u).value.tokenId
    ensures FirstActive(rows, u).value !in LoginRows(rows, u, device, issued, decode)
  {
    var current := FirstActive(rows, u).value;
    var after := LoginRows(rows, u, device, issued, decode);
    LoginWithoutTakeover(rows, u, device, issued, decode);
    forall k | 0 <= k < |after|
      ensures after[k] != current
    {
      if after[k].userId == u {
        assert after[k] in UserRows(after, u);
      }
    }
  }

  /** On a takeover the old session stays in the table, marked as
    * superseded by another device. */
  lemma LoginMarksTakenOverSession(rows: seq<Row>, u: int, device: string, issued: string,
                                   decode: string -> Option<Claims>)
    requires Takeover(rows, u, device, decode)
    ensures FirstActive(rows, u).value.(reason := OtherDevice) in LoginRows(rows, u, device, issued, decode)
  {
    var current := FirstActive(rows, u).value;
    var mid := MapSeq(rows, MarkIn(current.refreshToken));
    assert CheckOldSession(rows, u, device, decode) == mid;
    var k :| 0 <= k < |rows| && rows[k] == current;
    assert mid[k] == current.(reason := OtherDevice);
    assert KeptAtLogin(u)(mid[k]);
  }

  /** On a takeover, the user's rows after login are exactly the rows that
    * are superseded once the current session is marked (the earlier
    * superseded rows and the marked session, in table order), followed by
    * the new active session: all other sessions of the user are gone. */
  lemma {:induction false} LoginWithTakeover(rows: seq<Row>, u: int, device: string, issued: string,
                                             decode: string -> Option<Claims>)
    requires Takeover(rows, u, device, decode)
    ensures var marked := MapSeq(rows, MarkIn(FirstActive(rows, u).value.refreshToken));
      UserRows(LoginRows(rows, u, device, issued, decode), u)
        == Filter(UserRows(marked, u), IsSuperseded()) + [Row(issued, u, issued, Active)]
  {
    var mid := CheckOldSession(rows, u, device, decode);
    assert mid == MapSeq(rows, MarkIn(FirstActive(rows, u).value.refreshToken));
    var newRow := Row(issued, u, issued, Active);
    FilterAppend(Filter(mid, KeptAtLogin(u)), [newRow], ForUser(u));
    assert Filter([newRow], ForUser(u)) == [newRow] by {
      assert Filter([newRow], ForUser(u)) == [newRow] + Filter([newRow][1..], ForUser(u));
      assert [newRow][1..] == [];
    }
    FilterFilter(mid, KeptAtLogin(u), ForUser(u), SupersededOf(u));
    FilterFilter(mid, ForUser(u), IsSuperseded(), SupersededOf(u));
  }

  /** Login touches no other user's sessions. */
  lemma {:induction false} LoginKeepsOtherUsers(rows: seq<Row>, u: int, device: string, issued: string,
                                                decode: string -> Option<Claims>, v: int)
    requires TableInvariant(rows) && v != u
    ensures UserRows(LoginRows(rows, u, device, issued, decode), v) == UserRows(rows, v)
  {
    var mid := CheckOldSession(rows, u, device, decode);
    var newRow := Row(issued, u, issued, Active);
    FilterAppend(Filter(mid, KeptAtLogin(u)), [newRow], ForUser(v));
    assert Filter([newRow], ForUser(v)) == [] by {
      assert Filter([newRow], ForUser(v)) == Filter([newRow][1..], ForUser(v));
      assert [newRow][1..] == [];
    }
    FilterFilter(mid, KeptAtLogin(u), ForUser(v), ForUser(v));
    match FirstActive(rows, u)
    case None =>
    case Some(current) =>
      match decode(current.refreshToken)
      case None =>
        FilterFilter(rows, NotActiveOf(u), ForUser(v), ForUser(v));
      case Some(c) =>
        if c.device != Some(device) {
          MarkingKeepsOtherUsers(rows, current, v);
        }
  }

  /** Marking one user's session leaves another user's rows as they were. */
  lemma MarkingKeepsOtherUsers(rows: seq<Row>, current: Row, v: int)
    requires TableInvariant(rows) && current in rows && current.userId != v
    ensures UserRows(MapSeq(rows, MarkIn(current.refreshToken)), v) == UserRows(rows, v)
  {
    var mark := MarkIn(current.refreshToken);
    FilterMapSeq(rows, mark, ForUser(v));
    var mine := UserRows(rows, v);
    forall i | 0 <= i < |mine|
      ensures mark(mine[i]) == mine[i]
    {
      var p :| 0 <= p < |rows| && rows[p] == mine[i];
      var q :| 0 <= q < |rows| && rows[q] == current;
      DistinctRowsDistinctRefresh(rows, p, q);
    }
    MapSeqIdentity(mine, mark);
  }

  /** The token rotation keeps the invariant when the new token is new. */
  lemma RotationKeepsInvariant(rows: seq<Row>, tokenId: string, refreshed: string)
    requires TableInvariant(rows) && FreshToken(rows, refreshed)
    ensures TableInvariant(SetRefresh(rows, tokenId, refreshed))
  {
    var after := SetRefresh(rows, tokenId, refreshed);
    forall i, j | 0 <= i < j < |after|
      ensures Compatible(after[i], after[j])
    {
      assert Compatible(rows[i], rows[j]);
    }
  }

  /** A revoked session is refused with its reason, before its token is
    * even looked at. */
  lemma RevokedSessionRefused(rows: seq<Row>, tokenId: string, verify: string -> Verdict,
                              ttlMin: map<int, nat>, jwtTtl: int, now: int)
    requires TableInvariant(rows)
    requires Lookup(rows, Some(tokenId)).Some? && Lookup(rows, Some(tokenId)).value.reason != Active
    ensures AuthDecision(rows, Some(tokenId), verify, ttlMin, jwtTtl, now)
         == Reject(RevokedError(Lookup(rows, Some(tokenId)).value.reason))
  {
  }

  /** An active session whose stored token fails verification is refused
    * with the error of the failure: 401 when it expired, 403 otherwise. */
  lemma StoredTokenFailureRefused(rows: seq<Row>, tokenId: string, verify: string -> Verdict,
                                  ttlMin: map<int, nat>, jwtTtl: int, now: int)
    requires Lookup(rows, Some(tokenId)).Some?
    requires Lookup(rows, Some(tokenId)).value.reason == Active
    requires !verify(Lookup(rows, Some(tokenId)).value.refreshToken).Valid?
    ensures var v := verify(Lookup(rows, Some(tokenId)).value.refreshToken);
      var d := AuthDecision(rows, Some(tokenId), verify, ttlMin, jwtTtl, now);
      && d == Reject(FailureError(v))
      && (v.TokenInvalid? ==> AuthStatus(d.error) == 403 && AuthMessage(d.error) == "Session is Invalid")
      && (v.TokenExpired? ==> AuthStatus(d.error) == 401
                              && AuthMessage(d.error) == "Your session has expired. Please, log into the App again")
      && (v.OtherFailure? ==> AuthStatus(d.error) == 403 && AuthMessage(d.error) == "Forbidden")
  {
  }

  /** Only the stored token of the row matters, never the presented one:
    * two codecs that agree on it give the same decision. */
  lemma DecisionUsesStoredToken(rows: seq<Row>, tokenId: string, verify1: string -> Verdict,
                                verify2: string -> Verdict, ttlMin: map<int, nat>, jwtTtl: int, now: int)
    requires Lookup(rows, Some(tokenId)).Some?
    requires verify1(Lookup(rows, Some(tokenId)).value.refreshToken)
          == verify2(Lookup(rows, Some(tokenId)).value.refreshToken)
    ensures AuthDecision(rows, Some(tokenId), verify1, ttlMin, jwtTtl, now)
         == AuthDecision(rows, Some(tokenId), verify2, ttlMin, jwtTtl, now)
  {
  }

  /** A token the table does not know is refused. */
  lemma UnknownTokenForbidden(rows: seq<Row>, presented: Option<string>, verify: string -> Verdict,
                              ttlMin: map<int, nat>, jwtTtl: int, now: int)
    requires presented.None? || forall r :: r in rows ==> r.tokenId != presented.value
    ensures AuthDecision(rows, presented, verify, ttlMin, jwtTtl, now) == Reject(Forbidden)
  {
  }

  /** With a valid stored token of an active session, the per-user
    * override decides alone: the request is refused as expired exactly
    * when the override window has passed. */
  lemma OverrideDecides(rows: seq<Row>, tokenId: string, verify: string -> Verdict,
                        ttlMin: map<int, nat>, jwtTtl: int, now: int)
    requires Lookup(rows, Some(tokenId)).Some?
    requires Lookup(rows, Some(tokenId)).value.reason == Active
    requires verify(Lookup(rows, Some(tokenId)).value.refreshToken).Valid?
    ensures var c := verify(Lookup(rows, Some(tokenId)).value.refreshToken).claims;
      var d := AuthDecision(rows, Some(tokenId), verify, ttlMin, jwtTtl, now);
      && (d == Reject(SessionExpired) <==> (c.sub in ttlMin && ttlMin[c.sub] != 0 && c.exp - jwtTtl + ttlMin[c.sub] < now))
      && (d.Reject? <==> d == Reject(SessionExpired))
  {
  }

  /** After a login from another device, the superseded session's token is
    * refused with "used in other device". */
  lemma {:induction false} SupersededTokenRefused(rows: seq<Row>, u: int, device: string, issued: string,
                                                  decode: string -> Option<Claims>, verify: string -> Verdict,
                                                  ttlMin: map<int, nat>, jwtTtl: int, now: int)
    requires TableInvariant(rows) && FreshToken(rows, issued)
    requires Takeover(rows, u, device, decode)
    ensures AuthDecision(LoginRows(rows, u, device, issued, decode), Some(FirstActive(rows, u).value.tokenId),
                         verify, ttlMin, jwtTtl, now) == Reject(UsedOnOtherDevice)
  {
    var after := LoginRows(rows, u, device, issued, decode);
    var marked := FirstActive(rows, u).value.(reason := OtherDevice);
    LoginKeepsInvariant(rows, u, device, issued, decode);
    LoginMarksTakenOverSession(rows, u, device, issued, decode);
    LookupFindsRow(after, marked);
  }

  /** The token a login returns authenticates, unless the codec refuses it
    * or the per-user window has already passed. */
  lemma {:induction false} IssuedTokenAuthenticates(rows: seq<Row>, u: int, device: string, issued: string,
                                                    decode: string -> Option<Claims>, verify: string -> Verdict,
                                                    ttlMin: map<int, nat>, jwtTtl: int, now: int)
    requires TableInvariant(rows) && FreshToken(rows, issued)
    requires verify(issued).Valid? && !OverrideExpired(verify(issued).claims, ttlMin, jwtTtl, now)
    ensures AuthDecision(LoginRows(rows, u, device, issued, decode), Some(issued), verify, ttlMin, jwtTtl, now).Pass?
  {
    var after := LoginRows(rows, u, device, issued, decode);
    var newRow := Row(issued, u, issued, Active);
    LoginKeepsInvariant(rows, u, device, issued, decode);
    assert after[|after| - 1] == newRow;
    LookupFindsRow(after, newRow);
  }

  /** After a successful request the next one is judged on the rotated
    * token, not the one issued at login. */
  lemma {:induction false} NextRequestUsesRotatedToken(rows: seq<Row>, tokenId: string, refreshed: string)
    requires TableInvariant(rows) && FreshToken(rows, refreshed)
    requires Lookup(rows, Some(tokenId)).Some?
    ensures Lookup(SetRefresh(rows, tokenId, refreshed), Some(tokenId)).Some?
    ensures Lookup(SetRefresh(rows, tokenId, refreshed), Some(tokenId)).value.refreshToken == refreshed
  {
    var after := SetRefresh(rows, tokenId, refreshed);
    var row := Lookup(rows, Some(tokenId)).value;
    var k :| 0 <= k < |rows| && rows[k] == row;
    RotationKeepsInvariant(rows, tokenId, refreshed);
    LookupFindsRow(after, after[k]);
  }
}

/** The user handler: registration, login, the session check `requireAuth`,
    and the self-service PATCH and DELETE. The user table is a map from id to
    row, held by `UserStore`; HMAC, scrypt, JSON and the clock come in through
    `AuthContext` and `Kdf` parameters. */
module Users {
  import opened Wrappers
  import opened Text
  import opened Email
  import B = Base64Url
  import T = SessionToken
  import P = Password

  /** A row of the user table. */
  datatype User = User(id: string, email: string, name: string, passwordHash: string,
                       createdAt: int, updatedAt: int)

  /** What every handler needs to sign or check a session: the server secret,
      the clock (milliseconds), the JSON codec and HMAC. */
  datatype AuthContext = AuthContext(secret: string, nowMs: int, codec: T.JsonCodec, mac: T.Mac)

  /** A field of a response object. */
  datatype Field = FStr(s: string) | FDate(ms: int)

  /** The user columns a query selects; `updatedAt` is not always selected. */
  datatype UserView = UserView(id: string, email: string, name: string, createdAt: int, updatedAt: Option<int>)

  function ViewOf(u: User): UserView {
    UserView(u.id, u.email, u.name, u.createdAt, Some(u.updatedAt))
  }

  /** `pickUserPublic`: id, email, name and creation date, and `updatedAt`
      only when the row has one; never the password hash. */
  function PickUserPublic(v: UserView): (r: map<string, Field>)
    ensures r.Keys == {"id", "email", "name", "createdAt"} + (if v.updatedAt.Some? then {"updatedAt"} else {})
    ensures "passwordHash" !in r
    ensures r["id"] == FStr(v.id) && r["email"] == FStr(v.email) && r["name"] == FStr(v.name)
    ensures r["createdAt"] == FDate(v.createdAt)
    ensures v.updatedAt.Some? ==> r["updatedAt"] == FDate(v.updatedAt.value)
  {
    var base := map["id" := FStr(v.id), "email" := FStr(v.email), "name" := FStr(v.name),
                     "createdAt" := FDate(v.createdAt)];
    if v.updatedAt.Some? then base["updatedAt" := FDate(v.updatedAt.value)] else base
  }

  /** The table as the database keeps it: rows filed under their own,
      non-empty id, and email unique. */
  predicate WellFormed(users: map<string, User>) {
    (forall id :: id in users ==> users[id].id == id && id != "")
    && (forall a, b :: a in users && b in users && users[a].email == users[b].email ==> a == b)
  }

  predicate EmailTaken(users: map<string, User>, email: string) {
    exists id :: id in users && users[id].email == email
  }

  /** `prisma.user.findUnique({ where: { email } })`. */
  function FindByEmail(users: map<string, User>, email: string): (r: Option<User>)
    requires WellFormed(users)
    ensures r.Some? <==> EmailTaken(users, email)
    ensures r.Some? ==> r.value.id in users && users[r.value.id] == r.value && r.value.email == email
  {
    if EmailTaken(users, email) then
      var id :| id in users && users[id].email == email;
      Some(users[id])
    else None
  }

  // ---------------------------------------------------------------------
  // Register

  /** The checks of the `register` action before the table is touched, in
      their order: missing fields, email shape, password length. On success,
      the normalised email and trimmed name to store. */
  function RegisterInput(emailRaw: string, nameRaw: string, password: string): (r: Result<(string, string)>)
    ensures r.Err? ==> r.error.status == 400
    ensures r.Ok? <==>
      NormalizeEmail(emailRaw) != "" && Trim(nameRaw) != "" && |password| >= 8 && IsValidEmail(NormalizeEmail(emailRaw))
    ensures r.Ok? ==> r.value == (NormalizeEmail(emailRaw), Trim(nameRaw))
  {
    var email := NormalizeEmail(emailRaw);
    var name := Trim(nameRaw);
    if email == "" || name == "" || password == "" then Err(BadRequest("Missing required fields"))
    else if !IsValidEmail(email) then Err(BadRequest("Invalid email"))
    else if |password| < 8 then Err(BadRequest("Password must be at least 8 characters"))
    else Ok((email, name))
  }

  /** Filing a row with a fresh id and an unused email keeps the table well
      formed. */
  lemma InsertKeepsWellFormed(users: map<string, User>, u: User)
    requires WellFormed(users) && u.id != "" && u.id !in users && !EmailTaken(users, u.email)
    ensures WellFormed(users[u.id := u])
  {
  }

  /** The row `register` creates. */
  function NewUser(id: string, email: string, name: string, password: string, salt: seq<B.Byte>,
                   kdf: P.Kdf, nowMs: int): User
    requires |salt| == 16
  {
    User(id, email, name, P.HashPassword(password, salt, kdf), nowMs, nowMs)
  }

  /** A missing field is reported before anything else is looked at. */
  lemma MissingFieldFirst(emailRaw: string, password: string)
    ensures RegisterInput(emailRaw, "  ", password) == Err(BadRequest("Missing required fields"))
  {
    assert IsJsSpace(' ');
    assert TrimStart("  ") == "";
  }

  /** With a good email and name, a seven-character password such as
      `1234567` is refused and an eight-character one passes. */
  lemma PasswordLengthBoundary(emailRaw: string, nameRaw: string)
    requires IsValidEmail(NormalizeEmail(emailRaw)) && Trim(nameRaw) != ""
    ensures RegisterInput(emailRaw, nameRaw, "1234567")
            == Err(BadRequest("Password must be at least 8 characters"))
    ensures RegisterInput(emailRaw, nameRaw, "12345678").Ok?
  {
  }

  // ---------------------------------------------------------------------
  // Login and the session check

  /** The claims a login token carries. */
  function Claims(u: User): map<string, T.Json> {
    map["sub" := T.JStr(u.id), "email" := T.JStr(u.email), "name" := T.JStr(u.name)]
  }

  datatype LoginResult = LoginResult(user: map<string, Field>, token: string)

  /** The `login` action: 400 for a missing field, 401 for an unknown email or
      a wrong password, otherwise the public user and a seven-day token. */
  function Login(users: map<string, User>, emailRaw: string, password: string,
                 ctx: AuthContext, kdf: P.Kdf): (r: Result<LoginResult>)
    requires WellFormed(users)
    ensures r.Err? ==> r.error.status == 400 || r.error == HttpError(401, "Invalid credentials")
    ensures r.Err? && r.error.status == 400 <==> NormalizeEmail(emailRaw) == "" || password == ""
    ensures r.Ok? <==> NormalizeEmail(emailRaw) != "" && password != ""
                       && EmailTaken(users, NormalizeEmail(emailRaw))
                       && P.VerifyPassword(password, FindByEmail(users, NormalizeEmail(emailRaw)).value.passwordHash, kdf)
  {
    var email := NormalizeEmail(emailRaw);
    if email == "" || password == "" then Err(BadRequest("Missing required fields"))
    else
      match FindByEmail(users, email)
      case None => Err(HttpError(401, "Invalid credentials"))
      case Some(u) =>
        if !P.VerifyPassword(password, u.passwordHash, kdf) then Err(HttpError(401, "Invalid credentials"))
        else
          var token := T.SignToken(Claims(u), ctx.secret, T.TokenTtlSec, ctx.nowMs, ctx.codec, ctx.mac);
          Ok(LoginResult(PickUserPublic(ViewOf(u)), token))
  }

  /** `payload?.sub` when it is a non-empty string. */
  function SubjectOf(payload: T.Json): (r: Option<string>)
    ensures r.Some? ==> r.value != ""
  {
    if payload.JObj? && "sub" in payload.fields && payload.fields["sub"].JStr?
       && payload.fields["sub"].s != ""
    then Some(payload.fields["sub"].s)
    else None
  }

  /** `requireAuth`: the cookie's token must verify, name a subject, and the
      subject must still be a user; every failure is the same 401. */
  function Authenticate(users: map<string, User>, token: string, ctx: AuthContext): (r: Result<User>)
    ensures r.Err? ==> r.error == Unauthorized()
    ensures r.Ok? ==> r.value.id in users && users[r.value.id] == r.value
    ensures r.Ok? ==> T.VerifyToken(token, ctx.secret, ctx.nowMs, ctx.codec, ctx.mac).Some?
  {
    if token == "" then Err(Unauthorized())
    else
      match T.VerifyToken(token, ctx.secret, ctx.nowMs, ctx.codec, ctx.mac)
      case None => Err(Unauthorized())
      case Some(payload) =>
        match SubjectOf(payload)
        case None => Err(Unauthorized())
        case Some(id) => if id in users && users[id].id == id then Ok(users[id]) else Err(Unauthorized())
  }

  // ---------------------------------------------------------------------
  // Properties across actions

  /** A successful registration can log in with the same email and password. */
  lemma LoginAfterRegister(users: map<string, User>, emailRaw: string, nameRaw: string, password: string,
                           salt: seq<B.Byte>, kdf: P.Kdf, newId: string, nowMs: int, ctx: AuthContext)
    requires WellFormed(users) && newId != "" && newId !in users && |salt| == 16
    requires RegisterInput(emailRaw, nameRaw, password).Ok?
    requires !EmailTaken(users, NormalizeEmail(emailRaw))
    ensures var u := NewUser(newId, NormalizeEmail(emailRaw), Trim(nameRaw), password, salt, kdf, nowMs);
      WellFormed(users[newId := u]) && Login(users[newId := u], emailRaw, password, ctx, kdf).Ok?
  {
    var email := NormalizeEmail(emailRaw);
    var u := NewUser(newId, email, Trim(nameRaw), password, salt, kdf, nowMs);
    InsertKeepsWellFormed(users, u);
    var users' := users[newId := u];
    assert users'[newId].email == email;
    assert EmailTaken(users', email);
    var found := FindByEmail(users', email);
    assert found.value == u;
    P.VerifyHashed(password, password, salt, kdf);
    assert email != "" && password != "";
  }

  /** The token a login hands out authenticates its user until it expires,
      and not after. */
  lemma AuthenticateAfterLogin(users: map<string, User>, emailRaw: string, password: string,
                               ctx: AuthContext, kdf: P.Kdf, laterMs: int)
    requires WellFormed(users) && T.RoundTrips(ctx.codec)
    requires Login(users, emailRaw, password, ctx, kdf).Ok?
    ensures var token := Login(users, emailRaw, password, ctx, kdf).value.token;
      var r := Authenticate(users, token, ctx.(nowMs := laterMs));
      (r.Ok? <==> T.Seconds(laterMs) <= T.Seconds(ctx.nowMs) + T.TokenTtlSec)
      && (r.Ok? ==> r.value.email == NormalizeEmail(emailRaw))
  {
    var u := FindByEmail(users, NormalizeEmail(emailRaw)).value;
    assert Login(users, emailRaw, password, ctx, kdf).value.token
        == T.SignToken(Claims(u), ctx.secret, T.TokenTtlSec, ctx.nowMs, ctx.codec, ctx.mac);
    AuthenticateSigned(users, u, ctx, laterMs);
  }

  /** A token signed for a stored user authenticates exactly that user for
      as long as it has not expired. */
  lemma AuthenticateSigned(users: map<string, User>, u: User, ctx: AuthContext, laterMs: int)
    requires WellFormed(users) && T.RoundTrips(ctx.codec)
    requires u.id in users && users[u.id] == u
    ensures var token := T.SignToken(Claims(u), ctx.secret, T.TokenTtlSec, ctx.nowMs, ctx.codec, ctx.mac);
      var r := Authenticate(users, token, ctx.(nowMs := laterMs));
      (r.Ok? <==> T.Seconds(laterMs) <= T.Seconds(ctx.nowMs) + T.TokenTtlSec)
      && (r.Ok? ==> r.value == u)
  {
    var later := ctx.(nowMs := laterMs);
    var token := T.SignToken(Claims(u), ctx.secret, T.TokenTtlSec, ctx.nowMs, ctx.codec, ctx.mac);
    T.SignVerifyRoundTrip(Claims(u), ctx.secret, T.TokenTtlSec, ctx.nowMs, laterMs, ctx.codec, ctx.mac);
    SignedNonEmpty(Claims(u), ctx);
    var full := T.JObj(T.FullPayload(Claims(u), T.Seconds(ctx.nowMs), T.TokenTtlSec));
    SubjectOfSigned(u, T.Seconds(ctx.nowMs));
    AuthenticateVerified(users, token, later, u, full);
  }

  /** `requireAuth` on a non-empty token: it fails when the token does not
      verify, and yields the subject's row when it does. */
  lemma AuthenticateVerified(users: map<string, User>, token: string, ctx: AuthContext, u: User, payload: T.Json)
    requires token != "" && u.id in users && users[u.id] == u
    requires SubjectOf(payload) == Some(u.id)
    ensures var v := T.VerifyToken(token, ctx.secret, ctx.nowMs, ctx.codec, ctx.mac);
      (v.None? ==> Authenticate(users, token, ctx).Err?)
      && (v == Some(payload) ==> Authenticate(users, token, ctx) == Ok(u))
  {
  }

  /** A signed token is never the empty cookie. */
  lemma SignedNonEmpty(claims: map<string, T.Json>, ctx: AuthContext)
    ensures T.SignToken(claims, ctx.secret, T.TokenTtlSec, ctx.nowMs, ctx.codec, ctx.mac) != ""
  {
    var token := T.SignToken(claims, ctx.secret, T.TokenTtlSec, ctx.nowMs, ctx.codec, ctx.mac);
    assert |Split(token, '.')| == 3;
  }

  /** The subject of a signed payload is the user's id. */
  lemma SubjectOfSigned(u: User, now: int)
    requires u.id != ""
    ensures SubjectOf(T.JObj(T.FullPayload(Claims(u), now, T.TokenTtlSec))) == Some(u.id)
  {
    var full := T.FullPayload(Claims(u), now, T.TokenTtlSec);
    assert full["sub"] == T.JStr(u.id);
  }

  /** A password whose key derivation differs from the stored one is refused. */
  lemma WrongPasswordRefused(users: map<string, User>, emailRaw: string, attempt: string, password: string,
                             salt: seq<B.Byte>, ctx: AuthContext, kdf: P.Kdf)
    requires WellFormed(users) && |salt| == 16
    requires EmailTaken(users, NormalizeEmail(emailRaw))
    requires FindByEmail(users, NormalizeEmail(emailRaw)).value.passwordHash == P.HashPassword(password, salt, kdf)
    requires kdf(attempt, salt) != kdf(password, salt)
    ensures Login(users, emailRaw, attempt, ctx, kdf) == Err(HttpError(401, "Invalid credentials"))
            || Login(users, emailRaw, attempt, ctx, kdf) == Err(BadRequest("Missing required fields"))
  {
    P.VerifyHashed(attempt, password, salt, kdf);
  }

  // ---------------------------------------------------------------------
  // PATCH

  /** The PATCH body applied to the caller's row: 400 when neither a name
      (after trimming) nor a password is given, 400 for a short password;
      otherwise only the supplied fields change. */
  function PatchUser(u: User, nameRaw: string, password: string, salt: seq<B.Byte>, kdf: P.Kdf,
                     nowMs: int): (r: Result<User>)
    requires |salt| == 16
    ensures r.Err? ==> r.error.status == 400
    ensures r.Err? <==> (Trim(nameRaw) == "" && password == "") || (password != "" && |password| < 8)
    ensures r.Ok? ==> r.value.id == u.id && r.value.email == u.email && r.value.createdAt == u.createdAt
    ensures r.Ok? ==> r.value.name == (if Trim(nameRaw) != "" then Trim(nameRaw) else u.name)
    ensures r.Ok? && password == "" ==> r.value.passwordHash == u.passwordHash
    ensures r.Ok? ==> r.value.updatedAt == nowMs
  {
    var name := Trim(nameRaw);
    if name == "" && password == "" then Err(BadRequest("Nothing to update"))
    else if password != "" && |password| < 8 then Err(BadRequest("Password must be at least 8 characters"))
    else
      var withName := if name != "" then u.(name := name) else u;
      var withPassword := if password != "" then withName.(passwordHash := P.HashPassword(password, salt, kdf))
                          else withName;
      Ok(withPassword.(updatedAt := nowMs))
  }

  /** After a password change the new password checks against the row, and
      the old one only if its key derivation coincides with the new one. */
  lemma PatchedPasswordChecks(u: User, nameRaw: string, password: string, previous: string,
                              salt: seq<B.Byte>, kdf: P.Kdf, nowMs: int)
    requires |salt| == 16 && |password| >= 8
    ensures var r := PatchUser(u, nameRaw, password, salt, kdf, nowMs);
      r.Ok? && P.VerifyPassword(password, r.value.passwordHash, kdf)
      && (P.VerifyPassword(previous, r.value.passwordHash, kdf) <==> kdf(previous, salt) == kdf(password, salt))
  {
    P.VerifyHashed(password, password, salt, kdf);
    P.VerifyHashed(previous, password, salt, kdf);
  }

  /** Patching keeps the table well formed: ids and emails do not move. */
  lemma PatchKeepsWellFormed(users: map<string, User>, id: string, v: User)
    requires WellFormed(users) && id in users
    requires v.id == id && v.email == users[id].email
    ensures WellFormed(users[id := v])
  {
  }

  // ---------------------------------------------------------------------
  // The table

  class UserStore {
    var users: map<string, User>

    ghost predicate Valid()
      reads this
    {
      WellFormed(users)
    }

    constructor ()
      ensures Valid() && users == map[]
    {
      users := map[];
    }

    /** The `register` action; `newId` is the id the database assigns and
        `salt` the random salt. */
    method Register(emailRaw: string, nameRaw: string, password: string, salt: seq<B.Byte>,
                    kdf: P.Kdf, newId: string, nowMs: int) returns (r: Result<map<string, Field>>)
      requires Valid() && newId != "" && newId !in users && |salt| == 16
      modifies this
      ensures Valid()
      ensures RegisterInput(emailRaw, nameRaw, password).Err? ==>
        r == Err(RegisterInput(emailRaw, nameRaw, password).error) && users == old(users)
      ensures RegisterInput(emailRaw, nameRaw, password).Ok? && EmailTaken(old(users), NormalizeEmail(emailRaw)) ==>
        r == Err(Conflict("Email already exists")) && users == old(users)
      ensures RegisterInput(emailRaw, nameRaw, password).Ok? && !EmailTaken(old(users), NormalizeEmail(emailRaw)) ==>
        var u := NewUser(newId, NormalizeEmail(emailRaw), Trim(nameRaw), password, salt, kdf, nowMs);
        users == old(users)[newId := u] && r == Ok(PickUserPublic(ViewOf(u)))
    {
      var input := RegisterInput(emailRaw, nameRaw, password);
      if input.Err? {
        return Err(input.error);
      }
      var (email, name) := input.value;
      if EmailTaken(users, email) {
        return Err(Conflict("Email already exists"));
      }
      var u := NewUser(newId, email, name, password, salt, kdf, nowMs);
      InsertKeepsWellFormed(users, u);
      users := users[newId := u];
      return Ok(PickUserPublic(ViewOf(u)));
    }

    /** PATCH: update the caller's own name and/or password. */
    method UpdateSelf(token: string, ctx: AuthContext, nameRaw: string, password: string,
                      salt: seq<B.Byte>, kdf: P.Kdf) returns (r: Result<map<string, Field>>)
      requires Valid() && |salt| == 16
      modifies this
      ensures Valid()
      ensures Authenticate(old(users), token, ctx).Err? ==> r == Err(Unauthorized()) && users == old(users)
      ensures Authenticate(old(users), token, ctx).Ok? ==>
        var me := Authenticate(old(users), token, ctx).value;
        var p := PatchUser(me, nameRaw, password, salt, kdf, ctx.nowMs);
        (p.Err? ==> r == Err(p.error) && users == old(users))
        && (p.Ok? ==> users == old(users)[me.id := p.value] && r == Ok(PickUserPublic(ViewOf(p.value))))
    {
      var auth := Authenticate(users, token, ctx);
      if auth.Err? {
        return Err(auth.error);
      }
      var me := auth.value;
      var p := PatchUser(me, nameRaw, password, salt, kdf, ctx.nowMs);
      if p.Err? {
        return Err(p.error);
      }
      PatchKeepsWellFormed(users, me.id, p.value);
      users := users[me.id := p.value];
      return Ok(PickUserPublic(ViewOf(p.value)));
    }

    /** DELETE: remove the caller's own row. */
    method DeleteSelf(token: string, ctx: AuthContext) returns (r: Result<bool>)
      requires Valid()
      modifies this
      ensures Valid()
      ensures Authenticate(old(users), token, ctx).Err? ==> r == Err(Unauthorized()) && users == old(users)
      ensures Authenticate(old(users), token, ctx).Ok? ==>
        r == Ok(true) && users == old(users) - {Authenticate(old(users), token, ctx).value.id}
    {
      var auth := Authenticate(users, token, ctx);
      if auth.Err? {
        return Err(auth.error);
      }
      users := users - {auth.value.id};
      return Ok(true);
    }
  }
}

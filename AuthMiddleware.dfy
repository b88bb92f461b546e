/** The authentication middleware (server/middleware/auth.js). The decision
    is a function of the Authorization header, the token verifier and the
    users collection; each middleware is a method that may assign `req.user`
    and then either answers or passes the request on, exactly once. */
module AuthMiddleware {
  import opened JsBuiltins
  import opened Http
  import opened Identity

  /** `jwt.verify(token, secret).id`, None when verification throws. */
  type Verifier = string -> Option<UserId>

  const BearerPrefix := "Bearer "

  /** `req.header('Authorization')?.replace('Bearer ', '')`: the first
      occurrence of the prefix is removed, wherever it is. */
  function BearerToken(header: Option<string>): (t: Option<string>)
    ensures t.None? <==> header.None?
    ensures header.Some? ==> t.value == ReplaceFirst(header.value, BearerPrefix, "")
  {
    match header
    case None => None
    case Some(h) => Some(ReplaceFirst(h, BearerPrefix, ""))
  }

  /** A token the code tests with `if (!token)`: missing or empty. */
  predicate NoToken(header: Option<string>) {
    BearerToken(header).None? || BearerToken(header).value == ""
  }

  datatype Authentication = Missing | Invalid | Authenticated(user: User)

  /** What the header establishes: no token, a token that does not verify or
      names no user, or the user it names. */
  function Authenticate(header: Option<string>, verify: Verifier, accounts: seq<Account>): (a: Authentication)
    ensures a.Missing? <==> NoToken(header)
    ensures a.Authenticated? <==>
      !NoToken(header) && verify(BearerToken(header).value).Some? &&
      FindById(accounts, verify(BearerToken(header).value).value).Some?
    ensures a.Authenticated? ==>
      a.user == FindById(accounts, verify(BearerToken(header).value).value).value &&
      a.user.id == verify(BearerToken(header).value).value
  {
    if NoToken(header) then Missing
    else
      match verify(BearerToken(header).value)
      case None => Invalid
      case Some(id) =>
        match FindById(accounts, id)
        case None => Invalid
        case Some(u) => Authenticated(u)
  }

  /** With no token the verifier is not called and no user is looked up: the
      verdict is the same whatever they would answer. */
  lemma MissingTokenIgnoresLookup(header: Option<string>, v1: Verifier, a1: seq<Account>, v2: Verifier, a2: seq<Account>)
    requires NoToken(header)
    ensures Authenticate(header, v1, a1) == Authenticate(header, v2, a2) == Missing
  {
  }

  /** A token sent as `Bearer <token>` that verifies to an existing user's id
      authenticates the user with that id. */
  lemma BearerTokenAuthenticates(token: string, verify: Verifier, accounts: seq<Account>, id: UserId)
    requires token != "" && verify(token) == Some(id) && FindById(accounts, id).Some?
    ensures var a := Authenticate(Some(BearerPrefix + token), verify, accounts);
      a == Authenticated(FindById(accounts, id).value) && a.user.id == id
  {
    ReplaceFirstAtFront(BearerPrefix, token);
  }

  /** A token for an id that no user has is rejected like a bad signature. */
  lemma UnknownIdIsInvalid(header: Option<string>, verify: Verifier, accounts: seq<Account>)
    requires !NoToken(header) && verify(BearerToken(header).value).Some?
    requires forall i :: 0 <= i < |accounts| ==> accounts[i].user.id != verify(BearerToken(header).value).value
    ensures Authenticate(header, verify, accounts) == Invalid
  {
  }

  /** A header without the prefix is handed to the verifier as it is. */
  lemma RawHeaderIsToken(header: string)
    requires forall j :: 0 <= j <= |header| ==> !OccursAt(header, BearerPrefix, j)
    ensures BearerToken(Some(header)) == Some(header)
  {
  }

  // ---------------------------------------------------------------------------
  // auth, adminAuth, softAuth as functions of the request state ...
  // ---------------------------------------------------------------------------

  /** auth: 401 for a missing token, 401 for a token that does not lead to a
      user (the catch block answers the same as the explicit check), and
      otherwise req.user is set and next() is called. */
  function AuthStep(header: Option<string>, verify: Verifier, accounts: seq<Account>): (o: Outcome)
    ensures o == Next <==> Authenticate(header, verify, accounts).Authenticated?
    ensures o != Next ==> o.status == Unauthorized
    ensures o == Respond(Unauthorized, TokenMissing) <==> NoToken(header)
  {
    match Authenticate(header, verify, accounts)
    case Missing => Respond(Unauthorized, TokenMissing)
    case Invalid => Respond(Unauthorized, TokenInvalid)
    case Authenticated(_) => Next
  }

  /** adminAuth: next() exactly for an admin, 403 for any other user. When no
      earlier middleware set req.user, `req.user.role` throws, and Express's
      error handler answers 500. */
  function AdminStep(user: Option<User>): (o: Outcome)
    ensures o == Next <==> IsAdmin(user)
    ensures user.Some? && !IsAdmin(user) ==> o == Respond(Forbidden, AdminOnly)
    ensures user.None? ==> o == Respond(ServerError, InternalError)
  {
    if user.None? then Respond(ServerError, InternalError)
    else if user.value.role != AdminRole then Respond(Forbidden, AdminOnly)
    else Next
  }

  /** softAuth's effect on req.user: set only when a token is present,
      verifies, and names an existing user. */
  function SoftUser(header: Option<string>, verify: Verifier, accounts: seq<Account>, user: Option<User>): (u: Option<User>)
    ensures Authenticate(header, verify, accounts).Authenticated? ==>
      u == Some(Authenticate(header, verify, accounts).user)
    ensures !Authenticate(header, verify, accounts).Authenticated? ==> u == user
  {
    match Authenticate(header, verify, accounts)
    case Authenticated(v) => Some(v)
    case _ => user
  }

  /** auth and softAuth agree on the user whenever auth lets the request
      through; where auth answers 401, softAuth leaves req.user alone. */
  lemma SoftAuthAgreesWithAuth(header: Option<string>, verify: Verifier, accounts: seq<Account>, user: Option<User>)
    ensures AuthStep(header, verify, accounts) == Next ==>
      SoftUser(header, verify, accounts, user) == Some(Authenticate(header, verify, accounts).user)
    ensures AuthStep(header, verify, accounts) != Next ==> SoftUser(header, verify, accounts, user) == user
  {
  }

  // ---------------------------------------------------------------------------
  // ... and as methods on the request
  // ---------------------------------------------------------------------------

  method Auth(req: Request, verify: Verifier, accounts: seq<Account>) returns (o: Outcome)
    modifies req
    ensures o == AuthStep(req.authorization, verify, accounts)
    ensures o == Next ==> req.user == Some(Authenticate(req.authorization, verify, accounts).user)
    ensures o != Next ==> req.user == old(req.user)
    ensures req.errors == old(req.errors)
  {
    var a := Authenticate(req.authorization, verify, accounts);
    match a
    case Missing =>
      o := Respond(Unauthorized, TokenMissing);
    case Invalid =>
      o := Respond(Unauthorized, TokenInvalid);
    case Authenticated(u) =>
      req.user := Some(u);
      o := Next;
  }

  method AdminAuth(req: Request) returns (o: Outcome)
    ensures o == AdminStep(req.user)
  {
    if req.user.None? {
      // `req.user.role` throws a TypeError; Express's default handler answers.
      return Respond(ServerError, InternalError);
    }
    if req.user.value.role != AdminRole {
      return Respond(Forbidden, AdminOnly);
    }
    o := Next;
  }

  /** softAuth never answers: it always calls next(). */
  method SoftAuth(req: Request, verify: Verifier, accounts: seq<Account>) returns (o: Outcome)
    modifies req
    ensures o == Next
    ensures req.user == SoftUser(req.authorization, verify, accounts, old(req.user))
    ensures req.errors == old(req.errors)
  {
    var a := Authenticate(req.authorization, verify, accounts);
    if a.Authenticated? {
      req.user := Some(a.user);
    }
    o := Next;
  }
}

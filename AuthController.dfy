/** The account handlers (server/controllers/authController.js): register
    inserts a user, login and getProfile only read. Tokens come from an
    abstract signer, and the password check from an abstract predicate that
    stands for bcrypt's comparison. */
module AuthController {
  import opened JsBuiltins
  import opened Http
  import opened Identity

  /** generateToken: `jwt.sign({ id }, secret, { expiresIn: '30d' })`. */
  type Signer = UserId -> string

  /** user.comparePassword(candidate) against the stored password. */
  type PasswordCheck = (Option<string>, string) -> bool

  const AdminEmail := "admin@blog.com"

  /** The `user` object of the register and login responses. */
  datatype UserView = UserView(id: UserId, name: string, email: string, role: string)

  /** The register and login payload: a token and the user's public fields. */
  datatype Session = Session(token: string, user: UserView)

  /** The `user` object of the profile response. */
  datatype Profile = Profile(id: UserId, name: string, email: string, role: string, avatar: Option<string>)

  function View(u: User): (v: UserView)
    ensures v.id == u.id && v.name == u.name && v.email == u.email && v.role == u.role
  {
    UserView(u.id, u.name, u.email, u.role)
  }

  /** The role rule: `email === 'admin@blog.com' ? 'admin' : 'user'`. */
  function RoleFor(email: string): (role: string)
    ensures role == AdminRole <==> email == AdminEmail
    ensures role == AdminRole || role == UserRole
  {
    if email == AdminEmail then AdminRole else UserRole
  }

  /** `User.findOne({ email })`: the first user, in insertion order, with that
      email. An absent email matches no user. */
  function FindByEmail(accounts: seq<Account>, email: Option<string>): (r: Option<UserId>)
    ensures r.None? <==> email.None? || forall i :: 0 <= i < |accounts| ==> accounts[i].user.email != email.value
    ensures r.Some? ==>
      r.value < |accounts| && accounts[r.value].user.email == email.value &&
      forall i :: 0 <= i < r.value ==> accounts[i].user.email != email.value
    decreases |accounts|
  {
    if email.None? || accounts == [] then None
    else if accounts[0].user.email == email.value then Some(0)
    else
      match FindByEmail(accounts[1..], email)
      case None => None
      case Some(i) => Some(i + 1)
  }

  /** No two users share an email. */
  predicate EmailsUnique(accounts: seq<Account>) {
    forall i, j :: 0 <= i < j < |accounts| ==> accounts[i].user.email != accounts[j].user.email
  }

  // ---------------------------------------------------------------------------
  // register
  // ---------------------------------------------------------------------------

  datatype Registration = Registration(reply: Reply<Session>, accounts: seq<Account>)

  /** register, given the validation errors: 400 with the errors before any
      lookup, 400 for a taken email, and otherwise a new user whose role
      follows the role rule, answered with 201, a token for the new id and
      the user's public fields. The User model is not part of this model; a
      body without name, email or password is taken to fail its required
      fields, so created raises and the catch block answers 500. */
  function Registered(accounts: seq<Account>, errors: seq<FieldError>, b: Body, sign: Signer): (g: Registration)
    ensures errors != [] ==> g == Registration(Rejected(errors), accounts)
    ensures g.reply.Success? <==>
      errors == [] && b.name.Some? && b.email.Some? && b.password.Some? && FindByEmail(accounts, b.email).None?
    ensures !g.reply.Success? ==> g.accounts == accounts
    ensures errors == [] && FindByEmail(accounts, b.email).Some? ==>
      g == Registration(Failure(BadRequest, EmailInUse), accounts)
    ensures g.reply.Success? ==>
      var u := User(|accounts|, b.name.value, b.email.value, RoleFor(b.email.value), None);
      g.accounts == accounts + [Account(u, b.password.value)] &&
      g.reply == Success(Created, Session(sign(|accounts|), View(u)))
  {
    if errors != [] then Registration(Rejected(errors), accounts)
    else if FindByEmail(accounts, b.email).Some? then Registration(Failure(BadRequest, EmailInUse), accounts)
    else if b.name.None? || b.email.None? || b.password.None? then
      Registration(Failure(ServerError, InternalError), accounts)
    else
      var id := |accounts|;
      var u := User(id, b.name.value, b.email.value, RoleFor(b.email.value), None);
      Registration(Success(Created, Session(sign(id), View(u))), accounts + [Account(u, b.password.value)])
  }

  /** The validation verdict comes before any lookup: with errors the answer
      does not depend on the users collection. */
  lemma RegisterRejectsBeforeLookup(a1: seq<Account>, a2: seq<Account>, errors: seq<FieldError>, b: Body, sign: Signer)
    requires errors != []
    ensures Registered(a1, errors, b, sign).reply == Registered(a2, errors, b, sign).reply == Rejected(errors)
  {
  }

  /** register keeps the collection well numbered with unique emails. */
  lemma RegisterKeepsEmailsUnique(accounts: seq<Account>, errors: seq<FieldError>, b: Body, sign: Signer)
    requires WellNumbered(accounts) && EmailsUnique(accounts)
    ensures var g := Registered(accounts, errors, b, sign);
      WellNumbered(g.accounts) && EmailsUnique(g.accounts) && |g.accounts| <= |accounts| + 1
  {
  }

  /** The register response does not depend on the password. */
  lemma RegisterReplyHidesPassword(accounts: seq<Account>, errors: seq<FieldError>, b: Body, p1: string, p2: string, sign: Signer)
    ensures Registered(accounts, errors, b.(password := Some(p1)), sign).reply
         == Registered(accounts, errors, b.(password := Some(p2)), sign).reply
  {
  }

  // ---------------------------------------------------------------------------
  // login and getProfile
  // ---------------------------------------------------------------------------

  /** login: the same 401 for an unknown email and for a wrong password;
      otherwise a token for that user's id. The validation errors recorded
      by the route are never consulted. */
  function LoginReply(accounts: seq<Account>, b: Body, matches: PasswordCheck, sign: Signer): (r: Reply<Session>)
    ensures r.Success? <==>
      FindByEmail(accounts, b.email).Some? && matches(b.password, accounts[FindByEmail(accounts, b.email).value].password)
    ensures !r.Success? ==> r == Failure(Unauthorized, InvalidCredentials)
    ensures r.Success? ==>
      var i := FindByEmail(accounts, b.email).value;
      r == Success(OK, Session(sign(accounts[i].user.id), View(accounts[i].user)))
  {
    match FindByEmail(accounts, b.email)
    case None => Failure(Unauthorized, InvalidCredentials)
    case Some(i) =>
      if !matches(b.password, accounts[i].password) then Failure(Unauthorized, InvalidCredentials)
      else
        var u := accounts[i].user;
        Success(OK, Session(sign(u.id), View(u)))
  }

  function Users(accounts: seq<Account>): (us: seq<User>)
    ensures |us| == |accounts| && forall i :: 0 <= i < |accounts| ==> us[i] == accounts[i].user
  {
    seq(|accounts|, i requires 0 <= i < |accounts| => accounts[i].user)
  }

  /** A successful login reveals nothing of the stored passwords: two
      collections with the same users give the same answer. */
  lemma LoginReplyHidesPassword(a1: seq<Account>, a2: seq<Account>, b: Body, m1: PasswordCheck, m2: PasswordCheck, sign: Signer)
    requires Users(a1) == Users(a2)
    requires LoginReply(a1, b, m1, sign).Success? && LoginReply(a2, b, m2, sign).Success?
    ensures LoginReply(a1, b, m1, sign) == LoginReply(a2, b, m2, sign)
  {
    assert forall i :: 0 <= i < |a1| ==> a1[i].user == Users(a1)[i] == Users(a2)[i] == a2[i].user;
    assert FindByEmail(a1, b.email) == FindByEmail(a2, b.email) by {
      FindByEmailOfUsers(a1, a2, b.email);
    }
  }

  lemma {:induction false} FindByEmailOfUsers(a1: seq<Account>, a2: seq<Account>, email: Option<string>)
    requires Users(a1) == Users(a2)
    ensures FindByEmail(a1, email) == FindByEmail(a2, email)
    decreases |a1|
  {
    if email.Some? && a1 != [] {
      assert a1[0].user == Users(a1)[0] == Users(a2)[0] == a2[0].user;
      assert Users(a1[1..]) == Users(a2[1..]) by {
        assert forall i :: 0 <= i < |a1| - 1 ==> a1[1..][i].user == Users(a1)[i + 1] == Users(a2)[i + 1] == a2[1..][i].user;
      }
      FindByEmailOfUsers(a1[1..], a2[1..], email);
    }
  }

  /** A user who registered can log in with the password they chose, and gets
      a token for their own id. */
  lemma RegisterThenLogin(accounts: seq<Account>, b: Body, matches: PasswordCheck, sign: Signer)
    requires WellNumbered(accounts) && EmailsUnique(accounts)
    requires Registered(accounts, [], b, sign).reply.Success?
    requires matches(b.password, b.password.value)
    ensures var g := Registered(accounts, [], b, sign);
      LoginReply(g.accounts, b, matches, sign) == Success(OK, Session(sign(|accounts|), g.reply.value.user))
  {
    var g := Registered(accounts, [], b, sign);
    var n := |accounts|;
    assert g.accounts[n].user.email == b.email.value;
    assert forall i :: 0 <= i < n ==> g.accounts[i] == accounts[i];
  }

  /** getProfile: the user's id, name, email, role and avatar. Without a user
      `req.user._id` throws and the catch block answers 500. */
  function GetProfile(user: Option<User>): (r: Reply<Profile>)
    ensures user.None? ==> r == Failure(ServerError, InternalError)
    ensures user.Some? ==>
      var u := user.value;
      r.Success? && r.status == OK &&
      r.value.id == u.id && r.value.name == u.name && r.value.email == u.email &&
      r.value.role == u.role && r.value.avatar == u.avatar
  {
    match user
    case None => Failure(ServerError, InternalError)
    case Some(u) => Success(OK, Profile(u.id, u.name, u.email, u.role, u.avatar))
  }

  // ---------------------------------------------------------------------------
  // The users collection
  // ---------------------------------------------------------------------------

  class UserStore {
    var accounts: seq<Account>

    ghost predicate Valid()
      reads this
    {
      WellNumbered(accounts) && EmailsUnique(accounts)
    }

    constructor ()
      ensures Valid() && accounts == []
    {
      accounts := [];
    }

    /** register on the collection. */
    method Register(errors: seq<FieldError>, b: Body, sign: Signer) returns (r: Reply<Session>)
      requires Valid()
      modifies this
      ensures Valid()
      ensures Registration(r, accounts) == Registered(old(accounts), errors, b, sign)
    {
      var g := Registered(accounts, errors, b, sign);
      RegisterKeepsEmailsUnique(accounts, errors, b, sign);
      accounts := g.accounts;
      r := g.reply;
    }

    /** login reads the collection and changes nothing. */
    method Login(b: Body, matches: PasswordCheck, sign: Signer) returns (r: Reply<Session>)
      ensures r == LoginReply(accounts, b, matches, sign)
    {
      r := LoginReply(accounts, b, matches, sign);
    }
  }
}

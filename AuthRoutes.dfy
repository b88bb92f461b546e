/** The account routes (server/routes/auth.js): registerValidation and
    loginValidation, the profile route's auth, and each route served end to
    end on a request and the users collection. */
module AuthRoutes {
  import opened JsBuiltins
  import opened Http
  import opened Identity
  import opened AuthMiddleware
  import opened Validation
  import opened Pipeline
  import opened AuthController

  /** registerValidation: a name of 2 to 50 characters, an email, and a
      password of at least 6 characters. */
  const RegisterValidation: seq<Rule> := [Length(Name, 2, Some(50)), IsEmail(Email), Length(Password, 6, None)]

  /** loginValidation: an email, and a password that is present. */
  const LoginValidation: seq<Rule> := [IsEmail(Email), Exists(Password)]

  const RegisterChain: seq<Stage> := Validations(RegisterValidation)
  const LoginChain: seq<Stage> := Validations(LoginValidation)
  const ProfileChain: seq<Stage> := [AuthStage]

  const Start := ChainState(Next, None, [])

  /** registerValidation records an error exactly when the name is outside
      2..50 characters, the email is not one, or the password is shorter than
      6 characters (an absent field counts as empty). */
  lemma RegisterValidationErrors(b: Body, isEmail: string -> bool)
    ensures Errors(RegisterValidation, b, isEmail) == [] <==>
      2 <= |b.name.GetOr("")| <= 50 && isEmail(b.email.GetOr("")) && |b.password.GetOr("")| >= 6
  {
    assert RegisterValidation[0] == Length(Name, 2, Some(50));
    assert RegisterValidation[1] == IsEmail(Email);
    assert RegisterValidation[2] == Length(Password, 6, None);
  }

  /** The validation chains never answer: they only record errors. */
  lemma ValidationChainsPass(header: Option<string>, b: Body, env: Env)
    ensures Run(RegisterChain, header, b, Start, env) == ChainState(Next, None, Errors(RegisterValidation, b, env.isEmail))
    ensures Run(LoginChain, header, b, Start, env) == ChainState(Next, None, Errors(LoginValidation, b, env.isEmail))
  {
    RunValidations(RegisterValidation, header, b, Start, env);
    RunValidations(LoginValidation, header, b, Start, env);
  }

  /** POST /auth/register: a failed validation reaches register, which
      answers 400 with the errors and creates no user. */
  method ServeRegister(users: UserStore, req: Request, env: Env, sign: Signer) returns (r: Reply<Session>)
    requires users.Valid() && req.user.None? && req.errors == []
    modifies users, req
    ensures users.Valid()
    ensures Registration(r, users.accounts)
      == Registered(old(users.accounts), Errors(RegisterValidation, req.body, env.isEmail), req.body, sign)
    ensures Errors(RegisterValidation, req.body, env.isEmail) != [] ==>
      r == Rejected(Errors(RegisterValidation, req.body, env.isEmail)) && users.accounts == old(users.accounts)
  {
    ValidationChainsPass(req.authorization, req.body, env);
    var o := RunChain(req, RegisterChain, env);
    r := users.Register(req.errors, req.body, sign);
  }

  /** POST /auth/login: loginValidation runs, but its errors are never read,
      so the answer is login's whatever they are. */
  method ServeLogin(users: UserStore, req: Request, env: Env, matches: PasswordCheck, sign: Signer) returns (r: Reply<Session>)
    requires req.user.None? && req.errors == []
    modifies req
    ensures r == LoginReply(users.accounts, req.body, matches, sign)
  {
    var o := RunChain(req, LoginChain, env);
    r := users.Login(req.body, matches, sign);
  }

  /** GET /auth/profile: 401 without a token that names a user, otherwise the
      profile of the user it names. */
  method ServeProfile(users: UserStore, req: Request, verify: Verifier, isEmail: string -> bool) returns (r: Reply<Profile>)
    requires req.user.None? && req.errors == []
    modifies req
    ensures var a := Authenticate(req.authorization, verify, users.accounts);
      (!a.Authenticated? ==>
        r == Failure(Unauthorized, if a.Missing? then TokenMissing else TokenInvalid)) &&
      (a.Authenticated? ==> r == GetProfile(Some(a.user)))
  {
    var env := Env(verify, users.accounts, isEmail);
    var o := RunChain(req, ProfileChain, env);
    if o.Respond? {
      return Failure(o.status, o.message);
    }
    r := GetProfile(req.user);
  }
}

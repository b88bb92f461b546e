/** Express running a route's middleware chain: each stage either answers,
    which ends the request, or calls next(), which runs the following stage. */
module Pipeline {
  import opened JsBuiltins
  import opened Http
  import opened Identity
  import opened AuthMiddleware
  import opened Validation

  datatype Stage = SoftAuthStage | AuthStage | AdminAuthStage | Validate(rule: Rule)

  /** The collaborators the middleware consults: the token verifier, the users
      collection, and validator.js's e-mail grammar. */
  datatype Env = Env(verify: Verifier, accounts: seq<Account>, isEmail: string -> bool)

  /** The request state after a chain: how it ended, req.user, and the
      recorded validation errors. */
  datatype ChainState = ChainState(outcome: Outcome, user: Option<User>, errors: seq<FieldError>)

  function StageStep(s: Stage, header: Option<string>, b: Body, st: ChainState, env: Env): (r: ChainState)
    ensures s.Validate? ==> r == ChainState(Next, st.user, st.errors + Errors([s.rule], b, env.isEmail))
    ensures s.SoftAuthStage? ==> r.outcome == Next && r.errors == st.errors
    ensures !s.Validate? ==> r.errors == st.errors
  {
    match s
    case SoftAuthStage => ChainState(Next, SoftUser(header, env.verify, env.accounts, st.user), st.errors)
    case AuthStage =>
      var o := AuthStep(header, env.verify, env.accounts);
      if o == Next then ChainState(o, Some(Authenticate(header, env.verify, env.accounts).user), st.errors)
      else st.(outcome := o)
    case AdminAuthStage => st.(outcome := AdminStep(st.user))
    case Validate(rule) => ChainState(Next, st.user, st.errors + Errors([rule], b, env.isEmail))
  }

  /** The chain from a request state whose outcome so far is Next. */
  function Run(chain: seq<Stage>, header: Option<string>, b: Body, st: ChainState, env: Env): (r: ChainState)
    ensures chain == [] ==> r == st
    ensures chain != [] && StageStep(chain[0], header, b, st, env).outcome.Respond? ==> r == StageStep(chain[0], header, b, st, env)
    ensures |st.errors| <= |r.errors| && r.errors[..|st.errors|] == st.errors
    decreases |chain|
  {
    if chain == [] then st
    else
      var st' := StageStep(chain[0], header, b, st, env);
      if st'.outcome.Respond? then st'
      else
        var r := Run(chain[1..], header, b, st', env);
        assert r.errors[..|st.errors|] == r.errors[..|st'.errors|][..|st.errors|];
        r
  }

  /** The stages of an array of validation chains, such as postValidation. */
  function Validations(rules: seq<Rule>): (chain: seq<Stage>)
    ensures |chain| == |rules|
    ensures forall i :: 0 <= i < |rules| ==> chain[i] == Validate(rules[i])
  {
    if rules == [] then [] else [Validate(rules[0])] + Validations(rules[1..])
  }

  lemma ErrorsCons(rules: seq<Rule>, b: Body, isEmail: string -> bool)
    requires rules != []
    ensures Errors(rules, b, isEmail) == Errors([rules[0]], b, isEmail) + Errors(rules[1..], b, isEmail)
  {
    assert [rules[0]][1..] == [];
  }

  lemma ErrorsAppend(pre: seq<FieldError>, rules: seq<Rule>, b: Body, isEmail: string -> bool)
    requires rules != []
    ensures (pre + Errors([rules[0]], b, isEmail)) + Errors(rules[1..], b, isEmail) == pre + Errors(rules, b, isEmail)
  {
    ErrorsCons(rules, b, isEmail);
  }

  /** A validation stage at the head of a chain records its rule's errors and
      hands over to the rest of the chain. */
  lemma RunValidate(chain: seq<Stage>, header: Option<string>, b: Body, st: ChainState, env: Env)
    requires chain != [] && chain[0].Validate?
    ensures Run(chain, header, b, st, env)
      == Run(chain[1..], header, b, ChainState(Next, st.user, st.errors + Errors([chain[0].rule], b, env.isEmail)), env)
  {
  }

  /** A chain made of validations only never answers and records the errors
      of its rules, in order. */
  lemma {:induction false} RunValidations(rules: seq<Rule>, header: Option<string>, b: Body, st: ChainState, env: Env)
    ensures Run(Validations(rules), header, b, st, env)
      == ChainState(if rules == [] then st.outcome else Next, st.user, st.errors + Errors(rules, b, env.isEmail))
    decreases |rules|
  {
    if rules != [] {
      var chain := Validations(rules);
      assert chain[0] == Validate(rules[0]) && chain[1..] == Validations(rules[1..]);
      RunValidate(chain, header, b, st, env);
      var st' := ChainState(Next, st.user, st.errors + Errors([rules[0]], b, env.isEmail));
      RunValidations(rules[1..], header, b, st', env);
      ErrorsAppend(st.errors, rules, b, env.isEmail);
    }
  }

  /** Running a chain on the request. */
  method RunChain(req: Request, chain: seq<Stage>, env: Env) returns (o: Outcome)
    modifies req
    ensures ChainState(o, req.user, req.errors)
      == Run(chain, req.authorization, req.body, ChainState(Next, old(req.user), old(req.errors)), env)
    decreases |chain|
  {
    if chain == [] {
      return Next;
    }
    match chain[0] {
      case SoftAuthStage =>
        o := SoftAuth(req, env.verify, env.accounts);
      case AuthStage =>
        o := Auth(req, env.verify, env.accounts);
      case AdminAuthStage =>
        o := AdminAuth(req);
      case Validate(rule) =>
        o := Check(req, rule, env.isEmail);
    }
    if o == Next {
      o := RunChain(req, chain[1..], env);
    }
  }
}

/** The post routes (server/routes/posts.js): which middleware runs before
    each handler, the length rules of postValidation, and each route served
    end to end on a request and the post collection. */
module PostRoutes {
  import opened JsBuiltins
  import opened Http
  import opened Identity
  import opened AuthMiddleware
  import opened Validation
  import opened Pipeline
  import opened PostSchema
  import opened PostController

  /** postValidation: a title of 1 to 200 characters and a non-empty content. */
  const PostValidation: seq<Rule> := [Length(Title, 1, Some(TitleMaxLength)), Length(Content, 1, None)]

  const ListChain: seq<Stage> := [SoftAuthStage]
  const ReadChain: seq<Stage> := []
  const LikeChain: seq<Stage> := [AuthStage]
  const CreateChain: seq<Stage> := [AuthStage, AdminAuthStage] + Validations(PostValidation)
  const UpdateChain: seq<Stage> := [AuthStage, AdminAuthStage]
  const DeleteChain: seq<Stage> := [AuthStage, AdminAuthStage]

  /** A fresh request: no user yet, no errors recorded. */
  const Start := ChainState(Next, None, [])

  /** postValidation fails exactly on a title outside 1..200 characters or an
      empty or missing content. */
  lemma PostValidationErrors(b: Body, isEmail: string -> bool)
    ensures Errors(PostValidation, b, isEmail) == [] <==>
      1 <= |b.title.GetOr("")| <= TitleMaxLength && |b.content.GetOr("")| >= 1
  {
    assert PostValidation[0] == Length(Title, 1, Some(TitleMaxLength));
    assert PostValidation[1] == Length(Content, 1, None);
  }

  /** The admin routes: auth runs before adminAuth, so a missing or bad token
      is answered 401 and a valid non-admin 403, and only an admin gets past
      them, with req.user set. Create adds postValidation's errors; update and
      delete validate nothing. */
  lemma AdminChains(chain: seq<Stage>, header: Option<string>, b: Body, env: Env)
    requires chain == CreateChain || chain == UpdateChain || chain == DeleteChain
    ensures var a := Authenticate(header, env.verify, env.accounts);
      var st := Run(chain, header, b, Start, env);
      (a.Missing? ==> st.outcome == Respond(Unauthorized, TokenMissing)) &&
      (a.Invalid? ==> st.outcome == Respond(Unauthorized, TokenInvalid)) &&
      (a.Authenticated? && a.user.role != AdminRole ==> st.outcome == Respond(Forbidden, AdminOnly)) &&
      (a.Authenticated? && a.user.role == AdminRole ==>
        st.outcome == Next && st.user == Some(a.user) &&
        st.errors == (if chain == CreateChain then Errors(PostValidation, b, env.isEmail) else []))
  {
    var a := Authenticate(header, env.verify, env.accounts);
    if chain == CreateChain {
      assert CreateChain[2..] == Validations(PostValidation);
      var st := StageStep(AdminAuthStage, header, b, StageStep(AuthStage, header, b, Start, env), env);
      RunValidations(PostValidation, header, b, st, env);
    }
  }

  /** Liking needs a valid token but no particular role. */
  lemma LikeChainGate(header: Option<string>, b: Body, env: Env)
    ensures var st := Run(LikeChain, header, b, Start, env);
      st.outcome == AuthStep(header, env.verify, env.accounts) &&
      (st.outcome == Next ==> st.user == Some(Authenticate(header, env.verify, env.accounts).user)) &&
      st.errors == []
  {
  }

  /** The listing never answers before getPosts; it only may learn the user. */
  lemma ListChainPasses(header: Option<string>, b: Body, env: Env)
    ensures Run(ListChain, header, b, Start, env) == ChainState(Next, SoftUser(header, env.verify, env.accounts, None), [])
  {
  }

  // ---------------------------------------------------------------------------
  // The routes served on a request and the collection
  // ---------------------------------------------------------------------------

  function Halted<T>(o: Outcome): Reply<T>
    requires o.Respond?
  {
    Failure(o.status, o.message)
  }

  /** GET /posts */
  method ServeList(store: PostStore, req: Request, q: ListQuery, env: Env) returns (r: Reply<ListResult>)
    requires req.user.None? && req.errors == []
    modifies req
    ensures r == GetPosts(store.posts, SoftUser(req.authorization, env.verify, env.accounts, None), q)
  {
    ListChainPasses(req.authorization, req.body, env);
    var o := RunChain(req, ListChain, env);
    r := store.List(req.user, q);
  }

  /** GET /posts/:id, with no middleware: getPost never knows the caller. */
  method ServeRead(store: PostStore, req: Request, id: PostId) returns (r: Reply<Post>)
    requires store.Valid()
    modifies store
    ensures store.Valid()
    ensures id !in old(store.posts) || !old(store.posts)[id].published ==>
      r == Failure(NotFound, PostNotFound) && store.posts == old(store.posts)
    ensures id in old(store.posts) && old(store.posts)[id].published ==>
      r.Success? && store.posts == old(store.posts)[id := r.value] &&
      r.value == old(store.posts)[id].(views := old(store.posts)[id].views + 1)
  {
    r := store.GetPost(id);
  }

  /** POST /posts/:id/like */
  method ServeLike(store: PostStore, req: Request, id: PostId, env: Env) returns (r: Reply<nat>)
    requires store.Valid() && req.user.None? && req.errors == []
    modifies store, req
    ensures store.Valid() && store.nextId == old(store.nextId)
    ensures AuthStep(req.authorization, env.verify, env.accounts) != Next ==>
      r == Halted(AuthStep(req.authorization, env.verify, env.accounts)) && store.posts == old(store.posts)
    ensures AuthStep(req.authorization, env.verify, env.accounts) == Next && id in old(store.posts) ==>
      store.posts == Like(old(store.posts), id) && r == Success(OK, old(store.posts)[id].likes + 1)
    ensures AuthStep(req.authorization, env.verify, env.accounts) == Next && id !in old(store.posts) ==>
      r == Failure(NotFound, PostNotFound) && store.posts == old(store.posts)
  {
    LikeChainGate(req.authorization, req.body, env);
    var o := RunChain(req, LikeChain, env);
    if o.Respond? {
      return Halted(o);
    }
    r := store.LikePost(id);
  }

  /** POST /posts: only an admin with a valid body creates a post. */
  method ServeCreate(store: PostStore, req: Request, env: Env, now: int) returns (r: Reply<Post>)
    requires store.Valid() && req.user.None? && req.errors == []
    modifies store, req
    ensures store.Valid()
    ensures var a := Authenticate(req.authorization, env.verify, env.accounts);
      !(a.Authenticated? && a.user.role == AdminRole) ==>
        var o := Run(CreateChain, req.authorization, req.body, Start, env).outcome;
        o.Respond? && r == Halted(o) &&
        store.posts == old(store.posts) && store.nextId == old(store.nextId)
    ensures var a := Authenticate(req.authorization, env.verify, env.accounts);
      a.Authenticated? && a.user.role == AdminRole && Errors(PostValidation, req.body, env.isEmail) != [] ==>
        r == Rejected(Errors(PostValidation, req.body, env.isEmail)) &&
        store.posts == old(store.posts) && store.nextId == old(store.nextId)
    ensures var a := Authenticate(req.authorization, env.verify, env.accounts);
      a.Authenticated? && a.user.role == AdminRole && Errors(PostValidation, req.body, env.isEmail) == [] &&
      CreatedPost(old(store.nextId), req.body, a.user.id, now).None? ==>
        r == Failure(ServerError, InternalError) &&
        store.posts == old(store.posts) && store.nextId == old(store.nextId)
    ensures var a := Authenticate(req.authorization, env.verify, env.accounts);
      a.Authenticated? && a.user.role == AdminRole && Errors(PostValidation, req.body, env.isEmail) == [] &&
      CreatedPost(old(store.nextId), req.body, a.user.id, now).Some? ==>
        var p := CreatedPost(old(store.nextId), req.body, a.user.id, now).value;
        r == Success(Http.Created, p) &&
        store.posts == old(store.posts)[old(store.nextId) := p] && store.nextId == old(store.nextId) + 1
    ensures r.Success? ==>
      var a := Authenticate(req.authorization, env.verify, env.accounts);
      a.Authenticated? && a.user.role == AdminRole && Errors(PostValidation, req.body, env.isEmail) == [] &&
      CreatedPost(old(store.nextId), req.body, a.user.id, now) == Some(r.value) &&
      store.posts == old(store.posts)[old(store.nextId) := r.value]
  {
    AdminChains(CreateChain, req.authorization, req.body, env);
    var o := RunChain(req, CreateChain, env);
    if o.Respond? {
      return Halted(o);
    }
    var author := if req.user.Some? then Some(req.user.value.id) else None;
    r := store.CreatePost(req.errors, req.body, author, now);
  }

  /** PUT /posts/:id: only an admin changes a post. */
  method ServeUpdate(store: PostStore, req: Request, id: PostId, env: Env) returns (r: Reply<Post>)
    requires store.Valid() && req.user.None? && req.errors == []
    modifies store, req
    ensures store.Valid() && store.nextId == old(store.nextId)
    ensures var a := Authenticate(req.authorization, env.verify, env.accounts);
      !(a.Authenticated? && a.user.role == AdminRole) ==>
        var o := Run(UpdateChain, req.authorization, req.body, Start, env).outcome;
        o.Respond? && r == Halted(o) &&
        store.posts == old(store.posts)
    ensures var a := Authenticate(req.authorization, env.verify, env.accounts);
      a.Authenticated? && a.user.role == AdminRole && id !in old(store.posts) ==>
        r == Failure(NotFound, PostNotFound) && store.posts == old(store.posts)
    ensures var a := Authenticate(req.authorization, env.verify, env.accounts);
      a.Authenticated? && a.user.role == AdminRole && id in old(store.posts) &&
      Save(Updated(old(store.posts)[id], req.body)).None? ==>
        r == Failure(ServerError, InternalError) && store.posts == old(store.posts)
    ensures var a := Authenticate(req.authorization, env.verify, env.accounts);
      a.Authenticated? && a.user.role == AdminRole && id in old(store.posts) &&
      Save(Updated(old(store.posts)[id], req.body)).Some? ==>
        r == Success(OK, Updated(old(store.posts)[id], req.body)) &&
        store.posts == old(store.posts)[id := r.value]
    ensures store.posts != old(store.posts) ==>
      var a := Authenticate(req.authorization, env.verify, env.accounts);
      a.Authenticated? && a.user.role == AdminRole
  {
    AdminChains(UpdateChain, req.authorization, req.body, env);
    var o := RunChain(req, UpdateChain, env);
    if o.Respond? {
      return Halted(o);
    }
    r := store.UpdatePost(id, req.body);
  }

  /** DELETE /posts/:id: only an admin removes a post. */
  method ServeDelete(store: PostStore, req: Request, id: PostId, env: Env) returns (r: Reply<()>)
    requires store.Valid() && req.user.None? && req.errors == []
    modifies store, req
    ensures store.Valid() && store.nextId == old(store.nextId)
    ensures var a := Authenticate(req.authorization, env.verify, env.accounts);
      !(a.Authenticated? && a.user.role == AdminRole) ==>
        var o := Run(DeleteChain, req.authorization, req.body, Start, env).outcome;
        o.Respond? && r == Halted(o) &&
        store.posts == old(store.posts)
    ensures var a := Authenticate(req.authorization, env.verify, env.accounts);
      a.Authenticated? && a.user.role == AdminRole ==>
        (id in old(store.posts) ==> r == Success(OK, ()) && store.posts == old(store.posts) - {id}) &&
        (id !in old(store.posts) ==> r == Failure(NotFound, PostNotFound) && store.posts == old(store.posts))
  {
    AdminChains(DeleteChain, req.authorization, req.body, env);
    var o := RunChain(req, DeleteChain, env);
    if o.Respond? {
      return Halted(o);
    }
    r := store.DeletePost(id);
  }
}

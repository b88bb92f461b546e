/** The post handlers (server/controllers/postController.js) over an in-memory
    collection: a map from id to stored document. The listing is a function of
    the collection; the handlers that save or remove documents are methods of
    PostStore. */
module PostController {
  import opened JsBuiltins
  import opened Http
  import opened Identity
  import opened PostSchema

  // ---------------------------------------------------------------------------
  // getPosts: query parameters
  // ---------------------------------------------------------------------------

  /** req.query.page and req.query.limit, absent when not in the URL. */
  datatype ListQuery = ListQuery(page: Option<string>, limit: Option<string>)

  /** `parseInt(req.query.page) || 1`: the parsed value unless it is NaN or 0,
      negative values included. */
  function PageOf(q: ListQuery): (page: int)
    ensures page != 0
    ensures q.page.Some? && ParseInt(q.page.value).Some? && ParseInt(q.page.value).value != 0
            ==> page == ParseInt(q.page.value).value
    ensures q.page.None? || ParseInt(q.page.value).None? || ParseInt(q.page.value) == Some(0) ==> page == 1
  {
    ParseIntOr(q.page, 1)
  }

  /** `parseInt(req.query.limit) || 10` */
  function LimitOf(q: ListQuery): (limit: int)
    ensures limit != 0
    ensures q.limit.Some? && ParseInt(q.limit.value).Some? && ParseInt(q.limit.value).value != 0
            ==> limit == ParseInt(q.limit.value).value
    ensures q.limit.None? || ParseInt(q.limit.value).None? || ParseInt(q.limit.value) == Some(0) ==> limit == 10
  {
    ParseIntOr(q.limit, 10)
  }

  /** `(page - 1) * limit`: the number of matching posts before the window. */
  function SkipOf(q: ListQuery): (skip: int)
    ensures skip == 0 <==> PageOf(q) == 1
    ensures skip < 0 <==> (PageOf(q) < 1 && LimitOf(q) > 0) || (PageOf(q) > 1 && LimitOf(q) < 0)
  {
    ProductSign(PageOf(q) - 1, LimitOf(q));
    (PageOf(q) - 1) * LimitOf(q)
  }

  lemma MulPos(x: int, y: int)
    requires x > 0 && y > 0
    ensures x * y > 0
  {
  }

  /** The sign of a product with a non-zero factor. */
  lemma ProductSign(a: int, b: int)
    requires b != 0
    ensures a * b == 0 <==> a == 0
    ensures a * b < 0 <==> (a < 0 && b > 0) || (a > 0 && b < 0)
  {
    if a > 0 && b > 0 {
      MulPos(a, b);
    } else if a > 0 && b < 0 {
      MulPos(a, -b);
      assert a * b == -(a * -b);
    } else if a < 0 && b > 0 {
      MulPos(-a, b);
      assert a * b == -(-a * b);
    } else if a < 0 && b < 0 {
      MulPos(-a, -b);
      assert a * b == -a * -b;
    }
  }

  // ---------------------------------------------------------------------------
  // getPosts: filter and order
  // ---------------------------------------------------------------------------

  /** The query filter: `{}` for an admin, `{ published: true }` for anyone
      else, including an anonymous caller. */
  predicate Visible(user: Option<User>, p: Post) {
    IsAdmin(user) || p.published
  }

  function VisibleKeys(m: map<PostId, Post>, user: Option<User>): (ks: set<PostId>)
    ensures ks <= m.Keys
    ensures forall k :: k in ks <==> k in m && Visible(user, m[k])
  {
    set k | k in m && Visible(user, m[k])
  }

  /** The order of `.sort({ createdAt: -1 })`: newer first; documents created
      at the same instant come in id order. */
  predicate Newer(m: map<PostId, Post>, a: PostId, b: PostId)
    requires a in m && b in m
  {
    m[a].createdAt > m[b].createdAt || (m[a].createdAt == m[b].createdAt && a < b)
  }

  lemma {:induction false} NewestExists(m: map<PostId, Post>, ks: set<PostId>)
    requires ks != {} && ks <= m.Keys
    ensures exists k :: k in ks && forall k' :: k' in ks && k' != k ==> Newer(m, k, k')
    decreases ks
  {
    var x :| x in ks;
    if ks != {x} {
      NewestExists(m, ks - {x});
      var y :| y in ks - {x} && forall k' :: k' in ks - {x} && k' != y ==> Newer(m, y, k');
      if Newer(m, x, y) {
        forall k' | k' in ks && k' != x ensures Newer(m, x, k') {
          if k' != y {
            assert Newer(m, y, k');
          }
        }
      } else {
        assert forall k' :: k' in ks && k' != y ==> Newer(m, y, k');
      }
    }
  }

  /** The first document of ks in sort order. */
  function Newest(m: map<PostId, Post>, ks: set<PostId>): (k: PostId)
    requires ks != {} && ks <= m.Keys
    ensures k in ks && forall k' :: k' in ks && k' != k ==> Newer(m, k, k')
  {
    NewestExists(m, ks);
    var k :| k in ks && forall k' :: k' in ks && k' != k ==> Newer(m, k, k');
    k
  }

  /** The ids of ks in sort order: each once, each before every later one. */
  function Ordered(m: map<PostId, Post>, ks: set<PostId>): (r: seq<PostId>)
    requires ks <= m.Keys
    ensures |r| == |ks|
    ensures forall k :: k in r <==> k in ks
    ensures forall i, j :: 0 <= i < j < |r| ==> Newer(m, r[i], r[j])
    decreases ks
  {
    if ks == {} then []
    else
      var k := Newest(m, ks);
      [k] + Ordered(m, ks - {k})
  }

  /** The ids `Post.find(query).sort({ createdAt: -1 })` yields. */
  function ListingKeys(m: map<PostId, Post>, user: Option<User>): (r: seq<PostId>)
    ensures forall k :: k in r <==> k in m && Visible(user, m[k])
  {
    Ordered(m, VisibleKeys(m, user))
  }

  /** The documents `Post.find(query).sort({ createdAt: -1 })` yields. */
  function Listing(m: map<PostId, Post>, user: Option<User>): (r: seq<Post>)
    ensures |r| == |ListingKeys(m, user)|
    ensures forall i :: 0 <= i < |r| ==> r[i] == m[ListingKeys(m, user)[i]]
  {
    var ks := ListingKeys(m, user);
    seq(|ks|, i requires 0 <= i < |ks| => m[ks[i]])
  }

  /** Every matching document is listed exactly once, and nothing else. */
  lemma ListingExactlyOnce(m: map<PostId, Post>, user: Option<User>)
    ensures var ks := ListingKeys(m, user);
      |ks| == |VisibleKeys(m, user)| &&
      (forall k :: k in ks <==> k in m && Visible(user, m[k])) &&
      (forall i, j :: 0 <= i < j < |ks| ==> ks[i] != ks[j])
  {
    var ks := ListingKeys(m, user);
    forall i, j | 0 <= i < j < |ks| ensures ks[i] != ks[j] {
      assert Newer(m, ks[i], ks[j]);
    }
  }

  /** The listing is newest first. */
  lemma ListingNewestFirst(m: map<PostId, Post>, user: Option<User>)
    ensures var l := Listing(m, user);
      forall i, j :: 0 <= i < j < |l| ==> l[i].createdAt >= l[j].createdAt
  {
    var ks := ListingKeys(m, user);
    forall i, j | 0 <= i < j < |ks| ensures m[ks[i]].createdAt >= m[ks[j]].createdAt {
      assert Newer(m, ks[i], ks[j]);
    }
  }

  /** Someone who is not an admin, or nobody, is shown published posts only;
      an admin is shown every post, drafts included. */
  lemma ListingVisibility(m: map<PostId, Post>, user: Option<User>)
    ensures !IsAdmin(user) ==> forall p :: p in Listing(m, user) ==> p.published
    ensures IsAdmin(user) ==> VisibleKeys(m, user) == m.Keys
  {
    var ks := ListingKeys(m, user);
    var l := Listing(m, user);
    forall p | p in l ensures Visible(user, p) {
      var i :| 0 <= i < |l| && l[i] == p;
      assert ks[i] in ks;
    }
  }

  // ---------------------------------------------------------------------------
  // getPosts: window and envelope
  // ---------------------------------------------------------------------------

  /** `.skip(skip).limit(n)` on a result list with skip >= 0. */
  function Window<T>(l: seq<T>, skip: nat, n: nat): (w: seq<T>)
    ensures |w| <= n
    ensures skip <= |l| ==> w == l[skip..Min(skip + n, |l|)]
    ensures skip >= |l| ==> w == []
  {
    var from := Min(skip, |l|);
    l[from..Min(skip + n, |l|)]
  }

  datatype Pagination = Pagination(current: int, pages: int, total: nat)
  datatype ListResult = ListResult(posts: seq<Post>, pagination: Pagination)

  /** getPosts. MongoDB refuses a negative skip, which the catch block turns
      into a 500; a negative limit is read as its absolute value. */
  function GetPosts(m: map<PostId, Post>, user: Option<User>, q: ListQuery): (r: Reply<ListResult>)
    ensures r.Failure? <==> SkipOf(q) < 0
    ensures r.Failure? ==> r == Failure(ServerError, InternalError)
    ensures !r.Rejected?
    ensures r.Success? ==>
      var posts := r.value.posts;
      r.status == OK &&
      r.value.pagination.current == PageOf(q) &&
      r.value.pagination.total == |VisibleKeys(m, user)| &&
      r.value.pagination.pages == CeilDiv(|VisibleKeys(m, user)|, LimitOf(q)) &&
      posts == Window(Listing(m, user), SkipOf(q), Abs(LimitOf(q))) &&
      |posts| <= Abs(LimitOf(q)) &&
      (forall p :: p in posts ==> p in m.Values && Visible(user, p)) &&
      (forall i, j :: 0 <= i < j < |posts| ==> posts[i].createdAt >= posts[j].createdAt)
  {
    var skip := SkipOf(q);
    if skip < 0 then Failure(ServerError, InternalError)
    else
      var total := |VisibleKeys(m, user)|;
      var all := Listing(m, user);
      var posts := Window(all, skip, Abs(LimitOf(q)));
      ListingMembers(m, user);
      WindowMembers(all, skip, Abs(LimitOf(q)));
      ListingNewestFirst(m, user);
      WindowNewestFirst(all, skip, Abs(LimitOf(q)));
      Success(OK, ListResult(posts, Pagination(PageOf(q), CeilDiv(total, LimitOf(q)), total)))
  }

  /** Every listed document is in the collection and visible to the caller. */
  lemma ListingMembers(m: map<PostId, Post>, user: Option<User>)
    ensures forall p :: p in Listing(m, user) ==> p in m.Values && Visible(user, p)
  {
    var all := Listing(m, user);
    forall p | p in all ensures p in m.Values && Visible(user, p) {
      var i :| 0 <= i < |all| && all[i] == p;
      assert ListingKeys(m, user)[i] in ListingKeys(m, user);
    }
  }

  lemma WindowMembers<T>(l: seq<T>, skip: nat, n: nat)
    ensures forall x :: x in Window(l, skip, n) ==> x in l
  {
  }

  /** A window of a newest-first list is newest first. */
  lemma WindowNewestFirst(l: seq<Post>, skip: nat, n: nat)
    requires forall i, j :: 0 <= i < j < |l| ==> l[i].createdAt >= l[j].createdAt
    ensures var w := Window(l, skip, n);
      forall i, j :: 0 <= i < j < |w| ==> w[i].createdAt >= w[j].createdAt
  {
    var w := Window(l, skip, n);
    if skip <= |l| {
      assert forall i :: 0 <= i < |w| ==> w[i] == l[skip + i];
    }
  }

  /** The returned page is in sort order. */
  lemma GetPostsNewestFirst(m: map<PostId, Post>, user: Option<User>, q: ListQuery)
    requires GetPosts(m, user, q).Success?
    ensures var posts := GetPosts(m, user, q).value.posts;
      forall i, j :: 0 <= i < j < |posts| ==> posts[i].createdAt >= posts[j].createdAt
  {
    ListingNewestFirst(m, user);
    WindowNewestFirst(Listing(m, user), SkipOf(q), Abs(LimitOf(q)));
  }

  lemma DecimalSmall()
    ensures Decimal(2) == "2" && Decimal(6) == "6"
  {
  }

  lemma WindowOfTen<T>(l: seq<T>)
    requires |l| == 10
    ensures Window(l, 6, 6) == l[6..]
  {
    assert Min(6 + 6, |l|) == |l|;
  }

  /** With 10 matching posts, `?page=2&limit=6` returns the last 4 of them and
      reports 2 pages. */
  lemma GetPostsExample(m: map<PostId, Post>, user: Option<User>)
    requires |VisibleKeys(m, user)| == 10
    ensures var r := GetPosts(m, user, ListQuery(Some("2"), Some("6")));
      r.Success? && |r.value.posts| == 4 && r.value.pagination == Pagination(2, 2, 10) &&
      r.value.posts == Listing(m, user)[6..]
  {
    var q := ListQuery(Some("2"), Some("6"));
    ExampleQuery();
    ListingExactlyOnce(m, user);
    var l := Listing(m, user);
    assert |l| == 10;
    WindowOfTen(l);
    assert CeilDiv(10, 6) == 2;
    var r := GetPosts(m, user, q);
    assert r.Success?;
    assert r.value.posts == l[6..];
    assert r.value.pagination == Pagination(2, 2, 10);
  }

  /** `?page=-n` passes through parseInt as -n, so the skip is negative and
      the listing answers 500. */
  lemma NegativePageFails(m: map<PostId, Post>, user: Option<User>, n: nat)
    requires n >= 1
    ensures var q := ListQuery(Some("-" + Decimal(n)), None);
      PageOf(q) == -(n as int) && GetPosts(m, user, q) == Failure(ServerError, InternalError)
  {
    ParseNegativeDecimal(n);
  }

  lemma ExampleQuery()
    ensures var q := ListQuery(Some("2"), Some("6"));
      PageOf(q) == 2 && LimitOf(q) == 6 && SkipOf(q) == 6
  {
    var q := ListQuery(Some("2"), Some("6"));
    DecimalSmall();
    ParseDecimal(2);
    ParseDecimal(6);
    assert ParseInt(q.page.value) == Some(2);
    assert ParseInt(q.limit.value) == Some(6);
    assert PageOf(q) == 2;
    assert LimitOf(q) == 6;
    assert SkipOf(q) == (2 - 1) * 6;
  }

  // ---------------------------------------------------------------------------
  // Pure updates that the handlers perform
  // ---------------------------------------------------------------------------

  /** `post.likes += 1` on the document with that id. */
  function Like(m: map<PostId, Post>, id: PostId): (r: map<PostId, Post>)
    requires id in m
    ensures r.Keys == m.Keys
    ensures r[id] == m[id].(likes := m[id].likes + 1)
    ensures forall k :: k in m && k != id ==> r[k] == m[k]
  {
    m[id := m[id].(likes := m[id].likes + 1)]
  }

  /** n calls of likePost on the same id. */
  function LikeRepeatedly(m: map<PostId, Post>, id: PostId, n: nat): map<PostId, Post>
    requires id in m
  {
    if n == 0 then m else Like(LikeRepeatedly(m, id, n - 1), id)
  }

  /** The like counter is not idempotent: n likes add exactly n, and touch
      nothing else. */
  lemma {:induction false} LikeRepeatedlyAdds(m: map<PostId, Post>, id: PostId, n: nat)
    requires id in m
    ensures LikeRepeatedly(m, id, n) == m[id := m[id].(likes := m[id].likes + n)]
  {
    if n > 0 {
      LikeRepeatedlyAdds(m, id, n - 1);
    }
  }

  /** The object handed to Post.create: `tags || []`, `featuredImage || ''`,
      `author: req.user._id`, `published || false`. */
  function CreateFields(b: Body, author: UserId): (f: NewFields)
    ensures f.title == b.title && f.content == b.content && f.author == author
    ensures f.tags == Some(b.tags.GetOr([]))
    ensures f.featuredImage == Some(OrElse(b.featuredImage, ""))
    ensures f.published == Some(b.published == Some(true))
  {
    var published := b.published.Some? && b.published.value;
    NewFields(b.title, b.content, author, Some(b.tags.GetOr([])),
              Some(OrElse(b.featuredImage, "")), Some(published))
  }

  /** Post.create: build the document and save it. What it stores is in
      stored shape, under the new id, by the caller, created now. */
  function CreatedPost(id: PostId, b: Body, author: UserId, now: int): (r: Option<Post>)
    ensures r.None? <==> !Valid(NewDocument(id, CreateFields(b, author), now))
    ensures r.Some? ==> Stored(r.value) && r.value.id == id && r.value.author == author && r.value.createdAt == now
  {
    var d := NewDocument(id, CreateFields(b, author), now);
    var r := Save(d);
    if r.Some? then SaveStores(d); r else r
  }

  /** What createPost stores: the caller as author, counters at zero, an
      omitted flag as a draft, omitted tags as none, every tag normalised, and
      a generated excerpt. */
  lemma CreatedDefaults(id: PostId, b: Body, author: UserId, now: int)
    requires CreatedPost(id, b, author, now).Some?
    ensures var p := CreatedPost(id, b, author, now).value;
      Stored(p) && p.id == id && p.author == author && p.createdAt == now &&
      p.likes == 0 && p.views == 0 &&
      p.title == Trim(b.title.value) && p.content == b.content.value &&
      p.tags == SetTags(b.tags.GetOr([])) &&
      p.featuredImage == OrElse(b.featuredImage, "") &&
      (p.published <==> b.published == Some(true)) &&
      p.excerpt == GenerateExcerpt(p.content)
  {
    var d := NewDocument(id, CreateFields(b, author), now);
    SaveStores(d);
  }

  /** Post.create fails validation exactly when the trimmed title is empty or
      longer than 200 characters, or the content is missing or empty. */
  lemma CreatedFails(id: PostId, b: Body, author: UserId, now: int)
    ensures CreatedPost(id, b, author, now).None? <==>
      !(1 <= |Trim(b.title.GetOr(""))| <= TitleMaxLength) || b.content.GetOr("") == ""
  {
  }

  /** The fields updatePost assigns: `x || post.x` for title, content, tags and
      featuredImage (each assignment goes through the field's setter), and
      published only when a boolean was sent. */
  function Updated(p: Post, b: Body): (q: Post)
    ensures q == p.(title := q.title, content := q.content, tags := q.tags,
                    featuredImage := q.featuredImage, published := q.published)
    ensures b.title.Some? && b.title.value != "" ==> q.title == Trim(b.title.value)
    ensures (b.title.None? || b.title.value == "") && Trimmed(p.title) ==> q.title == p.title
    ensures b.content.Some? && b.content.value != "" ==> q.content == b.content.value
    ensures b.content.None? || b.content.value == "" ==> q.content == p.content
    ensures b.tags.Some? ==> q.tags == SetTags(b.tags.value)
    ensures b.tags.None? && NormalisedTags(p.tags) ==> q.tags == p.tags
    ensures b.featuredImage.Some? && b.featuredImage.value != "" ==> q.featuredImage == b.featuredImage.value
    ensures b.featuredImage.None? || b.featuredImage.value == "" ==> q.featuredImage == p.featuredImage
    ensures b.published.Some? ==> q.published == b.published.value
    ensures b.published.None? ==> q.published == p.published
  {
    var q := p.(title := SetTitle(OrElse(b.title, p.title)),
                content := OrElse(b.content, p.content),
                tags := SetTags(b.tags.GetOr(p.tags)),
                featuredImage := OrElse(b.featuredImage, p.featuredImage),
                published := b.published.GetOr(p.published));
    if b.tags.None? && NormalisedTags(p.tags) then SetTagsOfNormalised(p.tags); q else q
  }

  /** updatePost's save: it fails on a title that is blank or longer than 200
      characters once trimmed; otherwise the excerpt is kept, even when the
      content changed. */
  lemma UpdatedSave(p: Post, b: Body)
    requires Stored(p)
    ensures Save(Updated(p, b)).None? <==> !(1 <= |Updated(p, b).title| <= TitleMaxLength)
    ensures Save(Updated(p, b)).Some? ==>
      Save(Updated(p, b)) == Some(Updated(p, b)) && Stored(Updated(p, b)) &&
      Updated(p, b).excerpt == p.excerpt
  {
  }

  // ---------------------------------------------------------------------------
  // The collection and the handlers that change it
  // ---------------------------------------------------------------------------

  /** Every document is stored under its own id, below nextId, in the shape
      save() leaves it. */
  predicate StoredMap(m: map<PostId, Post>, nextId: PostId) {
    forall k :: k in m ==> k < nextId && m[k].id == k && Stored(m[k])
  }

  /** Replacing or adding a stored document under its own id keeps the
      collection well formed. */
  lemma StoredMapPut(m: map<PostId, Post>, nextId: PostId, p: Post)
    requires StoredMap(m, nextId) && p.id < nextId && Stored(p)
    ensures StoredMap(m[p.id := p], nextId)
  {
  }

  class PostStore {
    var posts: map<PostId, Post>
    /** The id the next created document gets. */
    var nextId: PostId

    ghost predicate Valid()
      reads this
    {
      StoredMap(posts, nextId)
    }

    constructor ()
      ensures Valid() && posts == map[] && nextId == 0
    {
      posts := map[];
      nextId := 0;
    }

    /** GET /posts: getPosts reads the collection and changes nothing. */
    method List(user: Option<User>, q: ListQuery) returns (r: Reply<ListResult>)
      ensures r == GetPosts(posts, user, q)
    {
      r := GetPosts(posts, user, q);
    }

    /** getPost: 404 for an absent or unpublished document, whoever asks;
        otherwise views goes up by one and the document is sent. */
    method GetPost(id: PostId) returns (r: Reply<Post>)
      requires Valid()
      modifies this
      ensures Valid() && nextId == old(nextId)
      ensures id !in old(posts) || !old(posts)[id].published ==>
        r == Failure(NotFound, PostNotFound) && posts == old(posts)
      ensures id in old(posts) && old(posts)[id].published ==>
        var p := old(posts)[id].(views := old(posts)[id].views + 1);
        r == Success(OK, p) && posts == old(posts)[id := p]
    {
      if id !in posts || !posts[id].published {
        return Failure(NotFound, PostNotFound);
      }
      var p := posts[id];
      p := p.(views := p.views + 1);
      SaveOfStored(p);
      // The document was stored, so the save cannot fail.
      var saved := Save(p).value;
      posts := posts[id := saved];
      r := Success(OK, saved);
    }

    /** createPost, given express-validator's errors and req.user's id (absent
        when no middleware set req.user, which makes `req.user._id` throw). */
    method CreatePost(errors: seq<FieldError>, b: Body, author: Option<UserId>, now: int)
      returns (r: Reply<Post>)
      requires Valid()
      modifies this
      ensures Valid()
      ensures errors != [] ==> r == Rejected(errors)
      ensures errors == [] && author.None? ==> r == Failure(ServerError, InternalError)
      ensures errors == [] && author.Some? && CreatedPost(old(nextId), b, author.value, now).None? ==>
        r == Failure(ServerError, InternalError)
      ensures !r.Success? ==> posts == old(posts) && nextId == old(nextId)
      ensures errors == [] && author.Some? && CreatedPost(old(nextId), b, author.value, now).Some? ==>
        var p := CreatedPost(old(nextId), b, author.value, now).value;
        r == Success(Http.Created, p) && posts == old(posts)[old(nextId) := p] &&
        nextId == old(nextId) + 1 && old(nextId) !in old(posts)
    {
      if errors != [] {
        return Rejected(errors);
      }
      if author.None? {
        return Failure(ServerError, InternalError);
      }
      var doc := NewDocument(nextId, CreateFields(b, author.value), now);
      var saved := Save(doc);
      if saved.None? {
        return Failure(ServerError, InternalError);
      }
      SaveStores(doc);
      posts := posts[nextId := saved.value];
      nextId := nextId + 1;
      r := Success(Http.Created, saved.value);
    }

    /** updatePost: 404 for an unknown id; otherwise the assigned document is
        saved, which fails (500) when the new title does not validate. */
    method UpdatePost(id: PostId, b: Body) returns (r: Reply<Post>)
      requires Valid()
      modifies this
      ensures Valid() && nextId == old(nextId)
      ensures id !in old(posts) ==> r == Failure(NotFound, PostNotFound) && posts == old(posts)
      ensures id in old(posts) && Save(Updated(old(posts)[id], b)).None? ==>
        r == Failure(ServerError, InternalError) && posts == old(posts)
      ensures id in old(posts) && Save(Updated(old(posts)[id], b)).Some? ==>
        var q := Updated(old(posts)[id], b);
        r == Success(OK, q) && posts == old(posts)[id := q]
    {
      if id !in posts {
        return Failure(NotFound, PostNotFound);
      }
      var p := posts[id];
      var q := Updated(p, b);
      var saved := Save(q);
      if saved.None? {
        return Failure(ServerError, InternalError);
      }
      UpdatedSave(p, b);
      assert saved.value == q && q.id == id;
      StoredMapPut(posts, nextId, q);
      posts := posts[id := q];
      r := Success(OK, q);
    }

    /** deletePost: 404 for an unknown id; otherwise exactly that document is
        removed. */
    method DeletePost(id: PostId) returns (r: Reply<()>)
      requires Valid()
      modifies this
      ensures Valid() && nextId == old(nextId)
      ensures id !in old(posts) ==> r == Failure(NotFound, PostNotFound) && posts == old(posts)
      ensures id in old(posts) ==> r == Success(OK, ()) && posts == old(posts) - {id}
    {
      if id !in posts {
        return Failure(NotFound, PostNotFound);
      }
      posts := posts - {id};
      r := Success(OK, ());
    }

    /** likePost: 404 for an unknown id; otherwise one more like, published or
        not, and the new count. */
    method LikePost(id: PostId) returns (r: Reply<nat>)
      requires Valid()
      modifies this
      ensures Valid() && nextId == old(nextId)
      ensures id !in old(posts) ==> r == Failure(NotFound, PostNotFound) && posts == old(posts)
      ensures id in old(posts) ==>
        posts == Like(old(posts), id) && r == Success(OK, old(posts)[id].likes + 1)
    {
      if id !in posts {
        return Failure(NotFound, PostNotFound);
      }
      var p := posts[id];
      p := p.(likes := p.likes + 1);
      SaveOfStored(p);
      // The document was stored, so the save cannot fail.
      var saved := Save(p).value;
      posts := posts[id := saved];
      r := Success(OK, saved.likes);
    }
  }
}

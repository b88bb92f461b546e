/** The home feed (client/src/pages/Home.js): pages of six posts fetched one
    after the other, the first replacing the list and each later one appended
    to it, until the server's page count is reached. */
module HomePage {
  import opened JsBuiltins
  import opened Http
  import opened Identity
  import opened PostSchema
  import opened PostController

  const FeedLimit := 6

  /** The message shown when a page cannot be loaded. */
  const LoadFailed := "Erro ao carregar posts"

  /** The component state. */
  datatype FeedState = FeedState(posts: seq<Post>, loading: bool, error: string, page: nat, hasMore: bool)

  /** The state before the first fetch: loading, on page 1, more to come. */
  const Initial := FeedState([], true, "", 1, true)

  /** fetchPosts(pageNum) with the response of `GET /posts?page=..&limit=6`,
      None when the request failed. */
  function AfterFetch(s: FeedState, pageNum: nat, response: Option<ListResult>): (t: FeedState)
    ensures !t.loading
    ensures response.None? ==> t == s.(loading := false, error := LoadFailed)
    ensures response.Some? ==>
      t.posts == (if pageNum == 1 then response.value.posts else s.posts + response.value.posts) &&
      t.page == pageNum && t.hasMore == (pageNum < response.value.pagination.pages) &&
      t.error == s.error
  {
    match response
    case None => s.(loading := false, error := LoadFailed)
    case Some(r) =>
      var posts := if pageNum == 1 then r.posts else s.posts + r.posts;
      FeedState(posts, false, s.error, pageNum, pageNum < r.pagination.pages)
  }

  /** loadMore: the next page is requested only when there is more and
      nothing is loading. */
  function AfterLoadMore(s: FeedState, response: Option<ListResult>): (t: FeedState)
    ensures s.hasMore && !s.loading ==> t == AfterFetch(s, s.page + 1, response)
    ensures !(s.hasMore && !s.loading) ==> t == s
  {
    if s.hasMore && !s.loading then AfterFetch(s, s.page + 1, response) else s
  }

  class Feed {
    var posts: seq<Post>
    var loading: bool
    var error: string
    var page: nat
    var hasMore: bool

    function State(): FeedState
      reads this
    {
      FeedState(posts, loading, error, page, hasMore)
    }

    constructor ()
      ensures State() == Initial
    {
      posts := [];
      loading := true;
      error := "";
      page := 1;
      hasMore := true;
    }

    method FetchPosts(pageNum: nat, response: Option<ListResult>)
      modifies this
      ensures State() == AfterFetch(old(State()), pageNum, response)
    {
      loading := true;
      if response.None? {
        error := LoadFailed;
      } else {
        var newPosts := response.value.posts;
        if pageNum == 1 {
          posts := newPosts;
        } else {
          posts := posts + newPosts;
        }
        hasMore := pageNum < response.value.pagination.pages;
        page := pageNum;
      }
      loading := false;
    }

    /** loadMore, with the response the request for the next page would get. */
    method LoadMore(response: Option<ListResult>)
      modifies this
      ensures State() == AfterLoadMore(old(State()), response)
    {
      if hasMore && !loading {
        FetchPosts(page + 1, response);
      }
    }
  }

  // ---------------------------------------------------------------------------
  // Paging through a collection that does not change
  // ---------------------------------------------------------------------------

  /** The query string `?page=${pageNum}&limit=6`: both parameters are
      present and parseInt reads them back as pageNum and 6. */
  function FeedQuery(pageNum: nat): (q: ListQuery)
    ensures q.page.Some? && ParseInt(q.page.value) == Some(pageNum)
    ensures q.limit.Some? && ParseInt(q.limit.value) == Some(FeedLimit)
  {
    ParseDecimal(pageNum);
    ParseDecimal(FeedLimit);
    ListQuery(Some(Decimal(pageNum)), Some(Decimal(FeedLimit)))
  }

  /** What the client receives for a page: the payload of a 2xx answer, or
      nothing (axios rejects any other status). The feed's requests are never
      refused: page 0 reads as page 1, and every page has a skip of at least
      0. */
  function Fetched(m: map<PostId, Post>, user: Option<User>, pageNum: nat): (r: Option<ListResult>)
    ensures r.Some?
    ensures r.value.pagination.current == (if pageNum == 0 then 1 else pageNum)
    ensures r.value.pagination.total == |VisibleKeys(m, user)|
  {
    var q := FeedQuery(pageNum);
    assert PageOf(q) == (if pageNum == 0 then 1 else pageNum);
    assert LimitOf(q) == FeedLimit;
    var r := GetPosts(m, user, q);
    if r.Success? then Some(r.value) else None
  }

  /** The answer for page p of six, for a listing l of n posts: the p-th run
      of six posts, and the page count for six per page. */
  function Page(l: seq<Post>, n: nat, p: nat): ListResult
    requires p >= 1
  {
    ListResult(Window(l, FeedLimit * (p - 1), FeedLimit), Pagination(p, CeilDiv(n, FeedLimit), n))
  }

  /** getPosts answers the feed's request for any page p >= 1 with that
      page of the listing. */
  lemma FetchedPage(m: map<PostId, Post>, user: Option<User>, p: nat)
    requires p >= 1
    ensures Fetched(m, user, p) == Some(Page(Listing(m, user), |VisibleKeys(m, user)|, p))
  {
    FeedQueryFields(p);
  }

  /** The feed's query string reads back as page p and limit 6. */
  lemma FeedQueryFields(p: nat)
    requires p >= 1
    ensures PageOf(FeedQuery(p)) == p && LimitOf(FeedQuery(p)) == FeedLimit
    ensures SkipOf(FeedQuery(p)) == FeedLimit * (p - 1)
  {
    var q := FeedQuery(p);
    FeedQueryPage(q, p);
    SkipOfPage(q, p);
  }

  lemma SkipOfPage(q: ListQuery, p: nat)
    requires p >= 1 && PageOf(q) == p && LimitOf(q) == FeedLimit
    ensures SkipOf(q) == FeedLimit * (p - 1)
  {
  }

  lemma FeedQueryPage(q: ListQuery, p: nat)
    requires p >= 1
    requires q.page.Some? && ParseInt(q.page.value) == Some(p)
    requires q.limit.Some? && ParseInt(q.limit.value) == Some(FeedLimit)
    ensures PageOf(q) == p && LimitOf(q) == FeedLimit
  {
  }

  /** The backend answers every page the feed can ask for with that page of
      a listing l of n posts, as getPosts does (FetchedServes). */
  ghost predicate Serves(server: nat -> Option<ListResult>, l: seq<Post>, n: nat) {
    forall p: nat :: p >= 1 ==> server(p) == Some(Page(l, n, p))
  }

  lemma FetchedServes(m: map<PostId, Post>, user: Option<User>)
    ensures Serves((p: nat) => Fetched(m, user, p), Listing(m, user), |VisibleKeys(m, user)|)
  {
    forall p: nat | p >= 1
      ensures Fetched(m, user, p) == Some(Page(Listing(m, user), |VisibleKeys(m, user)|, p))
    {
      FetchedPage(m, user, p);
    }
  }

  /** The feed state after the first fetch and k calls of loadMore, each
      request answered by the server. */
  function Browse(server: nat -> Option<ListResult>, k: nat): FeedState {
    if k == 0 then AfterFetch(Initial, 1, server(1))
    else
      var s := Browse(server, k - 1);
      AfterLoadMore(s, server(s.page + 1))
  }

  /** What the feed shows after `page` pages of a listing l that has `count`
      pages: its first 6 * page posts (all of them when there are fewer),
      with more to come exactly while page is below the page count. */
  predicate Shows(s: FeedState, l: seq<Post>, count: int) {
    s.page >= 1 && !s.loading && s.error == "" &&
    s.posts == l[..Min(FeedLimit * s.page, |l|)] &&
    s.hasMore == (s.page < count)
  }

  /** The last page the feed can reach: the page count, or page 1 when there
      is nothing to list. */
  function LastPage(count: int): int {
    if count < 1 then 1 else count
  }

  /** Appending the next window extends the shown prefix by one page. */
  lemma WindowExtends<T>(l: seq<T>, p: nat)
    requires p >= 1
    ensures l[..Min(FeedLimit * (p - 1), |l|)] + Window(l, FeedLimit * (p - 1), FeedLimit) == l[..Min(FeedLimit * p, |l|)]
  {
    var skip := FeedLimit * (p - 1);
    if skip <= |l| {
      assert l[..skip] + l[skip..Min(skip + FeedLimit, |l|)] == l[..Min(skip + FeedLimit, |l|)];
    }
  }

  /** The first fetch shows the first page. */
  lemma ShowsFirst(l: seq<Post>, n: nat, r: Option<ListResult>)
    requires |l| == n && r == Some(Page(l, n, 1))
    ensures var s := AfterFetch(Initial, 1, r);
      Shows(s, l, CeilDiv(n, FeedLimit)) && s.page == 1
  {
    WindowExtends(l, 1);
  }

  /** A loadMore shows the next page while there is one, and otherwise
      leaves the feed as it is. */
  lemma ShowsStep(s: FeedState, l: seq<Post>, n: nat, r: Option<ListResult>)
    requires |l| == n && Shows(s, l, CeilDiv(n, FeedLimit)) && r == Some(Page(l, n, s.page + 1))
    ensures var t := AfterLoadMore(s, r);
      Shows(t, l, CeilDiv(n, FeedLimit)) && t.page == (if s.hasMore then s.page + 1 else s.page)
  {
    if s.hasMore {
      WindowExtends(l, s.page + 1);
      var t := AfterLoadMore(s, r);
      assert t.posts == s.posts + Window(l, FeedLimit * s.page, FeedLimit);
    }
  }

  lemma PageAdvance(page: int, hasMore: bool, k: nat, count: int)
    requires k >= 1 && page == Min(k, LastPage(count)) && hasMore == (page < count)
    ensures (if hasMore then page + 1 else page) == Min(1 + k, LastPage(count))
  {
  }

  /** Each loadMore against an unchanged listing shows one more page, until
      the page count is reached; after that loadMore does nothing. */
  lemma {:induction false} BrowseShows(server: nat -> Option<ListResult>, l: seq<Post>, n: nat, k: nat)
    requires |l| == n && Serves(server, l, n)
    ensures Shows(Browse(server, k), l, CeilDiv(n, FeedLimit))
    ensures Browse(server, k).page == Min(1 + k, LastPage(CeilDiv(n, FeedLimit)))
  {
    if k == 0 {
      BrowseFirst(server, l, n);
    } else {
      BrowseShows(server, l, n, k - 1);
      BrowseStep(server, l, n, k);
    }
  }

  lemma BrowseFirst(server: nat -> Option<ListResult>, l: seq<Post>, n: nat)
    requires |l| == n && Serves(server, l, n)
    ensures Shows(Browse(server, 0), l, CeilDiv(n, FeedLimit))
    ensures Browse(server, 0).page == Min(1, LastPage(CeilDiv(n, FeedLimit)))
  {
    assert server(1) == Some(Page(l, n, 1));
    ShowsFirst(l, n, server(1));
  }

  lemma BrowseStep(server: nat -> Option<ListResult>, l: seq<Post>, n: nat, k: nat)
    requires |l| == n && Serves(server, l, n) && k >= 1
    requires Shows(Browse(server, k - 1), l, CeilDiv(n, FeedLimit))
    requires Browse(server, k - 1).page == Min(k, LastPage(CeilDiv(n, FeedLimit)))
    ensures Shows(Browse(server, k), l, CeilDiv(n, FeedLimit))
    ensures Browse(server, k).page == Min(1 + k, LastPage(CeilDiv(n, FeedLimit)))
  {
    var s := Browse(server, k - 1);
    assert Browse(server, k) == AfterLoadMore(s, server(s.page + 1));
    ShowsStep(s, l, n, server(s.page + 1));
    PageAdvance(s.page, s.hasMore, k, CeilDiv(n, FeedLimit));
  }

  /** Once loadMore has nothing left to fetch, the feed holds the whole
      listing. */
  lemma BrowseComplete(server: nat -> Option<ListResult>, l: seq<Post>, n: nat, k: nat)
    requires |l| == n && Serves(server, l, n) && !Browse(server, k).hasMore
    ensures Browse(server, k).posts == l
  {
    BrowseShows(server, l, n, k);
  }

  /** The page count bounds how many loadMore calls it takes: after
      pages - 1 of them there is nothing more. */
  lemma BrowseEnds(server: nat -> Option<ListResult>, l: seq<Post>, n: nat, k: nat)
    requires |l| == n && Serves(server, l, n) && k + 1 >= CeilDiv(n, FeedLimit)
    ensures !Browse(server, k).hasMore
    ensures Browse(server, k).posts == l
  {
    BrowseShows(server, l, n, k);
    BrowseComplete(server, l, n, k);
  }

  /** Against getPosts on an unchanged collection, pages - 1 loadMore calls
      leave the feed with every post the caller may see, newest first, with
      nothing more to load. */
  lemma FeedShowsListing(m: map<PostId, Post>, user: Option<User>, k: nat)
    requires k + 1 >= CeilDiv(|VisibleKeys(m, user)|, FeedLimit)
    ensures var s := Browse((p: nat) => Fetched(m, user, p), k);
      !s.hasMore && s.posts == Listing(m, user)
  {
    FetchedServes(m, user);
    ListingExactlyOnce(m, user);
    BrowseEnds((p: nat) => Fetched(m, user, p), Listing(m, user), |VisibleKeys(m, user)|, k);
  }
}

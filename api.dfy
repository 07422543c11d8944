/**
 * The paged-collection client of js/api.js: default paging parameters, request
 * URLs, the rule that a non-ok response throws, and the loops that aggregate a
 * whole collection page by page.
 *
 * The remote API is an oracle from request URL to reply; a rejected `fetch` is
 * the reply `NetworkFailure`.  A thrown error is a `Failure`.
 */
module Api {
  import opened Wrappers
  import opened Text

  const Base: string := "https://dummyjson.com"

  /** The page size of the aggregation loops, and the fixed step by which they advance `skip`. */
  const AggregatePageSize: nat := 100

  datatype Collection = Posts | Comments | Users

  function Name(c: Collection): string {
    match c
    case Posts => "posts"
    case Comments => "comments"
    case Users => "users"
  }

  /** The `limit` used when the caller leaves it undefined. */
  function DefaultLimit(c: Collection): nat {
    if c == Posts then 10 else 100
  }

  /** The `skip` used when the caller leaves it undefined. */
  const DefaultSkip: nat := 0

  /** The message of the error thrown on a non-ok response. */
  function ErrorMessage(c: Collection): string {
    match c
    case Posts => "Kunde inte hämta inlägg"
    case Comments => "Kunde inte hämta kommentarer"
    case Users => "Kunde inte hämta användare"
  }

  /** The paging parameters of one request. */
  datatype PageQuery = PageQuery(collection: Collection, limit: nat, skip: nat)

  /** The parameters actually requested: an undefined argument (`None`) takes its default. */
  function Query(c: Collection, limit: Option<nat>, skip: Option<nat>): PageQuery {
    PageQuery(c,
              if limit.Some? then limit.value else DefaultLimit(c),
              if skip.Some? then skip.value else DefaultSkip)
  }

  // ---------------------------------------------------------------------------
  // Decimal rendering of numbers in URLs

  function DigitChar(d: nat): char
    requires d < 10
  {
    ('0' as int + d) as char
  }

  /** How `'...' + n` renders a non-negative integer: its decimal digits, no leading zero. */
  function NatToDecimal(n: nat): (s: string)
    ensures |s| > 0 && AllDigits(s)
    ensures n > 0 ==> s[0] != '0'
    decreases n
  {
    if n < 10 then [DigitChar(n)] else NatToDecimal(n / 10) + [DigitChar(n % 10)]
  }

  /** The number a string of decimal digits denotes. */
  function DecimalValue(s: string): nat
    requires AllDigits(s)
    decreases |s|
  {
    if s == [] then 0 else 10 * DecimalValue(s[..|s| - 1]) + (s[|s| - 1] as int - '0' as int)
  }

  lemma {:induction false} DecimalRoundTrip(n: nat)
    ensures DecimalValue(NatToDecimal(n)) == n
    decreases n
  {
    if n >= 10 {
      DecimalRoundTrip(n / 10);
      var s := NatToDecimal(n);
      assert s[..|s| - 1] == NatToDecimal(n / 10);
    }
  }

  // ---------------------------------------------------------------------------
  // Request URLs

  /** Everything of a page URL up to the `limit` value. */
  function Prefix(c: Collection): string {
    Base + "/" + Name(c) + "?limit="
  }

  /** The URL `base + '/<collection>?limit=' + limit + '&skip=' + skip`. */
  function PageUrl(q: PageQuery): string {
    Prefix(q.collection) + NatToDecimal(q.limit) + "&skip=" + NatToDecimal(q.skip)
  }

  /** The URL `base + '/posts/' + id + '/comments'` of one post's comments. */
  function PostCommentsUrl(postId: nat): string {
    Base + "/posts/" + NatToDecimal(postId) + "/comments"
  }

  function CollectionOf(url: string): Option<Collection> {
    if StartsWith(url, Prefix(Posts)) then Some(Posts)
    else if StartsWith(url, Prefix(Comments)) then Some(Comments)
    else if StartsWith(url, Prefix(Users)) then Some(Users)
    else None
  }

  /** Reads `limit` and `skip` out of what follows the prefix of a page URL. */
  function ParseParams(c: Collection, rest: string): Option<PageQuery> {
    var i := Find(rest, '&');
    var limitText, tail := rest[..i], rest[i..];
    if StartsWith(tail, "&skip=") && limitText != [] && AllDigits(limitText)
       && tail[6..] != [] && AllDigits(tail[6..])
    then Some(PageQuery(c, DecimalValue(limitText), DecimalValue(tail[6..])))
    else None
  }

  /** Reads the paging parameters back out of a page URL. */
  function ParsePageUrl(url: string): Option<PageQuery> {
    match CollectionOf(url)
    case None => None
    case Some(c) => ParseParams(c, url[|Prefix(c)|..])
  }

  lemma PrefixSelectsCollection(c: Collection, tail: string)
    ensures CollectionOf(Prefix(c) + tail) == Some(c)
  {
    var url := Prefix(c) + tail;
    assert url[..|Prefix(c)|] == Prefix(c);
    assert url[22] == Prefix(c)[22];
    assert Prefix(Posts)[22] == 'p' && Prefix(Comments)[22] == 'c' && Prefix(Users)[22] == 'u';
  }

  lemma {:induction false} FindAfter(a: string, b: string, ch: char)
    requires forall i :: 0 <= i < |a| ==> a[i] != ch
    requires |b| > 0 && b[0] == ch
    ensures Find(a + b, ch) == |a|
    decreases |a|
  {
    if a != [] {
      assert (a + b)[1..] == a[1..] + b;
      FindAfter(a[1..], b, ch);
    }
  }

  lemma ParseParamsOf(c: Collection, l: string, s: string)
    requires l != [] && AllDigits(l) && s != [] && AllDigits(s)
    ensures ParseParams(c, l + "&skip=" + s) == Some(PageQuery(c, DecimalValue(l), DecimalValue(s)))
  {
    var rest := l + ("&skip=" + s);
    assert l + "&skip=" + s == rest;
    assert forall i :: 0 <= i < |l| ==> l[i] != '&' by {
      forall i | 0 <= i < |l| ensures l[i] != '&' { assert IsDigit(l[i]); }
    }
    FindAfter(l, "&skip=" + s, '&');
    assert rest[..|l|] == l;
    assert rest[|l|..] == "&skip=" + s;
    assert ("&skip=" + s)[..6] == "&skip=";
    assert ("&skip=" + s)[6..] == s;
  }

  /** A page URL determines the request it was built from. */
  lemma {:induction false} PageUrlRoundTrip(q: PageQuery)
    ensures ParsePageUrl(PageUrl(q)) == Some(q)
  {
    var l, s := NatToDecimal(q.limit), NatToDecimal(q.skip);
    var rest := l + "&skip=" + s;
    var p := Prefix(q.collection);
    assert PageUrl(q) == p + rest && (p + rest)[|p|..] == rest;
    assert CollectionOf(p + rest) == Some(q.collection) by {
      PrefixSelectsCollection(q.collection, rest);
    }
    assert ParseParams(q.collection, rest) == Some(q) by {
      ParseParamsOf(q.collection, l, s);
      DecimalRoundTrip(q.limit);
      DecimalRoundTrip(q.skip);
    }
  }

  /** Distinct requests go to distinct URLs. */
  lemma PageUrlInjective(q1: PageQuery, q2: PageQuery)
    requires PageUrl(q1) == PageUrl(q2)
    ensures q1 == q2
  {
    PageUrlRoundTrip(q1);
    PageUrlRoundTrip(q2);
  }

  lemma DefaultDecimals()
    ensures NatToDecimal(0) == "0" && NatToDecimal(10) == "10" && NatToDecimal(100) == "100"
  {
    assert NatToDecimal(1) == "1";
  }

  /** `fetchPosts()` with `limit` and `skip` undefined requests this URL. */
  lemma DefaultPostsUrl()
    ensures PageUrl(Query(Posts, None, None)) == Base + "/posts?limit=10&skip=0"
  {
    DefaultDecimals();
  }

  /** `fetchComments()` with `limit` and `skip` undefined requests this URL. */
  lemma DefaultCommentsUrl()
    ensures PageUrl(Query(Comments, None, None)) == Base + "/comments?limit=100&skip=0"
  {
    DefaultDecimals();
  }

  /** `fetchUsers()` with `limit` and `skip` undefined requests this URL. */
  lemma DefaultUsersUrl()
    ensures PageUrl(Query(Users, None, None)) == Base + "/users?limit=100&skip=0"
  {
    DefaultDecimals();
  }

  /** The post-scoped URL is never mistaken for a page URL. */
  lemma PostCommentsUrlIsNoPageUrl(postId: nat)
    ensures ParsePageUrl(PostCommentsUrl(postId)) == None
  {
    var url := PostCommentsUrl(postId);
    var posts := Base + "/posts/";
    assert url[..|posts|] == posts by {
      assert url == posts + (NatToDecimal(postId) + "/comments");
    }
    assert !StartsWith(url, Prefix(Posts)) by {
      assert url[27] == posts[27] == '/' && Prefix(Posts)[27] == '?';
      DiffersAt(url, Prefix(Posts), 27);
    }
    assert !StartsWith(url, Prefix(Comments)) by {
      assert url[22] == posts[22] == 'p' && Prefix(Comments)[22] == 'c';
      DiffersAt(url, Prefix(Comments), 22);
    }
    assert !StartsWith(url, Prefix(Users)) by {
      assert url[22] == posts[22] == 'p' && Prefix(Users)[22] == 'u';
      DiffersAt(url, Prefix(Users), 22);
    }
  }

  /** The post-scoped URL determines the post. */
  lemma PostCommentsUrlInjective(a: nat, b: nat)
    requires PostCommentsUrl(a) == PostCommentsUrl(b)
    ensures a == b
  {
    var p := Base + "/posts/";
    var da, db := NatToDecimal(a), NatToDecimal(b);
    assert PostCommentsUrl(a) == p + da + "/comments";
    assert PostCommentsUrl(b) == p + db + "/comments";
    assert |da| == |db|;
    assert (p + da + "/comments")[|p|..|p| + |da|] == da;
    assert (p + db + "/comments")[|p|..|p| + |db|] == db;
    DecimalRoundTrip(a);
    DecimalRoundTrip(b);
  }

  // ---------------------------------------------------------------------------
  // Requests

  /** What the network answers: a rejected `fetch`, or a response with its `ok` flag and JSON body. */
  datatype Reply<B> = NetworkFailure | HttpResponse(ok: bool, body: B)

  /** What a request can throw: the error of a rejected `fetch`, the client's own error, or a TypeError on a missing field. */
  datatype FetchError = NetworkError | HttpError(message: string) | MissingField

  /** The remote API as an oracle from request URL to reply. */
  type Network<B> = string -> Reply<B>

  /** The JSON body of a page: the collection's array field and `total`, either of which may be missing (`None`). */
  datatype Body<T> = Body(items: Option<seq<T>>, total: Option<int>)

  /** One request to `url`; a non-ok response throws `message` and is not retried. */
  function Fetch<B>(net: Network<B>, url: string, message: string): Result<B, FetchError> {
    match net(url)
    case NetworkFailure => Failure(NetworkError)
    case HttpResponse(ok, body) => if ok then Success(body) else Failure(HttpError(message))
  }

  /** `fetchPosts`, `fetchComments` and `fetchUsers`: one request for one page of a collection. */
  function FetchPage<B>(net: Network<B>, c: Collection, limit: Option<nat>, skip: Option<nat>): (r: Result<B, FetchError>)
    ensures var reply := net(PageUrl(Query(c, limit, skip)));
            && (reply.HttpResponse? && reply.ok ==> r == Success(reply.body))
            && (reply.HttpResponse? && !reply.ok ==> r == Failure(HttpError(ErrorMessage(c))))
            && (reply.NetworkFailure? ==> r == Failure(NetworkError))
  {
    Fetch(net, PageUrl(Query(c, limit, skip)), ErrorMessage(c))
  }

  /** `fetchCommentsForPost`: a body without `comments` yields no comments rather than an error. */
  function FetchCommentsForPost<T>(net: Network<Body<T>>, postId: nat): (r: Result<seq<T>, FetchError>)
    ensures var reply := net(PostCommentsUrl(postId));
            && (r.Success? <==> reply.HttpResponse? && reply.ok)
            && (r.Success? && reply.body.items.None? ==> r.value == [])
            && (r.Success? && reply.body.items.Some? ==> r.value == reply.body.items.value)
            && (reply.HttpResponse? && !reply.ok ==>
                  r == Failure(HttpError("Kunde inte hämta kommentarer för inlägg " + NatToDecimal(postId))))
            && (reply.NetworkFailure? ==> r == Failure(NetworkError))
  {
    match Fetch(net, PostCommentsUrl(postId), "Kunde inte hämta kommentarer för inlägg " + NatToDecimal(postId))
    case Failure(e) => Failure(e)
    case Success(body) => Success(if body.items.Some? then body.items.value else [])
  }

  // ---------------------------------------------------------------------------
  // Aggregation of a whole collection

  /** The outcome of fetching the page at a given `skip`. */
  type Source<T> = nat -> Result<Body<T>, FetchError>

  /** The pages the aggregation loop of collection `c` requests: `limit` 100 at the given `skip`. */
  function PageSource<T>(net: Network<Body<T>>, c: Collection): Source<T> {
    (skip: nat) => FetchPage(net, c, Some(AggregatePageSize), Some(skip))
  }

  /** The break test `acc.length >= data.total`; it never holds when `total` is absent. */
  predicate Reached(count: nat, total: Option<int>) {
    total.Some? && count >= total.value
  }

  /**
   * What the aggregation loop returns when started at `skip` with `acc` already
   * gathered, if it stops within `fuel` more requests; `None` if it does not.
   */
  function Aggregate<T>(source: Source<T>, skip: nat, acc: seq<T>, fuel: nat): Option<Result<seq<T>, FetchError>>
    decreases fuel
  {
    if fuel == 0 then None
    else match source(skip)
      case Failure(e) => Some(Failure(e))
      case Success(body) =>
        if body.items.None? then Some(Failure(MissingField))
        else
          var next := acc + body.items.value;
          if Reached(|next|, body.total) then Some(Success(next))
          else Aggregate(source, skip + AggregatePageSize, next, fuel - 1)
  }

  /**
   * `fetchAllComments` and `fetchAllUsers`: request pages of 100 from skip 0,
   * append each page, stop once the gathered count reaches the latest `total`,
   * otherwise advance `skip` by 100.  `fuel` bounds the number of requests
   * after which the source lets the loop stop.
   */
  method FetchAll<T>(net: Network<Body<T>>, c: Collection, ghost fuel: nat) returns (r: Result<seq<T>, FetchError>)
    requires Aggregate(PageSource(net, c), 0, [], fuel).Some?
    ensures Aggregate(PageSource(net, c), 0, [], fuel) == Some(r)
  {
    ghost var source := PageSource(net, c);
    var all: seq<T> := [];
    var skip: nat := 0;
    ghost var left := fuel;
    while true
      invariant Aggregate(source, skip, all, left) == Aggregate(source, 0, [], fuel)
      invariant Aggregate(source, skip, all, left).Some?
      decreases left
    {
      var data := FetchPage(net, c, Some(AggregatePageSize), Some(skip));
      assert data == source(skip);
      if data.Failure? {
        return Failure(data.error);
      }
      if data.value.items.None? {
        return Failure(MissingField);
      }
      all := all + data.value.items.value;
      if Reached(|all|, data.value.total) {
        return Success(all);
      }
      skip := skip + AggregatePageSize;
      left := left - 1;
    }
  }

  /** The aggregate does not depend on how much fuel beyond enough is given. */
  lemma {:induction false} AggregateFuelIrrelevant<T>(source: Source<T>, skip: nat, acc: seq<T>, fuel: nat, more: nat)
    requires Aggregate(source, skip, acc, fuel).Some?
    requires fuel <= more
    ensures Aggregate(source, skip, acc, more) == Aggregate(source, skip, acc, fuel)
    decreases fuel
  {
    var page := source(skip);
    if page.Success? && page.value.items.Some? {
      var next := acc + page.value.items.value;
      if !Reached(|next|, page.value.total) {
        AggregateFuelIrrelevant(source, skip + AggregatePageSize, next, fuel - 1, more - 1);
      }
    }
  }

  /** The items of the first `k` pages, at skip 0, 100, 200, ..., or `None` when one of them fails or lacks its array. */
  function FirstPages<T>(source: Source<T>, k: nat): Option<seq<T>> {
    if k == 0 then Some([])
    else match FirstPages(source, k - 1)
      case None => None
      case Some(prev) =>
        var page := source((k - 1) * AggregatePageSize);
        if page.Success? && page.value.items.Some? then Some(prev + page.value.items.value) else None
  }

  /** The `total` reported by the `j`-th page (counting from 0), if it arrived. */
  function PageTotal<T>(source: Source<T>, j: nat): Option<int> {
    var page := source(j * AggregatePageSize);
    if page.Success? then page.value.total else None
  }

  /** Page `k` (from 1) is where the loop would stop: everything before it arrived and fell short of its total. */
  predicate StopsAt<T>(source: Source<T>, k: nat) {
    && k >= 1
    && FirstPages(source, k).Some?
    && Reached(|FirstPages(source, k).value|, PageTotal(source, k - 1))
  }

  predicate ContinuesAfterFirst<T>(source: Source<T>, i: nat) {
    forall j :: 1 <= j <= i ==> FirstPages(source, j).Some? && !StopsAt(source, j)
  }

  lemma {:induction false} AggregateStopsFrom<T>(source: Source<T>, i: nat, fuel: nat, xs: seq<T>) returns (k: nat)
    requires FirstPages(source, i).Some? && ContinuesAfterFirst(source, i)
    requires Aggregate(source, i * AggregatePageSize, FirstPages(source, i).value, fuel) == Some(Success(xs))
    ensures i < k <= i + fuel
    ensures FirstPages(source, k) == Some(xs) && StopsAt(source, k)
    ensures ContinuesAfterFirst(source, k - 1)
    decreases fuel
  {
    var acc := FirstPages(source, i).value;
    var page := source(i * AggregatePageSize);
    assert page.Success? && page.value.items.Some?;
    var next := acc + page.value.items.value;
    assert FirstPages(source, i + 1) == Some(next);
    if Reached(|next|, page.value.total) {
      k := i + 1;
    } else {
      assert (i + 1) * AggregatePageSize == i * AggregatePageSize + AggregatePageSize;
      assert !StopsAt(source, i + 1);
      k := AggregateStopsFrom(source, i + 1, fuel - 1, xs);
    }
  }

  /**
   * A successful aggregate is the concatenation, in arrival order and without
   * deduplication, of the pages at skip 0, 100, ..., 100 * (k - 1), where page
   * `k` is the first after which the gathered count reaches the reported total.
   */
  lemma AggregateIsFirstPages<T>(source: Source<T>, fuel: nat, xs: seq<T>) returns (k: nat)
    requires Aggregate(source, 0, [], fuel) == Some(Success(xs))
    ensures 1 <= k <= fuel
    ensures FirstPages(source, k) == Some(xs) && StopsAt(source, k)
    ensures forall j :: 1 <= j < k ==> FirstPages(source, j).Some? && !StopsAt(source, j)
  {
    k := AggregateStopsFrom(source, 0, fuel, xs);
  }

  /**
   * From page `i` on, with the pages before `k` arriving and falling short and
   * page `k` reaching its total, the loop returns the first `k` pages within
   * the `k - i` requests left.
   */
  lemma {:induction false} AggregateFrom<T>(source: Source<T>, i: nat, k: nat)
    requires i < k && StopsAt(source, k) && ContinuesAfterFirst(source, k - 1)
    ensures FirstPages(source, i).Some?
    ensures Aggregate(source, i * AggregatePageSize, FirstPages(source, i).value, k - i)
            == Some(Success(FirstPages(source, k).value))
    decreases k - i
  {
    assert FirstPages(source, i + 1).Some? by {
      if i + 1 < k { assert 1 <= i + 1 <= k - 1; }
    }
    var page := source(i * AggregatePageSize);
    assert page.Success? && page.value.items.Some?;
    var next := FirstPages(source, i).value + page.value.items.value;
    assert FirstPages(source, i + 1) == Some(next);
    if i + 1 < k {
      assert !StopsAt(source, i + 1);
      assert (i + 1) * AggregatePageSize == i * AggregatePageSize + AggregatePageSize;
      AggregateFrom(source, i + 1, k);
    }
  }

  /** The converse of `AggregateIsFirstPages`: when page `k` is the first stop, the loop returns the first `k` pages after `k` requests. */
  lemma AggregateOfFirstPages<T>(source: Source<T>, k: nat)
    requires StopsAt(source, k) && ContinuesAfterFirst(source, k - 1)
    ensures Aggregate(source, 0, [], k) == Some(Success(FirstPages(source, k).value))
  {
    AggregateFrom(source, 0, k);
  }

  /** Page `k` (from 1) is the first that fails or lacks its array. */
  predicate FailsAt<T>(source: Source<T>, k: nat) {
    k >= 1 && FirstPages(source, k - 1).Some? && FirstPages(source, k).None?
  }

  /** The error the loop throws on the `j`-th page (from 0): the fetch's own error, or the missing array. */
  function PageError<T>(source: Source<T>, j: nat): FetchError {
    var page := source(j * AggregatePageSize);
    if page.Failure? then page.error else MissingField
  }

  /** From page `i` on, a failing page `k` with no stop before it makes the loop throw that page's error. */
  lemma {:induction false} AggregateFailsFrom<T>(source: Source<T>, i: nat, k: nat)
    requires i < k && FailsAt(source, k) && ContinuesAfterFirst(source, k - 1)
    ensures FirstPages(source, i).Some?
    ensures Aggregate(source, i * AggregatePageSize, FirstPages(source, i).value, k - i)
            == Some(Failure(PageError(source, k - 1)))
    decreases k - i
  {
    assert FirstPages(source, i).Some? by {
      if 1 <= i { assert i <= k - 1; }
    }
    var page := source(i * AggregatePageSize);
    if i + 1 < k {
      assert 1 <= i + 1 <= k - 1;
      assert FirstPages(source, i + 1).Some?;
      assert page.Success? && page.value.items.Some?;
      var next := FirstPages(source, i).value + page.value.items.value;
      assert FirstPages(source, i + 1) == Some(next);
      assert !StopsAt(source, i + 1);
      assert (i + 1) * AggregatePageSize == i * AggregatePageSize + AggregatePageSize;
      AggregateFailsFrom(source, i + 1, k);
    }
  }

  /**
   * The failure half: when page `k` is the first that fails or lacks its
   * array and no earlier page reached its total, the loop throws that page's
   * error after `k` requests.
   */
  lemma AggregateOfFailure<T>(source: Source<T>, k: nat)
    requires FailsAt(source, k) && ContinuesAfterFirst(source, k - 1)
    ensures Aggregate(source, 0, [], k) == Some(Failure(PageError(source, k - 1)))
  {
    AggregateFailsFrom(source, 0, k);
  }

  function Min(a: nat, b: nat): nat {
    if a <= b then a else b
  }

  /** A well-behaved collection `all`: a fixed total, and min(100, total - skip) items at each `skip`. */
  function Serving<T>(all: seq<T>): Source<T> {
    (skip: nat) => Success(Body(Some(all[Min(skip, |all|)..Min(skip + AggregatePageSize, |all|)]), Some(|all|)))
  }

  /** max(1, ceil(total / 100)): the requests the loop makes against a well-behaved source. */
  function CallsNeeded(total: nat): nat {
    if total == 0 then 1 else (total + AggregatePageSize - 1) / AggregatePageSize
  }

  lemma {:induction false} ServingFrom<T>(all: seq<T>, i: nat, fuel: nat)
    requires i == 0 || i * AggregatePageSize < |all|
    ensures i < CallsNeeded(|all|)
    ensures i * AggregatePageSize <= |all|
    ensures Aggregate(Serving(all), i * AggregatePageSize, all[..i * AggregatePageSize], fuel)
            == if i + fuel >= CallsNeeded(|all|) then Some(Success(all)) else None
    decreases fuel
  {
    var skip := i * AggregatePageSize;
    var end := Min(skip + AggregatePageSize, |all|);
    if fuel > 0 {
      var next := all[..skip] + all[skip..end];
      assert next == all[..end];
      if end == |all| {
        assert next == all;
        assert i + 1 == CallsNeeded(|all|);
      } else {
        assert (i + 1) * AggregatePageSize == skip + AggregatePageSize;
        ServingFrom(all, i + 1, fuel - 1);
      }
    }
  }

  /**
   * Against a well-behaved source of `T` items the loop makes exactly
   * max(1, ceil(T / 100)) requests and returns exactly the collection.
   */
  lemma ServingAggregatesAll<T>(all: seq<T>, fuel: nat)
    ensures Aggregate(Serving(all), 0, [], fuel)
            == if fuel >= CallsNeeded(|all|) then Some(Success(all)) else None
  {
    ServingFrom(all, 0, fuel);
    assert all[..0] == [];
  }
}

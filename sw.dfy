/**
 * The service worker of sw.js: install-time population of the static cache,
 * activation-time removal of stale caches, and the fetch handler's routing and
 * caching strategies.
 *
 * The browser's cache storage is a class: the cache names in creation order
 * (the order in which `caches.match` searches them) and, per name, a map from
 * request to stored response.  The network is an input: the outcome the
 * request would have if it were sent.
 */
module ServiceWorker {
  import opened Wrappers

  const StaticCache: string := "static-v1"
  const ApiCache: string := "api-v1"

  /** The paths the worker caches at install time and serves cache-first. */
  const StaticAssets: seq<string> := [
    "/", "/index.html", "/posts.html", "/contact.html", "/post-detail.html",
    "/css/styles.css", "/js/app.js", "/js/api.js", "/manifest.json",
    "/assets/images/omar.jpg"
  ]

  const ApiHost: string := "dummyjson.com"

  /** The page served when neither the network nor the cache can answer a network-first request. */
  const OfflinePage: string := "/index.html"

  /** A request, by the parts of its URL the worker looks at; requests are also the cache keys. */
  datatype Request = Request(host: string, path: string, search: string)

  datatype Response = Response(status: int, body: string)

  /** What `fetch` gives: a rejection, or a response with whatever status. */
  datatype NetResult = NetworkFailure | Fetched(response: Response)

  type Store = map<Request, Response>

  /** A path of the worker's own origin, as `cache.addAll` and `caches.match('/index.html')` resolve it. */
  function SameOrigin(origin: string, path: string): Request {
    Request(origin, path, "")
  }

  // ---------------------------------------------------------------------------
  // Routing

  /** `STATIC_ASSETS.some(asset => path === asset)`. */
  function IsStaticPath(path: string, assets: seq<string>): (r: bool)
    ensures r <==> path in assets
  {
    if assets == [] then false else assets[0] == path || IsStaticPath(path, assets[1..])
  }

  datatype Route = CacheFirst | ApiNetworkFirst | NetworkFirst

  /** The fetch handler's choice of strategy; the first rule that matches wins. */
  function RouteOf(req: Request): (r: Route)
    ensures r == CacheFirst <==> req.path in StaticAssets
    ensures r == ApiNetworkFirst <==> req.path !in StaticAssets && req.host == ApiHost
    ensures r == NetworkFirst <==> req.path !in StaticAssets && req.host != ApiHost
  {
    if IsStaticPath(req.path, StaticAssets) then CacheFirst
    else if req.host == ApiHost then ApiNetworkFirst
    else NetworkFirst
  }

  /** A static path wins over the API host: such a request is served cache-first. */
  lemma StaticPathWinsOverApiHost(path: string, search: string)
    requires path in StaticAssets
    ensures RouteOf(Request(ApiHost, path, search)) == CacheFirst
  {
  }

  // ---------------------------------------------------------------------------
  // Cache lookup

  predicate Holds(names: seq<string>, stores: map<string, Store>, i: int, req: Request) {
    0 <= i < |names| && names[i] in stores && req in stores[names[i]]
  }

  /** Cache `i` is the first, in creation order, that holds the request. */
  predicate FirstHolder(names: seq<string>, stores: map<string, Store>, i: int, req: Request) {
    Holds(names, stores, i, req) && forall j :: 0 <= j < i ==> !Holds(names, stores, j, req)
  }

  /** `caches.match(req)`: the response stored for `req` in the first cache that holds it. */
  function MatchIn(names: seq<string>, stores: map<string, Store>, req: Request): (r: Option<Response>)
    ensures r.Some? <==> exists i :: Holds(names, stores, i, req)
    ensures r.Some? ==> exists i :: FirstHolder(names, stores, i, req) && r.value == stores[names[i]][req]
  {
    if names == [] then None
    else if names[0] in stores && req in stores[names[0]] then
      assert FirstHolder(names, stores, 0, req);
      Some(stores[names[0]][req])
    else
      var r := MatchIn(names[1..], stores, req);
      assert forall i :: Holds(names[1..], stores, i, req) <==> Holds(names, stores, i + 1, req);
      assert forall i :: Holds(names, stores, i, req) ==> i >= 1 && Holds(names[1..], stores, i - 1, req);
      if r.Some? then
        var i :| FirstHolder(names[1..], stores, i, req) && r.value == stores[names[1..][i]][req];
        assert FirstHolder(names, stores, i + 1, req);
        r
      else r
  }

  // ---------------------------------------------------------------------------
  // Fetch handler decisions

  /** The fallback of both network-first paths: the cached entry for the request, else the cached offline page. */
  function Fallback(names: seq<string>, stores: map<string, Store>, origin: string, req: Request): Option<Response> {
    var hit := MatchIn(names, stores, req);
    if hit.Some? then hit else MatchIn(names, stores, SameOrigin(origin, OfflinePage))
  }

  /**
   * The response the page receives for `req` when the network would answer
   * `net`; `None` when the page receives a network error.
   */
  function Respond(names: seq<string>, stores: map<string, Store>, origin: string, req: Request, net: NetResult): Option<Response> {
    match RouteOf(req)
    case CacheFirst =>
      var hit := MatchIn(names, stores, req);
      if hit.Some? then hit else if net.Fetched? then Some(net.response) else None
    case _ =>
      if net.Fetched? then Some(net.response) else Fallback(names, stores, origin, req)
  }

  /** Whether the handler stores the response: an API request whose network response has status 200. */
  predicate WritesBack(req: Request, net: NetResult) {
    RouteOf(req) == ApiNetworkFirst && net.Fetched? && net.response.status == 200
  }

  /** The cache names after `caches.open(name)`, which creates a missing cache. */
  function Opened(names: seq<string>, name: string): seq<string> {
    if name in names then names else names + [name]
  }

  /** The stores after `caches.open(name)` and `cache.put(req, resp)`. */
  function Stored(stores: map<string, Store>, name: string, req: Request, resp: Response): map<string, Store> {
    var store := if name in stores then stores[name] else map[];
    stores[name := store[req := resp]]
  }

  /** A network-first answer given without the network is a stored entry for the request or for the offline page. */
  lemma OfflineAnswerIsCached(names: seq<string>, stores: map<string, Store>, origin: string, req: Request)
    requires RouteOf(req) != CacheFirst
    ensures var r := Respond(names, stores, origin, req, NetworkFailure);
            r.Some? ==> exists i :: || (Holds(names, stores, i, req) && r.value == stores[names[i]][req])
                                   || (Holds(names, stores, i, SameOrigin(origin, OfflinePage))
                                       && r.value == stores[names[i]][SameOrigin(origin, OfflinePage)])
  {
    var r := Respond(names, stores, origin, req, NetworkFailure);
    if MatchIn(names, stores, req).Some? {
      var i :| FirstHolder(names, stores, i, req) && r.value == stores[names[i]][req];
    } else if r.Some? {
      var i :| FirstHolder(names, stores, i, SameOrigin(origin, OfflinePage))
               && r.value == stores[names[i]][SameOrigin(origin, OfflinePage)];
    }
  }

  /** Once an API response with status 200 has been stored, the same request is answered even without the network. */
  lemma WriteBackServesOffline(names: seq<string>, stores: map<string, Store>, origin: string, req: Request, resp: Response)
    requires forall n :: n in stores <==> n in names
    requires WritesBack(req, Fetched(resp))
    ensures Respond(Opened(names, ApiCache), Stored(stores, ApiCache, req, resp), origin, req, NetworkFailure).Some?
  {
    var names', stores' := Opened(names, ApiCache), Stored(stores, ApiCache, req, resp);
    var i :| 0 <= i < |names'| && names'[i] == ApiCache;
    assert Holds(names', stores', i, req);
  }

  // ---------------------------------------------------------------------------
  // Activation

  /** The caches activation keeps: the current static and API generations. */
  predicate Kept(name: string) {
    name == StaticCache || name == ApiCache
  }

  predicate Distinct(names: seq<string>) {
    forall i, j :: 0 <= i < j < |names| ==> names[i] != names[j]
  }

  /** The cache names left after activation, in their original order. */
  function Surviving(names: seq<string>): (r: seq<string>)
    ensures forall n :: n in r <==> n in names && Kept(n)
  {
    if names == [] then []
    else
      var init, last := names[..|names| - 1], names[|names| - 1];
      assert forall n :: n in init ==> n in names;
      if Kept(last) then Surviving(init) + [last] else Surviving(init)
  }

  /**
   * Collection works name by name: it distributes over concatenation, so the
   * survivors keep their relative order and their multiplicity.
   */
  lemma {:induction false} SurvivingAppend(a: seq<string>, b: seq<string>)
    ensures Surviving(a + b) == Surviving(a) + Surviving(b)
    decreases |b|
  {
    if b == [] {
      assert a + b == a;
    } else {
      var init := b[..|b| - 1];
      assert (a + b)[..|a + b| - 1] == a + init;
      SurvivingAppend(a, init);
    }
  }

  /** Collecting twice is collecting once. */
  lemma {:induction false} SurvivingIdempotent(names: seq<string>)
    ensures Surviving(Surviving(names)) == Surviving(names)
    decreases |names|
  {
    if names != [] {
      var init, last := names[..|names| - 1], names[|names| - 1];
      SurvivingIdempotent(init);
      var s := Surviving(init);
      if Kept(last) {
        assert (s + [last])[..|s|] == s;
      }
    }
  }

  lemma SurvivingExample()
    ensures Surviving(["static-v1", "api-v1", "static-v0"]) == ["static-v1", "api-v1"]
  {
    assert ["static-v1", "api-v1", "static-v0"][..2] == ["static-v1", "api-v1"];
    assert ["static-v1", "api-v1"][..1] == ["static-v1"];
    assert ["static-v1"][..0] == [];
  }

  /** `names` with every occurrence of `name` removed. */
  function Without(names: seq<string>, name: string): (r: seq<string>)
    ensures forall n :: n in r <==> n in names && n != name
  {
    if names == [] then []
    else if names[0] == name then Without(names[1..], name)
    else
      assert forall n :: n in names[1..] ==> n in names;
      [names[0]] + Without(names[1..], name)
  }

  lemma {:induction false} WithoutDistinct(names: seq<string>, name: string)
    requires Distinct(names)
    ensures Distinct(Without(names, name))
    decreases |names|
  {
    if names != [] {
      WithoutDistinct(names[1..], name);
      if names[0] != name {
        var w := Without(names[1..], name);
        assert names[0] !in names[1..];
        assert names[0] !in w;
        var r := [names[0]] + w;
        forall i, j | 0 <= i < j < |r| ensures r[i] != r[j] {
          if i > 0 {
            assert r[i] == w[i - 1] && r[j] == w[j - 1];
          } else {
            assert r[j] == w[j - 1];
          }
        }
      }
    }
  }

  lemma {:induction false} WithoutAbsent(names: seq<string>, name: string)
    requires name !in names
    ensures Without(names, name) == names
    decreases |names|
  {
    if names != [] {
      WithoutAbsent(names[1..], name);
    }
  }

  lemma {:induction false} WithoutAppend(a: seq<string>, b: seq<string>, name: string)
    ensures Without(a + b, name) == Without(a, name) + Without(b, name)
    decreases |a|
  {
    if a == [] {
      assert a + b == b;
    } else {
      assert (a + b)[1..] == a[1..] + b;
      WithoutAppend(a[1..], b, name);
    }
  }

  /** Deleting the next unkept name of an activation pass. */
  lemma DeleteStep(keys: seq<string>, i: nat)
    requires Distinct(keys) && i < |keys| && !Kept(keys[i])
    ensures Without(Surviving(keys[..i]) + keys[i..], keys[i]) == Surviving(keys[..i + 1]) + keys[i + 1..]
  {
    var name := keys[i];
    var done, after := Surviving(keys[..i]), keys[i + 1..];
    assert Surviving(keys[..i + 1]) == done by {
      assert keys[..i + 1][..i] == keys[..i];
    }
    assert keys[i..] == [name] + after;
    assert Without(done, name) == done by {
      assert name !in keys[..i] by {
        assert forall j :: 0 <= j < i ==> keys[j] != name;
      }
      WithoutAbsent(done, name);
    }
    assert Without(after, name) == after by {
      assert name !in after by {
        assert forall j :: i < j < |keys| ==> keys[j] != name;
      }
      WithoutAbsent(after, name);
    }
    assert Without([name] + after, name) == after by {
      WithoutAppend([name], after, name);
      assert Without([name], name) == [];
    }
    WithoutAppend(done, [name] + after, name);
  }

  /** Passing over a kept name of an activation pass. */
  lemma KeepStep(keys: seq<string>, i: nat)
    requires i < |keys| && Kept(keys[i])
    ensures Surviving(keys[..i]) + keys[i..] == Surviving(keys[..i + 1]) + keys[i + 1..]
  {
    assert keys[..i + 1][..i] == keys[..i];
    assert keys[i..] == [keys[i]] + keys[i + 1..];
  }

  /** The stores of the caches not yet passed over, or kept. */
  function StoresLeft(stores: map<string, Store>, rest: seq<string>): map<string, Store> {
    map n | n in stores && (n in rest || Kept(n)) :: stores[n]
  }

  /** The stores that survive activation: those of the kept names. */
  function KeptStores(stores: map<string, Store>): (r: map<string, Store>)
    ensures forall n :: n in r <==> n in stores && Kept(n)
  {
    map n | n in stores && Kept(n) :: stores[n]
  }

  lemma StoresLeftDone(stores: map<string, Store>)
    ensures StoresLeft(stores, []) == KeptStores(stores)
  {
  }

  lemma StoresLeftStep(stores: map<string, Store>, keys: seq<string>, i: nat)
    requires Distinct(keys) && i < |keys|
    ensures StoresLeft(stores, keys[i + 1..])
            == if Kept(keys[i]) then StoresLeft(stores, keys[i..]) else StoresLeft(stores, keys[i..]) - {keys[i]}
  {
    assert keys[i..] == [keys[i]] + keys[i + 1..];
    assert keys[i] !in keys[i + 1..] by {
      assert forall j :: i < j < |keys| ==> keys[j] != keys[i];
    }
  }

  // ---------------------------------------------------------------------------
  // Installation

  /** `cache.addAll` accepts a response only if it arrived with an ok status. */
  predicate AssetOk(net: NetResult) {
    net.Fetched? && 200 <= net.response.status <= 299
  }

  /** The entries `addAll` stores for `paths`: each path of the origin with the response it brought. */
  function AssetEntries(net: Request -> NetResult, origin: string, paths: seq<string>): (r: Store)
    ensures forall p :: p in paths && net(SameOrigin(origin, p)).Fetched? ==> SameOrigin(origin, p) in r
    ensures forall q :: q in r ==> q.host == origin && q.path in paths && q.search == "" && net(q).Fetched?
    ensures forall q :: q in r ==> r[q] == net(q).response
  {
    if paths == [] then map[]
    else
      var init := paths[..|paths| - 1];
      var q := SameOrigin(origin, paths[|paths| - 1]);
      assert forall p :: p in paths ==> p in init || p == paths[|paths| - 1];
      assert forall p :: p in init ==> p in paths;
      var rest := AssetEntries(net, origin, init);
      if net(q).Fetched? then rest[q := net(q).response] else rest
  }

  /** Every path of the origin arrives with an ok status. */
  predicate AllOk(net: Request -> NetResult, origin: string, paths: seq<string>) {
    forall k :: 0 <= k < |paths| ==> AssetOk(net(SameOrigin(origin, paths[k])))
  }

  lemma AllOkStep(net: Request -> NetResult, origin: string, paths: seq<string>, i: nat)
    requires i < |paths|
    ensures AllOk(net, origin, paths[..i + 1])
            <==> AllOk(net, origin, paths[..i]) && AssetOk(net(SameOrigin(origin, paths[i])))
  {
    var pre, next := paths[..i], paths[..i + 1];
    assert forall k :: 0 <= k < i ==> next[k] == pre[k];
    assert next[i] == paths[i];
  }

  lemma AssetEntriesStep(net: Request -> NetResult, origin: string, paths: seq<string>, i: nat)
    requires i < |paths| && AssetOk(net(SameOrigin(origin, paths[i])))
    ensures AssetEntries(net, origin, paths[..i + 1])
            == AssetEntries(net, origin, paths[..i])[SameOrigin(origin, paths[i]) := net(SameOrigin(origin, paths[i])).response]
  {
    assert paths[..i + 1][..i] == paths[..i];
  }

  /**
   * The fetching half of `cache.addAll(paths)`: request the paths in order and
   * stop at the first that fails; `ok` says whether all arrived, and then
   * `entries` holds what is to be stored.
   */
  method AddAllResponses(net: Request -> NetResult, origin: string, paths: seq<string>)
    returns (ok: bool, entries: Store)
    ensures ok <==> AllOk(net, origin, paths)
    ensures ok ==> entries == AssetEntries(net, origin, paths)
  {
    entries := map[];
    ok := true;
    var i := 0;
    while i < |paths| && ok
      invariant 0 <= i <= |paths|
      invariant ok <==> AllOk(net, origin, paths[..i])
      invariant ok ==> entries == AssetEntries(net, origin, paths[..i])
    {
      var q := SameOrigin(origin, paths[i]);
      var outcome := net(q);
      AllOkStep(net, origin, paths, i);
      if AssetOk(outcome) {
        AssetEntriesStep(net, origin, paths, i);
        entries := entries[q := outcome.response];
      } else {
        ok := false;
      }
      i := i + 1;
    }
    if ok {
      assert paths[..i] == paths;
    } else {
      assert !AllOk(net, origin, paths[..i]);
      var k :| 0 <= k < i && !AssetOk(net(SameOrigin(origin, paths[..i][k])));
      assert paths[..i][k] == paths[k];
    }
  }

  /** The stores after install: `static-v1` opened, and every asset added to it if all arrived, none otherwise. */
  function InstalledStores(stores: map<string, Store>, net: Request -> NetResult, origin: string, paths: seq<string>)
    : map<string, Store>
  {
    var store := if StaticCache in stores then stores[StaticCache] else map[];
    stores[StaticCache := if AllOk(net, origin, paths) then store + AssetEntries(net, origin, paths) else store]
  }

  /**
   * After an install that cached the assets `paths`, each of them is held by
   * some cache, so it is answered whatever the network does; a static asset is
   * answered from the cache, the network is not consulted.
   */
  lemma InstalledAssetsServedOffline(names: seq<string>, stores: map<string, Store>, net: Request -> NetResult,
                                     origin: string, paths: seq<string>, path: string, later: NetResult)
    requires forall n :: n in stores <==> n in names
    requires AllOk(net, origin, paths) && path in paths
    ensures var q := SameOrigin(origin, path);
            var names', stores' := Opened(names, StaticCache), InstalledStores(stores, net, origin, paths);
            && MatchIn(names', stores', q).Some?
            && Respond(names', stores', origin, q, later).Some?
            && (path in StaticAssets ==> Respond(names', stores', origin, q, later) == MatchIn(names', stores', q))
  {
    var names', stores' := Opened(names, StaticCache), InstalledStores(stores, net, origin, paths);
    var k :| 0 <= k < |paths| && paths[k] == path;
    var q := SameOrigin(origin, path);
    assert AssetOk(net(q));
    assert q in AssetEntries(net, origin, paths);
    assert StaticCache in stores';
    var i :| 0 <= i < |names'| && names'[i] == StaticCache;
    assert Holds(names', stores', i, q);
    assert MatchIn(names', stores', q).Some?;
  }

  /** The stores after install, in terms of the stores once `static-v1` is open and the outcome of fetching the assets. */
  lemma InstalledStoresFrom(stores: map<string, Store>, afterOpen: map<string, Store>, net: Request -> NetResult,
                            origin: string, paths: seq<string>, ok: bool, entries: Store)
    requires afterOpen == if StaticCache in stores then stores else stores[StaticCache := map[]]
    requires ok <==> AllOk(net, origin, paths)
    requires ok ==> entries == AssetEntries(net, origin, paths)
    ensures InstalledStores(stores, net, origin, paths)
            == if ok then afterOpen[StaticCache := afterOpen[StaticCache] + entries] else afterOpen
  {
  }

  // ---------------------------------------------------------------------------
  // The browser's cache storage, as the worker changes it

  class CacheStorage {
    /** The host of the site the worker serves. */
    const origin: string
    var names: seq<string>
    var stores: map<string, Store>

    ghost predicate Valid()
      reads this
    {
      Distinct(names) && forall n :: n in stores <==> n in names
    }

    constructor (origin: string, names: seq<string>, stores: map<string, Store>)
      requires Distinct(names) && forall n :: n in stores <==> n in names
      ensures Valid()
      ensures this.origin == origin && this.names == names && this.stores == stores
    {
      this.origin := origin;
      this.names := names;
      this.stores := stores;
    }

    /** `caches.open(name)`. */
    method Open(name: string)
      requires Valid()
      modifies this
      ensures Valid()
      ensures names == Opened(old(names), name)
      ensures stores == if name in old(stores) then old(stores) else old(stores)[name := map[]]
    {
      if name !in names {
        names := names + [name];
        stores := stores[name := map[]];
      }
    }

    /** `caches.open(name)` followed by `cache.put(req, resp)`. */
    method Put(name: string, req: Request, resp: Response)
      requires Valid()
      modifies this
      ensures Valid()
      ensures names == Opened(old(names), name)
      ensures stores == Stored(old(stores), name, req, resp)
    {
      Open(name);
      stores := stores[name := stores[name][req := resp]];
    }

    /** `caches.delete(name)`. */
    method Delete(name: string)
      requires Valid()
      modifies this
      ensures Valid()
      ensures names == Without(old(names), name)
      ensures stores == old(stores) - {name}
    {
      WithoutDistinct(names, name);
      names := Without(names, name);
      stores := stores - {name};
    }

    /** The fetch handler: answer `req`, storing API responses with status 200 in `api-v1`. */
    method HandleFetch(req: Request, net: NetResult) returns (r: Option<Response>)
      requires Valid()
      modifies this
      ensures Valid()
      ensures r == Respond(old(names), old(stores), origin, req, net)
      ensures WritesBack(req, net) ==> names == Opened(old(names), ApiCache)
                                        && stores == Stored(old(stores), ApiCache, req, net.response)
      ensures !WritesBack(req, net) ==> names == old(names) && stores == old(stores)
    {
      var route := RouteOf(req);
      if route == CacheFirst {
        var hit := MatchIn(names, stores, req);
        if hit.Some? {
          r := hit;
        } else if net.Fetched? {
          r := Some(net.response);
        } else {
          r := None;
        }
      } else if net.Fetched? {
        r := Some(net.response);
        if route == ApiNetworkFirst && net.response.status == 200 {
          Put(ApiCache, req, net.response);
        }
      } else {
        r := Fallback(names, stores, origin, req);
      }
    }

    /** The activate handler: delete every cache other than `static-v1` and `api-v1`. */
    method Activate()
      requires Valid()
      modifies this
      ensures Valid()
      ensures names == Surviving(old(names))
      ensures stores == KeptStores(old(stores))
    {
      var keys := names;
      ghost var initial := stores;
      var i := 0;
      assert keys[..0] == [];
      while i < |keys|
        invariant 0 <= i <= |keys| && Distinct(keys)
        invariant Valid()
        invariant names == Surviving(keys[..i]) + keys[i..]
        invariant stores == StoresLeft(initial, keys[i..])
      {
        Retire(keys, i, initial);
        i := i + 1;
      }
      assert keys[..i] == keys;
      assert keys[i..] == [];
      StoresLeftDone(initial);
    }

    /** One pass of the activate handler: delete the cache `keys[i]` unless it is kept. */
    method Retire(keys: seq<string>, i: nat, ghost initial: map<string, Store>)
      requires Valid() && Distinct(keys) && i < |keys|
      requires names == Surviving(keys[..i]) + keys[i..]
      requires stores == StoresLeft(initial, keys[i..])
      modifies this
      ensures Valid()
      ensures names == Surviving(keys[..i + 1]) + keys[i + 1..]
      ensures stores == StoresLeft(initial, keys[i + 1..])
    {
      var name := keys[i];
      StoresLeftStep(initial, keys, i);
      if Kept(name) {
        KeepStep(keys, i);
      } else {
        DeleteStep(keys, i);
        Delete(name);
      }
    }

    /** The install handler: open `static-v1` and add every static asset; a failure is logged and installation goes on. */
    method Install(net: Request -> NetResult) returns (cached: bool)
      requires Valid()
      modifies this
      ensures Valid()
      ensures cached <==> AllOk(net, origin, StaticAssets)
      ensures names == Opened(old(names), StaticCache)
      ensures stores == InstalledStores(old(stores), net, origin, StaticAssets)
    {
      Open(StaticCache);
      ghost var afterOpen := stores;
      var entries;
      cached, entries := AddAllResponses(net, origin, StaticAssets);
      InstalledStoresFrom(old(stores), afterOpen, net, origin, StaticAssets, cached, entries);
      if cached {
        stores := stores[StaticCache := stores[StaticCache] + entries];
      }
    }
  }
}

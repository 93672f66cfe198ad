/**
 The offline-first service worker of the trail map: it seeds one versioned
 cache on install, deletes every other cache on activate, and answers each
 intercepted GET request cache-first, writing successful network responses
 back into the versioned cache and falling back to a 404 for map tiles or to
 the cached index page for HTML navigations when the network fails.

 The network is a parameter (`NetOutcome` per request, a function from URL to
 outcome for install); handlers run to completion one at a time.
 */
module ServiceWorker {
  import opened CacheStorage

  /** The single cache name; every write goes here and activate keeps only it. */
  const CacheName: string := "calcagnini-trails-v1"

  /** The app shell seeded on install, in order. */
  const CoreFiles: seq<string> := [
    "/",
    "/index.html",
    "/manifest.json",
    "https://unpkg.com/leaflet@1.9.4/dist/leaflet.css",
    "https://unpkg.com/leaflet@1.9.4/dist/leaflet.js"
  ]

  /** An intercepted request; `accept` is None when the request has no Accept header. */
  datatype Request = Request(httpMethod: string, url: string, accept: Option<string>)

  /** What `fetch` does: resolves with a response, resolves with nothing, or rejects. */
  datatype NetOutcome = Ok(response: Response) | Absent | Fail

  /** How the fetch event ends, as the page sees it. */
  datatype Answer =
    | Declined           // the handler returns before respondWith: the browser fetches on its own
    | Served(response: Response)
    | NoResponse         // respondWith's promise resolves to undefined or null
    | Rejected           // respondWith's promise rejects (the handler threw)

  function KeyOf(req: Request): RequestKey
  {
    RequestKey(req.httpMethod, req.url)
  }

  /** A string URL given to the Cache API stands for a GET request of that URL. */
  function GetKey(url: string): RequestKey
  {
    RequestKey("GET", url)
  }

  const IndexKey: RequestKey := GetKey("/index.html")

  /** `part` occurs in `s` starting at index i. */
  predicate OccursAt(s: string, part: string, i: int)
  {
    0 <= i && i + |part| <= |s| && s[i..i + |part|] == part
  }

  /** JavaScript's `String.prototype.includes`: `part` occurs somewhere in `s`. */
  function Contains(s: string, part: string): (r: bool)
    ensures r <==> exists i :: OccursAt(s, part, i)
  {
    if |s| < |part| then false
    else if s[..|part|] == part then
      assert OccursAt(s, part, 0);
      true
    else
      OccurrenceShift(s, part);
      Contains(s[1..], part)
  }

  /** When `part` is not a prefix of `s`, it occurs in `s` exactly when it occurs in `s` without its first character. */
  lemma OccurrenceShift(s: string, part: string)
    requires |part| <= |s| && s[..|part|] != part
    ensures |s| > 0
    ensures (exists i :: OccursAt(s, part, i)) <==> (exists i :: OccursAt(s[1..], part, i))
  {
    if i :| OccursAt(s, part, i) {
      assert i != 0;
      assert s[1..][i - 1..i - 1 + |part|] == s[i..i + |part|];
      assert OccursAt(s[1..], part, i - 1);
    }
    if i :| OccursAt(s[1..], part, i) {
      assert s[1..][i..i + |part|] == s[i + 1..i + 1 + |part|];
      assert OccursAt(s, part, i + 1);
    }
  }

  // ---------------------------------------------------------------------------
  // Install: cache.addAll(CORE_FILES)
  // ---------------------------------------------------------------------------

  /** addAll stores a fetched response only when its status is ok (200 to 299) and not 206. */
  predicate AddAllAccepts(outcome: NetOutcome)
  {
    outcome.Ok? && 200 <= outcome.response.status <= 299 && outcome.response.status != 206
  }

  /** No URL occurs twice. */
  predicate NoDuplicates(urls: seq<string>)
  {
    forall i, j :: 0 <= i < j < |urls| ==> urls[i] != urls[j]
  }

  /** Every fetch of the list is one addAll accepts. */
  predicate AllAccepted(urls: seq<string>, network: string -> NetOutcome)
  {
    forall i :: 0 <= i < |urls| ==> AddAllAccepts(network(urls[i]))
  }

  /** The two conditions of addAll, split into the first URL and the rest. */
  lemma UrlsCons(urls: seq<string>, network: string -> NetOutcome)
    requires urls != []
    ensures NoDuplicates(urls) <==> urls[0] !in urls[1..] && NoDuplicates(urls[1..])
    ensures AllAccepted(urls, network) <==> AddAllAccepts(network(urls[0])) && AllAccepted(urls[1..], network)
    ensures forall u :: u in urls <==> u == urls[0] || u in urls[1..]
  {
    assert forall i :: 1 <= i < |urls| ==> urls[i] == urls[1..][i - 1];
    if urls[0] in urls[1..] {
      var j :| 0 <= j < |urls[1..]| && urls[1..][j] == urls[0];
      assert urls[0] == urls[j + 1];
    }
  }

  /**
   The batch `cache.addAll(urls)` writes: None (the promise rejects and nothing
   is written) when one fetch is not accepted or when two requests are the same
   (the batch rejects a duplicate with InvalidStateError), otherwise every URL's
   GET key mapped to its response, one entry per URL.
   */
  function FetchAll(urls: seq<string>, network: string -> NetOutcome): (r: Option<map<RequestKey, Response>>)
    ensures r.Some? <==> NoDuplicates(urls) && AllAccepted(urls, network)
    ensures r.Some? ==> r.value.Keys == set u | u in urls :: GetKey(u)
    ensures r.Some? ==> |r.value| == |urls|
    ensures r.Some? ==> forall u :: u in urls ==> r.value[GetKey(u)] == network(u).response
  {
    if urls == [] then Some(map[])
    else
      UrlsCons(urls, network);
      if !AddAllAccepts(network(urls[0])) || urls[0] in urls[1..] then None
      else
        match FetchAll(urls[1..], network)
        case None => None
        case Some(batch) =>
          assert GetKey(urls[0]) !in batch;
          Some(batch[GetKey(urls[0]) := network(urls[0]).response])
  }

  /**
   The storage after install: CACHE_NAME is opened first, then filled only if
   addAll of the manifest succeeds. Install creates at most CACHE_NAME, at the
   end, and never removes a cache.
   */
  function AfterInstall(s: Storage, manifest: seq<string>, network: string -> NetOutcome): (r: Storage)
    ensures HasCache(r, CacheName)
    ensures Names(r) == Names(s) || (!HasCache(s, CacheName) && Names(r) == Names(s) + [CacheName])
    ensures DistinctNames(s) ==> DistinctNames(r)
  {
    var withCache := Open(s, CacheName);
    match FetchAll(manifest, network)
    case Some(batch) =>
      var r := Store(withCache, CacheName, batch);
      var j :| 0 <= j < |withCache| && withCache[j].name == CacheName;
      assert r[j].name == CacheName;
      r
    case None => withCache
  }

  // ---------------------------------------------------------------------------
  // Fetch: routing and the write-back
  // ---------------------------------------------------------------------------

  function FromMatch(m: Option<Response>): Answer
  {
    match m
    case Some(r) => Served(r)
    case None => NoResponse
  }

  /**
   The catch branch, when the network fetch rejected: an empty 404 for tile
   URLs, the cached index page for requests accepting HTML, otherwise
   undefined. Reading the Accept header of a request without one yields null,
   and calling `includes` on it throws.
   */
  function OfflineFallback(s: Storage, req: Request): (r: Answer)
    ensures r != Declined
    ensures r == Rejected <==> !Contains(req.url, "/tiles/") && req.accept.None?
    ensures r.Served? ==> r.response == Response(404, "") || Lookup(s, IndexKey) == Some(r.response)
  {
    if Contains(req.url, "/tiles/") then Served(Response(404, ""))
    else match req.accept
      case None => Rejected
      case Some(accept) => if Contains(accept, "text/html") then FromMatch(Lookup(s, IndexKey)) else NoResponse
  }

  /**
   The answer the fetch handler gives to `req` against storage `s` when the
   network yields `net`. Only non-GET requests are left to the browser, the
   handler throws only offline on an uncached non-tile request without an
   Accept header, and every response it serves is a cached one, the network's
   or the empty 404.
   */
  function Respond(s: Storage, req: Request, net: NetOutcome): (r: Answer)
    ensures r == Declined <==> req.httpMethod != "GET"
    ensures r == Rejected ==> net.Fail? && req.accept.None? && Lookup(s, KeyOf(req)).None?
    ensures r.Served? ==> || Lookup(s, KeyOf(req)) == Some(r.response)
                          || net == Ok(r.response)
                          || r.response == Response(404, "")
                          || Lookup(s, IndexKey) == Some(r.response)
  {
    if req.httpMethod != "GET" then Declined
    else match Lookup(s, KeyOf(req))
      case Some(cached) => Served(cached)
      case None =>
        match net
        case Ok(resp) => Served(resp)
        case Absent => NoResponse
        case Fail => OfflineFallback(s, req)
  }

  /** The handler writes back exactly on a GET that misses every cache and gets a 200 response. */
  predicate WritesBack(s: Storage, req: Request, net: NetOutcome)
  {
    req.httpMethod == "GET" && Lookup(s, KeyOf(req)) == None && net.Ok? && net.response.status == 200
  }

  /**
   The storage after the fetch handler (the fire-and-forget put taken as
   done): unchanged unless the handler writes back, and then at most
   CACHE_NAME is added, at the end.
   */
  function AfterFetch(s: Storage, req: Request, net: NetOutcome): (r: Storage)
    ensures !WritesBack(s, req, net) ==> r == s
    ensures Names(r) == Names(s) || (!HasCache(s, CacheName) && Names(r) == Names(s) + [CacheName])
    ensures DistinctNames(s) ==> DistinctNames(r)
  {
    if WritesBack(s, req, net)
    then Store(Open(s, CacheName), CacheName, map[KeyOf(req) := net.response])
    else s
  }

  // ---------------------------------------------------------------------------
  // The worker's state and its three event handlers
  // ---------------------------------------------------------------------------

  /** The core files are distinct, so installing them fails only on a refused fetch. */
  lemma CoreFilesInstallable(network: string -> NetOutcome)
    ensures NoDuplicates(CoreFiles)
    ensures FetchAll(CoreFiles, network).Some? <==> forall u :: u in CoreFiles ==> AddAllAccepts(network(u))
  {
  }

  class Worker {
    var caches: Storage
    var skippedWaiting: bool
    var clientsClaimed: bool

    ghost predicate Valid()
      reads this
    {
      DistinctNames(caches)
    }

    constructor (initial: Storage)
      requires DistinctNames(initial)
      ensures Valid() && caches == initial && !skippedWaiting && !clientsClaimed
    {
      caches := initial;
      skippedWaiting := false;
      clientsClaimed := false;
    }

    /** The install event: open CACHE_NAME, addAll the core files, then skipWaiting. */
    method Install(network: string -> NetOutcome) returns (installed: bool)
      requires Valid()
      modifies this
      ensures Valid()
      ensures installed <==> FetchAll(CoreFiles, network).Some?
      ensures caches == AfterInstall(old(caches), CoreFiles, network)
      ensures skippedWaiting == (old(skippedWaiting) || installed)
      ensures clientsClaimed == old(clientsClaimed)
    {
      caches := Open(caches, CacheName);
      var fetched := FetchAll(CoreFiles, network);
      if fetched.Some? {
        caches := Store(caches, CacheName, fetched.value);
        skippedWaiting := true;
        installed := true;
      } else {
        installed := false;
      }
    }

    /** The activate event: delete every cache not named CACHE_NAME, then claim the clients. */
    method Activate()
      requires Valid()
      modifies this
      ensures Valid()
      ensures caches == Retain(old(caches), CacheName)
      ensures clientsClaimed
      ensures skippedWaiting == old(skippedWaiting)
    {
      ghost var o := caches;
      var cacheNames := Names(caches);
      var i := 0;
      while i < |cacheNames|
        invariant 0 <= i <= |cacheNames| == |o|
        invariant cacheNames == Names(o)
        invariant caches == Retain(o[..i], CacheName) + o[i..]
        invariant skippedWaiting == old(skippedWaiting)
      {
        ActivateStep(o, i);
        if cacheNames[i] != CacheName {
          caches := Delete(caches, cacheNames[i]);
        }
        i := i + 1;
      }
      ActivateDone(o);
      RetainedDistinct(o);
      clientsClaimed := true;
    }

    /** The fetch event for `req` when the network would yield `net`. */
    method HandleFetch(req: Request, net: NetOutcome) returns (answer: Answer)
      requires Valid()
      modifies this
      ensures Valid()
      ensures answer == Respond(old(caches), req, net)
      ensures caches == AfterFetch(old(caches), req, net)
      ensures skippedWaiting == old(skippedWaiting) && clientsClaimed == old(clientsClaimed)
    {
      if req.httpMethod != "GET" {
        return Declined;
      }
      var cached := Lookup(caches, KeyOf(req));
      if cached.Some? {
        return Served(cached.value);
      }
      match net
      case Absent =>
        answer := NoResponse;
      case Ok(resp) =>
        if resp.status == 200 {
          caches := Store(Open(caches, CacheName), CacheName, map[KeyOf(req) := resp]);
        }
        answer := Served(resp);
      case Fail =>
        answer := OfflineFallback(caches, req);
    }
  }

  /** When the activate loop ends, every name but CACHE_NAME has been deleted. */
  lemma ActivateDone(o: Storage)
    ensures Retain(o[..|o|], CacheName) + o[|o|..] == Retain(o, CacheName)
  {
    assert o[..|o|] == o && o[|o|..] == [];
  }

  /** What activate leaves, at most the one CACHE_NAME cache, has distinct names. */
  lemma RetainedDistinct(o: Storage)
    requires DistinctNames(o)
    ensures DistinctNames(Retain(o, CacheName))
  {
    RetainDistinct(o, CacheName);
    AtMostOneDistinct(Retain(o, CacheName));
  }

  lemma AtMostOneDistinct(s: Storage)
    requires |s| <= 1
    ensures DistinctNames(s)
  {
  }

  /** One turn of the activate loop: deleting name i (unless it is CACHE_NAME) moves the boundary by one. */
  lemma ActivateStep(o: Storage, i: int)
    requires DistinctNames(o) && 0 <= i < |o|
    ensures o[i].name != CacheName ==>
      Delete(Retain(o[..i], CacheName) + o[i..], o[i].name) == Retain(o[..i + 1], CacheName) + o[i + 1..]
    ensures o[i].name == CacheName ==>
      Retain(o[..i], CacheName) + o[i..] == Retain(o[..i + 1], CacheName) + o[i + 1..]
  {
    assert o[..i + 1] == o[..i] + [o[i]];
    assert o[i..] == [o[i]] + o[i + 1..];
    RetainAppend(o[..i], [o[i]], CacheName);
    if o[i].name != CacheName {
      DeleteStep(o, i);
    }
  }

  lemma DeleteStep(o: Storage, i: int)
    requires DistinctNames(o) && 0 <= i < |o| && o[i].name != CacheName
    ensures Delete(Retain(o[..i], CacheName) + o[i..], o[i].name) == Retain(o[..i], CacheName) + o[i + 1..]
  {
    var n := o[i].name;
    DeleteAppend(Retain(o[..i], CacheName), o[i..], n);
    RetainOnlyKeep(o[..i], CacheName);
    DeleteAbsent(Retain(o[..i], CacheName), n);
    LaterNamesDiffer(o, i);
    DeleteAbsent(o[i + 1..], n);
    assert o[i..][0] == o[i] && o[i..][1..] == o[i + 1..];
  }

  lemma LaterNamesDiffer(o: Storage, i: int)
    requires DistinctNames(o) && 0 <= i < |o|
    ensures !HasCache(o[i + 1..], o[i].name)
  {
  }

  // ---------------------------------------------------------------------------
  // Properties of the policy
  // ---------------------------------------------------------------------------

  /** A non-GET request is left to the browser and changes no cache. */
  lemma NonGetDeclined(s: Storage, req: Request, net: NetOutcome)
    requires req.httpMethod != "GET"
    ensures Respond(s, req, net) == Declined && AfterFetch(s, req, net) == s
  {
  }

  /** A hit in any cache is answered from the cache whatever the network would do, and nothing is written. */
  lemma HitServedFromCache(s: Storage, req: Request, cached: Response)
    requires req.httpMethod == "GET" && Lookup(s, KeyOf(req)) == Some(cached)
    ensures forall net :: Respond(s, req, net) == Served(cached) && AfterFetch(s, req, net) == s
  {
  }

  /** On a miss, an absent or non-200 network response is passed through and nothing is written. */
  lemma MissPassesThrough(s: Storage, req: Request, net: NetOutcome)
    requires req.httpMethod == "GET" && Lookup(s, KeyOf(req)) == None
    requires net.Absent? || (net.Ok? && net.response.status != 200)
    ensures Respond(s, req, net) == if net.Absent? then NoResponse else Served(net.response)
    ensures AfterFetch(s, req, net) == s
  {
  }

  /**
   On a miss with a 200 response: the response is returned, CACHE_NAME now maps
   the request's key to it, every other cache and every other key is as
   before, and a repeat of the request is served from the cache without the
   network.
   */
  lemma MissCachesSuccess(s: Storage, req: Request, resp: Response)
    requires req.httpMethod == "GET" && Lookup(s, KeyOf(req)) == None && resp.status == 200
    ensures Respond(s, req, Ok(resp)) == Served(resp)
    ensures var after := AfterFetch(s, req, Ok(resp));
      && Entries(after, CacheName) == Entries(s, CacheName)[KeyOf(req) := resp]
      && (forall n :: n != CacheName ==> Entries(after, n) == Entries(s, n))
      && Lookup(after, KeyOf(req)) == Some(resp)
      && (forall k :: k != KeyOf(req) ==> Lookup(after, k) == Lookup(s, k))
      && (forall net :: Respond(after, req, net) == Served(resp))
  {
    var withCache := Open(s, CacheName);
    var batch := map[KeyOf(req) := resp];
    var after := Store(withCache, CacheName, batch);
    assert after == AfterFetch(s, req, Ok(resp));
    EntriesAfterOpen(s, CacheName, CacheName);
    EntriesAfterStore(withCache, CacheName, batch, CacheName);
    assert Entries(s, CacheName) + batch == Entries(s, CacheName)[KeyOf(req) := resp];
    forall n | n != CacheName
      ensures Entries(after, n) == Entries(s, n)
    {
      EntriesAfterOpen(s, CacheName, n);
      EntriesAfterStore(withCache, CacheName, batch, n);
    }
    LookupAfterOpen(s, CacheName, KeyOf(req));
    LookupAfterStoreNew(withCache, CacheName, batch, KeyOf(req));
    forall k | k != KeyOf(req)
      ensures Lookup(after, k) == Lookup(s, k)
    {
      LookupAfterOpen(s, CacheName, k);
      LookupAfterStoreOther(withCache, CacheName, batch, k);
    }
  }

  /** Offline, a tile URL that is not cached gets an empty 404, whatever its Accept header, and nothing is written. */
  lemma OfflineTileIs404(s: Storage, req: Request)
    requires req.httpMethod == "GET" && Lookup(s, KeyOf(req)) == None && Contains(req.url, "/tiles/")
    ensures forall accept :: Respond(s, req.(accept := accept), Fail) == Served(Response(404, ""))
    ensures AfterFetch(s, req, Fail) == s
  {
  }

  /**
   Offline, an uncached request that is not a tile: with an Accept header
   naming text/html it gets whatever `/index.html` looks up to; with another
   Accept header it gets undefined; with none the handler throws.
   */
  lemma OfflinePageFallback(s: Storage, req: Request)
    requires req.httpMethod == "GET" && Lookup(s, KeyOf(req)) == None && !Contains(req.url, "/tiles/")
    ensures req.accept.None? ==> Respond(s, req, Fail) == Rejected
    ensures req.accept.Some? && Contains(req.accept.value, "text/html") ==>
      (Lookup(s, IndexKey).Some? ==> Respond(s, req, Fail) == Served(Lookup(s, IndexKey).value)) &&
      (Lookup(s, IndexKey).None? ==> Respond(s, req, Fail) == NoResponse)
    ensures req.accept.Some? && !Contains(req.accept.value, "text/html") ==> Respond(s, req, Fail) == NoResponse
    ensures AfterFetch(s, req, Fail) == s
  {
  }

  /**
   A successful install adds the fetched batch, one entry per manifest URL, to
   whatever CACHE_NAME held before, and holds every manifest URL there with the
   response the network gave; every other cache is as before.
   */
  lemma InstallStoresManifest(s: Storage, manifest: seq<string>, network: string -> NetOutcome)
    requires FetchAll(manifest, network).Some?
    ensures Entries(AfterInstall(s, manifest, network), CacheName) == Entries(s, CacheName) + FetchAll(manifest, network).value
    ensures NoDuplicates(manifest) && |FetchAll(manifest, network).value| == |manifest|
    ensures forall u :: u in manifest ==>
      && AddAllAccepts(network(u))
      && GetKey(u) in Entries(AfterInstall(s, manifest, network), CacheName)
      && Entries(AfterInstall(s, manifest, network), CacheName)[GetKey(u)] == network(u).response
    ensures forall n :: n != CacheName ==> Entries(AfterInstall(s, manifest, network), n) == Entries(s, n)
  {
    var batch := FetchAll(manifest, network).value;
    var withCache := Open(s, CacheName);
    EntriesAfterOpen(s, CacheName, CacheName);
    EntriesAfterStore(withCache, CacheName, batch, CacheName);
    forall n | n != CacheName
      ensures Entries(AfterInstall(s, manifest, network), n) == Entries(s, n)
    {
      EntriesAfterOpen(s, CacheName, n);
      EntriesAfterStore(withCache, CacheName, batch, n);
    }
    forall u | u in manifest
      ensures AddAllAccepts(network(u))
    {
      var i :| 0 <= i < |manifest| && manifest[i] == u;
    }
  }

  /**
   A failed install writes no entry: some manifest URL was not accepted or one
   occurs twice, and every lookup and every cache's contents are as before
   (CACHE_NAME may now exist, empty, since it is opened before addAll runs).
   */
  lemma InstallFailureWritesNothing(s: Storage, manifest: seq<string>, network: string -> NetOutcome)
    requires FetchAll(manifest, network).None?
    ensures !NoDuplicates(manifest) || exists i :: 0 <= i < |manifest| && !AddAllAccepts(network(manifest[i]))
    ensures forall k :: Lookup(AfterInstall(s, manifest, network), k) == Lookup(s, k)
    ensures forall n :: Entries(AfterInstall(s, manifest, network), n) == Entries(s, n)
  {
    forall k ensures Lookup(AfterInstall(s, manifest, network), k) == Lookup(s, k) {
      LookupAfterOpen(s, CacheName, k);
    }
    forall n ensures Entries(AfterInstall(s, manifest, network), n) == Entries(s, n) {
      EntriesAfterOpen(s, CacheName, n);
    }
  }

  /**
   After activate only CACHE_NAME can remain, with its contents untouched, and
   every lookup is answered from it alone; activating again changes nothing.
   */
  lemma ActivateKeepsOnlyCurrent(s: Storage)
    requires DistinctNames(s)
    ensures forall i :: 0 <= i < |Retain(s, CacheName)| ==> Retain(s, CacheName)[i].name == CacheName
    ensures Entries(Retain(s, CacheName), CacheName) == Entries(s, CacheName)
    ensures forall k :: Lookup(Retain(s, CacheName), k) == Get(Entries(s, CacheName), k)
    ensures Retain(Retain(s, CacheName), CacheName) == Retain(s, CacheName)
  {
    RetainOnlyKeep(s, CacheName);
    EntriesAfterRetain(s, CacheName);
    forall k ensures Lookup(Retain(s, CacheName), k) == Get(Entries(s, CacheName), k) {
      LookupAfterRetain(s, CacheName, k);
    }
    RetainIdempotent(s, CacheName);
  }

  /**
   A response cached on a miss survives a later activate of the same version:
   the repeated request is then served from the cache without the network.
   */
  lemma CachedResponseSurvivesActivate(s: Storage, req: Request, resp: Response)
    requires DistinctNames(s)
    requires req.httpMethod == "GET" && Lookup(s, KeyOf(req)) == None && resp.status == 200
    ensures forall net :: Respond(Retain(AfterFetch(s, req, Ok(resp)), CacheName), req, net) == Served(resp)
  {
    var after := AfterFetch(s, req, Ok(resp));
    MissCachesSuccess(s, req, resp);
    assert DistinctNames(after);
    LookupAfterRetain(after, CacheName, KeyOf(req));
  }
}

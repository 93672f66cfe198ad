# Calcagnini Trails offline map: caching policy and tile downloader

This project models the two pieces of logic behind the offline trail map.

- **The service worker** (`service-worker.js`). It precaches the app shell into the cache
  `calcagnini-trails-v1` on install and deletes every other cache on activate. It answers
  each intercepted GET request cache-first. A 200 network response is written back into
  `calcagnini-trails-v1`. When the network fails, tile URLs get an empty 404 and HTML
  navigations get the cached `/index.html`.
- **The tile downloader** (`download_tiles.py`). For each zoom level it computes the tile
  rectangle covering the trail's bounding box, widened by one tile on each side. It counts
  those tiles and fetches each tile not already on disk, tallying every tile as
  downloaded, skipped or failed.

Files:

- `cache_storage.dfy` (module `CacheStorage`) holds the browser's cache storage as values.
  Storage is an ordered list of named caches, each mapping a request key (method and URL,
  used as-is) to a response. It follows the Cache and CacheStorage interfaces of the W3C
  Service Workers specification (sections 5.4 and 5.5):
  - `match` returns the entry of the first cache, in creation order, that holds the key;
  - `open` appends a missing cache;
  - `put` and `addAll` overwrite;
  - `delete` removes a cache by name.
- `service_worker.dfy` (module `ServiceWorker`) holds the constants and the routing
  function `Respond`, which gives each request's answer. `AfterFetch` gives the storage
  after the write-back. The class `Worker` holds the storage and the two lifecycle flags,
  with one method per event handler (`Install`, `Activate`, `HandleFetch`).
- `download_tiles.dfy` (module `TileDownload`) holds `get_tile_bounds`,
  `calculate_totals`, `download_tile`, the counter tally and the nested download loops of
  `main`.

Modelling choices:

- The network is a parameter. A fetch event gets a `NetOutcome`:
  - `Ok(response)`;
  - `Absent`, a fetch that resolves to nothing;
  - `Fail`, a rejected fetch.
- Install gets a function from URL to `NetOutcome`.
- The tile server is a function from tile to `HttpOutcome`: a status code, a request
  that raises, or a 200 whose file write raises after the file was created. The tiles
  folder is the set of tiles on disk, partial files included.
- `deg2num` is a function parameter. Every property holds whatever tile numbers it
  returns.
- How a fetch event ends is an `Answer`:
  - `Declined`: the handler returns before `respondWith`;
  - `Served(response)`;
  - `NoResponse`: `respondWith` gets `undefined` or `null`;
  - `Rejected`: the handler throws.
- A missing `Accept` header on the offline, non-tile path gives `Rejected`.
  `headers.get('accept')` returns `null` there, and `.includes` on `null` throws
  (service-worker.js:73). The code has no guard, so the model has none.

What the code does, and the model with it:

- There is one cache name and no separate tile cache. Every write-back goes to
  `calcagnini-trails-v1` (service-worker.js:62), and activate deletes every other name
  (service-worker.js:30). Tiles cached under one version therefore do not survive the
  activation of a worker with a different `CACHE_NAME`. The URL is inspected only in the
  offline fallback (service-worker.js:69).
- The offline fallback reads the `Accept` header without checking that it is present
  (service-worker.js:73), so a request without one makes the handler throw.
- Install opens `calcagnini-trails-v1` before `addAll` runs (service-worker.js:15-18). A
  failed install writes no entry and changes no lookup, but it can leave a new, empty
  `calcagnini-trails-v1` cache behind.
- `addAll` is all-or-nothing. It rejects when one response is not ok (200 to 299) or is a
  206, and when two of its requests are the same. `CORE_FILES` has no duplicate, so
  installing it fails only on a refused fetch.
- In `download_tile` the file is written inside the `try` (download_tiles.py:95-104). When
  the file is created and the write then raises, the tile is reported as failed but a
  partial file stays on disk, and the next run skips it as existing.

## Model

| member | source | states |
|---|---|---|
| `CacheStorage.Names` | service-worker.js:27 | definition: `caches.keys()`, the cache names in creation order; activate's loop takes its `cacheNames` snapshot from it |
| `CacheStorage.Lookup` | service-worker.js:46 | `caches.match` finds a response exactly when some cache holds the key, and returns the entry of the first such cache in creation order |
| `CacheStorage.Open` | service-worker.js:15 | after `caches.open(name)` the named cache exists; the storage is unchanged when it existed, otherwise an empty cache is appended and the name list gains `name` at its end; distinct names stay distinct |
| `CacheStorage.Store` | service-worker.js:63 | a put or addAll batch keeps every cache name and keeps the names distinct |
| `CacheStorage.Delete` | service-worker.js:32 | `caches.delete(name)` never lengthens the storage |
| `CacheStorage.DeleteKeepsOthers` | service-worker.js:32 | after `caches.delete(name)` the storage holds exactly the caches it held under other names |
| `CacheStorage.Retain` | service-worker.js:27-35 | the storage left when every other name is deleted is never longer than before |
| `CacheStorage.RetainKeepsNamed` | service-worker.js:27-35 | deleting every name but one leaves exactly the caches with that name |
| `CacheStorage.EntriesAfterStore` | service-worker.js:63 | writing a batch into an existing cache adds the batch to that cache, later values overwriting, and leaves every other cache's contents as they were |
| `CacheStorage.LookupAfterStoreNew` | service-worker.js:62-63 | a key no cache held is found after the write, with the written response |
| `CacheStorage.LookupAfterStoreOther` | service-worker.js:62-63 | every key the write does not touch is looked up exactly as before |
| `CacheStorage.LookupAfterOpen` | service-worker.js:15 | opening (creating) a cache changes no lookup |
| `CacheStorage.EntriesAfterOpen` | service-worker.js:62 | opening (creating) a cache changes no cache's contents |
| `CacheStorage.DeleteAppend` | service-worker.js:32 | deleting a cache by name distributes over concatenated storages |
| `CacheStorage.DeleteAbsent` | service-worker.js:32 | deleting a name no cache has leaves the storage unchanged |
| `CacheStorage.RetainAppend` | service-worker.js:29-33 | keeping only one name distributes over concatenated storages |
| `CacheStorage.RetainOnlyKeep` | service-worker.js:30 | after the sweep every remaining cache has the kept name |
| `CacheStorage.RetainAbsent` | service-worker.js:30-32 | when no cache has the kept name, the sweep leaves no cache at all |
| `CacheStorage.RetainDistinct` | service-worker.js:27-35 | with distinct names the sweep leaves exactly the kept cache with its contents, or nothing when it does not exist |
| `CacheStorage.RetainIdempotent` | service-worker.js:27-35 | sweeping twice gives the same storage as sweeping once |
| `CacheStorage.EntriesAfterRetain` | service-worker.js:30 | the kept cache's contents are untouched by the sweep |
| `CacheStorage.LookupAfterRetain` | service-worker.js:27-35 | after the sweep, with distinct names, a lookup answers from the kept cache alone |
| `CacheStorage.EntriesNone` | service-worker.js:46 | a name no cache has has no entries |
| `ServiceWorker.KeyOf` | service-worker.js:46 | definition: the request's method and URL, the key `caches.match(event.request)` looks up and `cache.put(event.request, …)` writes (service-worker.js:63) |
| `ServiceWorker.FromMatch` | service-worker.js:74 | definition: the result of `caches.match('/index.html')` becomes the served response, or `undefined` when nothing matched |
| `ServiceWorker.Contains` | service-worker.js:69 | `String.prototype.includes`: true exactly when the part occurs in the string at some index (also used at service-worker.js:73) |
| `ServiceWorker.AddAllAccepts` | service-worker.js:18 | definition: `addAll` accepts a fetched response exactly when it exists and its status is in 200 to 299 and is not 206 |
| `ServiceWorker.FetchAll` | service-worker.js:18 | `addAll` writes something exactly when no request occurs twice and every URL's response is accepted; the batch then has exactly the URLs' GET keys, one entry per URL, each mapped to its own response |
| `ServiceWorker.AfterInstall` | service-worker.js:15-20 | after install `CACHE_NAME` exists; install adds at most that one name, at the end, removes none, and keeps names distinct |
| `ServiceWorker.CoreFilesInstallable` | service-worker.js:4-10 | the core files are distinct, so `addAll(CORE_FILES)` succeeds exactly when every core file's response is accepted |
| `ServiceWorker.OfflineFallback` | service-worker.js:67-76 | the catch branch always answers the event; it throws exactly for a non-tile URL without an Accept header; anything it serves is the empty 404 or the cached `/index.html` |
| `ServiceWorker.Respond` | service-worker.js:41-79 | only non-GET requests are left to the browser; the handler throws only offline, on an uncached request without an Accept header; every served response is the cached one, the network's, the empty 404 or the cached `/index.html` |
| `ServiceWorker.WritesBack` | service-worker.js:54-64 | definition: the handler writes back exactly on a GET that misses every cache and gets a 200 response |
| `ServiceWorker.AfterFetch` | service-worker.js:54-64 | the fetch handler leaves the storage unchanged unless it writes back, and then adds at most `CACHE_NAME`, at the end, keeping names distinct |
| `ServiceWorker.Worker.Install` | service-worker.js:13-22 | install opens `CACHE_NAME` first and then stores the core files only if `addAll` succeeds; it reports success exactly then, calls skipWaiting only then, and keeps cache names distinct |
| `ServiceWorker.Worker.Activate` | service-worker.js:25-38 | the deletion loop over the cache names leaves exactly the caches named `CACHE_NAME` (the loop invariant tracks deleted and pending names); clients are claimed afterwards |
| `ServiceWorker.Worker.HandleFetch` | service-worker.js:41-79 | the handler returns the routing answer and leaves the storage as the write-back rule says, lifecycle flags untouched |
| `ServiceWorker.ActivateStep` | service-worker.js:29-33 | one iteration of the deletion loop deletes the current name (unless it is `CACHE_NAME`) and advances the kept/pending boundary by one cache |
| `ServiceWorker.DeleteStep` | service-worker.js:32 | deleting the current name removes that one pending cache and nothing already kept |
| `ServiceWorker.LaterNamesDiffer` | service-worker.js:29 | with distinct names, a name being deleted does not occur later in the list |
| `ServiceWorker.NonGetDeclined` | service-worker.js:43 | a non-GET request is not answered by the worker and no cache changes |
| `ServiceWorker.HitServedFromCache` | service-worker.js:46-51 | a hit in any cache returns the stored response whatever the network would do, and nothing is written |
| `ServiceWorker.MissPassesThrough` | service-worker.js:54-58 | on a miss, an absent or non-200 network response is returned unchanged and nothing is written |
| `ServiceWorker.MissCachesSuccess` | service-worker.js:60-66 | on a miss with a 200 response, that response is returned; `CACHE_NAME` then maps the request key to it; every other cache and every other key is unchanged; a repeat of the request is served from the cache whatever the network does |
| `ServiceWorker.OfflineTileIs404` | service-worker.js:67-71 | offline, an uncached URL containing `/tiles/` gets an empty 404 whatever its Accept header, and nothing is written |
| `ServiceWorker.OfflinePageFallback` | service-worker.js:72-76 | offline, an uncached non-tile request gets the `/index.html` lookup when Accept contains `text/html` (undefined if that is not cached), undefined for another Accept, and a throw when Accept is absent; nothing is written |
| `ServiceWorker.InstallStoresManifest` | service-worker.js:15-20 | after a successful install `CACHE_NAME` holds exactly what it held before plus the fetched batch, one entry per (distinct) manifest URL; every manifest URL was accepted and maps to the response the network gave; other caches are untouched |
| `ServiceWorker.InstallFailureWritesNothing` | service-worker.js:15-20 | after a failed install some manifest URL was refused or occurs twice, and every lookup and every cache's contents are as before |
| `ServiceWorker.ActivateKeepsOnlyCurrent` | service-worker.js:27-36 | after activate only `CACHE_NAME` can remain, its contents untouched, every lookup answered from it; activating again changes nothing |
| `ServiceWorker.CachedResponseSurvivesActivate` | service-worker.js:25-66 | a response cached on a miss is still served, without the network, after a later activate of the same version |
| `TileDownload.GetTileBounds` | download_tiles.py:59-75 | `x_min` is one less than the smaller corner x-tile and `x_max` one more than the larger, likewise for y, so each range spans at least three tiles |
| `TileDownload.TileCount` | download_tiles.py:112 | definition: the number of tiles in a rectangle, `(x_max - x_min + 1) * (y_max - y_min + 1)`, also computed as `zoom_total` at download_tiles.py:160 |
| `TileDownload.ZoomTileCount` | download_tiles.py:111-112 | definition: `get_tile_bounds(zoom, BOUNDS)` followed by that count, as main repeats at download_tiles.py:159-160 |
| `TileDownload.ZoomTileCountAtLeastNine` | download_tiles.py:69-73 | every zoom level's tile count `(x_max - x_min + 1) * (y_max - y_min + 1)` is at least 9 |
| `TileDownload.TotalTiles` | download_tiles.py:110-113 | definition: the total over a list of zoom levels is the sum of each level's tile count |
| `TileDownload.TotalTilesAtLeast` | download_tiles.py:110-113 | the total over a list of zoom levels is at least 9 per level |
| `TileDownload.ZoomLevelsTotalAtLeast` | download_tiles.py:108-113 | over `ZOOM_LEVELS`, five levels, at least 45 tiles are requested |
| `TileDownload.CalculateTotals` | download_tiles.py:106-115 | `details` has one `(zoom, count)` pair per zoom level, in order, each count the zoom's tile count; `total` is the sum of those counts |
| `TileDownload.DownloadTile` | download_tiles.py:81-104 | an existing tile yields success with "exists" and no request; otherwise success with "downloaded" exactly on status 200; a file is left exactly on status 200 or when the write raises after the file was created; any other status or a request error leaves no file |
| `TileDownload.PartialFileLaterSkipped` | download_tiles.py:89-104 | a tile whose write raised is counted as failed, and the next attempt finds its partial file and reports it as existing |
| `TileDownload.Tally` | download_tiles.py:169-175 | each tile raises exactly one of downloaded, skipped, failed by one: skipped exactly for an existing tile, failed exactly for a failure |
| `TileDownload.DownloadZoom` | download_tiles.py:158-189 | the nested x/y loops visit each tile of the zoom's rectangle once, so `zoom_done` ends equal to `zoom_total` and the counters grow by exactly that; the folder gains exactly the rectangle's tiles whose fetch left a file |
| `TileDownload.DownloadLevels` | download_tiles.py:154-189 | the loop over the zoom levels makes downloaded + skipped + failed grow by exactly the total over those levels, and the folder gains exactly the planned tiles whose fetch left a file |
| `TileDownload.RunDownload` | download_tiles.py:133-189 | declining the prompt downloads nothing; otherwise downloaded + skipped + failed equals the total from `calculate_totals`, and the folder ends holding what it held plus every planned tile whose fetch left a file (`main` runs it over `ZOOM_LEVELS`) |

## Left out

- The body of `deg2num` (download_tiles.py:51-57) is not modelled. It is floating-point trigonometry with `int` truncation, so it is a parameter, and no property depends on it.
- Printing, the progress percentage, the `os.walk` size total and the size estimate in `main` are not modelled. They are output only. The prompt's answer is the `proceed` parameter.
- `time.sleep` rate limiting (download_tiles.py:186-187) is not modelled. It affects timing only.
- `os.makedirs`, URL formatting, the User-Agent header and the 30-second timeout are not modelled. They are I/O details. A timeout, or an `open` of the tile file that raises before creating it, is one more `RequestFailed` outcome.
- TileDownload.DownloadTile: the failure message is a `TileMsg` value (`HttpError(code)` or `Failure(reason)`), not the text `"HTTP <code>"` or `str(e)`. Only the `"exists"` and `"downloaded"` messages are compared by `main`.
- `console.log` calls are not modelled.
- `skipWaiting` and `clients.claim` are not modelled beyond the two flags they set (`skippedWaiting`, `clientsClaimed`).
- Promise scheduling and interleaved fetch events are not modelled. Each handler runs to completion, and the fire-and-forget `cache.put` (service-worker.js:62-64) is taken as done before the next event.
- Response body streams and `clone()` are not modelled. A response is an immutable (status, body) value, so a clone equals the original. Response headers are not modelled.
- ServiceWorker.FetchAll: the `Vary: *` rejection of `addAll` is not modelled, because headers are not. The duplicate-request rejection is modelled.
- A rejected `caches.delete` during activate is not modelled: deletion of an existing name always succeeds.
- Storage quota errors on `put` are not modelled.
- URL handling is not modelled: a request key holds its URL exactly as written. This covers the relative URLs of `CORE_FILES`, the `/index.html` of the offline fallback (`IndexKey`) and every request URL. A browser resolves `/index.html` against the worker's origin and sees absolute request URLs, so the real fallback finds an index page cached from `https://<origin>/index.html`, while the model finds it only under a key spelled `/index.html`. The `match` of the W3C Service Workers specification also compares URLs without their fragments, which the model does not do.

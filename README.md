# Sumureza service worker: caching policy in Dafny

This project models the service worker of the Sumureza Business Suite (`sw.js`) and proves
properties of the model. The worker keeps the app usable offline. It handles four events:

- **install** opens the versioned cache `sumureza-v1`. It adds the app shell (`OFFLINE_URLS`)
  as one batch, ignores a batch that fails, and then skips waiting.
- **activate** deletes every cache whose name is not `sumureza-v1`. Only after that does it
  claim the open pages.
- **fetch** routes each request by the exact hostname of its URL:
  - Google Drive API hosts are not intercepted.
  - Google Fonts hosts go network first. Any response is written back to the current cache.
    Offline, the current cache's entry is served.
  - Every other request goes cache first. The match runs over *all* caches. On a miss the
    request goes to the network. Only a status-200 `basic` response is written back. When
    offline, a navigation gets `/sumureza/index.html` from any cache.
- **message** skips waiting when the message's `data.type` is `SKIP_WAITING`.

Layout:

- `wrappers.dfy`: `Option`.
- `http.dfy`: requests, responses (immutable values, so `clone()` is the identity) and the
  outcome of one network fetch.
- `cache_storage.dfy`: the browser's cache storage as a value.
  - Cache names are kept in creation order, next to a map from name to (URL → response).
  - `caches.open`, `cache.put`, `caches.delete`, `cache.match`, `caches.match` and
    `cache.addAll` are pure functions on this value.
  - `caches.match` answers from the earliest-created cache that holds the URL.
  - `addAll` is all-or-nothing, as in the Cache `addAll` algorithm of the W3C Service Workers
    specification. It rejects unless every fetch gives a response that is not a network error,
    with a status in 200–299 other than 206.
- `service_worker.dfy`:
  - the constants and the host classification;
  - a `Worker` class whose fields are the cache storage and the `skippedWaiting` and `claimed`
    flags, with one method per event;
  - client methods that chain events and prove what a page sees afterwards.

The network is a parameter. `OnFetch` gets the outcome of the one fetch it may make.
`OnInstall` gets a function from URL to outcome for the batch. `OnFetch` returns:

- `PassThrough` when `respondWith` is not called;
- `Serve(response)`;
- `NetworkError` when the promise given to `respondWith` settles to `undefined`.

Three behaviours of the code that are easy to misread, all modelled as written:

- The cache-first lookup, and the offline fallback, search every cache, not only the current one
  (`sw.js:62`, `sw.js:74`).
- Provisioning is all-or-nothing. When one app-shell fetch fails, none of the shell is stored
  (`sw.js:17`). The warning the code logs then, "Some files failed to cache" (`sw.js:18`),
  suggests that the rest was stored, but `addAll` never stores part of a batch.
- `caches.open` creates the current cache when it is missing (`sw.js:15`, `sw.js:51`). So a font
  request that fails offline can still leave an empty `sumureza-v1` cache behind.

## Model

| member | source | states |
|---|---|---|
| `CacheStorage.Storage.Open` | sw.js:51 | the named cache exists afterwards; an existing one is returned as is; a new one starts empty and comes last in creation order; no other cache changes |
| `CacheStorage.Storage.Put` | sw.js:53 | a lookup of the URL in that cache then answers the response; every other (cache, URL) lookup answers as before; the set of caches is unchanged |
| `CacheStorage.Storage.Delete` | sw.js:30 | the named cache is gone; every remaining cache keeps its entries; the other names keep their creation order; the storage stays well-formed |
| `CacheStorage.Storage.FirstHolder` | sw.js:62 | the result is the first position in creation order whose cache holds the URL, or the end |
| `CacheStorage.Storage.Match` | sw.js:62 | nothing is found exactly when no cache holds the URL; a hit is the entry of the earliest-created cache holding it |
| `CacheStorage.PutAll` | sw.js:17 | the keys become the old keys plus every URL; each URL maps to its fetched response; other entries are kept |
| `CacheStorage.Storage.AddAll` | sw.js:17 | the batch is accepted exactly when every fetch succeeds with a non-error response of ok, non-partial status; if accepted, every URL is stored with its response and nothing else changes; otherwise it is rejected as a whole |
| `CacheStorage.Without` | sw.js:28-30 | the name list after a deletion (`sw.js:30`) of a name that the filter (`sw.js:28`) let through: the old one minus that name, the others in their order (a duplicate-free list loses exactly the one position holding it); it stays duplicate-free |
| `CacheStorage.OnlyName` | sw.js:28 | a duplicate-free list of cache names in which every name is the version tag is that tag alone, or empty |
| `CacheStorage.KeepOnly` | sw.js:25-34 | once the only caches left are the old ones named by the version tag, with their entries, the storage is that one cache alone, or empty |
| `CacheStorage.OpenKeepsFirstHolder` | sw.js:51 | creating an empty cache does not move the first cache that holds a URL |
| `CacheStorage.OpenKeepsMatch` | sw.js:51 | the font branch's open of the current cache never changes what a later cache-first match finds |
| `CacheStorage.PopulateThenMatch` | sw.js:62-68 | after a miss, writing the response into the current cache makes the next match over all caches return exactly that response |
| `CacheStorage.MatchSingleCache` | sw.js:62 | once only one cache is left, a match over all caches is a match in that cache |
| `ServiceWorker.Classify` | sw.js:41-49 | API hosts are bypassed, font hosts go network first, and every other hostname goes cache first; the three classes are exclusive and match by equality |
| `ServiceWorker.SubdomainIsCacheFirst` | sw.js:41-49 | any host with a non-empty prefix in front of a listed host is not listed, so it is served cache first (no suffix matching) |
| `ServiceWorker.Worker.OnInstall` | sw.js:13-22 | the current cache exists; if the batch is accepted, every app-shell URL is in it with its fetched response; otherwise the storage is only the opened one; other caches are untouched; skip-waiting is set either way |
| `ServiceWorker.Worker.OnActivate` | sw.js:25-34 | only the current cache is left, with its entries unchanged, or none if it did not exist; `claimed` is set |
| `ServiceWorker.Worker.OnFetch` | sw.js:37-79 | for each class and each network outcome, the exact reply and the exact new storage: bypass touches nothing; font hits are written back whatever their status; cache hits skip the network; only cacheable misses are written back; offline navigations get the fallback document and other offline misses get nothing |
| `ServiceWorker.Worker.OnMessage` | sw.js:82-86 | skip-waiting is set exactly when the data is present and its type is `SKIP_WAITING`; nothing else changes |
| `ServiceWorker.ServedOfflineAfterPopulate` | sw.js:61-78 | an app file fetched on a miss with a cacheable response is served the same response when the network is gone |
| `ServiceWorker.FontServedOfflineAfterFetch` | sw.js:50-56 | a font fetched once is served the same response when the network is gone |
| `ServiceWorker.ReinstallKeepsKeys` | sw.js:13-22 | installing again over a provisioned current cache leaves its set of keys unchanged, whatever the network does |
| `ServiceWorker.ShellServedOffline` | sw.js:13-79 | after a successful install and an activation, every app-shell URL that is not bypassed is served offline with the response install stored |

## Left out

- The network and HTTP semantics. Each fetch outcome is an input: one outcome per fetch event,
  and a function from URL to outcome for the install batch.
- URL parsing (`sw.js:38`). A request carries its hostname and URL key as given. The app-shell
  paths and the fallback path are used as cache keys verbatim, without resolution against the
  worker's location.
- Promise scheduling and the interleaving of concurrent events. Events are handled one at a time.
  The cache writes that are not awaited (`sw.js:53`, `sw.js:68`) happen before the reply is
  returned. The deletions that `Promise.all` runs together happen one after another.
- `console.log` and `console.warn`: they have no effect on behaviour.
- Event registration, `event.waitUntil`, and what `skipWaiting` and `clients.claim` do inside
  the browser. They are modelled only as the two flags being set.
- Request methods. Every request is taken to be a GET. So `caches.match` never ignores a
  non-GET request, and `cache.put` never rejects one.
- Browser-side rejections by `cache.put`, and by `addAll` beyond failed fetches and non-ok
  statuses: a 206 or `Vary: *` response, duplicate requests in one batch, quota errors. `OFFLINE_URLS`
  has no duplicates.
- A failing `caches.delete`. Activation failure is not modelled, because deletion always succeeds here.
- Response bodies as streams. A response is a value with a status, a type and bytes.
- OnActivate: the contract states the end state only. That `claimed` is set after the deletions
  is shown by the loop invariant that keeps `claimed` unchanged while caches are deleted.

/**
 * The caching policy of the Sumureza service worker: install provisions the
 * app shell, activate reaps the caches of older versions, fetch routes every
 * request by host to one of three strategies, and a message can force the
 * waiting worker to take over. One event is handled at a time.
 */
module ServiceWorker {
  import opened Wrappers
  import opened Http
  import opened CacheStorage

  /** The version tag: the name of the current cache, the only one activation keeps. */
  const CACHE: string := "sumureza-v1"

  /** The app shell put into the current cache at install time. */
  const OFFLINE_URLS: seq<string> := [
    "/sumureza/",
    "/sumureza/index.html",
    "/sumureza/manifest.json",
    "https://fonts.googleapis.com/css2?family=Playfair+Display:wght@400;700;900&family=DM+Sans:wght@300;400;500;600;700&family=DM+Mono:wght@400;500&display=swap"
  ]

  /** The document an offline navigation falls back to. */
  const FALLBACK_DOCUMENT: string := "/sumureza/index.html"

  /** Google Drive API hosts: their requests are never intercepted. */
  const BYPASS_HOSTS: set<string> := {"www.googleapis.com", "apis.google.com", "accounts.google.com"}

  /** Google Fonts hosts: network first, cache as fallback. */
  const FONT_HOSTS: set<string> := {"fonts.googleapis.com", "fonts.gstatic.com"}

  /** The one command a message can carry. */
  const SKIP_WAITING: string := "SKIP_WAITING"

  datatype Strategy = Bypass | NetworkFirst | CacheFirst

  /**
   * Which strategy a request gets, by exact equality of its hostname: the bypass
   * hosts first, then the font hosts, and cache first for every other host.
   */
  function Classify(hostname: string): (s: Strategy)
    ensures s == Bypass <==> hostname in BYPASS_HOSTS
    ensures s == NetworkFirst <==> hostname in FONT_HOSTS
    ensures s == CacheFirst <==> hostname !in BYPASS_HOSTS && hostname !in FONT_HOSTS
  {
    if hostname == "www.googleapis.com" || hostname == "apis.google.com" || hostname == "accounts.google.com" then
      Bypass
    else if hostname == "fonts.googleapis.com" || hostname == "fonts.gstatic.com" then
      NetworkFirst
    else
      CacheFirst
  }

  /**
   * Matching is not by suffix: a subdomain of a listed host (any non-empty prefix
   * in front of it) is not listed itself, so it is served cache first.
   */
  lemma {:induction false} SubdomainIsCacheFirst(prefix: string, host: string)
    requires prefix != []
    requires host in BYPASS_HOSTS || host in FONT_HOSTS
    ensures Classify(prefix + host) == CacheFirst
  {
    var h := prefix + host;
    // a listed host equal to h would be longer than host, and would agree with
    // host at the character where host begins and five before the end
    assert h[|h| - |host|] == host[0];
    assert h[|h| - 5] == host[|host| - 5];
  }

  /** What the page gets from the event's response. */
  datatype Reply =
    | PassThrough           // respondWith was not called: the browser fetches as usual
    | Serve(response: Response)
    | NetworkError          // respondWith got a promise that settled to undefined

  /** The reply for a promise that settles to a cache lookup. */
  function Delivered(cached: Option<Response>): Reply {
    match cached
    case Some(response) => Serve(response)
    case None => NetworkError
  }

  /** The responses an app-file fetch writes back: status 200 and type basic. */
  predicate Cacheable(response: Response) {
    response.status == 200 && response.rtype == Basic
  }

  /** The `data` of a message event when it is truthy; `kind` is its `type` property when that is a string. */
  datatype Payload = Payload(kind: Option<string>)

  datatype MessageEvent = MessageEvent(data: Option<Payload>)

  /**
   * The worker: the cache storage it shares with every event, and the two
   * lifecycle flags its events set.
   */
  class Worker {
    var caches: Storage
    var skippedWaiting: bool
    var claimed: bool

    predicate Valid()
      reads this
    {
      caches.Valid()
    }

    /** A new worker starts on whatever caches earlier versions left behind. */
    constructor (existing: Storage)
      requires existing.Valid()
      ensures Valid() && caches == existing && !skippedWaiting && !claimed
    {
      caches := existing;
      skippedWaiting := false;
      claimed := false;
    }

    /**
     * install: open the current cache, add the whole app shell as one batch (a
     * rejection is swallowed), then skip waiting whatever the batch did.
     */
    method OnInstall(fetch: string -> NetOutcome)
      requires Valid()
      modifies this
      ensures Valid()
      ensures skippedWaiting && claimed == old(claimed)
      ensures (var open := old(caches).Open(CACHE);
               var added := open.AddAll(CACHE, OFFLINE_URLS, fetch);
               caches == if added.Some? then added.value else open)
      ensures CACHE in caches.stores
      ensures BatchAccepts(OFFLINE_URLS, fetch) ==>
                forall u :: u in OFFLINE_URLS ==> caches.MatchIn(CACHE, u) == Some(fetch(u).response)
      ensures !BatchAccepts(OFFLINE_URLS, fetch) ==> caches == old(caches).Open(CACHE)
      ensures forall n, u :: n != CACHE ==> caches.MatchIn(n, u) == old(caches).MatchIn(n, u)
    {
      caches := caches.Open(CACHE);
      assert forall n, u :: n != CACHE ==> caches.MatchIn(n, u) == old(caches).MatchIn(n, u);
      var added := caches.AddAll(CACHE, OFFLINE_URLS, fetch);
      match added {
        case Some(populated) => caches := populated;
        case None =>
      }
      skippedWaiting := true;
    }

    /**
     * activate: delete every cache whose name is not the version tag, and only
     * then claim the open pages. The current cache keeps its entries.
     */
    method OnActivate()
      requires Valid()
      modifies this
      ensures Valid()
      ensures claimed && skippedWaiting == old(skippedWaiting)
      ensures forall n :: n in caches.names ==> n == CACHE
      ensures caches.names == if CACHE in old(caches.stores) then [CACHE] else []
      ensures caches.stores == if CACHE in old(caches.stores) then map[CACHE := old(caches.stores)[CACHE]] else map[]
    {
      var keys := caches.names;
      var i := 0;
      while i < |keys|
        invariant 0 <= i <= |keys|
        invariant caches.Valid()
        invariant claimed == old(claimed) && skippedWaiting == old(skippedWaiting)
        invariant forall n :: n in caches.stores <==> n in old(caches.stores) && (n == CACHE || n !in keys[..i])
        invariant forall n :: n in caches.stores ==> caches.stores[n] == old(caches.stores)[n]
      {
        if keys[i] != CACHE {
          caches := caches.Delete(keys[i]);
        }
        i := i + 1;
      }
      assert keys[..i] == keys;
      KeepOnly(caches, old(caches), CACHE);
      claimed := true;
    }

    /**
     * fetch: route the request by its host. `net` is what the network's fetch
     * of this request settles to, should the strategy ask for it.
     */
    method OnFetch(request: Request, net: NetOutcome) returns (r: Reply)
      requires Valid()
      modifies this
      ensures Valid()
      ensures skippedWaiting == old(skippedWaiting) && claimed == old(claimed)
      // Google API hosts: not intercepted, no cache read or written
      ensures Classify(request.hostname) == Bypass ==> r == PassThrough && caches == old(caches)
      // font hosts: network first, written back whatever the status or type
      ensures Classify(request.hostname) == NetworkFirst && net.Ok? ==>
                r == Serve(net.response) &&
                caches == old(caches).Open(CACHE).Put(CACHE, request.url, net.response)
      // ... and offline, the current cache's entry or nothing
      ensures Classify(request.hostname) == NetworkFirst && net.Fail? ==>
                r == Delivered(old(caches).MatchIn(CACHE, request.url)) &&
                caches == old(caches).Open(CACHE)
      // app files: a hit in any cache is served without the network
      ensures Classify(request.hostname) == CacheFirst && old(caches).Match(request.url).Some? ==>
                r == Serve(old(caches).Match(request.url).value) && caches == old(caches)
      // ... a miss goes to the network, and only a cacheable response is written back
      ensures Classify(request.hostname) == CacheFirst && old(caches).Match(request.url).None? && net.Ok? ==>
                r == Serve(net.response) &&
                caches == if Cacheable(net.response)
                          then old(caches).Open(CACHE).Put(CACHE, request.url, net.response)
                          else old(caches)
      // ... and offline, a navigation gets the fallback document and anything else nothing
      ensures Classify(request.hostname) == CacheFirst && old(caches).Match(request.url).None? && net.Fail? ==>
                caches == old(caches) &&
                r == if request.destination == "document"
                     then Delivered(old(caches).Match(FALLBACK_DOCUMENT))
                     else NetworkError
    {
      match Classify(request.hostname)
      case Bypass =>
        r := PassThrough;
      case NetworkFirst =>
        caches := caches.Open(CACHE);
        match net {
          case Ok(response) =>
            caches := caches.Put(CACHE, request.url, response);
            r := Serve(response);
          case Fail =>
            r := Delivered(caches.MatchIn(CACHE, request.url));
        }
      case CacheFirst =>
        var cached := caches.Match(request.url);
        if cached.Some? {
          r := Serve(cached.value);
        } else {
          match net {
            case Ok(response) =>
              if Cacheable(response) {
                caches := caches.Open(CACHE).Put(CACHE, request.url, response);
              }
              r := Serve(response);
            case Fail =>
              if request.destination == "document" {
                r := Delivered(caches.Match(FALLBACK_DOCUMENT));
              } else {
                r := NetworkError;
              }
          }
        }
    }

    /** message: a SKIP_WAITING command skips waiting; every other message changes nothing. */
    method OnMessage(event: MessageEvent)
      modifies this
      ensures skippedWaiting == (old(skippedWaiting) || (event.data.Some? && event.data.value.kind == Some(SKIP_WAITING)))
      ensures caches == old(caches) && claimed == old(claimed)
    {
      if event.data.Some? && event.data.value.kind == Some(SKIP_WAITING) {
        skippedWaiting := true;
      }
    }
  }

  /**
   * An app file fetched once with a cacheable response, on a miss, is served from
   * the cache when the network is gone.
   */
  method ServedOfflineAfterPopulate(w: Worker, request: Request, response: Response)
    returns (online: Reply, offline: Reply)
    requires w.Valid()
    requires Classify(request.hostname) == CacheFirst && w.caches.Match(request.url).None?
    requires Cacheable(response)
    modifies w
    ensures w.Valid()
    ensures online == Serve(response) && offline == Serve(response)
  {
    PopulateThenMatch(w.caches, CACHE, request.url, response);
    online := w.OnFetch(request, Ok(response));
    offline := w.OnFetch(request, Fail);
  }

  /** A font fetched once is served from the current cache when the network is gone. */
  method FontServedOfflineAfterFetch(w: Worker, request: Request, response: Response)
    returns (online: Reply, offline: Reply)
    requires w.Valid()
    requires Classify(request.hostname) == NetworkFirst
    modifies w
    ensures w.Valid()
    ensures online == Serve(response) && offline == Serve(response)
  {
    online := w.OnFetch(request, Ok(response));
    offline := w.OnFetch(request, Fail);
  }

  /** Installing again over a provisioned current cache leaves its set of keys as it was. */
  method ReinstallKeepsKeys(w: Worker, fetch: string -> NetOutcome)
    requires w.Valid()
    requires CACHE in w.caches.stores
    requires forall u :: u in OFFLINE_URLS ==> u in w.caches.stores[CACHE]
    modifies w
    ensures w.Valid() && w.skippedWaiting
    ensures CACHE in w.caches.stores && w.caches.stores[CACHE].Keys == old(w.caches.stores[CACHE].Keys)
  {
    w.OnInstall(fetch);
  }

  /**
   * After a successful install and an activation, every app-shell URL that is not
   * bypassed is served offline with the response install stored for it.
   */
  method ShellServedOffline(w: Worker, fetch: string -> NetOutcome, request: Request)
    returns (r: Reply)
    requires w.Valid()
    requires BatchAccepts(OFFLINE_URLS, fetch)
    requires request.url in OFFLINE_URLS && Classify(request.hostname) != Bypass
    modifies w
    ensures w.Valid() && w.skippedWaiting && w.claimed
    ensures r == Serve(fetch(request.url).response)
  {
    w.OnInstall(fetch);
    w.OnActivate();
    MatchSingleCache(w.caches, CACHE, request.url);
    r := w.OnFetch(request, Fail);
  }
}

/**
 * The browser's cache storage as a value: a set of named caches, each a map from
 * request URL to stored response. The names are kept in creation order, because
 * a match over the whole storage consults the caches in that order and answers
 * with the first one that holds the URL.
 */
module CacheStorage {
  import opened Wrappers
  import opened Http

  /** One named cache. */
  type Cache = map<string, Response>

  predicate Distinct(s: seq<string>) {
    forall i, j :: 0 <= i < j < |s| ==> s[i] != s[j]
  }

  /** The position of the first occurrence of `x` in `s`. */
  function IndexOf(s: seq<string>, x: string): (k: nat)
    requires x in s
    ensures k < |s| && s[k] == x && x !in s[..k]
  {
    if s[0] == x then 0
    else
      var k := IndexOf(s[1..], x) + 1;
      assert s[..k] == [s[0]] + s[1..][..k - 1];
      k
  }

  /** `s` with every occurrence of `x` taken out, the rest in their order. */
  function Without(s: seq<string>, x: string): (r: seq<string>)
    ensures forall y :: y in r <==> y in s && y != x
    ensures |r| <= |s|
    ensures x !in s ==> r == s
    ensures Distinct(s) ==> Distinct(r)
    ensures Distinct(s) && x in s ==> r == s[..IndexOf(s, x)] + s[IndexOf(s, x) + 1..]
  {
    if s == [] then []
    else if s[0] == x then
      assert Distinct(s) ==> x !in s[1..];
      Without(s[1..], x)
    else
      var rest := Without(s[1..], x);
      if Distinct(s) then
        assert s[0] !in s[1..];
        ConsDistinct(s[0], rest);
        if x in s[1..] then
          ConsOmitting(s, IndexOf(s[1..], x));
          [s[0]] + rest
        else
          [s[0]] + rest
      else
        [s[0]] + rest
  }

  /** A new head keeps a duplicate-free list duplicate-free. */
  lemma ConsDistinct(h: string, t: seq<string>)
    requires Distinct(t) && h !in t
    ensures Distinct([h] + t)
  {
    assert forall j :: 0 < j < |[h] + t| ==> ([h] + t)[j] == t[j - 1];
  }

  /** Taking out position `i` of the tail, then putting the head back, takes out position `i + 1`. */
  lemma ConsOmitting(s: seq<string>, i: nat)
    requires i + 1 < |s|
    ensures [s[0]] + (s[1..][..i] + s[1..][i + 1..]) == s[..i + 1] + s[i + 2..]
  {
    assert [s[0]] + s[1..][..i] == s[..i + 1];
  }

  /** A distinct list with no member but `x` is `[x]` or empty. */
  lemma {:induction false} OnlyName(s: seq<string>, x: string)
    requires Distinct(s)
    requires forall y :: y in s ==> y == x
    ensures s == if x in s then [x] else []
  {
    if s != [] {
      assert s[0] in s && s[|s| - 1] in s;
    }
  }

  /** An addAll fetch that the batch accepts: a response that is not an error, with an ok, non-partial status. */
  predicate FetchAccepted(o: NetOutcome) {
    o.Ok? && o.response.rtype != Error && 200 <= o.response.status <= 299 && o.response.status != 206
  }

  predicate BatchAccepts(urls: seq<string>, fetch: string -> NetOutcome) {
    forall u :: u in urls ==> FetchAccepted(fetch(u))
  }

  /** Put the fetched response of each URL into `cache`, one after the other. */
  function PutAll(cache: Cache, urls: seq<string>, fetch: string -> NetOutcome): (r: Cache)
    requires forall u :: u in urls ==> fetch(u).Ok?
    ensures r.Keys == cache.Keys + set u | u in urls
    ensures forall u :: u in urls ==> r[u] == fetch(u).response
    ensures forall u :: u in cache && u !in urls ==> r[u] == cache[u]
    decreases |urls|
  {
    if urls == [] then cache
    else PutAll(cache[urls[0] := fetch(urls[0]).response], urls[1..], fetch)
  }

  datatype Storage = Storage(names: seq<string>, stores: map<string, Cache>) {

    /** Every existing cache is named exactly once in the creation order. */
    predicate Valid() {
      && Distinct(names)
      && (forall n :: n in names ==> n in stores)
      && (forall n :: n in stores ==> n in names)
    }

    /** Cache `i` (in creation order) has an entry for `url`. */
    predicate Holds(i: nat, url: string)
      requires i < |names|
    {
      names[i] in stores && url in stores[names[i]]
    }

    /** `cache.match(url)` on the cache named `name`. */
    function MatchIn(name: string, url: string): Option<Response> {
      if name in stores && url in stores[name] then Some(stores[name][url]) else None
    }

    /** The position, from `from` on, of the first cache holding `url`, or `|names|`. */
    function FirstHolder(url: string, from: nat): (k: nat)
      requires from <= |names|
      ensures from <= k <= |names|
      ensures k < |names| ==> Holds(k, url)
      ensures forall j :: from <= j < k ==> !Holds(j, url)
      decreases |names| - from
    {
      if from == |names| then from
      else if Holds(from, url) then from
      else FirstHolder(url, from + 1)
    }

    /**
     * `caches.match(url)`: the entry of the earliest-created cache that holds `url`,
     * over all caches, not only the current one.
     */
    function Match(url: string): (r: Option<Response>)
      requires Valid()
      ensures r.None? <==> forall n :: n in stores ==> url !in stores[n]
      ensures r.Some? ==> exists i :: 0 <= i < |names| && MatchIn(names[i], url) == r &&
                            forall j :: 0 <= j < i ==> MatchIn(names[j], url).None?
    {
      var k := FirstHolder(url, 0);
      if k < |names| then
        assert forall j :: 0 <= j < k ==> MatchIn(names[j], url).None? by {
          forall j | 0 <= j < k ensures MatchIn(names[j], url).None? {
            assert !Holds(j, url);
          }
        }
        MatchIn(names[k], url)
      else
        assert forall n :: n in stores ==> url !in stores[n] by {
          forall n | n in stores ensures url !in stores[n] {
            var i :| 0 <= i < |names| && names[i] == n;
            assert !Holds(i, url);
          }
        }
        None
    }

    /** `caches.open(name)`: the cache named `name`, created empty and last if it did not exist. */
    function Open(name: string): (t: Storage)
      requires Valid()
      ensures t.Valid()
      ensures t.stores.Keys == stores.Keys + {name}
      ensures forall n :: n in stores ==> t.stores[n] == stores[n]
      ensures name in stores ==> t == this
      ensures name !in stores ==> t.names == names + [name] && t.stores[name] == map[]
    {
      if name in stores then this
      else
        var t := Storage(names + [name], stores[name := map[]]);
        assert forall i :: 0 <= i < |names| ==> t.names[i] == names[i];
        t
    }

    /** `cache.put(url, response)` on the existing cache named `name`. */
    function Put(name: string, url: string, response: Response): (t: Storage)
      requires Valid() && name in stores
      ensures t.Valid() && t.names == names && t.stores.Keys == stores.Keys
      ensures t.MatchIn(name, url) == Some(response)
      ensures forall n, u :: (n != name || u != url) ==> t.MatchIn(n, u) == MatchIn(n, u)
    {
      Storage(names, stores[name := stores[name][url := response]])
    }

    /** `caches.delete(name)`: the cache named `name` and all its entries are gone. */
    function Delete(name: string): (t: Storage)
      requires Valid()
      ensures t.Valid()
      ensures t.stores.Keys == stores.Keys - {name}
      ensures forall n :: n in t.stores ==> t.stores[n] == stores[n]
      ensures name !in stores ==> t == this
      ensures name in stores ==> t.names == names[..IndexOf(names, name)] + names[IndexOf(names, name) + 1..]
    {
      Storage(Without(names, name), stores - {name})
    }

    /**
     * `cache.addAll(urls)` on the existing cache named `name`, with `fetch` the
     * network's answer for each URL: it rejects as a whole (None) unless every fetch
     * is accepted, and otherwise puts every fetched response.
     */
    function AddAll(name: string, urls: seq<string>, fetch: string -> NetOutcome): (r: Option<Storage>)
      requires Valid() && name in stores
      ensures r.Some? <==> BatchAccepts(urls, fetch)
      ensures r.Some? ==> r.value.Valid() && r.value.names == names && r.value.stores.Keys == stores.Keys
      ensures r.Some? ==> r.value.stores[name].Keys == stores[name].Keys + set u | u in urls
      ensures r.Some? ==> forall u :: u in urls ==> r.value.MatchIn(name, u) == Some(fetch(u).response)
      ensures r.Some? ==> forall n, u :: (n != name || u !in urls) ==> r.value.MatchIn(n, u) == MatchIn(n, u)
    {
      if BatchAccepts(urls, fetch) then
        Some(Storage(names, stores[name := PutAll(stores[name], urls, fetch)]))
      else
        None
    }
  }

  /** Creating a new, empty cache (last in creation order) moves no first holder. */
  lemma {:induction false} OpenKeepsFirstHolder(s: Storage, name: string, url: string, from: nat)
    requires s.Valid() && name !in s.stores && from <= |s.names|
    ensures var k := s.FirstHolder(url, from);
            var k' := s.Open(name).FirstHolder(url, from);
            k' == (if k < |s.names| then k else |s.names| + 1)
    decreases |s.names| - from
  {
    var t := s.Open(name);
    if from < |s.names| {
      assert t.names[from] == s.names[from];
      if !s.Holds(from, url) {
        OpenKeepsFirstHolder(s, name, url, from + 1);
      }
    } else {
      assert t.names[from] == name;
    }
  }

  /**
   * A well-formed storage whose caches are exactly those of `before` named `keep`,
   * with their entries, is that one cache alone, or empty if `before` had none.
   */
  lemma KeepOnly(s: Storage, before: Storage, keep: string)
    requires s.Valid()
    requires forall n :: n in s.stores ==> n in before.stores && n == keep && s.stores[n] == before.stores[n]
    requires keep in before.stores ==> keep in s.stores
    ensures s.names == if keep in before.stores then [keep] else []
    ensures s.stores == if keep in before.stores then map[keep := before.stores[keep]] else map[]
  {
    OnlyName(s.names, keep);
  }

  /** Opening a cache never changes what a match over all caches finds. */
  lemma OpenKeepsMatch(s: Storage, name: string, url: string)
    requires s.Valid()
    ensures s.Open(name).Match(url) == s.Match(url)
  {
    if name !in s.stores {
      OpenKeepsFirstHolder(s, name, url, 0);
      var k := s.FirstHolder(url, 0);
      if k < |s.names| {
        assert s.Open(name).names[k] == s.names[k];
      }
    }
  }

  /**
   * A URL that no cache held, once put into one cache, is matched over all caches
   * with exactly the response that was put.
   */
  lemma PopulateThenMatch(s: Storage, name: string, url: string, response: Response)
    requires s.Valid() && s.Match(url).None?
    ensures s.Open(name).Put(name, url, response).Match(url) == Some(response)
  {
  }

  /** Once only one cache is left, a match over all caches is a match in that cache. */
  lemma MatchSingleCache(s: Storage, name: string, url: string)
    requires s.Valid() && s.names == [name]
    ensures s.Match(url) == s.MatchIn(name, url)
  {
  }
}

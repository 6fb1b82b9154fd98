/** The offline cache policy of docs/sw.js: the browser's CacheStorage as an
    object holding named cache generations in creation order, the install
    and activate handlers over it, and the three per-request strategies
    chosen by the request's URL. The network is a function from a request
    to what `fetch` yields. */
module ServiceWorker {
  import opened Base

  const CacheName := "1mb-v2"

  const StaticAssets := [
    "/", "/index.html", "/404.html", "/assets/css/style.css",
    "/assets/js/theme.js", "/assets/js/counter.js", "/assets/js/parallax.js",
    "/assets/images/favicon.svg", "/assets/images/logo.svg"]

  const FontAssets := [
    "/assets/fonts/inter-latin.woff2", "/assets/fonts/space-grotesk-700-latin.woff2"]

  /** Everything the install handler puts in the cache. */
  const Manifest := StaticAssets + FontAssets

  const ApiHost := "workers.dev"
  const FontDir := "/assets/fonts/"
  const OfflineBody := "{\"count\":0,\"offline\":true}"

  datatype Url = Url(hostname: string, pathname: string)
  datatype Request = Request(verb: string, url: Url)
  datatype Response = Response(status: int, body: string)

  /** What `fetch` settles with: a response (of any status), or a rejection. */
  datatype Fetched = Received(response: Response) | NetworkFailure

  type Network = Request -> Fetched

  /** `response.ok` */
  predicate OkStatus(r: Response) {
    200 <= r.status <= 299
  }

  /** What `cache.addAll` stores: an ok response that is not a partial
      one (status 206 is refused as well). */
  predicate AddAllAccepts(r: Response) {
    OkStatus(r) && r.status != 206
  }

  /** A GET for a path of the worker's own origin. */
  function Asset(host: string, path: string): Request {
    Request("GET", Url(host, path))
  }

  predicate Distinct(s: seq<string>) {
    forall i, j | 0 <= i < j < |s| :: s[i] != s[j]
  }

  /** `s` with every occurrence of `x` taken out, the rest in order. */
  function Without(s: seq<string>, x: string): (r: seq<string>)
    ensures forall y :: y in r <==> y in s && y != x
    ensures Distinct(s) ==> Distinct(r)
  {
    if s == [] then []
    else if s[0] == x then Without(s[1..], x)
    else
      var t := Without(s[1..], x);
      assert Distinct(s) ==> Distinct(s[1..]) && s[0] !in s[1..];
      assert forall j :: 1 <= j < |t| + 1 ==> ([s[0]] + t)[j] == t[j - 1];
      [s[0]] + t
  }

  /** The names left after a deletion keep their creation order: any two
      of them occur in `s` in the same order. */
  lemma {:induction false} WithoutKeepsOrder(s: seq<string>, x: string, i: nat, j: nat)
    requires i < j < |Without(s, x)|
    ensures exists p, q :: 0 <= p < q < |s| && s[p] == Without(s, x)[i] && s[q] == Without(s, x)[j]
  {
    var r := Without(s, x);
    var t := Without(s[1..], x);
    if s[0] == x {
      assert r == t;
      WithoutKeepsOrder(s[1..], x, i, j);
      var p, q :| 0 <= p < q < |s[1..]| && s[1..][p] == t[i] && s[1..][q] == t[j];
      assert s[p + 1] == r[i] && s[q + 1] == r[j];
    } else if i == 0 {
      assert r == [s[0]] + t && r[j] == t[j - 1];
      assert t[j - 1] in s[1..];
      var q :| 0 <= q < |s[1..]| && s[1..][q] == t[j - 1];
      assert s[0] == r[0] && s[q + 1] == r[j];
    } else {
      assert r == [s[0]] + t && r[i] == t[i - 1] && r[j] == t[j - 1];
      WithoutKeepsOrder(s[1..], x, i - 1, j - 1);
      var p, q :| 0 <= p < q < |s[1..]| && s[1..][p] == t[i - 1] && s[1..][q] == t[j - 1];
      assert s[p + 1] == r[i] && s[q + 1] == r[j];
    }
  }

  lemma {:induction false} WithoutAbsent(s: seq<string>, x: string)
    requires x !in s
    ensures Without(s, x) == s
  {
    if s != [] {
      WithoutAbsent(s[1..], x);
    }
  }

  lemma {:induction false} WithoutAppend(a: seq<string>, b: seq<string>, x: string)
    ensures Without(a + b, x) == Without(a, x) + Without(b, x)
  {
    if a != [] {
      assert (a + b)[0] == a[0];
      assert (a + b)[1..] == a[1..] + b;
      WithoutAppend(a[1..], b, x);
    } else {
      assert a + b == b;
    }
  }

  /** Deleting a key that occurs once, between two runs without it. */
  lemma DropKey(kept: seq<string>, k: string, rest: seq<string>)
    requires k !in kept && k !in rest
    ensures Without(kept + ([k] + rest), k) == kept + rest
  {
    WithoutAppend(kept, [k] + rest, k);
    WithoutAppend([k], rest, k);
    WithoutAbsent(kept, k);
    WithoutAbsent(rest, k);
  }

  /** The first generation, in the order `names` gives, whose cache holds
      an entry for `url`. */
  function FirstHit(names: seq<string>, stores: map<string, map<Url, Response>>, url: Url)
    : (r: Option<Response>)
    ensures r.None? <==> forall i :: 0 <= i < |names| && names[i] in stores ==> url !in stores[names[i]]
    ensures r.Some? ==>
              exists i :: && 0 <= i < |names| && names[i] in stores && url in stores[names[i]]
                          && r.value == stores[names[i]][url]
                          && forall j :: 0 <= j < i && names[j] in stores ==> url !in stores[names[j]]
  {
    if names == [] then None
    else if names[0] in stores && url in stores[names[0]] then Some(stores[names[0]][url])
    else
      var r := FirstHit(names[1..], stores, url);
      assert forall i :: 1 <= i < |names| ==> names[i] == names[1..][i - 1];
      r
  }

  /** The content of CacheStorage: generation names in creation order (the
      order of `caches.keys()`) and each generation's entries. */
  datatype Caches = Caches(names: seq<string>, stores: map<string, map<Url, Response>>) {
    ghost predicate Valid() {
      Distinct(names) && forall n :: n in stores <==> n in names
    }

    /** `caches.open(name)`: the generation, created (last) if it is new. */
    function Opened(name: string): (c: Caches)
      ensures name in c.stores
      ensures Valid() ==> c.Valid()
      ensures name in stores ==> c == this
      ensures name !in stores ==> c.names == names + [name] && c.stores == stores[name := map[]]
    {
      if name in stores then this
      else Caches(names + [name], stores[name := map[]])
    }

    /** Entries written into an open generation; later entries win. */
    function Stored(name: string, entries: map<Url, Response>): (c: Caches)
      requires name in stores
      ensures Valid() ==> c.Valid()
      ensures c.names == names
      ensures forall n :: n in stores && n != name ==> n in c.stores && c.stores[n] == stores[n]
      ensures name in c.stores
      ensures forall u :: u in c.stores[name] <==> u in stores[name] || u in entries
      ensures forall u :: u in entries ==> c.stores[name][u] == entries[u]
      ensures forall u :: u in stores[name] && u !in entries ==> c.stores[name][u] == stores[name][u]
    {
      Caches(names, stores[name := stores[name] + entries])
    }

    /** `caches.delete(name)` */
    function Deleted(name: string): (c: Caches)
      ensures Valid() ==> c.Valid()
      ensures name !in c.stores && name !in c.names
      ensures forall n :: n != name ==> (n in c.stores <==> n in stores)
      ensures forall n :: n in c.stores ==> c.stores[n] == stores[n]
    {
      Caches(Without(names, name), stores - {name})
    }

    /** `caches.match(request)`: only GET requests match; the oldest
        generation holding the URL answers. */
    function Matching(req: Request): (r: Option<Response>)
      ensures req.verb != "GET" ==> r.None?
      ensures req.verb == "GET" && Valid() && names == [CacheName] && req.url in stores[CacheName] ==>
                r == Some(stores[CacheName][req.url])
    {
      if req.verb != "GET" then None else FirstHit(names, stores, req.url)
    }
  }

  /** `caches.open(CACHE_NAME).then(cache => cache.put(request, response))`:
      the generation is opened whatever happens, and the put only succeeds
      for a GET (a put of any other method rejects). */
  function PutSpec(c: Caches, req: Request, resp: Response): (c': Caches)
    ensures c.Valid() ==> c'.Valid()
    ensures c'.names == c.Opened(CacheName).names
    ensures forall n :: n in c.stores && n != CacheName ==> n in c'.stores && c'.stores[n] == c.stores[n]
    ensures CacheName in c'.stores
    ensures forall u :: u in c'.stores[CacheName] <==>
                      (CacheName in c.stores && u in c.stores[CacheName]) || (req.verb == "GET" && u == req.url)
    ensures req.verb == "GET" ==> c'.stores[CacheName][req.url] == resp
    ensures forall u :: u in c'.stores[CacheName] && (req.verb != "GET" || u != req.url) ==>
                      c'.stores[CacheName][u] == c.stores[CacheName][u]
  {
    var c1 := c.Opened(CacheName);
    if req.verb == "GET" then c1.Stored(CacheName, map[req.url := resp]) else c1
  }

  /** The browser's CacheStorage for the worker's origin. */
  class CacheStorage {
    var names: seq<string>
    var stores: map<string, map<Url, Response>>

    constructor ()
      ensures names == [] && stores == map[]
    {
      names := [];
      stores := map[];
    }

    function State(): Caches
      reads this
    {
      Caches(names, stores)
    }

    ghost predicate Valid()
      reads this
    {
      State().Valid()
    }

    /** `caches.keys()` */
    method Keys() returns (keys: seq<string>)
      ensures keys == names
    {
      keys := names;
    }

    method Open(name: string)
      modifies this
      ensures State() == old(State()).Opened(name)
    {
      if name !in stores {
        names := names + [name];
        stores := stores[name := map[]];
      }
    }

    method Store(name: string, entries: map<Url, Response>)
      requires name in stores
      modifies this
      ensures State() == old(State()).Stored(name, entries)
    {
      stores := stores[name := stores[name] + entries];
    }

    method Delete(name: string)
      modifies this
      ensures State() == old(State()).Deleted(name)
    {
      names := Without(names, name);
      stores := stores - {name};
    }

    /** `caches.match(request)`: the generations are searched in creation
        order. */
    method Match(req: Request) returns (r: Option<Response>)
      ensures r == State().Matching(req)
    {
      if req.verb != "GET" {
        return None;
      }
      var i := 0;
      while i < |names|
        invariant 0 <= i <= |names|
        invariant FirstHit(names, stores, req.url) == FirstHit(names[i..], stores, req.url)
      {
        var n := names[i];
        if n in stores && req.url in stores[n] {
          return Some(stores[n][req.url]);
        }
        assert names[i..][1..] == names[i + 1..];
        i := i + 1;
      }
      r := None;
    }
  }

  // -------------------------------------------------------------- install

  /** `cache.addAll(paths)`: every path is fetched; the entries exist only
      if every fetch settles with an ok (2xx) response other than 206,
      otherwise the whole call rejects. */
  function FetchAll(net: Network, host: string, paths: seq<string>): (r: Option<map<Url, Response>>)
    ensures r.Some? <==>
              forall i :: 0 <= i < |paths| ==>
                net(Asset(host, paths[i])).Received? && AddAllAccepts(net(Asset(host, paths[i])).response)
    ensures r.Some? ==>
              forall i :: 0 <= i < |paths| ==>
                Url(host, paths[i]) in r.value && r.value[Url(host, paths[i])] == net(Asset(host, paths[i])).response
    ensures r.Some? ==> forall u :: u in r.value ==> AddAllAccepts(r.value[u])
  {
    if paths == [] then Some(map[])
    else
      var f := net(Asset(host, paths[0]));
      var rest := FetchAll(net, host, paths[1..]);
      assert forall i :: 1 <= i < |paths| ==> paths[i] == paths[1..][i - 1];
      if !(f.Received? && AddAllAccepts(f.response)) then None
      else if rest.None? then None
      else Some(rest.value[Url(host, paths[0]) := f.response])
  }

  /** The install handler: open `CACHE_NAME`, then `addAll` of the static
      assets and the fonts; reports whether the installation succeeded. */
  function InstallSpec(c: Caches, net: Network, host: string): (res: (Caches, bool))
  {
    var c1 := c.Opened(CacheName);
    match FetchAll(net, host, Manifest)
    case None => (c1, false)
    case Some(entries) => (c1.Stored(CacheName, entries), true)
  }

  method Install(caches: CacheStorage, net: Network, host: string) returns (installed: bool)
    modifies caches
    ensures (caches.State(), installed) == InstallSpec(old(caches.State()), net, host)
  {
    caches.Open(CacheName);
    var entries := FetchAll(net, host, Manifest);
    if entries.None? {
      return false;
    }
    caches.Store(CacheName, entries.value);
    installed := true;
  }

  // ------------------------------------------------------------- activate

  /** The activate handler's effect: every generation but `CACHE_NAME` is
      gone, and that one keeps its entries. */
  function ActivateSpec(c: Caches): (c': Caches)
    ensures c.Valid() ==> c'.Valid()
    ensures forall n :: n in c'.stores ==> n == CacheName && n in c.stores && c'.stores[n] == c.stores[n]
    ensures CacheName in c.stores ==> CacheName in c'.stores
    ensures c'.names == [] || c'.names == [CacheName]
  {
    if CacheName in c.stores then Caches([CacheName], map[CacheName := c.stores[CacheName]])
    else Caches([], map[])
  }

  /** The generations left after activation has gone through the first
      `i` keys: `CACHE_NAME` if it was among them. */
  function Kept(keys: seq<string>, i: nat): seq<string>
    requires i <= |keys|
  {
    if CacheName in keys[..i] then [CacheName] else []
  }

  /** The caches once activation has gone through the first `i` of the
      keys of `c`. */
  function Trimmed(c: Caches, i: nat): Caches
    requires i <= |c.names|
  {
    var names := Kept(c.names, i) + c.names[i..];
    Caches(names, map n | n in c.stores && n in names :: c.stores[n])
  }

  /** Before the first key nothing is deleted. */
  lemma TrimmedNone(c: Caches)
    requires c.Valid()
    ensures Trimmed(c, 0) == c
  {
    assert c.names[..0] == [] && c.names[0..] == c.names;
    assert Trimmed(c, 0).names == c.names;
    forall n | n in c.stores
      ensures n in Trimmed(c, 0).stores && Trimmed(c, 0).stores[n] == c.stores[n]
    {
      assert n in c.names;
    }
    assert Trimmed(c, 0).stores == c.stores;
  }

  /** One turn of the activation loop on a key other than `CACHE_NAME`:
      the key is deleted. */
  lemma TrimmedDrop(c: Caches, i: nat)
    requires c.Valid() && i < |c.names| && c.names[i] != CacheName
    ensures Trimmed(c, i).Deleted(c.names[i]) == Trimmed(c, i + 1)
  {
    var keys, k := c.names, c.names[i];
    var t, u := Trimmed(c, i), Trimmed(c, i + 1);
    assert keys[..i + 1] == keys[..i] + [k];
    assert Kept(keys, i + 1) == Kept(keys, i);
    assert keys[i..] == [k] + keys[i + 1..];
    assert k !in keys[i + 1..];
    DropKey(Kept(keys, i), k, keys[i + 1..]);
    assert t.Deleted(k).names == u.names;
    assert t.Deleted(k).stores == u.stores;
  }

  /** One turn of the activation loop on `CACHE_NAME`: nothing changes. */
  lemma TrimmedKeep(c: Caches, i: nat)
    requires c.Valid() && i < |c.names| && c.names[i] == CacheName
    ensures Trimmed(c, i) == Trimmed(c, i + 1)
  {
    var keys := c.names;
    assert keys[..i + 1] == keys[..i] + [CacheName];
    assert CacheName !in keys[..i];
    assert keys[i..] == [CacheName] + keys[i + 1..];
    assert Trimmed(c, i).names == Trimmed(c, i + 1).names;
  }

  /** After the last key only `CACHE_NAME` is left. */
  lemma TrimmedAll(c: Caches)
    requires c.Valid()
    ensures Trimmed(c, |c.names|) == ActivateSpec(c)
  {
    assert c.names[..|c.names|] == c.names;
    if CacheName in c.stores {
      assert Trimmed(c, |c.names|).stores == map[CacheName := c.stores[CacheName]];
    } else {
      assert Trimmed(c, |c.names|).stores == map[];
    }
  }

  /** `caches.keys()`, then `caches.delete(key)` for every key other than
      `CACHE_NAME`. */
  method Activate(caches: CacheStorage)
    requires caches.Valid()
    modifies caches
    ensures caches.State() == ActivateSpec(old(caches.State()))
  {
    ghost var c := caches.State();
    var keys := caches.Keys();
    TrimmedNone(c);
    var i := 0;
    while i < |keys|
      invariant 0 <= i <= |keys| && keys == c.names
      invariant caches.State() == Trimmed(c, i)
    {
      if keys[i] != CacheName {
        TrimmedDrop(c, i);
        caches.Delete(keys[i]);
      } else {
        TrimmedKeep(c, i);
      }
      i := i + 1;
    }
    TrimmedAll(c);
  }

  // ---------------------------------------------------------------- fetch

  datatype Strategy = NetworkFirst | StaleWhileRevalidate | CacheFirst

  /** The fetch handler's choice: the counter API by host name first, then
      fonts by path, then everything else. */
  function Classify(url: Url): (s: Strategy)
    ensures s.NetworkFirst? <==> Contains(url.hostname, ApiHost)
    ensures s.StaleWhileRevalidate? <==> !Contains(url.hostname, ApiHost) && Contains(url.pathname, FontDir)
    ensures s.CacheFirst? <==> !Contains(url.hostname, ApiHost) && !Contains(url.pathname, FontDir)
  {
    if Contains(url.hostname, ApiHost) then NetworkFirst
    else if Contains(url.pathname, FontDir) then StaleWhileRevalidate
    else CacheFirst
  }

  /** What the API branch answers when the network fails: status 200 with
      a zero count flagged offline. */
  const Offline := Response(200, OfflineBody)

  /** The fetch handler: the cache afterwards, the response the page gets
      (`None` when `respondWith` is given a rejection or `undefined`, which
      the page sees as a network error), and whether the network was
      used. */
  function HandleSpec(c: Caches, net: Network, req: Request): (res: (Caches, Option<Response>, bool))
  {
    match Classify(req.url)
    case NetworkFirst =>
      (c, Some(if net(req).Received? then net(req).response else Offline), true)
    case StaleWhileRevalidate =>
      var cached := c.Matching(req);
      var f := net(req);
      var c1 := if f.Received? && f.response.status == 200 then PutSpec(c, req, f.response) else c;
      (c1, if cached.Some? then cached else if f.Received? then Some(f.response) else None, true)
    case CacheFirst =>
      var cached := c.Matching(req);
      if cached.Some? then (c, cached, false)
      else
        var f := net(req);
        if f.NetworkFailure? then (c, None, true)
        else if f.response.status != 200 then (c, Some(f.response), true)
        else (PutSpec(c, req, f.response), Some(f.response), true)
  }

  method Put(caches: CacheStorage, req: Request, resp: Response)
    modifies caches
    ensures caches.State() == PutSpec(old(caches.State()), req, resp)
  {
    caches.Open(CacheName);
    if req.verb == "GET" {
      caches.Store(CacheName, map[req.url := resp]);
    }
  }

  method HandleFetch(caches: CacheStorage, net: Network, req: Request)
    returns (resp: Option<Response>, usedNetwork: bool)
    modifies caches
    ensures (caches.State(), resp, usedNetwork) == HandleSpec(old(caches.State()), net, req)
  {
    if Contains(req.url.hostname, ApiHost) {
      var f := net(req);
      resp := Some(if f.Received? then f.response else Offline);
      return resp, true;
    }
    if Contains(req.url.pathname, FontDir) {
      var cached := caches.Match(req);
      var f := net(req);
      if f.Received? && f.response.status == 200 {
        Put(caches, req, f.response);
      }
      resp := if cached.Some? then cached else if f.Received? then Some(f.response) else None;
      return resp, true;
    }
    var cached := caches.Match(req);
    if cached.Some? {
      return cached, false;
    }
    var f := net(req);
    if f.NetworkFailure? {
      return None, true;
    }
    if f.response.status == 200 {
      Put(caches, req, f.response);
    }
    resp, usedNetwork := Some(f.response), true;
  }
}

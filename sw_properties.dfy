/** What the service worker's cache policy promises: the API is never
    cached, cache-first serves hits without the network and keeps only
    status-200 responses, stale-while-revalidate prefers the cached copy,
    install is all-or-nothing, and after install and activate every asset
    of the manifest is served from the cache. */
module ServiceWorkerProperties {
  import opened Base
  import opened ServiceWorker

  /** The counter API is answered from the network alone: the cache is
      neither read nor written, and a failed fetch becomes the offline
      body with status 200, so the page always gets a response. */
  lemma ApiBypassesCache(c: Caches, net: Network, req: Request)
    requires Classify(req.url).NetworkFirst?
    ensures HandleSpec(c, net, req).0 == c
    ensures HandleSpec(c, net, req).2
    ensures net(req).Received? ==> HandleSpec(c, net, req).1 == Some(net(req).response)
    ensures net(req).NetworkFailure? ==>
              HandleSpec(c, net, req).1 == Some(Response(200, "{\"count\":0,\"offline\":true}"))
  {
  }

  /** Cache-first with a hit: the cached response, no fetch, no change. */
  lemma CacheFirstHit(c: Caches, net: Network, req: Request)
    requires Classify(req.url).CacheFirst? && c.Matching(req).Some?
    ensures HandleSpec(c, net, req) == (c, c.Matching(req), false)
  {
  }

  /** Cache-first with a miss: the network's answer is passed on whatever
      its status, a failed fetch leaves the page without a response, and
      only a status-200 response is written to `CACHE_NAME`. */
  lemma CacheFirstMiss(c: Caches, net: Network, req: Request)
    requires Classify(req.url).CacheFirst? && c.Matching(req).None?
    ensures HandleSpec(c, net, req).2
    ensures HandleSpec(c, net, req).1 == (if net(req).Received? then Some(net(req).response) else None)
    ensures net(req).Received? && net(req).response.status == 200 ==>
              HandleSpec(c, net, req).0 == PutSpec(c, req, net(req).response)
    ensures !(net(req).Received? && net(req).response.status == 200) ==> HandleSpec(c, net, req).0 == c
  {
  }

  /** A static GET that missed and was fetched with status 200 is served
      from the cache next time, without the network: the page works
      offline after the first visit. */
  lemma CachedAfterMiss(c: Caches, net: Network, later: Network, req: Request)
    requires c.Valid()
    requires Classify(req.url).CacheFirst? && req.verb == "GET" && c.Matching(req).None?
    requires net(req).Received? && net(req).response.status == 200
    ensures var c' := HandleSpec(c, net, req).0;
            HandleSpec(c', later, req) == (c', Some(net(req).response), false)
  {
    var c' := HandleSpec(c, net, req).0;
    var names := c'.names;
    var k :| 0 <= k < |names| && names[k] == CacheName;
    assert forall i :: 0 <= i < |names| && names[i] in c'.stores && i != k ==>
             names[i] != CacheName && req.url !in c'.stores[names[i]];
    assert c'.Matching(req) == Some(net(req).response);
  }

  /** Stale-while-revalidate: a cached copy is the response even when the
      network has something newer; without one the network's answer is,
      and a failed fetch with nothing cached leaves the page without a
      response. The network is always asked, and the cache is only
      refreshed with a status-200 response. */
  lemma StaleWhileRevalidateServes(c: Caches, net: Network, req: Request)
    requires Classify(req.url).StaleWhileRevalidate?
    ensures HandleSpec(c, net, req).2
    ensures c.Matching(req).Some? ==> HandleSpec(c, net, req).1 == c.Matching(req)
    ensures c.Matching(req).None? ==>
              HandleSpec(c, net, req).1 == (if net(req).Received? then Some(net(req).response) else None)
    ensures net(req).Received? && net(req).response.status == 200 ==>
              HandleSpec(c, net, req).0 == PutSpec(c, req, net(req).response)
    ensures !(net(req).Received? && net(req).response.status == 200) ==> HandleSpec(c, net, req).0 == c
  {
  }

  /** The generation `CACHE_NAME` holds only successful responses. */
  predicate OnlyOk(c: Caches) {
    CacheName in c.stores ==> forall u :: u in c.stores[CacheName] ==> OkStatus(c.stores[CacheName][u])
  }

  /** The facts `HandleStoresOnly200` states, for one state change. */
  predicate WritesOnly200(c: Caches, c': Caches) {
    && (forall n :: n in c.stores && n != CacheName ==> n in c'.stores && c'.stores[n] == c.stores[n])
    && (forall u :: CacheName in c'.stores && u in c'.stores[CacheName] ==>
          (CacheName in c.stores && u in c.stores[CacheName] && c'.stores[CacheName][u] == c.stores[CacheName][u])
          || c'.stores[CacheName][u].status == 200)
  }

  /** A put of a status-200 response writes nothing else. */
  lemma PutOnly200(c: Caches, req: Request, resp: Response)
    requires c.Valid() && resp.status == 200
    ensures PutSpec(c, req, resp).Valid()
    ensures WritesOnly200(c, PutSpec(c, req, resp))
    ensures OnlyOk(c) ==> OnlyOk(PutSpec(c, req, resp))
  {
  }

  /** Handling a request keeps the caches well formed, leaves every other
      generation alone, and whatever it writes into `CACHE_NAME` is a
      status-200 response; so `OnlyOk` is preserved. */
  lemma HandleStoresOnly200(c: Caches, net: Network, req: Request)
    requires c.Valid()
    ensures HandleSpec(c, net, req).0.Valid()
    ensures WritesOnly200(c, HandleSpec(c, net, req).0)
    ensures OnlyOk(c) ==> OnlyOk(HandleSpec(c, net, req).0)
  {
    var c' := HandleSpec(c, net, req).0;
    var f, strategy := net(req), Classify(req.url);
    var writes := strategy.StaleWhileRevalidate? || (strategy.CacheFirst? && c.Matching(req).None?);
    if writes && f.Received? && f.response.status == 200 {
      assert c' == PutSpec(c, req, f.response);
      PutOnly200(c, req, f.response);
    } else {
      assert c' == c;
    }
  }

  /** Install either stores an ok, non-partial response for every asset of
      the manifest or, when any fetch fails, is not ok or is a 206, leaves
      the entries of `CACHE_NAME` as they were (the generation itself is
      created). */
  lemma InstallAtomic(c: Caches, net: Network, host: string)
    requires c.Valid()
    ensures var (c', installed) := InstallSpec(c, net, host);
            && c'.Valid()
            && CacheName in c'.stores
            && (installed <==>
                  forall i :: 0 <= i < |Manifest| ==>
                    net(Asset(host, Manifest[i])).Received? && AddAllAccepts(net(Asset(host, Manifest[i])).response))
            && (installed ==>
                  forall i :: 0 <= i < |Manifest| ==>
                    Url(host, Manifest[i]) in c'.stores[CacheName]
                    && c'.stores[CacheName][Url(host, Manifest[i])] == net(Asset(host, Manifest[i])).response)
            && (!installed ==> c'.stores[CacheName] == if CacheName in c.stores then c.stores[CacheName] else map[])
            && (OnlyOk(c) ==> OnlyOk(c'))
  {
  }

  /** A network that answers with partial content (206) fails the
      install, and nothing is stored. */
  lemma InstallRefusesPartial(c: Caches, host: string, body: string)
    requires c.Valid()
    ensures var (c', installed) := InstallSpec(c, _ => Received(Response(206, body)), host);
            && !installed
            && c'.stores[CacheName] == if CacheName in c.stores then c.stores[CacheName] else map[]
  {
    var net: Network := _ => Received(Response(206, body));
    InstallAtomic(c, net, host);
    assert !AddAllAccepts(net(Asset(host, Manifest[0])).response);
  }

  /** Activation after a successful install: only `CACHE_NAME` is left,
      and every asset of the manifest is served from it as installed,
      without the network for the static ones (fonts are still refreshed
      in the background). */
  lemma InstalledAssetsServed(c: Caches, net: Network, later: Network, host: string, i: nat)
    requires c.Valid() && InstallSpec(c, net, host).1
    requires i < |Manifest| && !Contains(host, ApiHost)
    ensures var c' := ActivateSpec(InstallSpec(c, net, host).0);
            && c'.names == [CacheName]
            && c'.Matching(Asset(host, Manifest[i])) == Some(net(Asset(host, Manifest[i])).response)
            && HandleSpec(c', later, Asset(host, Manifest[i])).1 == Some(net(Asset(host, Manifest[i])).response)
            && (Classify(Url(host, Manifest[i])).CacheFirst? ==>
                  HandleSpec(c', later, Asset(host, Manifest[i])) == (c', Some(net(Asset(host, Manifest[i])).response), false))
  {
    InstallAtomic(c, net, host);
    var c' := ActivateSpec(InstallSpec(c, net, host).0);
    var req := Asset(host, Manifest[i]);
    assert c'.Matching(req) == Some(net(req).response);
  }

  /** Activating twice is activating once. */
  lemma ActivateIdempotent(c: Caches)
    ensures ActivateSpec(ActivateSpec(c)) == ActivateSpec(c)
  {
  }
}

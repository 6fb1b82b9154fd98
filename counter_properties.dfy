/** What the counter function promises across requests: a vote from an
    address counts once per 24-hour window, the count moves by at most one
    per request, a failed rate-limit write leaves a counted vote with no
    mark, so the address can vote again, and the router's status codes. */
module CounterProperties {
  import opened Base
  import opened JsParse
  import opened Redis
  import opened Identity
  import opened CounterService

  /** A store holding count `n` in INCR's form reports `n`. */
  lemma CountOfCountIs(db: Db, n: int)
    requires CountIs(db, n)
    ensures CountOf(db) == n
  {
    if db.Value(CountKey).Some? {
      ParseIntOfIntToString(n);
    }
  }

  /** `GET key` is truthy exactly when the address has voted. */
  lemma ReadVoted(db: Db, key: string)
    ensures Apply(db, Get(key)).1.error.None?
    ensures Truthy(Apply(db, Get(key)).1.result) <==> HasVoted(db, key)
  {
  }

  /** An address that has voted: the handler neither increments nor marks,
      whatever the links do, and when both reads are delivered it reports
      the current count with 'Already counted'. */
  lemma PostWhenVoted(db: Db, key: string, links: seq<Link>)
    requires HasVoted(db, key)
    ensures PostSpec(db, key, links).0 == db
    ensures LinkAt(links, 0).Delivered? && LinkAt(links, 1).Delivered? ==>
              PostSpec(db, key, links).1 == Ok(PostReply(Some(CountOf(db)), true, AlreadyCounted))
    ensures PostSpec(db, key, links).1.Ok? ==>
              PostSpec(db, key, links).1 == Ok(PostReply(Some(CountOf(db)), true, AlreadyCounted))
  {
    ReadVoted(db, key);
    ReadCount(db, LinkAt(links, 1));
  }

  /** The three calls of a counting vote on a store holding `n`, when all
      of them are delivered. */
  lemma CountingCalls(db: Db, key: string, n: int)
    requires key != CountKey
    requires CountIs(db, n) && Int64Min <= n < Int64Max
    ensures var db2 := Apply(db, Incr(CountKey)).0;
            var db3 := Apply(db2, SetEx(key, "1", RateLimitSeconds)).0;
            && Apply(db, Incr(CountKey)).1 == Envelope(Integer(n + 1), None)
            && CountIs(db2, n + 1)
            && db2.Value(key) == db.Value(key)
            && CountIs(db3, n + 1)
            && key in db3.entries && db3.entries[key] == Entry("1", Some(db.clock + RateLimitSeconds * 1000))
            && Apply(db2, SetEx(key, "1", RateLimitSeconds)).1 == Envelope(Bulk("OK"), None)
            && (forall k :: k != key && k != CountKey ==> db3.Value(k) == db.Value(k))
  {
    IncrNext(db, CountKey, n);
  }

  /** The path of a counting vote through the handler when its three
      calls are delivered and succeed. */
  lemma PostPath(db: Db, m: int, key: string, links: seq<Link>)
    requires key != CountKey
    requires !HasVoted(db, key)
    requires LinkAt(links, 0).Delivered? && LinkAt(links, 1).Delivered? && LinkAt(links, 2).Delivered?
    requires Apply(db, Incr(CountKey)).1 == Envelope(Integer(m), None)
    requires Apply(Apply(db, Incr(CountKey)).0, SetEx(key, "1", RateLimitSeconds)).1
             == Envelope(Bulk("OK"), None)
    ensures PostSpec(db, key, links) ==
            (Apply(Apply(db, Incr(CountKey)).0, SetEx(key, "1", RateLimitSeconds)).0,
             Ok(PostReply(ParseInt(IntToString(m)), true, Counted)))
  {
    ReadVoted(db, key);
  }

  /** An address that has not voted, with every call delivered: the count
      goes from `n` to `n + 1`, the address is marked for 24 hours (86400
      seconds from now), nothing else changes, and the reply is the new
      count with 'Counted'. */
  lemma PostCounts(db: Db, n: int, key: string, links: seq<Link>)
    requires key != CountKey
    requires CountIs(db, n) && Int64Min <= n < Int64Max
    requires !HasVoted(db, key)
    requires LinkAt(links, 0).Delivered? && LinkAt(links, 1).Delivered? && LinkAt(links, 2).Delivered?
    ensures var (db', r) := PostSpec(db, key, links);
            && r == Ok(PostReply(Some(n + 1), true, Counted))
            && CountIs(db', n + 1)
            && db'.clock == db.clock
            && key in db'.entries && db'.entries[key] == Entry("1", Some(db.clock + RateLimitSeconds * 1000))
            && HasVoted(db', key)
            && (forall k :: k != key && k != CountKey ==> db'.Value(k) == db.Value(k))
  {
    CountingCalls(db, key, n);
    PostPath(db, n + 1, key, links);
    ParseIntOfIntToString(n + 1);
  }

  /** The increment is not undone when the rate-limit write fails: the
      request errors, the count has moved on and the address is still
      unmarked, so a retry counts again. */
  lemma PostMarkFails(db: Db, n: int, key: string, links: seq<Link>)
    requires key != CountKey
    requires CountIs(db, n) && Int64Min <= n < Int64Max
    requires !HasVoted(db, key)
    requires LinkAt(links, 0).Delivered? && LinkAt(links, 1).Delivered? && LinkAt(links, 2).Unreachable?
    ensures var (db', r) := PostSpec(db, key, links);
            && r == Err(NetworkError)
            && CountIs(db', n + 1)
            && !HasVoted(db', key)
  {
    ReadVoted(db, key);
    CountingCalls(db, key, n);
  }

  /** The stores a POST from an address that has not voted can leave
      behind: unchanged, incremented only, or incremented and marked. */
  lemma PostStates(db: Db, key: string, links: seq<Link>)
    requires !HasVoted(db, key)
    ensures var db2 := Apply(db, Incr(CountKey)).0;
            var db' := PostSpec(db, key, links).0;
            db' == db || db' == db2 || db' == Apply(db2, SetEx(key, "1", RateLimitSeconds)).0
  {
    var l0, l1 := LinkAt(links, 0), LinkAt(links, 1);
    var db2 := Apply(db, Incr(CountKey)).0;
    if l0.Delivered? {
      ReadVoted(db, key);
      assert CallSpec(db, Get(key), l0) == (db, Ok(Apply(db, Get(key)).1.result));
      var r1 := CallSpec(db, Incr(CountKey), l1);
      assert r1.0 == db || r1.0 == db2;
      if r1.1.Ok? {
        assert l1.Delivered?;
        var r2 := CallSpec(db2, SetEx(key, "1", RateLimitSeconds), LinkAt(links, 2));
        assert PostSpec(db, key, links).0 == r2.0;
      }
    } else {
      assert CallSpec(db, Get(key), l0).1.Err?;
    }
  }

  /** One POST, whatever becomes of its store calls, on a store holding
      `n`: the count ends at `n` or `n + 1`, it moves only for an address
      that had not voted, the address's key changes only to the mark '1'
      and only together with the increment, and no other key changes. */
  lemma PostEffect(db: Db, n: int, key: string, links: seq<Link>)
    requires key != CountKey
    requires CountIs(db, n) && Int64Min <= n < Int64Max
    ensures var (db', r) := PostSpec(db, key, links);
            && db'.clock == db.clock
            && (forall k :: k != key && k != CountKey ==> db'.Value(k) == db.Value(k))
            && (HasVoted(db, key) ==> db' == db)
            && (db' == db || CountIs(db', n + 1))
            && (db'.Value(key) != db.Value(key) ==> CountIs(db', n + 1) && db'.Value(key) == Some("1"))
  {
    if HasVoted(db, key) {
      PostWhenVoted(db, key, links);
    } else {
      PostStates(db, key, links);
      CountingCalls(db, key, n);
    }
  }

  /** Time passes at the store. */
  function After(db: Db, ms: nat): (later: Db)
    ensures later.entries == db.entries && later.clock == db.clock + ms
  {
    db.(clock := db.clock + ms)
  }

  /** The count carries no expiry, so it survives any wait. */
  lemma CountIsAfter(db: Db, n: int, ms: nat)
    requires CountIs(db, n)
    ensures CountIs(After(db, ms), n)
  {
  }

  /** After a counted vote and a wait of `ms` milliseconds the count still
      holds `n + 1`, and the address stays marked for exactly 24 hours. */
  lemma MarkedAfter(db: Db, n: int, key: string, ms: nat)
    requires key != CountKey
    requires CountIs(db, n) && Int64Min <= n < Int64Max
    requires !HasVoted(db, key)
    ensures var db1 := After(PostSpec(db, key, []).0, ms);
            && CountIs(db1, n + 1)
            && (HasVoted(db1, key) <==> ms <= RateLimitSeconds * 1000)
  {
    PostCounts(db, n, key, []);
    CountIsAfter(PostSpec(db, key, []).0, n + 1, ms);
  }

  /** A second vote from the same address within 24 hours is not counted:
      it reports the count the first vote produced and changes nothing. */
  lemma PostTwice(db: Db, n: int, key: string, ms: nat)
    requires key != CountKey
    requires CountIs(db, n) && Int64Min <= n < Int64Max
    requires !HasVoted(db, key)
    requires ms <= RateLimitSeconds * 1000
    ensures var db1 := After(PostSpec(db, key, []).0, ms);
            && PostSpec(db1, key, []) == (db1, Ok(PostReply(Some(n + 1), true, AlreadyCounted)))
  {
    var db1 := After(PostSpec(db, key, []).0, ms);
    MarkedAfter(db, n, key, ms);
    CountOfCountIs(db1, n + 1);
    PostWhenVoted(db1, key, []);
  }

  /** Once more than 24 hours have passed the mark has expired, and the
      same address counts again. */
  lemma PostAfterWindow(db: Db, n: int, key: string, ms: nat)
    requires key != CountKey
    requires CountIs(db, n) && Int64Min <= n && n + 1 < Int64Max
    requires !HasVoted(db, key)
    requires ms > RateLimitSeconds * 1000
    ensures var db1 := After(PostSpec(db, key, []).0, ms);
            && PostSpec(db1, key, []).1 == Ok(PostReply(Some(n + 2), true, Counted))
            && CountIs(PostSpec(db1, key, []).0, n + 2)
  {
    var db1 := After(PostSpec(db, key, []).0, ms);
    MarkedAfter(db, n, key, ms);
    PostCounts(db1, n + 1, key, []);
  }

  /** Two votes from one client, `ms` milliseconds apart, run against the
      store itself: the first counts; the second reports the same count
      within 24 hours and counts again after them. */
  method VoteTwice(store: Store, ipHeader: Option<string>, digest: Digest, n: int, ms: nat)
      returns (first: Result<PostReply>, second: Result<PostReply>)
    requires CountIs(store.State(), n) && Int64Min <= n && n + 1 < Int64Max
    requires !HasVoted(store.State(), VoteKey(digest, ipHeader))
    modifies store
    ensures first == Ok(PostReply(Some(n + 1), true, Counted))
    ensures ms <= RateLimitSeconds * 1000 ==>
              second == Ok(PostReply(Some(n + 1), true, AlreadyCounted)) && CountIs(store.State(), n + 1)
    ensures ms > RateLimitSeconds * 1000 ==>
              second == Ok(PostReply(Some(n + 2), true, Counted)) && CountIs(store.State(), n + 2)
  {
    var key := VoteKey(digest, ipHeader);
    ghost var db := store.State();
    first := HandlePost(store, ipHeader, digest, []);
    PostCounts(db, n, key, []);
    store.Tick(ms);
    ghost var db1 := After(PostSpec(db, key, []).0, ms);
    assert store.State() == db1;
    second := HandlePost(store, ipHeader, digest, []);
    if ms <= RateLimitSeconds * 1000 {
      PostTwice(db, n, key, ms);
    } else {
      PostAfterWindow(db, n, key, ms);
    }
  }

  /** The store one delivered POST for `key` leaves behind. */
  function Voted(db: Db, key: string): Db {
    PostSpec(db, key, []).0
  }

  /** The store after `vote` has run for each rate-limit key in turn. */
  function VoteEach(vote: (Db, string) -> Db, db: Db, keys: seq<string>): Db
    decreases |keys|
  {
    if keys == [] then db
    else VoteEach(vote, vote(db, keys[0]), keys[1..])
  }

  /** Keys of distinct addresses, none of them the count's key, and none of
      them marked in `db`. */
  predicate FreshKeys(db: Db, keys: seq<string>) {
    && (forall i, j :: 0 <= i < j < |keys| ==> keys[i] != keys[j])
    && (forall i :: 0 <= i < |keys| ==> keys[i] != CountKey && !HasVoted(db, keys[i]))
  }

  /** The store after a counted vote, as the induction over voters needs
      it: the count has risen by one and no other voter's key has moved. */
  lemma PostCountsStore(db: Db, n: int, key: string)
    requires key != CountKey
    requires CountIs(db, n) && Int64Min <= n < Int64Max
    requires !HasVoted(db, key)
    ensures CountIs(PostSpec(db, key, []).0, n + 1)
    ensures forall k :: k != key && k != CountKey ==> PostSpec(db, key, []).0.Value(k) == db.Value(k)
  {
    PostCounts(db, n, key, []);
  }

  /** After the first key's vote, which leaves every other key alone, the
      remaining keys are still fresh. */
  lemma FreshKeysTail(db: Db, db1: Db, keys: seq<string>)
    requires |keys| > 0 && FreshKeys(db, keys)
    requires forall k :: k != keys[0] && k != CountKey ==> db1.Value(k) == db.Value(k)
    ensures FreshKeys(db1, keys[1..])
  {
    var rest := keys[1..];
    forall i | 0 <= i < |rest|
      ensures rest[i] != CountKey && !HasVoted(db1, rest[i])
    {
      assert rest[i] == keys[i + 1] && keys[0] != keys[i + 1];
    }
    forall i, j | 0 <= i < j < |rest|
      ensures rest[i] != rest[j]
    {
      assert rest[i] == keys[i + 1] && rest[j] == keys[j + 1];
    }
  }

  /** `vote` counts an address that has not voted once and leaves every
      other address's key alone. */
  ghost predicate CountsOnce(vote: (Db, string) -> Db) {
    forall db, key, n | key != CountKey && !HasVoted(db, key) && CountIs(db, n) && Int64Min <= n < Int64Max ::
      && CountIs(vote(db, key), n + 1)
      && (forall k | k != key && k != CountKey :: vote(db, key).Value(k) == db.Value(k))
  }

  /** A delivered POST counts once. */
  lemma VotedCountsOnce()
    ensures CountsOnce(Voted)
  {
    forall db, key, n | key != CountKey && !HasVoted(db, key) && CountIs(db, n) && Int64Min <= n < Int64Max
      ensures CountIs(Voted(db, key), n + 1)
      ensures forall k | k != key && k != CountKey :: Voted(db, key).Value(k) == db.Value(k)
    {
      PostCountsStore(db, n, key);
    }
  }

  /** Any step that counts once, run for fresh keys of distinct addresses,
      raises the count by exactly the number of keys. */
  lemma {:induction false} VoteEachCounts(vote: (Db, string) -> Db, db: Db, n: int, keys: seq<string>)
    requires CountsOnce(vote)
    requires CountIs(db, n) && Int64Min <= n && n + |keys| <= Int64Max
    requires FreshKeys(db, keys)
    ensures CountIs(VoteEach(vote, db, keys), n + |keys|)
    decreases |keys|
  {
    if keys != [] {
      var db1, rest := vote(db, keys[0]), keys[1..];
      assert |rest| + 1 == |keys|;
      FreshKeysTail(db, db1, keys);
      VoteEachCounts(vote, db1, n + 1, rest);
    }
  }

  /** Votes from addresses with distinct keys, none of which has voted,
      each count: the count rises by exactly the number of voters. */
  lemma PostAllCounts(db: Db, n: int, keys: seq<string>)
    requires CountIs(db, n) && Int64Min <= n && n + |keys| <= Int64Max
    requires FreshKeys(db, keys)
    ensures CountIs(VoteEach(Voted, db, keys), n + |keys|)
  {
    VotedCountsOnce();
    VoteEachCounts(Voted, db, n, keys);
  }

  // ------------------------------------------------------------ routing

  /** A read (GET on any path but /health) answers 200 with the count when
      its call is delivered and 500 'Internal error' otherwise, and never
      touches the store. */
  lemma FetchRead(db: Db, req: Request, digest: Digest, links: seq<Link>)
    requires req.verb == "GET" && req.path != "/health"
    ensures var (db', resp) := FetchSpec(db, req, digest, links);
            && db' == db
            && (LinkAt(links, 0).Delivered? ==> resp.status == 200 && resp.body == CountBody(CountOf(db)))
            && (!LinkAt(links, 0).Delivered? ==> resp.status == 500 && resp.body == ErrorBody("Internal error"))
  {
  }

  /** /health answers 200 or 503 according to the PING, for every method
      but OPTIONS, and never 500. */
  lemma FetchHealth(db: Db, req: Request, digest: Digest, links: seq<Link>)
    requires req.verb != "OPTIONS" && req.path == "/health"
    ensures var (db', resp) := FetchSpec(db, req, digest, links);
            && db' == db
            && (resp.status == 200 <==> LinkAt(links, 0).Delivered?)
            && (resp.status == 503 <==> !LinkAt(links, 0).Delivered?)
  {
  }

  /** A POST answers 200 exactly when every call it makes succeeds, and 500
      with 'Internal error' otherwise. */
  lemma FetchPost(db: Db, req: Request, digest: Digest, links: seq<Link>)
    requires req.verb == "POST" && req.path != "/health"
    ensures var (db', resp) := FetchSpec(db, req, digest, links);
            var (db'', r) := PostSpec(db, VoteKey(digest, req.clientIp), links);
            && db' == db''
            && (resp.status == 200 <==> r.Ok?)
            && (r.Ok? ==> resp.body == VoteBody(r.value))
            && (r.Err? ==> resp.status == 500 && resp.body == ErrorBody("Internal error"))
  {
  }

  /** Every response carries the CORS headers chosen from the request's
      Origin, and its status is one of 200, 405, 500 and 503. */
  lemma FetchHeaders(db: Db, req: Request, digest: Digest, links: seq<Link>)
    ensures FetchSpec(db, req, digest, links).1.headers == CorsHeaders(req.origin)
    ensures FetchSpec(db, req, digest, links).1.status in {200, 405, 500, 503}
  {
  }
}

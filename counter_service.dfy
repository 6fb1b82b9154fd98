/** The counter edge function of workers/counter.js: CORS headers, the three
    handlers (read, rate-limited increment, health) as sequences of store
    calls, and the router of its `fetch` entry point.

    Each handler is a method over the `Store` object and is proved equal to
    a function of the store's state (GetSpec, PostSpec, HealthSpec,
    FetchSpec); the properties of the service are lemmas about those
    functions. */
module CounterService {
  import opened Base
  import opened JsParse
  import opened Redis
  import opened Identity

  // ---------------------------------------------------------------- CORS

  const Production := "https://1mb.dev"
  const AllowedOrigins := ["https://1mb.dev", "http://localhost", "http://127.0.0.1"]
  const AllowMethods := "GET, POST, OPTIONS"
  const AllowHeaders := "Content-Type"
  const JsonType := "application/json"

  datatype Cors = Cors(allowOrigin: string, allowMethods: string, allowHeaders: string, contentType: string)

  /** `request.headers.get(name) || fallback`: a missing or empty header is
      replaced by the fallback. */
  function HeaderOr(header: Option<string>, fallback: string): (v: string)
    ensures header.Some? && header.value != "" ==> v == header.value
    ensures header.None? || header.value == "" ==> v == fallback
  {
    if header.Some? && header.value != "" then header.value else fallback
  }

  /** `allowedOrigins.some(allowed => origin.startsWith(allowed))` */
  predicate IsAllowedOrigin(origin: string) {
    exists i | 0 <= i < |AllowedOrigins| :: StartsWith(origin, AllowedOrigins[i])
  }

  /** `getCorsHeaders(request)`: the request's Origin is echoed exactly when
      it starts with one of the allowed prefixes; any other origin (or none)
      gets the production origin. The other headers are fixed. */
  function CorsHeaders(originHeader: Option<string>): (c: Cors)
    ensures var origin := HeaderOr(originHeader, "");
            && (c.allowOrigin == origin <==> IsAllowedOrigin(origin))
            && (!IsAllowedOrigin(origin) ==> c.allowOrigin == Production)
    ensures c.allowMethods == AllowMethods && c.allowHeaders == AllowHeaders
    ensures c.contentType == JsonType
  {
    var origin := HeaderOr(originHeader, "");
    assert StartsWith(Production, AllowedOrigins[0]);
    Cors(if IsAllowedOrigin(origin) then origin else Production, AllowMethods, AllowHeaders, JsonType)
  }

  // ------------------------------------------------------ rate-limit key

  const CountKey := "count"
  const UnknownIp := "unknown"
  const RateLimitSeconds := 86400
  const AlreadyCounted := "Already counted"
  const Counted := "Counted"

  /** `request.headers.get('CF-Connecting-IP') || 'unknown'` */
  function ClientIp(header: Option<string>): (ip: string)
    ensures ip != ""
    ensures header.Some? && header.value != "" ==> ip == header.value
    ensures header.None? || header.value == "" ==> ip == UnknownIp
  {
    HeaderOr(header, UnknownIp)
  }

  /** `voted:<hashIP(ip)>` */
  function RateLimitKey(digest: Digest, ip: string): (key: string)
    ensures key != CountKey
  {
    "voted:" + HashIP(digest, ip)
  }

  /** The rate-limit key of a request with this `CF-Connecting-IP` header;
      requests without the header all share the key of `unknown`. */
  function VoteKey(digest: Digest, ipHeader: Option<string>): (key: string)
    ensures key != CountKey
    ensures ipHeader.None? || ipHeader == Some("") ==> key == RateLimitKey(digest, UnknownIp)
  {
    RateLimitKey(digest, ClientIp(ipHeader))
  }

  /** `GET key` would give something truthy: the address has voted within
      the window. */
  predicate HasVoted(db: Db, key: string) {
    db.Value(key).Some? && db.Value(key).value != ""
  }

  /** The count `handleGet` reports for a store: an absent count is 0, and
      so is a value `parseInt` cannot read. */
  function CountOf(db: Db): int {
    match db.Value(CountKey)
    case None => 0
    case Some(v) => ParseIntOrZero(v)
  }

  /** The store holds count `n` in the form INCR keeps it: as the decimal
      rendering of `n`, or not at all when `n` is 0, and with no expiry. */
  predicate CountIs(db: Db, n: int) {
    && ((db.Value(CountKey) == None && n == 0) || db.Value(CountKey) == Some(IntToString(n)))
    && (db.Live(CountKey) ==> db.entries[CountKey].expiresAt.None?)
  }

  // ------------------------------------------------------------ handlers

  /** `GET count` over a link changes nothing, succeeds exactly when the
      link delivers, and `parseInt(count) || 0` of its answer is the
      store's count. */
  lemma ReadCount(db: Db, link: Link)
    ensures CallSpec(db, Get(CountKey), link).0 == db
    ensures CallSpec(db, Get(CountKey), link).1.Ok? <==> link.Delivered?
    ensures CallSpec(db, Get(CountKey), link).1.Ok? ==>
              ParseIntOrZero(JsString(CallSpec(db, Get(CountKey), link).1.value)) == CountOf(db)
  {
    if link.Delivered? {
      var reply := Apply(db, Get(CountKey)).1.result;
      assert CallSpec(db, Get(CountKey), link).1 == Ok(reply);
      if db.Live(CountKey) {
        assert JsString(reply) == db.entries[CountKey].value;
      } else {
        assert JsString(reply) == "null";
        ParseIntOfMissing();
      }
    }
  }

  /** `handleGet(env)`: one `GET count`; the value read is `parseInt(count) || 0`.
      The store is never changed, and the count comes back unless the
      call throws. */
  function GetSpec(db: Db, links: seq<Link>): (res: (Db, Result<int>))
    ensures res.0 == db
    ensures res.1.Ok? <==> LinkAt(links, 0).Delivered?
    ensures res.1.Ok? ==> res.1.value == CountOf(db)
  {
    var (db1, count) := CallSpec(db, Get(CountKey), LinkAt(links, 0));
    ReadCount(db, LinkAt(links, 0));
    (db1, if count.Err? then Err(count.error) else Ok(ParseIntOrZero(JsString(count.value))))
  }

  method HandleGet(store: Store, links: seq<Link>) returns (r: Result<int>)
    modifies store
    ensures (store.State(), r) == GetSpec(old(store.State()), links)
  {
    var count := Call(store, Get(CountKey), LinkAt(links, 0));
    if count.Err? {
      return Err(count.error);
    }
    r := Ok(ParseIntOrZero(JsString(count.value)));
  }

  /** The JSON body of POST /; a count that is `NaN` is `None` (written as
      `null`). */
  datatype PostReply = PostReply(count: Option<int>, voted: bool, message: string)

  /** `handlePost(request, env)` once the rate-limit key is derived: GET the
      key; if it is set, GET the count and report it; otherwise INCR the
      count, then SET the key with a 24-hour expiry, and report the
      incremented count. Any store call that throws ends the handler with
      that error. */
  function PostSpec(db: Db, key: string, links: seq<Link>): (res: (Db, Result<PostReply>))
  {
    var (db1, voted) := CallSpec(db, Get(key), LinkAt(links, 0));
    if voted.Err? then (db1, Err(voted.error))
    else if Truthy(voted.value) then
      var (db2, count) := CallSpec(db1, Get(CountKey), LinkAt(links, 1));
      if count.Err? then (db2, Err(count.error))
      else (db2, Ok(PostReply(Some(ParseIntOrZero(JsString(count.value))), true, AlreadyCounted)))
    else
      var (db2, count) := CallSpec(db1, Incr(CountKey), LinkAt(links, 1));
      if count.Err? then (db2, Err(count.error))
      else
        var (db3, marked) := CallSpec(db2, SetEx(key, "1", RateLimitSeconds), LinkAt(links, 2));
        if marked.Err? then (db3, Err(marked.error))
        else (db3, Ok(PostReply(ParseInt(JsString(count.value)), true, Counted)))
  }

  method HandlePost(store: Store, ipHeader: Option<string>, digest: Digest, links: seq<Link>)
    returns (r: Result<PostReply>)
    modifies store
    ensures (store.State(), r) == PostSpec(old(store.State()), VoteKey(digest, ipHeader), links)
  {
    var ip := ClientIp(ipHeader);
    var ipHash := HashIP(digest, ip);
    var key := "voted:" + ipHash;

    var voted := Call(store, Get(key), LinkAt(links, 0));
    if voted.Err? {
      return Err(voted.error);
    }
    if Truthy(voted.value) {
      var count := Call(store, Get(CountKey), LinkAt(links, 1));
      if count.Err? {
        return Err(count.error);
      }
      return Ok(PostReply(Some(ParseIntOrZero(JsString(count.value))), true, AlreadyCounted));
    }

    var count := Call(store, Incr(CountKey), LinkAt(links, 1));
    if count.Err? {
      return Err(count.error);
    }
    var marked := Call(store, SetEx(key, "1", RateLimitSeconds), LinkAt(links, 2));
    if marked.Err? {
      return Err(marked.error);
    }
    r := Ok(PostReply(ParseInt(JsString(count.value)), true, Counted));
  }

  /** The outcome of `handleHealth`: `status: 'ok'` or `status: 'degraded'`
      (with `error: 'Redis connection failed'`). */
  datatype Health = Healthy | Degraded

  /** `handleHealth(env)`: one PING; whatever it throws is caught and
      reported as degraded. */
  function HealthSpec(db: Db, links: seq<Link>): (res: (Db, Health))
    ensures res.0 == db
    ensures res.1 == Healthy <==> LinkAt(links, 0).Delivered?
  {
    var (db1, pong) := CallSpec(db, Ping, LinkAt(links, 0));
    (db1, if pong.Ok? then Healthy else Degraded)
  }

  method HandleHealth(store: Store, links: seq<Link>) returns (h: Health)
    modifies store
    ensures (store.State(), h) == HealthSpec(old(store.State()), links)
  {
    var pong := Call(store, Ping, LinkAt(links, 0));
    if pong.Ok? {
      h := Healthy;
    } else {
      h := Degraded;
    }
  }

  // -------------------------------------------------------------- router

  datatype Request = Request(verb: string, path: string, origin: Option<string>, clientIp: Option<string>)

  datatype Body =
    | NoBody
    | CountBody(count: int)
    | VoteBody(reply: PostReply)
    | HealthBody(health: Health)
    | ErrorBody(error: string)

  datatype Response = Response(status: int, body: Body, headers: Cors)

  datatype Route = Preflight | HealthCheck | Read | Increment | NotAllowed

  /** The order of the tests in `fetch`: OPTIONS first, then the `/health`
      path whatever the method, then GET and POST on any other path. */
  function RouteOf(verb: string, path: string): (r: Route)
    ensures r.Preflight? <==> verb == "OPTIONS"
    ensures r.HealthCheck? <==> verb != "OPTIONS" && path == "/health"
    ensures r.Read? <==> verb == "GET" && path != "/health"
    ensures r.Increment? <==> verb == "POST" && path != "/health"
    ensures r.NotAllowed? <==> verb !in {"OPTIONS", "GET", "POST"} && path != "/health"
  {
    if verb == "OPTIONS" then Preflight
    else if path == "/health" then HealthCheck
    else if verb == "GET" then Read
    else if verb == "POST" then Increment
    else NotAllowed
  }

  /** What a handler did: returned a result body or threw. */
  datatype Outcome = Returned(body: Body) | Threw(message: string)

  /** The response `fetch` builds for a route once its handler is done. */
  function Respond(route: Route, outcome: Outcome, cors: Cors): (resp: Response)
    ensures resp.headers == cors
    ensures resp.status in {200, 405, 500, 503}
    ensures route.Preflight? ==> resp == Response(200, NoBody, cors)
    ensures route.NotAllowed? ==> resp == Response(405, ErrorBody("Method not allowed"), cors)
    ensures resp.status == 500 <==> (route.HealthCheck? || route.Read? || route.Increment?) && outcome.Threw?
    ensures resp.status == 500 ==> resp.body == ErrorBody("Internal error")
    ensures resp.status == 503 ==> route.HealthCheck?
    ensures route.HealthCheck? && outcome.Returned? ==>
              (resp.status == 200 <==> outcome.body == HealthBody(Healthy))
    ensures (route.HealthCheck? || route.Read? || route.Increment?) && outcome.Returned? ==>
              resp.body == outcome.body
  {
    match route
    case Preflight => Response(200, NoBody, cors)
    case NotAllowed => Response(405, ErrorBody("Method not allowed"), cors)
    case _ =>
      match outcome
      case Threw(_) => Response(500, ErrorBody("Internal error"), cors)
      case Returned(b) =>
        Response(if route.HealthCheck? && b != HealthBody(Healthy) then 503 else 200, b, cors)
  }

  /** `fetch(request, env)`: the store's new state and the response. */
  function FetchSpec(db: Db, req: Request, digest: Digest, links: seq<Link>): (res: (Db, Response))
    ensures !RouteOf(req.verb, req.path).Increment? ==> res.0 == db
  {
    var cors := CorsHeaders(req.origin);
    var route := RouteOf(req.verb, req.path);
    match route
    case Preflight => (db, Respond(route, Returned(NoBody), cors))
    case NotAllowed => (db, Respond(route, Returned(NoBody), cors))
    case HealthCheck =>
      var (db1, h) := HealthSpec(db, links);
      (db1, Respond(route, Returned(HealthBody(h)), cors))
    case Read =>
      var (db1, r) := GetSpec(db, links);
      (db1, Respond(route, if r.Ok? then Returned(CountBody(r.value)) else Threw(r.error), cors))
    case Increment =>
      var (db1, r) := PostSpec(db, VoteKey(digest, req.clientIp), links);
      (db1, Respond(route, if r.Ok? then Returned(VoteBody(r.value)) else Threw(r.error), cors))
  }

  method Fetch(store: Store, req: Request, digest: Digest, links: seq<Link>) returns (resp: Response)
    modifies store
    ensures (store.State(), resp) == FetchSpec(old(store.State()), req, digest, links)
  {
    var cors := CorsHeaders(req.origin);
    if req.verb == "OPTIONS" {
      return Response(200, NoBody, cors);
    }
    if req.path == "/health" {
      var h := HandleHealth(store, links);
      return Response(if h == Healthy then 200 else 503, HealthBody(h), cors);
    }
    var result: Result<Body>;
    if req.verb == "GET" {
      var r := HandleGet(store, links);
      result := if r.Ok? then Ok(CountBody(r.value)) else Err(r.error);
    } else if req.verb == "POST" {
      var r := HandlePost(store, req.clientIp, digest, links);
      result := if r.Ok? then Ok(VoteBody(r.value)) else Err(r.error);
    } else {
      return Response(405, ErrorBody("Method not allowed"), cors);
    }
    if result.Err? {
      return Response(500, ErrorBody("Internal error"), cors);
    }
    resp := Response(200, result.value, cors);
  }
}

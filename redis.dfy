/** The key-value backend: the Redis commands the counter function sends to
    Upstash over REST (GET, INCR, SET … EX, PING), the JSON envelope Upstash
    answers with, and the `redis(env, command)` helper of
    workers/counter.js that turns an error envelope into a thrown error. */
module Redis {
  import opened Base
  import opened JsParse

  const Int64Max: int := 0x7FFF_FFFF_FFFF_FFFF
  const Int64Min: int := -0x8000_0000_0000_0000

  /** Error replies of Redis for the commands used here. */
  const NotAnInteger := "ERR value is not an integer or out of range"
  const WouldOverflow := "ERR increment or decrement would overflow"
  const InvalidExpire := "ERR invalid expire time in 'set' command"
  /** The message of the error `fetch` or `response.json()` rejects with. */
  const NetworkError := "fetch failed"

  /** A stored string and the instant (in milliseconds of the store's clock)
      after which it no longer exists, if it has one. */
  datatype Entry = Entry(value: string, expiresAt: Option<int>)

  /** The store's data and its clock. */
  datatype Db = Db(entries: map<string, Entry>, clock: int) {
    /** The key exists and has not expired (Redis keeps a key alive up to
        and including its expiry instant). */
    predicate Live(key: string) {
      key in entries && (entries[key].expiresAt.None? || clock <= entries[key].expiresAt.value)
    }

    /** What `GET key` sees. */
    function Value(key: string): Option<string> {
      if Live(key) then Some(entries[key].value) else None
    }
  }

  datatype Command =
    | Get(key: string)
    | Incr(key: string)
    | SetEx(key: string, value: string, seconds: int)   // SET key value EX seconds
    | Ping

  /** The JSON value in an envelope's `result` field, as JavaScript sees it
      after `response.json()`: absent (`undefined`), `null`, a string or a
      number. */
  datatype Reply = Missing | Null | Bulk(s: string) | Integer(n: int)

  /** `{result}` or `{error}` */
  datatype Envelope = Envelope(result: Reply, error: Option<string>)

  function Failed(message: string): Envelope {
    Envelope(Missing, Some(message))
  }

  /** `String(x)` of a reply value. */
  function JsString(r: Reply): string {
    match r
    case Missing => "undefined"
    case Null => "null"
    case Bulk(s) => s
    case Integer(n) => IntToString(n)
  }

  /** JavaScript truthiness of a reply value. */
  predicate Truthy(r: Reply) {
    match r
    case Missing => false
    case Null => false
    case Bulk(s) => s != ""
    case Integer(n) => n != 0
  }

  /** How Redis reads a stored string as a 64-bit integer: an optional
      minus sign and decimal digits without a leading zero (or "0" alone),
      within the signed 64-bit range. */
  function ParseRedisInt(s: string): Option<int> {
    if s == "0" then Some(0)
    else
      var negative := s != [] && s[0] == '-';
      var d := if negative then s[1..] else s;
      if d == [] || d[0] == '0' || !AllDigits(d) then None
      else
        var v: int := DecimalValue(d);
        var n := if negative then -v else v;
        if Int64Min <= n <= Int64Max then Some(n) else None
  }

  /** What the store does with one command: its new state and its reply. */
  function Apply(db: Db, cmd: Command): (res: (Db, Envelope))
    ensures res.0.clock == db.clock
    ensures cmd.Get? || cmd.Ping? ==> res.0 == db
    ensures !cmd.Ping? ==> forall k :: k != cmd.key ==> res.0.Value(k) == db.Value(k)
    ensures res.1.error.Some? ==> res.0 == db && res.1.result.Missing?
  {
    match cmd
    case Ping => (db, Envelope(Bulk("PONG"), None))
    case Get(k) => (db, Envelope(if db.Live(k) then Bulk(db.entries[k].value) else Null, None))
    case Incr(k) =>
      var n := if db.Live(k) then ParseRedisInt(db.entries[k].value) else Some(0);
      if n.None? then (db, Failed(NotAnInteger))
      else if n.value == Int64Max then (db, Failed(WouldOverflow))
      else
        var expiry := if db.Live(k) then db.entries[k].expiresAt else None;
        (db.(entries := db.entries[k := Entry(IntToString(n.value + 1), expiry)]),
         Envelope(Integer(n.value + 1), None))
    case SetEx(k, v, seconds) =>
      if seconds <= 0 then (db, Failed(InvalidExpire))
      else (db.(entries := db.entries[k := Entry(v, Some(db.clock + seconds * 1000))]),
            Envelope(Bulk("OK"), None))
  }

  /** `redis()` after `response.json()`: an error field that is truthy (a
      non-empty string) is thrown, anything else gives back `result`. */
  function Unwrap(e: Envelope): (r: Result<Reply>)
    ensures r.Err? <==> e.error.Some? && e.error.value != ""
    ensures r.Err? ==> r.error == e.error.value
    ensures r.Ok? ==> r.value == e.result
  {
    if e.error.Some? && e.error.value != "" then Err(e.error.value) else Ok(e.result)
  }

  /** What became of one HTTP exchange with the store: it was answered; the
      request never reached the store; the store executed the command but
      the answer was lost (so `fetch` or `json()` rejected); or the REST
      front end refused it with an error envelope without running it (a bad
      token, say). */
  datatype Link = Delivered | Unreachable | ReplyLost | Rejected(message: ErrorText)

  /** The message of an error envelope the REST front end sends. */
  type ErrorText = s: string | s != "" witness "ERR"


  /** The k-th store call of a request meets `links[k]`; calls past the end
      of `links` are delivered. */
  function LinkAt(links: seq<Link>, k: nat): Link {
    if k < |links| then links[k] else Delivered
  }

  /** One `redis(env, command)` call over a link: the store's new state and
      what the call returns or throws. */
  function CallSpec(db: Db, cmd: Command, link: Link): (res: (Db, Result<Reply>))
    ensures res.0.clock == db.clock
    ensures link.Unreachable? || link.Rejected? ==> res.0 == db
    ensures link.Delivered? || link.ReplyLost? ==> res.0 == Apply(db, cmd).0
    ensures link.Delivered? ==> res.1 == Unwrap(Apply(db, cmd).1)
    ensures link.Unreachable? || link.ReplyLost? ==> res.1 == Err(NetworkError)
  {
    match link
    case Unreachable => (db, Err(NetworkError))
    case Rejected(m) => (db, Unwrap(Failed(m)))
    case ReplyLost => (Apply(db, cmd).0, Err(NetworkError))
    case Delivered => var (next, env) := Apply(db, cmd); (next, Unwrap(env))
  }

  /** The Upstash database, seen as an object whose contents change under
      the commands it is sent. */
  class Store {
    var entries: map<string, Entry>
    var clock: int

    constructor (entries: map<string, Entry>, clock: int)
      ensures this.entries == entries && this.clock == clock
    {
      this.entries := entries;
      this.clock := clock;
    }

    function State(): Db
      reads this
    {
      Db(entries, clock)
    }

    /** The store runs one command. */
    method Execute(cmd: Command) returns (env: Envelope)
      modifies this
      ensures (State(), env) == Apply(old(State()), cmd)
    {
      var db := State();
      match cmd {
        case Ping =>
          env := Envelope(Bulk("PONG"), None);
        case Get(k) =>
          env := Envelope(if db.Live(k) then Bulk(entries[k].value) else Null, None);
        case Incr(k) =>
          var n := if db.Live(k) then ParseRedisInt(entries[k].value) else Some(0);
          if n.None? {
            env := Failed(NotAnInteger);
          } else if n.value == Int64Max {
            env := Failed(WouldOverflow);
          } else {
            var expiry := if db.Live(k) then entries[k].expiresAt else None;
            entries := entries[k := Entry(IntToString(n.value + 1), expiry)];
            env := Envelope(Integer(n.value + 1), None);
          }
        case SetEx(k, v, seconds) =>
          if seconds <= 0 {
            env := Failed(InvalidExpire);
          } else {
            entries := entries[k := Entry(v, Some(clock + seconds * 1000))];
            env := Envelope(Bulk("OK"), None);
          }
      }
    }

    /** Time passes at the store. */
    method Tick(ms: nat)
      modifies this
      ensures entries == old(entries) && clock == old(clock) + ms
    {
      clock := clock + ms;
    }
  }

  /** `redis(env, command)`: one exchange with the store over `link`. */
  method Call(store: Store, cmd: Command, link: Link) returns (r: Result<Reply>)
    modifies store
    ensures (store.State(), r) == CallSpec(old(store.State()), cmd, link)
  {
    if link.Unreachable? {
      return Err(NetworkError);
    }
    var env: Envelope;
    if link.Rejected? {
      env := Failed(link.message);
    } else {
      env := store.Execute(cmd);
      if link.ReplyLost? {
        return Err(NetworkError);
      }
    }
    r := Unwrap(env);
  }

  // Properties of the store's integer handling.

  /** A non-empty digit string that does not start with '0' denotes a
      positive number. */
  lemma {:induction false} DecimalValuePositive(d: string)
    requires d != [] && d[0] != '0'
    requires forall k :: 0 <= k < |d| ==> IsDigit(d[k])
    ensures DecimalValue(d) >= 1
    ensures |d| >= 2 ==> DecimalValue(d) >= 10
  {
    if |d| >= 2 {
      DecimalValuePositive(d[..|d| - 1]);
    }
  }

  /** Such a digit string is the decimal rendering of its value. */
  lemma {:induction false} NatToStringOfDecimalValue(d: string)
    requires d != [] && d[0] != '0'
    requires forall k :: 0 <= k < |d| ==> IsDigit(d[k])
    ensures NatToString(DecimalValue(d)) == d
    decreases |d|
  {
    DecimalValuePositive(d);
    var v := DecimalValue(d);
    if |d| == 1 {
      assert d[..0] == [];
      assert v == d[0] as int - '0' as int && d == [DigitChar(v)];
    } else {
      var front, last := d[..|d| - 1], d[|d| - 1] as int - '0' as int;
      assert front[0] == d[0];
      NatToStringOfDecimalValue(front);
      assert v == DecimalValue(front) * 10 + last && 0 <= last < 10;
      assert v / 10 == DecimalValue(front) && v % 10 == last;
      assert d == front + [DigitChar(last)];
    }
  }

  /** Redis reads exactly the canonical decimal renderings of 64-bit
      integers as integers, and reads each as the number it renders. */
  lemma ParseRedisIntCanonical(s: string, n: int)
    ensures ParseRedisInt(s) == Some(n) <==> s == IntToString(n) && Int64Min <= n <= Int64Max
  {
    if s == IntToString(n) && Int64Min <= n <= Int64Max {
      var m: nat := if n < 0 then -n else n;
      DecimalValueOfNatToString(m);
      if n < 0 {
        assert s[1..] == NatToString(m);
      }
    }
    if ParseRedisInt(s) == Some(n) && s != "0" {
      var negative := s != [] && s[0] == '-';
      var d := if negative then s[1..] else s;
      assert d != [] && d[0] != '0' && AllDigits(d);
      NatToStringOfDecimalValue(d);
      if negative {
        assert s == "-" + d;
      }
    }
  }

  /** INCR on a missing (or expired) key, or on the rendering of a 64-bit
      integer below the maximum, stores the rendering of the next integer
      and answers with it; nothing else changes. */
  lemma IncrNext(db: Db, k: string, n: int)
    requires Int64Min <= n < Int64Max
    requires (db.Value(k) == None && n == 0) || db.Value(k) == Some(IntToString(n))
    ensures Apply(db, Incr(k)).1 == Envelope(Integer(n + 1), None)
    ensures Apply(db, Incr(k)).0.Value(k) == Some(IntToString(n + 1))
  {
    if db.Live(k) {
      ParseRedisIntCanonical(db.entries[k].value, n);
    }
  }
}

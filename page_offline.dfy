/** The vote widget's requests as the site's own service worker answers
    them. The widget's API address is on a `workers.dev` host, so every
    request it sends takes the worker's network-first branch, where a
    failed fetch becomes a status-200 zero count flagged offline instead
    of a rejection. */
module PageOffline {
  import opened Base
  import opened ServiceWorker
  import opened VoteWidget

  /** The counter API's address in docs/assets/js/counter.js. */
  const ApiUrl := Url("1mb-counter.vmx-builds.workers.dev", "/")

  /** `(await res.json()).count` for a response body: `None` when
      `res.json()` rejects, `Some(None)` when the body carries no count.
      JSON parsing itself is a parameter. */
  type JsonCount = string -> Option<Option<int>>

  /** The reader gives `count: 0` for the worker's offline body, as
      `JSON.parse` does. */
  predicate ReadsOfflineBody(json: JsonCount) {
    json(OfflineBody) == Some(Some(0))
  }

  /** What the widget's `try` block hands on once `fetch` and `res.json()`
      have settled: a rejection when the page got no response or the body
      could not be read, the count otherwise. */
  function Answer(resp: Option<Response>, json: JsonCount): (a: Result<Option<int>>)
    ensures a.Ok? <==> resp.Some? && json(resp.value.body).Some?
    ensures a.Ok? ==> a.value == json(resp.value.body).value
  {
    if resp.None? then Err("Failed to fetch")
    else match json(resp.value.body)
      case None => Err("Unexpected token")
      case Some(count) => Ok(count)
  }

  /** The widget's address is the service worker's counter API. */
  lemma ApiIsNetworkFirst()
    ensures Classify(ApiUrl).NetworkFirst?
  {
    assert OccursAt(ApiUrl.hostname, ApiHost, 23);
  }

  /** Through the service worker, the widget's requests always get a
      response and never touch the caches: the dash and 'error' are then
      reached only through a body `res.json()` cannot read. */
  lemma ApiAnswerArrives(c: Caches, net: Network, verb: string, json: JsonCount)
    ensures var (c', resp, _) := HandleSpec(c, net, Request(verb, ApiUrl));
            && c' == c && resp.Some?
            && (Answer(resp, json).Err? <==> json(resp.value.body).None?)
  {
    ApiIsNetworkFirst();
  }

  /** Offline, the count element shows 'none yet' instead of the dash. */
  lemma OfflineCountShown(c: Caches, net: Network, json: JsonCount)
    requires net(Request("GET", ApiUrl)).NetworkFailure? && ReadsOfflineBody(json)
    ensures ShownCount(Answer(HandleSpec(c, net, Request("GET", ApiUrl)).1, json)) == "none yet"
  {
    ApiIsNetworkFirst();
    FormatCountWords();
  }

  /** Offline, a vote settles as counted although nothing reached the
      counter: the flag is set for good, the button is spent, and the count
      element shows 'none yet'. */
  method VoteOffline(w: Widget, c: Caches, net: Network, json: JsonCount)
    requires w.Valid() && w.pending
    requires net(Request("POST", ApiUrl)).NetworkFailure? && ReadsOfflineBody(json)
    modifies w
    ensures w.Valid() && !w.pending
    ensures w.flag == Some(FlagSet) && w.disabled && w.buttonText == Counted && w.votedClass
    ensures w.display == "none yet"
  {
    ApiIsNetworkFirst();
    FormatCountWords();
    var resp := HandleSpec(c, net, Request("POST", ApiUrl)).1;
    w.VoteSettled(Answer(resp, json));
  }
}

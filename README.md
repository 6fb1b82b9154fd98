# 1mb.dev presence counter — a Dafny model

This project models the logic of the 1mb.dev site and proves properties of it:

- the Cloudflare counter worker: CORS, the hashed rate-limit key, the GET, POST and health handlers against Upstash Redis, and the router;
- the service worker's offline cache;
- the vote widget and the theme toggle on the page;
- the build step that stamps the cache version into the service worker.

The Redis database is a class holding keys with expiry stamps and a clock. Each handler is a method over it that is proved equal to a function of the database's state (`GetSpec`, `PostSpec`, `HealthSpec`, `FetchSpec`). What the service promises is then proved about those functions:
- a vote counts once per 24-hour window;
- the count moves by at most one per request;
- a failed rate-limit write leaves a counted vote with no mark, so the address can vote again;
- the router's status codes.

Each store call meets a `Link`. The call is delivered, never reaches the store, runs but loses its reply, or is refused with an error envelope. So every failure path of the handlers is modelled.

CacheStorage is likewise a class holding generation names in creation order and their entries. Install, activate and the fetch handler are methods, proved against `InstallSpec`, `ActivateSpec` and `HandleSpec`.

Modules:
- `Base`: options, results and decimal rendering.
- `JsParse`: JavaScript's `parseInt`.
- `Redis`: commands, envelopes, the `redis()` helper and the store class.
- `Identity`: `hashIP`.
- `CounterService` and `CounterProperties`: the worker.
- `ServiceWorker` and `ServiceWorkerProperties`: docs/sw.js.
- `VoteWidget`: docs/assets/js/counter.js.
- `PageOffline`: the widget's requests as the service worker answers them.
- `Theme`: docs/assets/js/theme.js.
- `BuildStamp`: the `content.replace` of scripts/build.js.

JavaScript semantics the source relies on are written out:
- `parseInt` (white space, sign, `0x` prefix, longest digit prefix, `NaN`);
- `x || fallback` and truthiness of stored values;
- `String(x)` of a reply;
- `toLocaleString` with en-US grouping;
- the `$` patterns of `String.prototype.replace` (GetSubstitution, section 22.1.3.19.1 of ECMA-262).

## Model

| member | source | states |
|---|---|---|
| JsParse.ParseInt | workers/counter.js:87 | `parseInt(s)` as a function of the text: leading white space is skipped, one sign is read, a `0x` prefix switches to radix 16, the longest run of digits is the number (exact, without JavaScript's rounding beyond 2^53), and `NaN` (none) when no digit follows |
| JsParse.ParseIntOrZero | workers/counter.js:87 | `parseInt(s) \|\| 0`: `NaN` becomes 0, any number read is kept |
| JsParse.ParseIntOfIntToString | workers/counter.js:115 | the decimal rendering of every integer parses back to that integer, so an INCR reply up to 2^53 is reported as it is (beyond 2^53 JavaScript's `parseInt` rounds, which the model does not) |
| JsParse.ParseIntOfMissing | workers/counter.js:87 | `parseInt` of `String(null)` and `String(undefined)` is `NaN`, so an absent count reads as 0 |
| Redis.JsString | workers/counter.js:87 | `String(x)` of a reply as `parseInt` sees it: `undefined`, `null`, the stored string itself, or the decimal rendering of an integer reply |
| Redis.Truthy | workers/counter.js:102 | the `if (hasVoted)` test: a missing or `null` reply, the empty string and the integer 0 are false, every other reply is true |
| Redis.Apply | workers/counter.js:100-112 | the store's effect of GET, INCR, SET EX and PING: the clock never moves, GET and PING change nothing, a command changes no key but its own, and an error reply changes nothing |
| Redis.Unwrap | workers/counter.js:79-81 | `redis()` throws exactly when the envelope's `error` is a non-empty string, with that message, and otherwise returns `result` unchanged |
| Redis.CallSpec | workers/counter.js:69-82 | one store call over a link: an unreachable or refused call changes nothing, a lost reply still applies the command, and only a delivered call returns the unwrapped reply |
| Redis.Call | workers/counter.js:69-82 | the `redis()` method changes the store and returns exactly as `CallSpec` says |
| Redis.Store.Execute | workers/counter.js:70-77 | the store's new state and reply are those of `Apply` |
| Redis.Store.Tick | workers/counter.js:112 | time passes at the store: the clock moves on and no entry changes |
| Redis.ParseRedisIntCanonical | workers/counter.js:109 | Redis reads a stored string as integer `n` exactly when it is the decimal rendering of a 64-bit `n` |
| Redis.IncrNext | workers/counter.js:109 | INCR on an absent count or on the rendering of `n` below the 64-bit maximum stores and returns `n + 1` |
| Identity.ByteToHex | workers/counter.js:65 | `b.toString(16).padStart(2, '0')` is the high nibble's digit followed by the low nibble's |
| Identity.HexJoin | workers/counter.js:65 | the joined rendering has two lower-case hex characters per byte |
| Identity.HexDecodeJoin | workers/counter.js:65 | the hex rendering reads back to the same bytes, so it loses nothing |
| Identity.HashIP | workers/counter.js:60-66 | `hashIP(ip)` as a function of the digest: the digest of `ip + '_1mb_salt_2024'`, its first 8 bytes, each rendered as two hex digits, joined |
| Identity.HashIPShape | workers/counter.js:60-66 | for a 32-byte digest, `hashIP` has exactly 16 lower-case hex characters, which spell the first 8 bytes of the digest of `ip + '_1mb_salt_2024'` |
| Identity.HashIPSeparates | workers/counter.js:60-66 | addresses whose salted digests differ in their first 8 bytes get different hashes |
| CounterService.HeaderOr | workers/counter.js:48 | `header \|\| fallback`: a missing or empty header gives the fallback, any other gives the header |
| CounterService.CorsHeaders | workers/counter.js:47-57 | Allow-Origin echoes the Origin exactly when it starts with one of the three allowed prefixes, otherwise it is `https://1mb.dev`; the other headers are the fixed constants |
| CounterService.ClientIp | workers/counter.js:95 | the client address is never empty: it is the header's value when that is non-empty, and `unknown` when the header is missing or empty |
| CounterService.RateLimitKey | workers/counter.js:97 | the rate-limit key `voted:<hash>` is never the count's key |
| CounterService.VoteKey | workers/counter.js:95-97 | requests without the address header (or with an empty one) all share the key of `unknown` |
| CounterService.CountOf | workers/counter.js:87 | the count a store holds as `handleGet` reads it: 0 when the key is absent, otherwise `parseInt(value) \|\| 0` of the stored string |
| CounterService.ReadCount | workers/counter.js:86-87 | `GET count` changes nothing, succeeds exactly on a delivered link, and `parseInt(count) \|\| 0` of its reply is the store's count |
| CounterService.GetSpec | workers/counter.js:85-90 | the read never changes the store; it succeeds exactly when its call is delivered, with the count (0 when absent or not a number) |
| CounterService.HandleGet | workers/counter.js:85-90 | the handler changes the store and returns exactly as `GetSpec` says |
| CounterService.PostSpec | workers/counter.js:99-115 | `handlePost` once the key is known: GET the key; if truthy, GET the count and report it with `Already counted`; otherwise INCR, then SET the key to `1` for 86400 seconds, and report `parseInt` of the INCR reply with `Counted`; the first call that throws ends it with that error and keeps what earlier calls did |
| CounterService.HandlePost | workers/counter.js:93-116 | the handler derives the key from the address header and changes the store and returns exactly as `PostSpec` says |
| CounterService.HealthSpec | workers/counter.js:119-147 | the health check never changes the store, and is healthy exactly when its PING is delivered |
| CounterService.HandleHealth | workers/counter.js:119-147 | the handler changes the store and returns exactly as `HealthSpec` says |
| CounterService.RouteOf | workers/counter.js:171-201 | OPTIONS first; then `/health` for every other method; then GET reads and POST increments on any other path; everything else is not allowed |
| CounterService.Respond | workers/counter.js:171-215 | the status is 200, 405, 500 or 503; 500 (with only `Internal error`) exactly when a handler threw; 503 only on `/health`, where 200 means healthy; 405 with `Method not allowed` |
| CounterService.FetchSpec | workers/counter.js:164-216 | only a POST can change the store |
| CounterService.Fetch | workers/counter.js:164-216 | `fetch` changes the store and responds exactly as `FetchSpec` says |
| CounterProperties.CountOfCountIs | workers/counter.js:87 | a count kept in INCR's form is read back as that count |
| CounterProperties.ReadVoted | workers/counter.js:100-102 | the GET of the key succeeds on the store and is truthy exactly when the address has voted |
| CounterProperties.PostWhenVoted | workers/counter.js:102-106 | an address that has voted changes nothing whatever the links do, and any success reports the current count with `Already counted` |
| CounterProperties.CountingCalls | workers/counter.js:109-112 | INCR turns count `n` into `n + 1` and leaves the key alone; SET then marks the key `1` for 86400 seconds and changes nothing else |
| CounterProperties.PostPath | workers/counter.js:100-115 | for an address that has not voted, with its three calls delivered and the INCR and the SET succeeding, the handler's result is the INCR then the SET, with the incremented count and `Counted` |
| CounterProperties.PostCounts | workers/counter.js:108-115 | a new address with every call delivered: count `n` becomes `n + 1`, the key is marked for 24 hours, nothing else changes, and the reply is `n + 1` with `Counted` |
| CounterProperties.PostMarkFails | workers/counter.js:109-112 | when the SET does not reach the store, the request fails but the count has moved and the address is still unmarked |
| CounterProperties.PostStates | workers/counter.js:100-115 | a POST from a new address leaves the store unchanged, only incremented, or incremented and marked |
| CounterProperties.PostEffect | workers/counter.js:93-116 | whatever the links do: the count ends at `n` or `n + 1`, a voted address changes nothing, the key only changes to `1` together with the increment, and no other key changes |
| CounterProperties.MarkedAfter | workers/counter.js:99-112 | after a counted vote and any wait the count still holds `n + 1`, and the address is marked exactly while the wait is at most 24 hours |
| CounterProperties.PostTwice | workers/counter.js:99-106 | a second vote within 24 hours changes nothing and reports the count the first one produced |
| CounterProperties.PostAfterWindow | workers/counter.js:112 | more than 24 hours later the mark has expired and the same address counts again |
| CounterProperties.VoteTwice | workers/counter.js:93-116 | two votes from one client through the store, some time apart: the first counts; the second reports the same count within 24 hours and counts again after them |
| CounterProperties.VotedCountsOnce | workers/counter.js:108-112 | a delivered POST from an address that has not voted raises the count by one and leaves every other address's key alone |
| CounterProperties.VoteEachCounts | workers/counter.js:93-116 | any step that counts an address once, run for fresh keys of distinct addresses, raises the count by exactly their number |
| CounterProperties.PostAllCounts | workers/counter.js:108-115 | one vote from each of several new addresses with distinct keys raises the count by exactly their number |
| CounterProperties.FetchRead | workers/counter.js:191-207 | GET on any path but `/health` leaves the store alone and answers 200 with the count, or 500 when the read fails |
| CounterProperties.FetchHealth | workers/counter.js:180-188 | `/health` with any method but OPTIONS changes nothing and answers 200 exactly when the PING is delivered, 503 otherwise, never 500 |
| CounterProperties.FetchPost | workers/counter.js:193-209 | a POST answers 200 with the handler's body exactly when the handler succeeds, and 500 with `Internal error` otherwise |
| CounterProperties.FetchHeaders | workers/counter.js:167-215 | every response carries the CORS headers chosen from the Origin, and its status is 200, 405, 500 or 503 |
| ServiceWorker.Without | docs/sw.js:39 | deleting a name keeps exactly the other names, and keeps them distinct |
| ServiceWorker.WithoutKeepsOrder | docs/sw.js:37-39 | the names left after a deletion keep their creation order: any two occur in the original list in the same order |
| ServiceWorker.Caches.Opened | docs/sw.js:27 | `caches.open(name)`: afterwards the generation exists; an existing one is left as it was, a new one is empty and added last |
| ServiceWorker.Caches.Stored | docs/sw.js:28 | entries written into an open generation: the names keep their order, other generations are untouched, the written URLs hold the new responses and every other URL keeps its entry |
| ServiceWorker.Caches.Deleted | docs/sw.js:39 | `caches.delete(name)`: the name and its entries are gone and every other generation is kept as it was |
| ServiceWorker.FirstHit | docs/sw.js:84 | the answer is the entry of the first generation holding the URL, and none exactly when no generation holds it |
| ServiceWorker.Caches.Matching | docs/sw.js:84 | only GET requests match; with `CACHE_NAME` alone, a stored URL answers with its entry |
| ServiceWorker.CacheStorage.Match | docs/sw.js:84 | the loop over the generations returns what `Matching` says |
| ServiceWorker.CacheStorage.Keys | docs/sw.js:36 | `caches.keys()` returns the generation names in creation order |
| ServiceWorker.CacheStorage.Open | docs/sw.js:27 | the object's caches become `Opened(name)` of the old ones |
| ServiceWorker.CacheStorage.Store | docs/sw.js:28 | the object's caches become `Stored(name, entries)` of the old ones |
| ServiceWorker.CacheStorage.Delete | docs/sw.js:39 | the object's caches become `Deleted(name)` of the old ones |
| ServiceWorker.PutSpec | docs/sw.js:95-96 | the put opens `CACHE_NAME`, stores the response under a GET's URL, and changes no other entry and no other generation |
| ServiceWorker.FetchAll | docs/sw.js:28 | `addAll` succeeds exactly when every asset's fetch gives an ok (2xx) response other than 206, and then holds each response under its URL |
| ServiceWorker.InstallSpec | docs/sw.js:25-31 | the install handler as a function of the caches and the network: `CACHE_NAME` is opened; when `FetchAll` of the manifest succeeds its entries are stored and install reports success, otherwise nothing more is written and install reports failure |
| ServiceWorker.Install | docs/sw.js:25-31 | install changes the caches and reports success exactly as `InstallSpec` says |
| ServiceWorker.ActivateSpec | docs/sw.js:34-43 | after activation only `CACHE_NAME` is left, with its entries unchanged |
| ServiceWorker.TrimmedDrop | docs/sw.js:38-39 | one turn of the activate loop deletes a key other than `CACHE_NAME` |
| ServiceWorker.TrimmedKeep | docs/sw.js:38 | one turn of the activate loop keeps `CACHE_NAME` |
| ServiceWorker.Activate | docs/sw.js:34-43 | the loop over `caches.keys()` leaves the caches as `ActivateSpec` says |
| ServiceWorker.Classify | docs/sw.js:50-61 | a host containing `workers.dev` is network-first even for a font path; otherwise a path containing `/assets/fonts/` is stale-while-revalidate; everything else is cache-first |
| ServiceWorker.Put | docs/sw.js:95-96 | the put changes the caches as `PutSpec` says |
| ServiceWorker.HandleSpec | docs/sw.js:46-102 | the fetch handler as a function of the caches, the network and the request: network-first answers the network's response or the offline body; stale-while-revalidate answers the cached entry or else the network's, and stores a 200; cache-first answers a hit without the network, and on a miss passes the network's answer on and stores only a 200 |
| ServiceWorker.HandleFetch | docs/sw.js:46-102 | the fetch handler changes the caches, responds and uses the network exactly as `HandleSpec` says |
| ServiceWorkerProperties.ApiBypassesCache | docs/sw.js:50-58 | the API never reads or writes the cache, and a failed fetch becomes `{count:0, offline:true}` with status 200 |
| ServiceWorkerProperties.CacheFirstHit | docs/sw.js:84-86 | a cache-first hit is answered from the cache, without the network and without a change |
| ServiceWorkerProperties.CacheFirstMiss | docs/sw.js:88-98 | on a cache-first miss the network's answer is passed on, and only a status-200 answer is stored |
| ServiceWorkerProperties.CachedAfterMiss | docs/sw.js:83-101 | a GET that missed and was fetched with status 200 is answered from the cache next time, without the network |
| ServiceWorkerProperties.StaleWhileRevalidateServes | docs/sw.js:61-79 | a cached font is the response even when the network has a newer one; otherwise the network's answer is; the cache is refreshed only with status 200 |
| ServiceWorkerProperties.PutOnly200 | docs/sw.js:91-96 | storing a status-200 response writes nothing else and keeps `CACHE_NAME` all-ok |
| ServiceWorkerProperties.HandleStoresOnly200 | docs/sw.js:46-102 | handling any request keeps the caches well formed, leaves other generations alone, and writes only status-200 responses into `CACHE_NAME` |
| ServiceWorkerProperties.InstallAtomic | docs/sw.js:25-31 | install stores every asset of the manifest exactly when every fetch gives an ok response other than 206, and otherwise leaves the entries of `CACHE_NAME` as they were |
| ServiceWorkerProperties.InstallRefusesPartial | docs/sw.js:28 | a network answering with partial content (206) makes the install fail and stores nothing |
| ServiceWorkerProperties.InstalledAssetsServed | docs/sw.js:25-101 | after install and activate, every asset of the manifest is served as installed, and the static ones without the network |
| ServiceWorkerProperties.ActivateIdempotent | docs/sw.js:34-43 | activating twice is activating once |
| VoteWidget.GroupDigits | docs/assets/js/counter.js:24 | the grouping of a non-empty digit string is non-empty and starts with its first digit |
| VoteWidget.GroupDigitsCommas | docs/assets/js/counter.js:24 | en-US grouping of `d` digits adds `(d - 1) / 3` commas, and a character is a comma exactly when its distance from the end is a multiple of four: a comma before every group of three digits counted from the right |
| VoteWidget.Grouped | docs/assets/js/counter.js:24 | en-US `toLocaleString` is non-empty and starts with `-` exactly for a negative number |
| VoteWidget.UngroupCount | docs/assets/js/counter.js:24 | the grouped rendering without its commas is the plain decimal rendering |
| VoteWidget.FormatCount | docs/assets/js/counter.js:21-25 | the wording fails (the call throws) exactly when there is no count |
| VoteWidget.FormatCountInjective | docs/assets/js/counter.js:21-25 | different counts are worded differently |
| VoteWidget.FormatCountWords | docs/assets/js/counter.js:21-25 | 0 is `none yet`, 1 is `1 other`, 2 is `2 others`, and a missing count throws |
| VoteWidget.FormatCountGrouping | docs/assets/js/counter.js:24 | 1000 is `1,000 others` and -1500 is `-1,500 others` |
| VoteWidget.ShownCount | docs/assets/js/counter.js:28-36 | the count element shows the wording of the count read, or `—` when the request or the wording fails |
| VoteWidget.Widget.constructor | docs/assets/js/counter.js:66-70 | the flag read at load decides the button: disabled with `counted` and the `voted` class, or enabled with the page's label |
| VoteWidget.Widget.ShowCount | docs/assets/js/counter.js:28-36 | `fetchCount` changes only the count element, to what `ShownCount` says |
| VoteWidget.Widget.MarkAsVoted | docs/assets/js/counter.js:58-63 | the flag becomes `true` and the button is disabled with `counted` and the `voted` class |
| VoteWidget.Widget.Vote | docs/assets/js/counter.js:39-44 | a request goes out exactly when no vote was remembered at load and the button is enabled, so never while one is pending; otherwise nothing changes |
| VoteWidget.Widget.VoteSettled | docs/assets/js/counter.js:45-55 | a read count is shown and the vote is remembered for good; a failure shows `error`, enables the button and leaves the flag alone |
| PageOffline.Answer | docs/assets/js/counter.js:30-31 | what the widget's `try` block gets: a rejection exactly when there is no response or `res.json()` rejects, otherwise the body's count |
| PageOffline.ApiIsNetworkFirst | docs/assets/js/counter.js:9 | the widget's API address is on a `workers.dev` host, so the service worker treats it network-first |
| PageOffline.ApiAnswerArrives | docs/sw.js:50-58 | through the service worker every widget request gets a response and leaves the caches alone, so the dash and `error` are reached only through an unreadable body |
| PageOffline.OfflineCountShown | docs/assets/js/counter.js:28-36 | offline, the count element shows `none yet` instead of the dash |
| PageOffline.VoteOffline | docs/assets/js/counter.js:45-50 | offline, a vote settles as counted although nothing reached the counter: the flag is set for good, the button is spent, and the count shows `none yet` |
| Theme.SystemTheme | docs/assets/js/theme.js:16 | the system's scheme is `dark` exactly when it prefers dark, and `light` otherwise |
| Theme.Preferred | docs/assets/js/theme.js:12-17 | the stored preference when non-empty, otherwise the system's scheme; never empty |
| Theme.NextTheme | docs/assets/js/theme.js:28 | `dark` goes to `light`, and everything else goes to `dark` |
| Theme.ToggleTwice | docs/assets/js/theme.js:26-30 | toggling twice restores `dark` and `light`, and takes anything else to `light` |
| Theme.CurrentTheme | docs/assets/js/theme.js:27 | the attribute when set, otherwise the preferred theme |
| Theme.ThemeState.constructor | docs/assets/js/theme.js:33 | start-up stores the preferred theme in both cells, which then agree |
| Theme.ThemeState.SetTheme | docs/assets/js/theme.js:20-23 | both the attribute and the stored preference become the theme |
| Theme.ThemeState.Toggle | docs/assets/js/theme.js:26-30 | both cells become the next theme after the current one |
| Theme.ThemeState.SystemChanged | docs/assets/js/theme.js:36-41 | the new scheme becomes the theme only when no preference is stored; after start-up the listener changes nothing |
| BuildStamp.RegexMatchesAt | scripts/build.js:35 | `/const CACHE_NAME = '1mb-[^']+'/` matches the text from one position to another: the fixed lead, at least one character other than `'` (line breaks included), then `'` |
| BuildStamp.Substitute | scripts/build.js:36 | the replacement with its `$` patterns expanded: `$$` is `$`, `$&` the match, `` $` `` the text before it, `$'` the text after it, and any other character is kept |
| BuildStamp.Stamp | scripts/build.js:34-37 | `content.replace(...)`: the content unchanged when `FindFrom` finds no match, otherwise the text before the leftmost match, the expanded replacement `const CACHE_NAME = '1mb-<sha>'`, and the text after it |
| BuildStamp.FirstQuote | scripts/build.js:35 | the first single quote at or after a position, or none |
| BuildStamp.MatchAt | scripts/build.js:35 | a match starting at a position ends just after the first quote following `1mb-`, and needs at least one character before it |
| BuildStamp.FindFrom | scripts/build.js:35 | the leftmost match, with no match starting earlier |
| BuildStamp.SubstitutePlain | scripts/build.js:36 | a replacement without `$` is inserted as it is |
| BuildStamp.StampNoMatch | scripts/build.js:34-37 | without a match the content is unchanged |
| BuildStamp.StampLeftmost | scripts/build.js:34-37 | only the leftmost match is replaced by `const CACHE_NAME = '1mb-<sha>'`, and the text around it is kept |
| BuildStamp.EmptyVersionNotMatched | scripts/build.js:35 | a cache name with an empty version `'1mb-'` is not matched |
| BuildStamp.StampedMatches | scripts/build.js:36 | the stamped name is itself a match |
| BuildStamp.StampIdempotent | scripts/build.js:34-37 | for a non-empty version without `'` or `$`, stamping twice is stamping once |
| BuildStamp.StampExampleEmpty | scripts/build.js:34-37 | `const CACHE_NAME = '1mb-';` is left alone |

## Left out

- Logging (`log`, `console.log`, `getRequestContext`) is left out. So are the timestamps and the latency the health payload carries, because they are clock output. The health body is modelled as healthy or degraded only.
- SHA-256 and `TextEncoder` are a function parameter (`Digest`). Nothing is claimed about their one-wayness or collisions.
- The HTTP transport to Upstash and JSON decoding are left out. Each call's fate is an input `Link`, and a reply is one of absent, `null`, a string or an integer. JSON numbers beyond 2^53 are not rounded as JavaScript would round them.
- JsParse.ParseInt and JsParse.ParseIntOfIntToString: `parseInt` gives the exact integer, where JavaScript returns the nearest double. The stored count is a string read this way (workers/counter.js:87, 104-105 and 114-115), so a count beyond 2^53 is reported exactly by the model and rounded by the worker.
- Concurrency is left out. Requests are handled one after another, so the double count of two simultaneous POSTs from one address is not modelled. The service worker's fire-and-forget `cache.put` is modelled as done before the handler returns.
- `skipWaiting` and `clients.claim` change no data.
- The install handler's rejection of a manifest listing the same request twice is left out, because the manifest has no duplicates.
- Cache keys are host and path. The URL's scheme, port and query, and `Vary`, are left out. A put for a non-GET request only opens the generation, since that put rejects.
- Opaque and redirected responses are treated like any other received response.
- The DOM is reduced to fields: element lookup, `classList`, event registration and `matchMedia`. The early return when the widget's elements are missing is left out.
- VoteWidget.Widget.VoteSettled and VoteWidget.ShownCount take the widget's answer as an input. They are modelled against the raw network, so their `error` and dash paths are what the page shows without the service worker. Through the service worker a failed request arrives as count 0: `PageOffline` states what the page then shows, and only for the offline case. JSON parsing there is a parameter.
- A `localStorage` that throws (storage disabled) is left out.
- `toLocaleString` is fixed to en-US grouping. Other locales are not modelled.
- docs/assets/js/parallax.js is not part of this model: it is floating-point animation.
- eslint.config.js is not part of this model.
- In scripts/build.js, `getCommitSha` (git call and clock fallback), the file reads and writes, and the console output are left out. The version is an input.
- Redis.Apply: `SET … EX` accepts any positive number of seconds. Redis's upper bound on expiry times is not modelled.
- Identity.HexDecode reads lower-case hex only. It is a reference decoder for the hex the worker writes, not a general one.

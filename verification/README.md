# d2l-fetch-simple-cache in Dafny

This project models the caching middleware of `d2l-fetch-simple-cache`. The middleware sits in a fetch pipeline in front of the next stage. For each request it decides whether a stored response may answer the request. Otherwise it forwards the request and may store what comes back. Everything is written as pure functions over immutable records and a `map<string, Entry>` table.

- `Text`: ASCII lower-casing, whitespace trimming, comma splitting and decimal digits. These are the string operations the directive parser uses.
- `Directives`: `parseCacheControl`. It returns the `no-cache` and `no-store` flags and the `max-age` lifetime. `Describes` gives a declarative description of the result that does not follow the parsing loop; only its `max-age` clause depends on token order (the last one wins). `ParseCacheControlSpec` proves that the parser meets it, and `DescribesUnique` proves that it fixes the result.
- `Fetch`: plain records for requests, responses, JavaScript values and promise settlements. A native response body is modelled as read at most once.
- `Bodies`: `_clone`. It reads the body text once, then installs accessors that replay that text. The binary accessors refuse.
- `Keys`: `_getKey`. The key is the method, then the URL, then the Authorization value when that header is present.
- `SimpleCache`: `cache` and `_reset`. A call takes the table, the input, the next stage's answer, the options and two clock readings. It returns what the caller gets, the new table, and whether the next stage was called.
- `Scenarios`: the test suite's situations, written as runs of two or three consecutive calls.

The clock is read at two places in `cache`: when a stored entry is found, and when a response is stored. These are two separate parameters, `lookupNow` and `storeNow`. What the next stage hands back is a parameter of type `Downstream`. It is either absent, a plain value, or a promise that fulfils or rejects.

Some behaviours of the code are easy to miss. The model follows the code each time:

- **Two-bound hit test.** An entry is served only if its own `cacheExpires` has not passed. It must also be within its `cacheSetAt` plus the *current* request's max-age. This is not a single expiry comparison. A later request with a shorter `max-age` therefore forwards even though the entry has not expired (`Scenarios.LaterShorterMaxAgeForwards`).
- **Empty Authorization value.** A present but empty Authorization value gives the same key as an absent header (`Keys.EmptyCredentialKeysLikeNone`).
- **No separator in the key.** The key's parts are concatenated without separators. A credential can therefore be traded for URL characters: `GET u` with credential `c` shares a key with `GET u+c` without one (`Keys.CredentialCanShiftIntoUrl`).
- **Unanchored max-age match.** The `max-age` pattern is unanchored, so `max-age=12abc` yields 12 and `xmax-age=5` yields 5.
- **Value stored after a forward.** After a forward, whatever the promise resolves to is stored, including a value that is not a response. Such an entry is later neither returned nor evicted while it is valid (`SimpleCache.ValidNonResponseKept`).
- **Zero cache length.** A `cacheLengthInSeconds` of 0 is falsy and falls back to 120 seconds.

## Model

| member | source | states |
|---|---|---|
| Text.ToLower | src/d2lfetch-simple-cache.js:8 | The result has the input's length and no upper-case letter. Every other character stays in place, and each upper-case letter becomes its lower-case partner in the same position. |
| Text.ToLowerIdempotent | src/d2lfetch-simple-cache.js:8 | Lower-casing an already lower-cased value changes nothing. |
| Text.Split | src/d2lfetch-simple-cache.js:9 | There is always at least one piece. No piece contains a comma. Joining the pieces with commas gives back the input, so empty pieces are kept. |
| Text.SplitJoin | src/d2lfetch-simple-cache.js:9 | Splitting is the inverse of joining comma-free pieces. |
| Text.SplitCount | src/d2lfetch-simple-cache.js:9 | Splitting gives exactly one piece more than the value has commas. |
| Text.Trim | src/d2lfetch-simple-cache.js:11 | The result neither starts nor ends with whitespace. It is a contiguous piece of the input, and only whitespace lies on either side of it. |
| Text.DecimalRoundTrip | src/d2lfetch-simple-cache.js:19 | Reading the decimal digits of `n` as `parseInt` does gives back `n`. |
| Directives.FirstMatch | src/d2lfetch-simple-cache.js:17 | The search finds the leftmost position where `max-age=` is followed by a digit. No earlier position matches, and None means no position matches. |
| Directives.TokensShape | src/d2lfetch-simple-cache.js:8-11 | A header value gives one token more than it has commas. Every token is lower-case, comma-free and has no whitespace at either end. |
| Directives.MaxAgeMatchNone | src/d2lfetch-simple-cache.js:1 | A token has no lifetime exactly when the pattern `max-age=[0-9]+` matches nowhere in it. |
| Directives.MaxAgeMatchSome | src/d2lfetch-simple-cache.js:17-19 | When the leftmost match starts at `p`, the lifetime is the number spelled by the whole non-empty digit run after `max-age=`, as the greedy group captures it. |
| Directives.ApplyFlagsStep | src/d2lfetch-simple-cache.js:12-15 | One token sets a flag when it is exactly that flag's word. A flag once set is never cleared. |
| Directives.ApplyMaxAge | src/d2lfetch-simple-cache.js:16-24 | One token replaces the lifetime when it carries a `max-age`, and leaves it alone otherwise. |
| Directives.ParseCacheControl | src/d2lfetch-simple-cache.js:4-7 | An absent (non-string) header gives no flags and the default lifetime. |
| Directives.ApplyAllFlags | src/d2lfetch-simple-cache.js:10-15 | After the loop over the tokens, each flag is set iff some token is exactly `no-cache` or `no-store`. |
| Directives.ApplyAllMaxAge | src/d2lfetch-simple-cache.js:16-24 | The lifetime is the value of the last token that carries `max-age`, or the default when none does. |
| Directives.ParseCacheControlSpec | src/d2lfetch-simple-cache.js:3-31 | Parsing a present header meets the declarative description: both flag equivalences and the last-max-age rule. |
| Directives.DescribesUnique | src/d2lfetch-simple-cache.js:3-31 | At most one directive set meets the description, so the description determines the parse. |
| Directives.ApplyAllKeepsNonNegative | src/d2lfetch-simple-cache.js:17-21 | Every `max-age` read is a natural number, so a non-negative default stays non-negative. |
| Directives.ParseMaxAge | src/d2lfetch-simple-cache.js:17-22 | `max-age=<n>` alone gives lifetime `n` and no flags. |
| Directives.ParseNoCache | src/d2lfetch-simple-cache.js:12-13 | `no-cache` alone sets only that flag and keeps the default lifetime. |
| Directives.ParseNoCacheNoStore | src/d2lfetch-simple-cache.js:8-15 | `no-cache, no-store` sets both flags and keeps the default lifetime. |
| Bodies.Clone | src/d2lfetch-simple-cache.js:95-98 | A value that is not a response comes back unchanged. A cloned response carries a buffer. |
| Bodies.CloneBuffersBody | src/d2lfetch-simple-cache.js:107-125 | Cloning an unread response keeps its status and buffers exactly its body text. |
| Bodies.CloneOfConsumedBodyRejects | src/d2lfetch-simple-cache.js:107 | If the body was already consumed, the clone fails the way the text read fails. |
| Bodies.BufferedReadsReplay | src/d2lfetch-simple-cache.js:109-123 | On a cloned response, every read in any sequence of reads gets the answer of its own accessor from the one buffer, whatever was read before it. |
| Bodies.ClonedReadsReplay | src/d2lfetch-simple-cache.js:107-123 | On the clone of an unread response, every accessor call in any order and any number of times answers from the original body. `text()` yields its text and `json()` its parse. `arrayBuffer`, `blob` and `formData` reject with "simple-cache middleware cannot be used with <kind> response bodies". |
| Bodies.UnbufferedReadsOnce | src/d2lfetch-simple-cache.js:100-101 | Without the clone, only the first read of an unread body succeeds, and every later read fails. |
| Keys.GetKey | src/d2lfetch-simple-cache.js:129-136 | Cut at the lengths of the method and the URL, the key gives back the method, the URL and the credential. The credential part is empty when the header is absent. |
| Keys.KeyIgnoresOtherInputs | src/d2lfetch-simple-cache.js:129-136 | Requests that agree on method, URL and Authorization get the same key, whatever their Cache-Control. |
| Keys.SameTargetKeyIffSameCredential | src/d2lfetch-simple-cache.js:130-133 | For one method and URL, two keys are equal iff the credentials agree. |
| Keys.SameCredentialKeyIffSameUrl | src/d2lfetch-simple-cache.js:130-135 | For one method and credential, two keys are equal iff the URLs agree. |
| Keys.KeysSeparateMethods | src/d2lfetch-simple-cache.js:130 | Different methods of equal length never share a key. |
| Keys.EmptyCredentialKeysLikeNone | src/d2lfetch-simple-cache.js:131-132 | An empty Authorization value keys like an absent header. |
| Keys.CredentialCanShiftIntoUrl | src/d2lfetch-simple-cache.js:130-132 | A request with credential `c` shares its key with a request without one whose URL ends in `c`. |
| SimpleCache.MaxAgeDefault | src/d2lfetch-simple-cache.js:41 | The default lifetime is never zero. It is either two minutes or the `cacheLengthInSeconds` option, and a set, non-zero option always wins. |
| SimpleCache.AllowedMethods | src/d2lfetch-simple-cache.js:42 | A method is allowed iff it is in the `methods` option when that is given, and otherwise iff it is GET, HEAD or OPTIONS. |
| SimpleCache.Find | src/d2lfetch-simple-cache.js:62-71 | A hit returns the response stored under the key. A miss only removes entries and changes no value. Keys other than the looked-up one survive. |
| SimpleCache.Forward | src/d2lfetch-simple-cache.js:73-92 | The next stage is called iff it exists. Only the request's key can be added or changed. Any changed entry was written at the store time. |
| SimpleCache.Cache | src/d2lfetch-simple-cache.js:40-93 | Keys other than the request's key keep their presence and value. Without a forward, no entry is added. Every new or changed entry comes from a forward and is stamped with the store time. |
| SimpleCache.Reset | src/d2lfetch-simple-cache.js:138-140 | The table is empty after a reset. |
| SimpleCache.NonRequestRejected | src/d2lfetch-simple-cache.js:44-46 | A non-request is rejected with the TypeError message. The next stage is not called and the table is unchanged. |
| SimpleCache.PassThrough | src/d2lfetch-simple-cache.js:48-53 | Outside the allow-list, the caller gets exactly the next stage's answer, or the request itself when there is no next stage. The table is unchanged, and the answer does not depend on the table. |
| SimpleCache.HitReturnsStored | src/d2lfetch-simple-cache.js:62-67 | When the entry is valid on both bounds and holds a response, that response is returned. The next stage is not called and the table is unchanged. |
| SimpleCache.NextCalledIffNotServed | src/d2lfetch-simple-cache.js:48-77 | The next stage is called iff it exists and the call is not answered from the table. |
| SimpleCache.StaleEntryRemoved | src/d2lfetch-simple-cache.js:58-70 | An entry removed by `no-cache`, or failing either bound, does not survive the call unless a fresh response was just stored in its place. |
| SimpleCache.ValidNonResponseKept | src/d2lfetch-simple-cache.js:62-71 | A valid entry whose value is not a response is not evicted, and the caller gets exactly what an empty table would give. The call forwards when there is a next stage. |
| SimpleCache.StoreAfterForward | src/d2lfetch-simple-cache.js:77-89 | On a miss whose forward resolves and clones, the clone is returned and stored with set-time `storeNow` and expiry one lifetime later. |
| SimpleCache.ForwardWithoutStore | src/d2lfetch-simple-cache.js:78-92 | With `no-store`, or with a result that is not a promise, the next stage's answer is returned unchanged and nothing is written. |
| SimpleCache.ForwardRejects | src/d2lfetch-simple-cache.js:77-89 | When the forwarded promise rejects, the caller gets that rejection. Nothing is stored, and no entry's value changes. |
| SimpleCache.ForwardConsumedBodyRejects | src/d2lfetch-simple-cache.js:78-89 | When the forward resolves to a response whose body was already read, the clone's `text()` rejects. The caller gets that TypeError, and nothing is stored. |
| SimpleCache.NoCacheNoStoreLeavesNothing | src/d2lfetch-simple-cache.js:58-92 | With both `no-cache` and `no-store`, no entry for the key remains. |
| SimpleCache.NoNextResolvesRequest | src/d2lfetch-simple-cache.js:73-75 | Without a next stage, a call that is not served from the table resolves to the request itself. |
| SimpleCache.MaxAgeNonNegative | src/d2lfetch-simple-cache.js:56 | The parsed lifetime is non-negative whenever the default is. |
| SimpleCache.EntryLifetime | src/d2lfetch-simple-cache.js:41-56 | The request's lifetime is its last `max-age`. Without one, it is `cacheLengthInSeconds` when that is set and non-zero, and 120 seconds when it is absent or zero. |
| SimpleCache.ForwardPreservesWellFormed | src/d2lfetch-simple-cache.js:82-87 | Storing after a forward keeps every entry's expiry at or after its set time when the lifetime is non-negative. |
| SimpleCache.CachePreservesWellFormed | src/d2lfetch-simple-cache.js:82-87 | Every call keeps each entry's expiry at or after its set time, given a non-negative default lifetime. |
| SimpleCache.RepeatWithinLifetimeHits | src/d2lfetch-simple-cache.js:62-89 | A stored response answers a later same-key call without forwarding while both bounds hold. It returns the same response and leaves the table unchanged. |
| SimpleCache.RepeatPastEitherBoundForwards | src/d2lfetch-simple-cache.js:62-70 | Past the entry's own expiry, or past its set time plus the later request's lifetime, the later call forwards. |
| SimpleCache.ResetForgetsEverything | src/d2lfetch-simple-cache.js:138-140 | After a reset, no call is answered from the table. |
| Scenarios.DefaultLifetimeIsTwoMinutes | test/d2l-fetch-simple-cache.test.js:234-252 | With default options, an entry is served at 119999 ms and forwarded again at 120001 ms. |
| Scenarios.StoredLifetime | test/d2l-fetch-simple-cache.test.js:254-312 | An entry stored with a lifetime of `n` seconds, for `n` up to 120, is hit at `n`*1000-1 ms and forwarded at `n`*1000+1 ms by later calls without options or Cache-Control. The bound is there because those calls apply their own 120-second lifetime as well. |
| Scenarios.OptionLifetime | test/d2l-fetch-simple-cache.test.js:254-272 | For `n` up to 120, `cacheLengthInSeconds = n` on the storing call gives a hit at `n`*1000-1 ms and a forward at `n`*1000+1 ms. A longer option is still cut at 120 s, because the later calls have no options and apply their own 120-second lifetime. |
| Scenarios.MaxAgeLifetime | test/d2l-fetch-simple-cache.test.js:274-312 | For `n` up to 120, a request's `max-age=<n>` sets the stored lifetime and overrides `cacheLengthInSeconds`. Later calls without the header hit just before `n` seconds and forward just after. The bound is there because those calls apply their own 120-second lifetime. |
| Scenarios.ShorterLifetimeForwards | test/d2l-fetch-simple-cache.test.js:314-326 | When a same-key request has a shorter lifetime `k` than the stored entry's `m`, it forwards just after `k` seconds, although the entry has not expired. |
| Scenarios.LaterShorterMaxAgeForwards | test/d2l-fetch-simple-cache.test.js:314-326 | A later, shorter `max-age` forces a forward although the stored entry has not expired. |
| Scenarios.NoCacheNoStoreThenPlain | test/d2l-fetch-simple-cache.test.js:80-90 | `no-cache, no-store` forwards and stores nothing. The next plain call forwards, and the one after it is served. |
| Scenarios.NoCacheForwardsAndRestores | test/d2l-fetch-simple-cache.test.js:64-78 | `no-cache` forwards despite a valid entry and still stores the fresh response for the next plain call. |
| Scenarios.AllowListDecidesCaching | test/d2l-fetch-simple-cache.test.js:192-230 | For two identical requests, the second is served from the table iff the method is in the allow-list. |
| Scenarios.KeyedOnMethodUrlCredential | test/d2l-fetch-simple-cache.test.js:92-109 | For two requests without Cache-Control, the second is served from the table iff both share a key. |
| Scenarios.TestedKeyPairs | test/d2l-fetch-simple-cache.test.js:92-99 | Of the tested request pairs, only the identical ones share a key. |
| Scenarios.CallersShareOneBody | test/d2l-fetch-simple-cache.test.js:111-142 | Callers served from one entry get the same response, and every read of it is answered from the one buffered body. |

## Left out

- Promise scheduling: the store that `cache` performs when the forwarded promise settles is modelled as part of the same call. Concurrent calls that interleave between the forward and the store, and duplicate forwards for one key, are not modelled.
- A next stage that throws synchronously: the exception would leave `cache` uncaught; the model only covers values and promises handed back.
- `JSON.parse`: kept as the uninterpreted value `JsonParseOf(text)`. That `json()` on invalid text throws synchronously is not modelled.
- `parseInt` on very long digit strings loses precision in JavaScript; the model reads digits as an exact natural number.
- `toLowerCase` and `trim` are modelled for ASCII letters and ASCII whitespace (space, tab, line feed, vertical tab, form feed, carriage return); Unicode case mapping and Unicode spaces are not.
- `Request`, `Headers` and `Response` are plain records. Case-insensitive header lookup, the browser's normalisation of method names and URLs, and response headers are not modelled. A response carries only its status and body text.
- Bodies.UnbufferedReadsOnce: a response built without a body (`new Response()`) never becomes used under the Fetch standard, and every `text()` on it resolves to the empty string; the model's `body: string` does not tell a missing body from an empty one, so every native body, including a missing one, is modelled as one-shot. The cache's own behaviour does not depend on this, because `_clone` reads the body exactly once.
- Native body reads other than `text()`/`json()` yield an abstract binary value; only their one-shot behaviour is modelled. A `text()` failure other than an already-consumed body (a network error) is not modelled.
- `cacheLengthInSeconds` and `methods` are modelled as an optional integer and an optional list; other JavaScript values (a numeric string, `NaN`) are not.
- The table is a JavaScript array used as a string-keyed dictionary; it is modelled as a map.
- src/index.js, the process-wide default instance, is not part of this model; `Reset()` is also the table of a freshly constructed instance.

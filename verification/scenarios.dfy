/**
 * The behaviours the middleware's test suite exercises, stated as runs of
 * the model: consecutive calls on one table, with the clock at the values the
 * tests set. Where a test fixes one number, the lemma holds for every value.
 */
module Scenarios {
  import opened Wrappers
  import opened Text
  import opened Fetch
  import opened Directives
  import opened Keys
  import opened Bodies
  import opened SimpleCache

  /** A next stage that resolves to `resp`. */
  function Serving(resp: Response): Downstream {
    Returns(Async(Fulfilled(ResponseValue(resp))))
  }

  /** A request for `url` carrying credential `credential` and optional Cache-Control value. */
  function Get(url: string, credential: string, cacheControl: Option<string>): Request {
    Request("GET", url, Some(credential), cacheControl)
  }

  /** With no options, GET requests are cached. */
  lemma GetIsAllowedByDefault()
    ensures "GET" in AllowedMethods(NoOptions)
  {
    assert DefaultMethods[0] == "GET";
  }

  /**
   * Without options an entry lives two minutes: still served at 119999 ms,
   * forwarded again at 120001 ms.
   */
  lemma DefaultLifetimeIsTwoMinutes(url: string, credential: string, resp: Response, r2: Returned, r3: Returned)
    requires Unread(resp)
    ensures var req := Get(url, credential, None);
      var first := Cache(Reset(), RequestInput(req), Serving(resp), NoOptions, 0, 0);
      var second := Cache(first.store, RequestInput(req), Returns(r2), NoOptions, 119999, 119999);
      var third := Cache(second.store, RequestInput(req), Returns(r3), NoOptions, 120001, 120001);
      first.nextCalled && !second.nextCalled && third.nextCalled
  {
    var req := Get(url, credential, None);
    GetIsAllowedByDefault();
    ResetForgetsEverything(req, NoOptions, 0);
    RepeatWithinLifetimeHits(Reset(), req, resp, NoOptions, 0, 0, req, Returns(r2), NoOptions, 119999, 119999);
    var first := Cache(Reset(), RequestInput(req), Serving(resp), NoOptions, 0, 0);
    RepeatPastEitherBoundForwards(Reset(), req, resp, NoOptions, 0, 0, req, r3, NoOptions, 120001, 120001);
  }

  /**
   * An entry stored with a lifetime of `n` seconds, read back by later calls
   * without options or Cache-Control: served at `n`*1000 - 1 ms, forwarded
   * again at `n`*1000 + 1 ms. The later calls bound the hit by their own
   * two-minute lifetime too, so `n` is at most 120.
   */
  lemma StoredLifetime(req: Request, options: Options, later: Request, n: int, resp: Response, r2: Returned, r3: Returned)
    requires req.httpMethod in AllowedMethods(options)
    requires !RequestDirectives(req, options).noStore
    requires RequestDirectives(req, options).maxAge == n && 0 < n <= DefaultCacheLengthInSeconds
    requires later.httpMethod in DefaultMethods && later.cacheControl.None? && GetKey(later) == GetKey(req)
    requires Unread(resp)
    ensures var first := Cache(Reset(), RequestInput(req), Serving(resp), options, 0, 0);
      var second := Cache(first.store, RequestInput(later), Returns(r2), NoOptions, n * 1000 - 1, n * 1000 - 1);
      var third := Cache(second.store, RequestInput(later), Returns(r3), NoOptions, n * 1000 + 1, n * 1000 + 1);
      first.nextCalled && !second.nextCalled && third.nextCalled
  {
    ResetForgetsEverything(req, options, 0);
    RepeatWithinLifetimeHits(Reset(), req, resp, options, 0, 0, later, Returns(r2), NoOptions, n * 1000 - 1, n * 1000 - 1);
    RepeatPastEitherBoundForwards(Reset(), req, resp, options, 0, 0, later, r3, NoOptions, n * 1000 + 1, n * 1000 + 1);
  }

  /**
   * `cacheLengthInSeconds` on the storing call sets the entry's lifetime:
   * with `n` seconds the entry is served at `n`*1000 - 1 ms and forwarded
   * again at `n`*1000 + 1 ms, by later calls without options. Those later
   * calls bound the hit by their own two-minute lifetime too, so `n` is at
   * most 120: a longer entry is forwarded after two minutes all the same.
   */
  lemma OptionLifetime(n: int, url: string, credential: string, resp: Response, r2: Returned, r3: Returned)
    requires 0 < n <= 120
    requires Unread(resp)
    ensures var req := Get(url, credential, None);
      var options := Options(Some(n), None);
      var first := Cache(Reset(), RequestInput(req), Serving(resp), options, 0, 0);
      var second := Cache(first.store, RequestInput(req), Returns(r2), NoOptions, n * 1000 - 1, n * 1000 - 1);
      var third := Cache(second.store, RequestInput(req), Returns(r3), NoOptions, n * 1000 + 1, n * 1000 + 1);
      first.nextCalled && !second.nextCalled && third.nextCalled
  {
    var req := Get(url, credential, None);
    var options := Options(Some(n), None);
    GetIsAllowedByDefault();
    StoredLifetime(req, options, req, n, resp, r2, r3);
  }

  /**
   * A request's `max-age=<n>` sets the stored entry's lifetime, whatever
   * `cacheLengthInSeconds` says: served at `n`*1000 - 1 ms, forwarded again at
   * `n`*1000 + 1 ms, by later calls without the header. Those later calls
   * bound the hit by their own two-minute lifetime too, so `n` is at most 120.
   */
  lemma MaxAgeLifetime(n: nat, options: Options, url: string, credential: string, resp: Response, r2: Returned, r3: Returned)
    requires 0 < n <= 120
    requires "GET" in AllowedMethods(options)
    requires Unread(resp)
    ensures var req := Get(url, credential, Some(MaxAgeKey + Decimal(n)));
      var later := Get(url, credential, None);
      var first := Cache(Reset(), RequestInput(req), Serving(resp), options, 0, 0);
      var second := Cache(first.store, RequestInput(later), Returns(r2), NoOptions, n * 1000 - 1, n * 1000 - 1);
      var third := Cache(second.store, RequestInput(later), Returns(r3), NoOptions, n * 1000 + 1, n * 1000 + 1);
      first.nextCalled && !second.nextCalled && third.nextCalled
  {
    var req := Get(url, credential, Some(MaxAgeKey + Decimal(n)));
    var later := Get(url, credential, None);
    ParseMaxAge(n, MaxAgeDefault(options));
    assert GetKey(later) == GetKey(req);
    StoredLifetime(req, options, later, n, resp, r2, r3);
  }

  /**
   * Two same-key requests whose lifetimes are `m` and a shorter `k` seconds:
   * just after `k` seconds the second forwards, although the entry the first
   * stored has not expired.
   */
  lemma ShorterLifetimeForwards(req1: Request, req2: Request, m: int, k: int, resp: Response, r2: Returned)
    requires req1.httpMethod in DefaultMethods && GetKey(req2) == GetKey(req1)
    requires RequestDirectives(req1, NoOptions) == Directives(false, false, m)
    requires RequestDirectives(req2, NoOptions).maxAge == k && k < m
    requires Unread(resp)
    ensures var first := Cache(Reset(), RequestInput(req1), Serving(resp), NoOptions, 0, 0);
      var second := Cache(first.store, RequestInput(req2), Returns(r2), NoOptions, k * 1000 + 1, k * 1000 + 1);
      && first.nextCalled
      && GetKey(req1) in first.store && first.store[GetKey(req1)].cacheExpires >= k * 1000 + 1
      && second.nextCalled
  {
    ResetForgetsEverything(req1, NoOptions, 0);
    var c := Clone(ResponseValue(resp)).value;
    CloneBuffersBody(resp);
    StoreAfterForward(Reset(), req1, ResponseValue(resp), c, NoOptions, 0, 0);
    RepeatPastEitherBoundForwards(Reset(), req1, resp, NoOptions, 0, 0, req2, r2, NoOptions, k * 1000 + 1, k * 1000 + 1);
  }

  /**
   * A later request's shorter `max-age=<k>` cuts an entry stored with a longer
   * `max-age=<m>` short: just after `k` seconds the later call forwards,
   * although the entry itself has not expired.
   */
  lemma LaterShorterMaxAgeForwards(m: nat, k: nat, url: string, credential: string, resp: Response, r2: Returned)
    requires k < m
    requires Unread(resp)
    ensures var first := Cache(Reset(), RequestInput(Get(url, credential, Some(MaxAgeKey + Decimal(m)))), Serving(resp), NoOptions, 0, 0);
      var second := Cache(first.store, RequestInput(Get(url, credential, Some(MaxAgeKey + Decimal(k)))), Returns(r2), NoOptions, k * 1000 + 1, k * 1000 + 1);
      var key := GetKey(Get(url, credential, None));
      && first.nextCalled
      && key in first.store && first.store[key].cacheExpires >= k * 1000 + 1
      && second.nextCalled
  {
    var req1 := Get(url, credential, Some(MaxAgeKey + Decimal(m)));
    var req2 := Get(url, credential, Some(MaxAgeKey + Decimal(k)));
    var key := GetKey(Get(url, credential, None));
    assert GetKey(req1) == key && GetKey(req2) == key;
    ParseMaxAge(m, MaxAgeDefault(NoOptions));
    ParseMaxAge(k, MaxAgeDefault(NoOptions));
    ShorterLifetimeForwards(req1, req2, m, k, resp, r2);
  }

  /**
   * `no-cache, no-store` forwards and leaves nothing behind, so the next plain
   * call forwards too and stores, and the one after that is served.
   */
  lemma NoCacheNoStoreThenPlain(url: string, credential: string, resp1: Response, resp2: Response, r3: Returned)
    requires Unread(resp1) && Unread(resp2)
    ensures var bypass := Get(url, credential, Some("no-cache" + ", " + "no-store"));
      var plain := Get(url, credential, None);
      var first := Cache(Reset(), RequestInput(bypass), Serving(resp1), NoOptions, 0, 0);
      var second := Cache(first.store, RequestInput(plain), Serving(resp2), NoOptions, 0, 0);
      var third := Cache(second.store, RequestInput(plain), Returns(r3), NoOptions, 0, 0);
      first.nextCalled && second.nextCalled && !third.nextCalled
  {
    var bypass := Get(url, credential, Some("no-cache" + ", " + "no-store"));
    var plain := Get(url, credential, None);
    ParseNoCacheNoStore(MaxAgeDefault(NoOptions));
    GetIsAllowedByDefault();
    var first := Cache(Reset(), RequestInput(bypass), Serving(resp1), NoOptions, 0, 0);
    NoCacheNoStoreLeavesNothing(Reset(), bypass, Serving(resp1), NoOptions, 0, 0);
    assert GetKey(bypass) == GetKey(plain);
    assert !ServedFromCache(first.store, plain, NoOptions, 0);
    RepeatWithinLifetimeHits(first.store, plain, resp2, NoOptions, 0, 0, plain, Returns(r3), NoOptions, 0, 0);
  }

  /**
   * `no-cache` forwards even when a valid entry exists, and still stores what
   * comes back for the next plain call.
   */
  lemma NoCacheForwardsAndRestores(url: string, credential: string, resp1: Response, resp2: Response, r3: Returned)
    requires Unread(resp1) && Unread(resp2)
    ensures var plain := Get(url, credential, None);
      var bypass := Get(url, credential, Some("no-cache"));
      var first := Cache(Reset(), RequestInput(plain), Serving(resp1), NoOptions, 0, 0);
      var second := Cache(first.store, RequestInput(bypass), Serving(resp2), NoOptions, 0, 0);
      var third := Cache(second.store, RequestInput(plain), Returns(r3), NoOptions, 0, 0);
      first.nextCalled && second.nextCalled && !third.nextCalled
  {
    var plain := Get(url, credential, None);
    var bypass := Get(url, credential, Some("no-cache"));
    ParseNoCache(MaxAgeDefault(NoOptions));
    GetIsAllowedByDefault();
    ResetForgetsEverything(plain, NoOptions, 0);
    var first := Cache(Reset(), RequestInput(plain), Serving(resp1), NoOptions, 0, 0);
    assert GetKey(bypass) == GetKey(plain);
    RepeatWithinLifetimeHits(first.store, bypass, resp2, NoOptions, 0, 0, plain, Returns(r3), NoOptions, 0, 0);
  }

  /**
   * Two identical requests without a Cache-Control header in a row: the
   * second is served from the table exactly when the method is in the
   * allow-list.
   */
  lemma AllowListDecidesCaching(req: Request, options: Options, resp: Response, r2: Returned)
    requires req.cacheControl.None?
    requires MaxAgeDefault(options) >= 0
    requires Unread(resp)
    ensures var first := Cache(Reset(), RequestInput(req), Serving(resp), options, 0, 0);
      var second := Cache(first.store, RequestInput(req), Returns(r2), options, 0, 0);
      first.nextCalled && (second.nextCalled <==> req.httpMethod !in AllowedMethods(options))
  {
    ResetForgetsEverything(req, options, 0);
    var first := Cache(Reset(), RequestInput(req), Serving(resp), options, 0, 0);
    if req.httpMethod in AllowedMethods(options) {
      RepeatWithinLifetimeHits(Reset(), req, resp, options, 0, 0, req, Returns(r2), options, 0, 0);
    } else {
      PassThrough(Reset(), Reset(), req, Serving(resp), options, 0, 0);
      PassThrough(first.store, first.store, req, Returns(r2), options, 0, 0);
    }
  }

  /**
   * Two requests without Cache-Control in a row, both of a default method: the second
   * is served from the table exactly when the two share a key.
   */
  lemma KeyedOnMethodUrlCredential(req1: Request, req2: Request, resp: Response, r2: Returned)
    requires req1.cacheControl.None? && req2.cacheControl.None?
    requires req1.httpMethod in DefaultMethods && req2.httpMethod in DefaultMethods
    requires Unread(resp)
    ensures var first := Cache(Reset(), RequestInput(req1), Serving(resp), NoOptions, 0, 0);
      var second := Cache(first.store, RequestInput(req2), Returns(r2), NoOptions, 0, 0);
      first.nextCalled && (second.nextCalled <==> GetKey(req1) != GetKey(req2))
  {
    ResetForgetsEverything(req1, NoOptions, 0);
    var first := Cache(Reset(), RequestInput(req1), Serving(resp), NoOptions, 0, 0);
    if GetKey(req1) == GetKey(req2) {
      RepeatWithinLifetimeHits(Reset(), req1, resp, NoOptions, 0, 0, req2, Returns(r2), NoOptions, 0, 0);
    } else {
      assert GetKey(req2) !in first.store;
      NextCalledIffNotServed(first.store, req2, Returns(r2), NoOptions, 0, 0);
    }
  }

  /**
   * The request pairs of the key test: which second request finds the first
   * one's entry.
   */
  lemma TestedKeyPairs()
    ensures GetKey(Request("GET", "/some/url", None, None)) == GetKey(Request("GET", "/some/url", None, None))
    ensures GetKey(Request("HEAD", "/some/url", None, None)) != GetKey(Request("GET", "/some/url", None, None))
    ensures GetKey(Request("GET", "/some/url", None, None)) != GetKey(Request("GET", "/other/url", None, None))
    ensures GetKey(Request("GET", "/some/url", Some("Bearer token"), None))
      != GetKey(Request("GET", "/some/url", Some("Bearer token2"), None))
    ensures GetKey(Request("GET", "/some/url", Some("Bearer token"), None))
      != GetKey(Request("GET", "/some/url", None, None))
  {
    var some, other := "/some/url", "/other/url";
    assert some[1] != other[1];
    SameCredentialKeyIffSameUrl(Request("GET", some, None, None), Request("GET", other, None, None));
    var t1, t2 := "Bearer token", "Bearer token2";
    SameTargetKeyIffSameCredential(Request("GET", some, Some(t1), None), Request("GET", some, Some(t2), None));
    SameTargetKeyIffSameCredential(Request("GET", some, Some(t1), None), Request("GET", some, None, None));
  }

  /**
   * Callers served from one stored entry all get the same response, and each
   * reads the same text and the same parsed JSON from it, in any order.
   */
  lemma CallersShareOneBody(req: Request, resp: Response, r2: Returned, r3: Returned, kinds: seq<BodyKind>)
    requires req.cacheControl.None? && req.httpMethod in DefaultMethods
    requires Unread(resp)
    ensures var first := Cache(Reset(), RequestInput(req), Serving(resp), NoOptions, 0, 0);
      var second := Cache(first.store, RequestInput(req), Returns(r2), NoOptions, 0, 0);
      var third := Cache(second.store, RequestInput(req), Returns(r3), NoOptions, 0, 0);
      && second.returned == first.returned
      && third.returned == first.returned
      && first.returned.Async? && first.returned.settlement.Fulfilled?
      && first.returned.settlement.value.ResponseValue?
      && forall i :: 0 <= i < |kinds| ==>
           ReadAll(first.returned.settlement.value.response, kinds)[i] == BufferedRead(resp.body, kinds[i])
  {
    ResetForgetsEverything(req, NoOptions, 0);
    CloneBuffersBody(resp);
    var c := Clone(ResponseValue(resp)).value;
    StoreAfterForward(Reset(), req, ResponseValue(resp), c, NoOptions, 0, 0);
    RepeatWithinLifetimeHits(Reset(), req, resp, NoOptions, 0, 0, req, Returns(r2), NoOptions, 0, 0);
    var first := Cache(Reset(), RequestInput(req), Serving(resp), NoOptions, 0, 0);
    var second := Cache(first.store, RequestInput(req), Returns(r2), NoOptions, 0, 0);
    assert ServedFromCache(second.store, req, NoOptions, 0);
    HitReturnsStored(second.store, req, Returns(r3), NoOptions, 0, 0);
    BufferedReadsReplay(c.response, kinds);
  }
}

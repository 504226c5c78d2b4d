/**
 * The simple-cache middleware's per-request decision: reject a non-request,
 * pass through methods outside the allow-list, honour `no-cache`, answer
 * from a still-valid stored response, and otherwise forward the request and
 * store the cloned response unless `no-store` is set.
 *
 * The clock is read twice by the middleware, once when an entry is found and
 * once when a response is stored; both readings are parameters. What the next
 * stage hands back is a parameter too, and whether it was asked is an output.
 */
module SimpleCache {
  import opened Wrappers
  import opened Fetch
  import opened Directives
  import opened Keys
  import opened Bodies

  /** A stored response with the time it was stored and the time it expires, in milliseconds. */
  datatype Entry = Entry(cacheSetAt: int, cacheExpires: int, response: Value)

  /** The middleware's table of stored responses, by key. */
  type Store = map<string, Entry>

  /** Per-call options; `None` stands for an option not given (or, for `methods`, not an array). */
  datatype Options = Options(cacheLengthInSeconds: Option<int>, methods: Option<seq<string>>)

  /** What the middleware is called with in place of a request. */
  datatype Input = RequestInput(request: Request) | NonRequest(tag: int)

  /** The next stage: absent, or present and handing back `value` when called. */
  datatype Downstream = Absent | Returns(value: Returned)

  /** What one call hands back, the table after it, and whether the next stage was called. */
  datatype Outcome = Outcome(returned: Returned, store: Store, nextCalled: bool)

  /** No options given. */
  const NoOptions: Options := Options(None, None)

  const DefaultCacheLengthInSeconds: int := 60 * 2
  const DefaultMethods: seq<string> := ["GET", "HEAD", "OPTIONS"]
  const InvalidRequestMessage: string := "Invalid request argument supplied; must be a valid window.Request object."

  /**
   * The lifetime used when the request names none. It is never zero: it is
   * the option whenever that is set and non-zero, and two minutes otherwise.
   */
  function MaxAgeDefault(options: Options): (n: int)
    ensures n != 0
    ensures n == DefaultCacheLengthInSeconds || options.cacheLengthInSeconds == Some(n)
    ensures options.cacheLengthInSeconds.Some? && options.cacheLengthInSeconds.value != 0 ==> n == options.cacheLengthInSeconds.value
  {
    match options.cacheLengthInSeconds
    case Some(n) => if n != 0 then n else DefaultCacheLengthInSeconds
    case None => DefaultCacheLengthInSeconds
  }

  /**
   * The methods whose responses may be cached: those of the `methods` option
   * when it is given, and otherwise exactly GET, HEAD and OPTIONS.
   */
  function AllowedMethods(options: Options): (ms: seq<string>)
    ensures forall m :: m in ms <==> if options.methods.Some? then m in options.methods.value else m in {"GET", "HEAD", "OPTIONS"}
  {
    options.methods.GetOr(DefaultMethods)
  }

  /** The directives of a request, with the options' lifetime as the default. */
  function RequestDirectives(req: Request, options: Options): Directives {
    ParseCacheControl(req.cacheControl, MaxAgeDefault(options))
  }

  /** The result of consulting the table: a stored response, or the table after lazy eviction. */
  datatype Lookup = Hit(response: Response) | Miss(store: Store)

  /**
   * Consult the entry for `key` at time `now`. Both its own expiry and its
   * storage time plus the current request's lifetime must still lie ahead.
   */
  function Find(store: Store, key: string, maxAge: int, now: int): (r: Lookup)
    ensures r.Hit? ==> key in store && store[key].response == ResponseValue(r.response)
    ensures r.Miss? ==> r.store.Keys <= store.Keys && forall k :: k in r.store ==> r.store[k] == store[k]
    ensures r.Miss? ==> forall k :: k != key && k in store ==> k in r.store
  {
    if key !in store then Miss(store)
    else
      var e := store[key];
      if e.cacheExpires >= now && e.cacheSetAt + maxAge * 1000 >= now then
        if e.response.ResponseValue? then Hit(e.response.response) else Miss(store)
      else Miss(store - {key})
  }

  /** Forward to the next stage and store what it resolves to, unless told not to. */
  function Forward(req: Request, next: Downstream, key: string, d: Directives, store: Store, now: int): (o: Outcome)
    ensures o.nextCalled == next.Returns?
    ensures o.store.Keys <= store.Keys + {key}
    ensures forall k :: k in store && k != key ==> k in o.store && o.store[k] == store[k]
    ensures forall k :: k in o.store && (k !in store || o.store[k] != store[k]) ==> k == key && o.nextCalled && o.store[k].cacheSetAt == now
  {
    match next
    case Absent => Outcome(Async(Fulfilled(RequestValue(req))), store, false)
    case Returns(Sync(v)) => Outcome(Sync(v), store, true)
    case Returns(Async(s)) =>
      if d.noStore then Outcome(Async(s), store, true)
      else
        match s
        case Rejected(e) => Outcome(Async(Rejected(e)), store, true)
        case Fulfilled(v) =>
          match Clone(v)
          case Rejected(e) => Outcome(Async(Rejected(e)), store, true)
          case Fulfilled(c) => Outcome(Async(Fulfilled(c)), store[key := Entry(now, now + d.maxAge * 1000, c)], true)
  }

  /** The keys a call may touch: the request's own key, and none for a non-request. */
  function TouchedKeys(input: Input): set<string> {
    match input
    case RequestInput(req) => {GetKey(req)}
    case NonRequest(_) => {}
  }

  /** One call of the middleware on table `store`. */
  function Cache(store: Store, input: Input, next: Downstream, options: Options, lookupNow: int, storeNow: int): (o: Outcome)
    ensures forall k :: k !in TouchedKeys(input) ==> (k in o.store <==> k in store)
    ensures forall k :: k !in TouchedKeys(input) && k in store ==> o.store[k] == store[k]
    ensures !o.nextCalled ==> o.store.Keys <= store.Keys
    ensures forall k :: k in o.store && (k !in store || o.store[k] != store[k]) ==>
      o.nextCalled && o.store[k].cacheSetAt == storeNow
  {
    match input
    case NonRequest(_) => Outcome(Async(Rejected(TypeError(InvalidRequestMessage))), store, false)
    case RequestInput(req) =>
      if req.httpMethod !in AllowedMethods(options) then
        match next
        case Absent => Outcome(Async(Fulfilled(RequestValue(req))), store, false)
        case Returns(r) => Outcome(r, store, true)
      else
        var key := GetKey(req);
        var d := RequestDirectives(req, options);
        var cleared := if d.noCache then store - {key} else store;
        match Find(cleared, key, d.maxAge, lookupNow)
        case Hit(resp) => Outcome(Async(Fulfilled(ResponseValue(resp))), cleared, false)
        case Miss(rest) => Forward(req, next, key, d, rest, storeNow)
  }

  /** A fresh middleware instance, and the effect of its reset: an empty table. */
  function Reset(): (s: Store)
    ensures |s| == 0
  {
    map[]
  }

  // ---------------------------------------------------------------------------
  // Properties of one call.

  /** The call is answered from the table: the entry is valid at `now` on both bounds and holds a response. */
  predicate ServedFromCache(store: Store, req: Request, options: Options, now: int) {
    var key := GetKey(req);
    var d := RequestDirectives(req, options);
    && req.httpMethod in AllowedMethods(options)
    && !d.noCache
    && key in store
    && store[key].cacheExpires >= now
    && store[key].cacheSetAt + d.maxAge * 1000 >= now
    && store[key].response.ResponseValue?
  }

  /** Anything that is not a request is rejected with a TypeError; nothing is forwarded or changed. */
  lemma NonRequestRejected(store: Store, tag: int, next: Downstream, options: Options, lookupNow: int, storeNow: int)
    ensures Cache(store, NonRequest(tag), next, options, lookupNow, storeNow)
      == Outcome(Async(Rejected(TypeError(InvalidRequestMessage))), store, false)
  {
  }

  /**
   * A method outside the allow-list is handed straight to the next stage (or
   * resolved as the request itself), whatever the table holds, and the table
   * is left alone.
   */
  lemma PassThrough(store: Store, other: Store, req: Request, next: Downstream, options: Options, lookupNow: int, storeNow: int)
    requires req.httpMethod !in AllowedMethods(options)
    ensures var o := Cache(store, RequestInput(req), next, options, lookupNow, storeNow);
      && o.store == store
      && o.nextCalled == next.Returns?
      && o.returned == (if next.Returns? then next.value else Async(Fulfilled(RequestValue(req))))
      && Cache(other, RequestInput(req), next, options, lookupNow, storeNow).returned == o.returned
  {
  }

  /** When the entry is valid and holds a response, that response is returned; nothing is forwarded or changed. */
  lemma HitReturnsStored(store: Store, req: Request, next: Downstream, options: Options, lookupNow: int, storeNow: int)
    requires ServedFromCache(store, req, options, lookupNow)
    ensures Cache(store, RequestInput(req), next, options, lookupNow, storeNow)
      == Outcome(Async(Fulfilled(store[GetKey(req)].response)), store, false)
  {
  }

  /** The next stage is asked exactly when it exists and the call is not answered from the table. */
  lemma NextCalledIffNotServed(store: Store, req: Request, next: Downstream, options: Options, lookupNow: int, storeNow: int)
    ensures Cache(store, RequestInput(req), next, options, lookupNow, storeNow).nextCalled
      <==> next.Returns? && !ServedFromCache(store, req, options, lookupNow)
  {
  }

  /**
   * An entry that `no-cache` overrides, or that fails either bound, does not
   * survive the call: the key is gone afterwards unless a fresh response was
   * just stored under it.
   */
  lemma StaleEntryRemoved(store: Store, req: Request, next: Downstream, options: Options, lookupNow: int, storeNow: int)
    requires req.httpMethod in AllowedMethods(options)
    requires var key := GetKey(req); var d := RequestDirectives(req, options);
      key in store &&
      (d.noCache || store[key].cacheExpires < lookupNow || store[key].cacheSetAt + d.maxAge * 1000 < lookupNow)
    ensures var o := Cache(store, RequestInput(req), next, options, lookupNow, storeNow);
      var key := GetKey(req); var d := RequestDirectives(req, options);
      key in o.store ==> o.nextCalled && o.store[key].cacheSetAt == storeNow && o.store[key].cacheExpires == storeNow + d.maxAge * 1000
  {
    var key := GetKey(req);
    var d := RequestDirectives(req, options);
    var cleared := if d.noCache then store - {key} else store;
    var found := Find(cleared, key, d.maxAge, lookupNow);
    assert found.Miss? && key !in found.store;
  }

  /** A valid entry that holds something other than a response is neither returned nor evicted. */
  lemma ValidNonResponseKept(store: Store, req: Request, next: Downstream, options: Options, lookupNow: int, storeNow: int)
    requires req.httpMethod in AllowedMethods(options)
    requires var key := GetKey(req); var d := RequestDirectives(req, options);
      && !d.noCache && key in store
      && store[key].cacheExpires >= lookupNow && store[key].cacheSetAt + d.maxAge * 1000 >= lookupNow
      && !store[key].response.ResponseValue?
    ensures var o := Cache(store, RequestInput(req), next, options, lookupNow, storeNow);
      && GetKey(req) in o.store
      && o.nextCalled == next.Returns?
      && (o.store[GetKey(req)] == store[GetKey(req)] || o.store[GetKey(req)].cacheSetAt == storeNow)
      && o.returned == Cache(map[], RequestInput(req), next, options, lookupNow, storeNow).returned
  {
  }

  /**
   * On a miss whose forward resolves, the cloned response is returned and
   * stored under the key, set at `storeNow` and expiring one lifetime later.
   */
  lemma StoreAfterForward(store: Store, req: Request, v: Value, c: Value, options: Options, lookupNow: int, storeNow: int)
    requires req.httpMethod in AllowedMethods(options)
    requires !ServedFromCache(store, req, options, lookupNow)
    requires !RequestDirectives(req, options).noStore
    requires Clone(v) == Fulfilled(c)
    ensures var o := Cache(store, RequestInput(req), Returns(Async(Fulfilled(v))), options, lookupNow, storeNow);
      && o.nextCalled
      && o.returned == Async(Fulfilled(c))
      && GetKey(req) in o.store
      && o.store[GetKey(req)] == Entry(storeNow, storeNow + RequestDirectives(req, options).maxAge * 1000, c)
  {
  }

  /**
   * With `no-store`, or when the next stage answers without a promise, what
   * it hands back is returned unchanged and nothing is written.
   */
  lemma ForwardWithoutStore(store: Store, req: Request, r: Returned, options: Options, lookupNow: int, storeNow: int)
    requires req.httpMethod in AllowedMethods(options)
    requires !ServedFromCache(store, req, options, lookupNow)
    requires RequestDirectives(req, options).noStore || r.Sync?
    ensures var o := Cache(store, RequestInput(req), Returns(r), options, lookupNow, storeNow);
      && o.returned == r
      && o.nextCalled
      && o.store.Keys <= store.Keys
      && forall k :: k in o.store ==> o.store[k] == store[k]
  {
  }

  /**
   * When the forwarded promise rejects, the caller gets that rejection and
   * nothing is stored: the table only loses entries, and no value changes.
   */
  lemma ForwardRejects(store: Store, req: Request, e: Error, options: Options, lookupNow: int, storeNow: int)
    requires req.httpMethod in AllowedMethods(options)
    requires !ServedFromCache(store, req, options, lookupNow)
    ensures var o := Cache(store, RequestInput(req), Returns(Async(Rejected(e))), options, lookupNow, storeNow);
      && o.returned == Async(Rejected(e))
      && o.nextCalled
      && o.store.Keys <= store.Keys
      && forall k :: k in o.store ==> o.store[k] == store[k]
  {
  }

  /**
   * When the forwarded promise resolves to a response whose body was already
   * read, the clone's `text()` rejects; the caller gets that rejection and
   * nothing is stored.
   */
  lemma ForwardConsumedBodyRejects(store: Store, req: Request, r: Response, options: Options, lookupNow: int, storeNow: int)
    requires req.httpMethod in AllowedMethods(options)
    requires !ServedFromCache(store, req, options, lookupNow)
    requires !RequestDirectives(req, options).noStore
    requires r.bodyUsed && r.buffer.None?
    ensures var o := Cache(store, RequestInput(req), Returns(Async(Fulfilled(ResponseValue(r)))), options, lookupNow, storeNow);
      && o.returned == Async(Rejected(TypeError(BodyUsedMessage)))
      && o.nextCalled
      && o.store.Keys <= store.Keys
      && forall k :: k in o.store ==> o.store[k] == store[k]
  {
    CloneOfConsumedBodyRejects(r);
  }

  /** `no-cache` with `no-store` leaves no entry for the key behind. */
  lemma NoCacheNoStoreLeavesNothing(store: Store, req: Request, next: Downstream, options: Options, lookupNow: int, storeNow: int)
    requires req.httpMethod in AllowedMethods(options)
    requires RequestDirectives(req, options).noCache && RequestDirectives(req, options).noStore
    ensures GetKey(req) !in Cache(store, RequestInput(req), next, options, lookupNow, storeNow).store
  {
  }

  /** Without a next stage, a call that is not answered from the table resolves as the request itself. */
  lemma NoNextResolvesRequest(store: Store, req: Request, options: Options, lookupNow: int, storeNow: int)
    requires !ServedFromCache(store, req, options, lookupNow)
    ensures var o := Cache(store, RequestInput(req), Absent, options, lookupNow, storeNow);
      o.returned == Async(Fulfilled(RequestValue(req))) && !o.nextCalled
  {
  }

  // ---------------------------------------------------------------------------
  // The lifetime of a new entry.

  /** A directive set's lifetime is never negative when its default is not. */
  lemma MaxAgeNonNegative(value: Option<string>, defaultMaxAge: int)
    requires defaultMaxAge >= 0
    ensures ParseCacheControl(value, defaultMaxAge).maxAge >= 0
  {
    if value.Some? {
      ApplyAllKeepsNonNegative(Directives(false, false, defaultMaxAge), Tokens(value.value));
    }
  }

  /**
   * The lifetime of a stored entry: the request's own `max-age` when it has
   * one, else the `cacheLengthInSeconds` option when set and non-zero, else
   * 120 seconds.
   */
  lemma EntryLifetime(req: Request, options: Options)
    ensures var d := RequestDirectives(req, options);
      && (req.cacheControl.None? ==> d.maxAge == MaxAgeDefault(options))
      && (req.cacheControl.Some? && !NoMaxAge(Tokens(req.cacheControl.value)) ==>
            LastMaxAgeIs(Tokens(req.cacheControl.value), d.maxAge))
      && (req.cacheControl.Some? && NoMaxAge(Tokens(req.cacheControl.value)) ==> d.maxAge == MaxAgeDefault(options))
    ensures var d := RequestDirectives(req, options);
      var noLifetime := req.cacheControl.None? || NoMaxAge(Tokens(req.cacheControl.value));
      && (noLifetime && options.cacheLengthInSeconds.Some? && options.cacheLengthInSeconds.value != 0 ==>
            d.maxAge == options.cacheLengthInSeconds.value)
      && (noLifetime && (options.cacheLengthInSeconds.None? || options.cacheLengthInSeconds.value == 0) ==>
            d.maxAge == DefaultCacheLengthInSeconds)
    ensures MaxAgeDefault(options) == DefaultCacheLengthInSeconds <==>
      options.cacheLengthInSeconds.None? || options.cacheLengthInSeconds.value in {0, DefaultCacheLengthInSeconds}
  {
    if req.cacheControl.Some? {
      ParseCacheControlSpec(req.cacheControl.value, MaxAgeDefault(options));
    }
  }

  /** Every entry expires no earlier than it was stored. */
  predicate WellFormed(store: Store) {
    forall k :: k in store ==> store[k].cacheExpires >= store[k].cacheSetAt
  }

  /** Storing after a forward keeps the table well formed when the lifetime is non-negative. */
  lemma ForwardPreservesWellFormed(req: Request, next: Downstream, key: string, d: Directives, store: Store, now: int)
    requires WellFormed(store) && d.maxAge >= 0
    ensures WellFormed(Forward(req, next, key, d, store, now).store)
  {
    var o := Forward(req, next, key, d, store, now);
    if o.store != store {
      var c :| o.store == store[key := Entry(now, now + d.maxAge * 1000, c)];
    }
  }

  /** A call keeps every entry's expiry at or after its storage time, given a non-negative default lifetime. */
  lemma CachePreservesWellFormed(store: Store, input: Input, next: Downstream, options: Options, lookupNow: int, storeNow: int)
    requires WellFormed(store)
    requires MaxAgeDefault(options) >= 0
    ensures WellFormed(Cache(store, input, next, options, lookupNow, storeNow).store)
  {
    if input.RequestInput? && input.request.httpMethod in AllowedMethods(options) {
      var req := input.request;
      var key := GetKey(req);
      var d := RequestDirectives(req, options);
      MaxAgeNonNegative(req.cacheControl, MaxAgeDefault(options));
      var cleared := if d.noCache then store - {key} else store;
      match Find(cleared, key, d.maxAge, lookupNow)
      case Hit(_) =>
      case Miss(rest) =>
        ForwardPreservesWellFormed(req, next, key, d, rest, storeNow);
    }
  }

  // ---------------------------------------------------------------------------
  // Two calls in a row.

  /**
   * A response stored by one call answers a later call with the same key
   * without forwarding, as long as the later call falls within the entry's
   * own expiry and within the later request's lifetime counted from storage.
   */
  lemma RepeatWithinLifetimeHits(
    store: Store, req1: Request, resp: Response, options1: Options, lookup1: int, t: int,
    req2: Request, next2: Downstream, options2: Options, now: int, store2: int)
    requires req1.httpMethod in AllowedMethods(options1)
    requires !ServedFromCache(store, req1, options1, lookup1)
    requires !RequestDirectives(req1, options1).noStore
    requires Unread(resp)
    requires GetKey(req2) == GetKey(req1) && req2.httpMethod in AllowedMethods(options2)
    requires !RequestDirectives(req2, options2).noCache
    requires now <= t + RequestDirectives(req1, options1).maxAge * 1000
    requires now <= t + RequestDirectives(req2, options2).maxAge * 1000
    ensures var o1 := Cache(store, RequestInput(req1), Returns(Async(Fulfilled(ResponseValue(resp)))), options1, lookup1, t);
      var o2 := Cache(o1.store, RequestInput(req2), next2, options2, now, store2);
      && o1.nextCalled
      && !o2.nextCalled
      && o2.returned == o1.returned
      && o2.store == o1.store
  {
    var c := Clone(ResponseValue(resp)).value;
    CloneBuffersBody(resp);
    StoreAfterForward(store, req1, ResponseValue(resp), c, options1, lookup1, t);
    var o1 := Cache(store, RequestInput(req1), Returns(Async(Fulfilled(ResponseValue(resp)))), options1, lookup1, t);
    assert ServedFromCache(o1.store, req2, options2, now);
    HitReturnsStored(o1.store, req2, next2, options2, now, store2);
  }

  /**
   * Past either bound, the later call forwards again: past the entry's own
   * expiry, or past its storage time plus the later request's lifetime.
   */
  lemma RepeatPastEitherBoundForwards(
    store: Store, req1: Request, resp: Response, options1: Options, lookup1: int, t: int,
    req2: Request, r2: Returned, options2: Options, now: int, store2: int)
    requires req1.httpMethod in AllowedMethods(options1)
    requires !ServedFromCache(store, req1, options1, lookup1)
    requires !RequestDirectives(req1, options1).noStore
    requires Unread(resp)
    requires GetKey(req2) == GetKey(req1)
    requires now > t + RequestDirectives(req1, options1).maxAge * 1000
      || now > t + RequestDirectives(req2, options2).maxAge * 1000
    ensures var o1 := Cache(store, RequestInput(req1), Returns(Async(Fulfilled(ResponseValue(resp)))), options1, lookup1, t);
      var o2 := Cache(o1.store, RequestInput(req2), Returns(r2), options2, now, store2);
      o2.nextCalled
  {
    var c := Clone(ResponseValue(resp)).value;
    CloneBuffersBody(resp);
    StoreAfterForward(store, req1, ResponseValue(resp), c, options1, lookup1, t);
    var o1 := Cache(store, RequestInput(req1), Returns(Async(Fulfilled(ResponseValue(resp)))), options1, lookup1, t);
    assert !ServedFromCache(o1.store, req2, options2, now);
    NextCalledIffNotServed(o1.store, req2, Returns(r2), options2, now, store2);
  }

  /** After a reset no call is answered from the table. */
  lemma ResetForgetsEverything(req: Request, options: Options, now: int)
    ensures !ServedFromCache(Reset(), req, options, now)
  {
  }
}

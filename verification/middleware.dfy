/** The admission step of the rate limiter (api/src/middlewares/leakyBucket/index.ts),
    as a state transition over the bucket store. The clock is passed in, the
    downstream handler is represented by the outcome it produced, and the
    headers and body the source writes into the request context are returned. */
module LeakyBucket {
  import opened Wrappers
  import opened Decimal
  import opened Utils
  import opened Bucket
  import opened Responses

  /** How the downstream handler finished: normally, or by throwing. */
  datatype Outcome = Returned | Threw(error: string)

  /** What the middleware records as `ctx.state.rateLimit`. */
  datatype RateLimitState = RateLimitState(identifier: string, capacity: int)

  /** How one request went through the middleware. Bypassed and admitted
      requests carry the outcome the middleware passes on to its caller. */
  datatype Verdict =
    | Bypassed(result: Outcome)
    | Denied(body: DenialBody)
    | Admitted(result: Outcome)

  /** The store after the request, the recorded rate-limit state, the response
      headers and the verdict. */
  datatype Step = Step(store: Store, rateLimit: RateLimitState, headers: Headers, verdict: Verdict)

  /** `options.capacity || config.bucketCapacity`: an absent or zero option
      falls back to the configured capacity. */
  function EffectiveCapacity(option: Option<int>, configured: int): (c: int)
    ensures option.Some? && option.value != 0 ==> c == option.value
    ensures option.None? || option.value == 0 ==> c == configured
  {
    if option.Some? && option.value != 0 then option.value else configured
  }

  /** `ctx.request.body || {}`: a falsy body is read as an empty object. */
  function NormalizeBody(body: RequestBody): (b: RequestBody)
    ensures !b.Falsy?
    ensures body.Falsy? ==> b == Object(NoQuery)
    ensures !body.Falsy? ==> b == body
  {
    if body.Falsy? then Object(NoQuery) else body
  }

  /** Reading a falsy body as `{}` changes neither classification: an empty
      object is neither a GraphQL request nor a token-status query. */
  lemma NormalizingKeepsClassification(body: RequestBody)
    ensures IsGraphQLRequest(NormalizeBody(body)) == IsGraphQLRequest(body)
    ensures IsTokenStatusQuery(NormalizeBody(body)) == IsTokenStatusQuery(body)
  {
  }

  /** The admitted path (index.ts:55-70): consume one token, set Limit and
      Remaining, and restore the token only if downstream threw. */
  function AdmitRequest(resolved: Store, capacity: int, id: string, downstream: Outcome, headers: Headers)
    : (r: (Store, Headers))
    requires id in resolved && resolved[id].tokens >= 1
    ensures r.0.Keys == resolved.Keys
    ensures forall other :: other in resolved && other != id ==> r.0[other] == resolved[other]
    ensures r.0[id].lastRefill == resolved[id].lastRefill && r.0[id].lastRequest == resolved[id].lastRequest
    ensures downstream.Returned? ==> r.0[id].tokens == resolved[id].tokens - 1
    ensures downstream.Threw? ==> r.0[id].tokens == Min(capacity, resolved[id].tokens)
    ensures LimitHeader in r.1 && r.1[LimitHeader] == IntToString(capacity)
    ensures RemainingHeader in r.1 && r.1[RemainingHeader] == IntToString(resolved[id].tokens - 1)
    ensures ResetHeader in r.1 <==> ResetHeader in headers
    ensures forall k :: k in headers && k != LimitHeader && k != RemainingHeader ==> k in r.1 && r.1[k] == headers[k]
    ensures forall k :: k in r.1 ==> k in headers || k == LimitHeader || k == RemainingHeader
    ensures capacity >= 0 && StoreWithinCapacity(resolved, capacity) ==> StoreWithinCapacity(r.0, capacity)
  {
    var consumed := ConsumeToken(resolved[id]);
    var afterConsume := resolved[id := consumed];
    var admittedHeaders :=
      SetRateLimitHeaders(headers, RateLimitHeaders(IntToString(capacity), IntToString(consumed.tokens), None));
    match downstream
    case Returned => (afterConsume, admittedHeaders)
    case Threw(_) => (RestoreToken(afterConsume, id, capacity), admittedHeaders)
  }

  /** One request through the middleware.

      A token-status query is passed straight downstream. Otherwise the
      bucket is resolved (created or refilled) at `now`; with fewer than one
      token the request is denied, the denial text using the second clock
      reading `replyNow`. Otherwise one token is consumed, the Limit and
      Remaining headers are set and downstream runs; if it throws, one token
      is restored and the same error is passed on. A downstream that returns
      normally keeps the token consumed. */
  function Handle(
    store: Store, capacity: int, id: string, rawBody: RequestBody,
    now: int, replyNow: int, downstream: Outcome, headers: Headers): (s: Step)
    ensures s.rateLimit == RateLimitState(id, capacity)
    ensures s.verdict.Bypassed? <==> IsTokenStatusQuery(NormalizeBody(rawBody))
    ensures s.verdict.Bypassed? ==> s.store == store && s.headers == headers && s.verdict.result == downstream
    ensures !s.verdict.Bypassed? ==>
              id in s.store
              && s.store.Keys == store.Keys + {id}
              && forall other :: other in store && other != id ==> s.store[other] == store[other]
    ensures !s.verdict.Bypassed? ==> (s.verdict.Denied? <==> AvailableTokens(store, id, capacity, now) < 1)
    ensures s.verdict.Denied? ==>
              s.store[id].tokens == AvailableTokens(store, id, capacity, now)
              && RemainingHeader in s.headers && s.headers[RemainingHeader] == "0"
              && LimitHeader in s.headers && s.headers[LimitHeader] == IntToString(capacity)
              && RetryAfter(s.verdict.body) == ResetSeconds(s.store[id].lastRefill, replyNow)
              && ResetHeader in s.headers && s.headers[ResetHeader] == IntToString(RetryAfter(s.verdict.body))
              && (s.verdict.body.GraphQLDenial? <==> IsGraphQLRequest(NormalizeBody(rawBody)))
              && (s.verdict.body.GraphQLDenial? ==>
                    |s.verdict.body.errors| == 1 && s.verdict.body.errors[0].extensions.code == RateLimitCode)
              && (s.verdict.body.RestDenial? ==> !s.verdict.body.success)
              && s.verdict.body == HandleRateLimitExceeded(headers, NormalizeBody(rawBody), s.store[id].lastRefill, capacity, replyNow).1
    ensures !s.verdict.Bypassed? ==>
              s.store[id].lastRequest == now
              && s.store[id].lastRefill == (if id in store then Refill(store[id], capacity, now).lastRefill else now)
    ensures forall k :: k in headers && k != LimitHeader && k != RemainingHeader && k != ResetHeader ==>
              k in s.headers && s.headers[k] == headers[k]
    ensures forall k :: k in s.headers ==> k in headers || k == LimitHeader || k == RemainingHeader || k == ResetHeader
    ensures s.verdict.Admitted? ==>
              (ResetHeader in s.headers <==> ResetHeader in headers)
              && (ResetHeader in headers ==> s.headers[ResetHeader] == headers[ResetHeader])
    ensures s.verdict.Admitted? ==>
              s.verdict.result == downstream
              && RemainingHeader in s.headers
              && s.headers[RemainingHeader] == IntToString(AvailableTokens(store, id, capacity, now) - 1)
              && LimitHeader in s.headers && s.headers[LimitHeader] == IntToString(capacity)
    ensures s.verdict.Admitted? && downstream.Returned? ==>
              s.store[id].tokens == AvailableTokens(store, id, capacity, now) - 1
    ensures s.verdict.Admitted? && downstream.Threw? ==>
              s.store[id].tokens == Min(capacity, AvailableTokens(store, id, capacity, now))
    ensures capacity >= 0 && StoreWithinCapacity(store, capacity) ==> StoreWithinCapacity(s.store, capacity)
  {
    var rateLimit := RateLimitState(id, capacity);
    var body := NormalizeBody(rawBody);
    if IsTokenStatusQuery(body) then
      Step(store, rateLimit, headers, Bypassed(downstream))
    else
      var resolved := GetOrCreateBucket(store, id, capacity, now);
      if resolved[id].tokens < 1 then
        var denial := HandleRateLimitExceeded(headers, body, resolved[id].lastRefill, capacity, replyNow);
        Step(resolved, rateLimit, denial.0, Denied(denial.1))
      else
        var admitted := AdmitRequest(resolved, capacity, id, downstream, headers);
        Step(admitted.0, rateLimit, admitted.1, Admitted(downstream))
  }

  /** A denied request never reaches downstream and consumes nothing; an
      admitted request that throws leaves the count where the refill put it,
      and one that returns normally leaves it one lower. */
  lemma TokenAccounting(
    store: Store, capacity: int, id: string, rawBody: RequestBody,
    now: int, replyNow: int, downstream: Outcome, headers: Headers)
    requires capacity >= 1 && StoreWithinCapacity(store, capacity)
    ensures var s := Handle(store, capacity, id, rawBody, now, replyNow, downstream, headers);
            var before := AvailableTokens(store, id, capacity, now);
            && 0 <= before <= capacity
            && (s.verdict.Denied? ==> before == 0 && s.store[id].tokens == 0)
            && (s.verdict.Admitted? && downstream.Threw? ==> s.store[id].tokens == before)
            && (s.verdict.Admitted? && downstream.Returned? ==> s.store[id].tokens == before - 1)
  {
    if id in store {
      assert WithinCapacity(store[id], capacity);
    }
  }

  /** `n` requests in a row from the same client at the same instant, each
      completing normally; returns the final store and each verdict. */
  function Serve(store: Store, capacity: int, id: string, body: RequestBody, now: int, n: nat)
    : (r: (Store, seq<Verdict>))
    ensures |r.1| == n
    decreases n
  {
    if n == 0 then (store, [])
    else
      var s := Handle(store, capacity, id, body, now, now, Returned, map[]);
      var rest := Serve(s.store, capacity, id, body, now, n - 1);
      (rest.0, [s.verdict] + rest.1)
  }

  /** A request that finds its bucket stamped `now` with `t` tokens is denied
      when `t` is zero, and otherwise admitted with one token taken. */
  lemma HandleAtStamp(store: Store, capacity: int, id: string, body: RequestBody, now: int, t: int)
    requires id in store && store[id] == BucketState(t, now, now)
    requires !IsTokenStatusQuery(NormalizeBody(body))
    ensures var s := Handle(store, capacity, id, body, now, now, Returned, map[]);
            && (t < 1 ==> s.verdict.Denied?)
            && (t >= 1 ==> s.verdict == Admitted(Returned) && id in s.store && s.store[id] == BucketState(t - 1, now, now))
  {
    assert Refill(store[id], capacity, now) == store[id];
  }

  /** One unfolding of `Serve`, with the first step named. */
  lemma ServeFirst(store: Store, capacity: int, id: string, body: RequestBody, now: int, n: nat)
    requires n >= 1
    ensures var s := Handle(store, capacity, id, body, now, now, Returned, map[]);
            var rest := Serve(s.store, capacity, id, body, now, n - 1);
            var r := Serve(store, capacity, id, body, now, n);
            r == (rest.0, [s.verdict] + rest.1)
  {
  }

  /** `t` admissions that completed normally, then a denial. */
  predicate DrainPattern(vs: seq<Verdict>, t: nat) {
    && |vs| == t + 1
    && (forall i :: 0 <= i < t ==> vs[i] == Admitted(Returned))
    && vs[t].Denied?
  }

  lemma PrependAdmission(vs: seq<Verdict>, t: nat)
    requires DrainPattern(vs, t)
    ensures DrainPattern([Admitted(Returned)] + vs, t + 1)
  {
    var ws := [Admitted(Returned)] + vs;
    forall i | 0 <= i < t + 1
      ensures ws[i] == Admitted(Returned)
    {
      if i > 0 {
        assert ws[i] == vs[i - 1];
      }
    }
    assert ws[t + 1] == vs[t];
  }

  /** A bucket stamped `now` with `t` tokens admits `t` more requests at `now`
      and denies the next one. */
  lemma {:induction false} ServeDrainsBucket(store: Store, capacity: int, id: string, body: RequestBody, now: int, t: nat)
    requires id in store && store[id] == BucketState(t, now, now)
    requires !IsTokenStatusQuery(NormalizeBody(body))
    ensures var r := Serve(store, capacity, id, body, now, t + 1);
            && DrainPattern(r.1, t)
            && id in r.0 && r.0[id] == BucketState(0, now, now)
  {
    var s := Handle(store, capacity, id, body, now, now, Returned, map[]);
    var rest := Serve(s.store, capacity, id, body, now, t);
    assert Serve(store, capacity, id, body, now, t + 1) == (rest.0, [s.verdict] + rest.1) by {
      ServeFirst(store, capacity, id, body, now, t + 1);
    }
    HandleAtStamp(store, capacity, id, body, now, t);
    if t == 0 {
      assert rest == (s.store, []);
      assert DrainPattern([s.verdict], 0);
    } else {
      ServeDrainsBucket(s.store, capacity, id, body, now, t - 1);
      PrependAdmission(rest.1, t - 1);
    }
  }

  /** The first request of a client never seen before is admitted and leaves
      a bucket one token short of full. */
  lemma FirstRequestOfFreshClient(store: Store, capacity: int, id: string, body: RequestBody, now: int)
    requires capacity >= 1 && id !in store
    requires !IsTokenStatusQuery(NormalizeBody(body))
    ensures var s := Handle(store, capacity, id, body, now, now, Returned, map[]);
            s.verdict == Admitted(Returned) && id in s.store && s.store[id] == BucketState(capacity - 1, now, now)
  {
  }

  /** Lazy creation is unobservable: a client never seen before is served
      exactly as if a full bucket stamped `now` had been stored for it. */
  lemma FreshClientIsFullBucket(
    store: Store, capacity: int, id: string, body: RequestBody,
    now: int, replyNow: int, downstream: Outcome, headers: Headers)
    requires id !in store
    requires !IsTokenStatusQuery(NormalizeBody(body))
    ensures Handle(store, capacity, id, body, now, replyNow, downstream, headers)
            == Handle(store[id := BucketState(capacity, now, now)], capacity, id, body, now, replyNow, downstream, headers)
  {
    var full := store[id := BucketState(capacity, now, now)];
    assert GetOrCreateBucket(full, id, capacity, now) == full;
  }

  /** A run of requests from a client never seen before gets the verdicts a
      full bucket stamped `now` would give. */
  lemma {:induction false} ServeFreshClient(store: Store, capacity: int, id: string, body: RequestBody, now: int, n: nat)
    requires id !in store
    requires !IsTokenStatusQuery(NormalizeBody(body))
    ensures Serve(store, capacity, id, body, now, n).1
            == Serve(store[id := BucketState(capacity, now, now)], capacity, id, body, now, n).1
  {
    if n > 0 {
      var full := store[id := BucketState(capacity, now, now)];
      FreshClientIsFullBucket(store, capacity, id, body, now, now, Returned, map[]);
      ServeFirst(store, capacity, id, body, now, n);
      ServeFirst(full, capacity, id, body, now, n);
    }
  }

  /** With capacity C >= 1, a client never seen before sending requests that
      all complete normally, and no hour passing, gets exactly C admissions
      and then a denial. */
  lemma FreshClientAdmitsExactlyCapacity(store: Store, capacity: int, id: string, body: RequestBody, now: int)
    requires capacity >= 1 && id !in store
    requires !IsTokenStatusQuery(NormalizeBody(body))
    ensures DrainPattern(Serve(store, capacity, id, body, now, capacity + 1).1, capacity)
  {
    var s := Handle(store, capacity, id, body, now, now, Returned, map[]);
    var rest := Serve(s.store, capacity, id, body, now, capacity);
    FirstRequestOfFreshClient(store, capacity, id, body, now);
    ServeFirst(store, capacity, id, body, now, capacity + 1);
    ServeDrainsBucket(s.store, capacity, id, body, now, capacity - 1);
    PrependAdmission(rest.1, capacity - 1);
  }

  /** A request whose downstream throws leaves the next request at the same
      instant seeing the same Remaining header as it did. */
  lemma ThrowingRequestIsFree(
    store: Store, capacity: int, id: string, body: RequestBody, now: int, error: string)
    requires StoreWithinCapacity(store, capacity)
    ensures var first := Handle(store, capacity, id, body, now, now, Threw(error), map[]);
            var second := Handle(first.store, capacity, id, body, now, now, Returned, map[]);
            first.verdict.Admitted? ==>
              second.verdict.Admitted? && second.headers[RemainingHeader] == first.headers[RemainingHeader]
  {
    var first := Handle(store, capacity, id, body, now, now, Threw(error), map[]);
    if first.verdict.Admitted? {
      TokenAccounting(store, capacity, id, body, now, now, Threw(error), map[]);
      var b := first.store[id];
      assert Refill(b, capacity, now) == b by {
        RefillIdempotent(if id in store then store[id] else BucketState(capacity, now, now), capacity, now);
      }
    }
  }

  /** The delay a denial announces is honest: the client stays denied until
      the bucket's next hour boundary, and a retry the announced number of
      seconds after the reply's own clock reading finds a token. Assumes the
      clock has not gone backwards, neither before the request nor between
      the two readings. */
  lemma DenialDelayIsHonest(
    store: Store, capacity: int, id: string, body: RequestBody, now: int, replyNow: int, headers: Headers)
    requires capacity >= 1 && StoreWithinCapacity(store, capacity)
    requires id in store ==> store[id].lastRefill <= now
    requires now <= replyNow
    ensures var s := Handle(store, capacity, id, body, now, replyNow, Returned, headers);
            s.verdict.Denied? ==>
              && id in s.store
              && (forall t :: now <= t < now + TimeUntilNextToken(s.store[id].lastRefill, now) ==>
                    AvailableTokens(s.store, id, capacity, t) == 0)
              && AvailableTokens(s.store, id, capacity, replyNow + 1000 * RetryAfter(s.verdict.body)) >= 1
  {
    var s := Handle(store, capacity, id, body, now, replyNow, Returned, headers);
    if s.verdict.Denied? {
      TokenAccounting(store, capacity, id, body, now, replyNow, Returned, headers);
      var b := s.store[id];
      assert b.tokens == 0;
      assert b.lastRefill <= now < b.lastRefill + MillisecondsInHour;
      var ms := TimeUntilNextToken(b.lastRefill, now);
      assert now + ms == b.lastRefill + MillisecondsInHour;
      var retry := replyNow + 1000 * RetryAfter(s.verdict.body);
      assert retry >= b.lastRefill + MillisecondsInHour;
      assert Refill(b, capacity, retry).tokens >= 1;
    }
  }

  /** The exemption is keyed on the text alone: any query text that mentions
      the marker anywhere, whatever else it asks for, skips the limiter. */
  lemma MarkerAnywhereBypasses(
    store: Store, capacity: int, id: string, before: string, after: string,
    now: int, replyNow: int, downstream: Outcome, headers: Headers)
    ensures var s := Handle(store, capacity, id, Object(TextQuery(before + TokenStatusMarker + after)),
                            now, replyNow, downstream, headers);
            s.verdict == Bypassed(downstream) && s.store == store
  {
    var text := before + TokenStatusMarker + after;
    assert text[|before|..|before| + |TokenStatusMarker|] == TokenStatusMarker;
    assert OccursAt(text, TokenStatusMarker, |before|);
  }
}

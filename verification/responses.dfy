/** Denial shaping (api/src/middlewares/leakyBucket/responses.ts): the
    `X-RateLimit-*` headers and the two denial envelopes, one for GraphQL
    requests and one for plain REST requests. Headers are a returned map
    rather than writes into a request context. */
module Responses {
  import opened Wrappers
  import opened Decimal
  import opened Utils

  type Headers = map<string, string>

  const LimitHeader: string := "X-RateLimit-Limit"
  const RemainingHeader: string := "X-RateLimit-Remaining"
  const ResetHeader: string := "X-RateLimit-Reset"

  /** The header values to set; `reset` is optional (types.ts:51-55). */
  datatype RateLimitHeaders = RateLimitHeaders(limit: string, remaining: string, reset: Option<string>)

  /** `if (headers.reset)`: a reset value counts only when present and non-empty. */
  predicate HasReset(values: RateLimitHeaders) {
    values.reset.Some? && values.reset.value != ""
  }

  /** `setRateLimitHeaders`: Limit and Remaining always, Reset only when
      supplied; every other header is kept. */
  function SetRateLimitHeaders(h: Headers, values: RateLimitHeaders): (r: Headers)
    ensures LimitHeader in r && r[LimitHeader] == values.limit
    ensures RemainingHeader in r && r[RemainingHeader] == values.remaining
    ensures HasReset(values) ==> ResetHeader in r && r[ResetHeader] == values.reset.value
    ensures !HasReset(values) ==>
              (ResetHeader in r <==> ResetHeader in h)
              && (ResetHeader in h ==> r[ResetHeader] == h[ResetHeader])
    ensures forall k :: k in h && k != LimitHeader && k != RemainingHeader && k != ResetHeader ==>
              k in r && r[k] == h[k]
    ensures forall k :: k in r ==> k in h || k == LimitHeader || k == RemainingHeader || k == ResetHeader
  {
    var withCounts := h[LimitHeader := values.limit][RemainingHeader := values.remaining];
    if HasReset(values) then withCounts[ResetHeader := values.reset.value] else withCounts
  }

  /** The token summary carried by both denial bodies. */
  datatype TokenStatusView = TokenStatusView(available: int, maximum: int, remaining: int)

  datatype ErrorExtensions = ErrorExtensions(
    code: string,
    retryAfter: int,
    retryAfterFormatted: string,
    availableTokens: int,
    maxTokens: int,
    tokenStatus: TokenStatusView)

  datatype GraphQLError = GraphQLError(message: string, extensions: ErrorExtensions)

  /** The two denial envelopes (types.ts:20-49). The GraphQL envelope's
      `data` member is always null, so it is not stored. */
  datatype DenialBody =
    | GraphQLDenial(errors: seq<GraphQLError>)
    | RestDenial(
        success: bool,
        message: string,
        retryAfter: int,
        retryAfterFormatted: string,
        tokenStatus: TokenStatusView)

  const RateLimitCode: string := "RATE_LIMIT_EXCEEDED"

  const MessagePrefix: string := "Limite de requisições excedido. Por favor, tente novamente em "

  /** The fixed prefix, then the retry text, then a full stop. */
  function DenialMessage(formatted: string): string {
    MessagePrefix + formatted + "."
  }

  /** Reads the retry seconds back out of a denial message. */
  function ParseDenialMessage(message: string): Option<int> {
    if |message| > |MessagePrefix| && message[..|MessagePrefix|] == MessagePrefix
       && message[|message| - 1] == '.'
    then ParseDuration(message[|MessagePrefix|..|message| - 1])
    else None
  }

  /** A client can recover the retry delay from the message text alone. */
  lemma DenialMessageRoundTrip(seconds: nat)
    ensures ParseDenialMessage(DenialMessage(FormatTimeInMinutes(seconds))) == Some(seconds)
  {
    var formatted := FormatTimeInMinutes(seconds);
    var message := DenialMessage(formatted);
    assert message[..|MessagePrefix|] == MessagePrefix;
    assert message[|MessagePrefix|..|message| - 1] == formatted;
    FormatTimeRoundTrip(seconds);
  }

  /** The envelope-independent view of a denial body. */
  function RetryAfter(d: DenialBody): int {
    match d
    case GraphQLDenial(errors) => if |errors| > 0 then errors[0].extensions.retryAfter else 0
    case RestDenial(_, _, retryAfter, _, _) => retryAfter
  }

  function RetryAfterFormatted(d: DenialBody): string {
    match d
    case GraphQLDenial(errors) => if |errors| > 0 then errors[0].extensions.retryAfterFormatted else ""
    case RestDenial(_, _, _, formatted, _) => formatted
  }

  function Message(d: DenialBody): string {
    match d
    case GraphQLDenial(errors) => if |errors| > 0 then errors[0].message else ""
    case RestDenial(_, message, _, _, _) => message
  }

  function Status(d: DenialBody): TokenStatusView {
    match d
    case GraphQLDenial(errors) =>
      if |errors| > 0 then errors[0].extensions.tokenStatus else TokenStatusView(0, 0, 0)
    case RestDenial(_, _, _, _, status) => status
  }

  /** `createGraphQLRateLimitResponse`: null data and exactly one error coded
      RATE_LIMIT_EXCEEDED that reports zero available tokens out of capacity. */
  function CreateGraphQLRateLimitResponse(seconds: int, capacity: int): (r: DenialBody)
    ensures r.GraphQLDenial? && |r.errors| == 1
    ensures r.errors[0].extensions.code == RateLimitCode
    ensures r.errors[0].extensions.availableTokens == 0
    ensures r.errors[0].extensions.maxTokens == capacity
    ensures RetryAfter(r) == seconds
    ensures RetryAfterFormatted(r) == FormatTimeInMinutes(seconds)
    ensures Message(r) == DenialMessage(RetryAfterFormatted(r))
    ensures Status(r) == TokenStatusView(0, capacity, 0)
  {
    var formattedTime := FormatTimeInMinutes(seconds);
    GraphQLDenial([
      GraphQLError(
        DenialMessage(formattedTime),
        ErrorExtensions(RateLimitCode, seconds, formattedTime, 0, capacity, TokenStatusView(0, capacity, 0)))
    ])
  }

  /** `createRestRateLimitResponse`: `success = false` with the same message,
      retry delay and token summary. */
  function CreateRestRateLimitResponse(seconds: int, capacity: int): (r: DenialBody)
    ensures r.RestDenial? && !r.success
    ensures RetryAfter(r) == seconds
    ensures RetryAfterFormatted(r) == FormatTimeInMinutes(seconds)
    ensures Message(r) == DenialMessage(RetryAfterFormatted(r))
    ensures Status(r) == TokenStatusView(0, capacity, 0)
  {
    var formattedTime := FormatTimeInMinutes(seconds);
    RestDenial(false, DenialMessage(formattedTime), seconds, formattedTime, TokenStatusView(0, capacity, 0))
  }

  /** `Math.ceil(calculateTimeUntilNextToken(lastRefill, now) / 1000)`: the
      whole seconds until the bucket's next hour boundary. */
  function ResetSeconds(lastRefill: int, now: int): (s: int)
    ensures (s - 1) * 1000 < TimeUntilNextToken(lastRefill, now) <= s * 1000
    ensures 1 <= s <= 7200
    ensures now >= lastRefill ==> s <= 3600
  {
    CeilSeconds(TimeUntilNextToken(lastRefill, now))
  }

  /** `handleRateLimitExceeded`: headers Limit = capacity, Remaining = 0,
      Reset = seconds until the next token; the GraphQL envelope exactly when
      the body is a GraphQL request, the REST envelope otherwise. */
  function HandleRateLimitExceeded(h: Headers, body: RequestBody, lastRefill: int, capacity: int, now: int)
    : (r: (Headers, DenialBody))
    ensures r.1.GraphQLDenial? <==> IsGraphQLRequest(body)
    ensures RetryAfter(r.1) == ResetSeconds(lastRefill, now)
    ensures RetryAfterFormatted(r.1) == FormatTimeInMinutes(RetryAfter(r.1))
    ensures Message(r.1) == DenialMessage(RetryAfterFormatted(r.1))
    ensures Status(r.1) == TokenStatusView(0, capacity, 0)
    ensures LimitHeader in r.0 && r.0[LimitHeader] == IntToString(capacity)
    ensures RemainingHeader in r.0 && r.0[RemainingHeader] == "0"
    ensures ResetHeader in r.0 && r.0[ResetHeader] == IntToString(RetryAfter(r.1))
    ensures r.1.GraphQLDenial? ==>
              && |r.1.errors| == 1
              && r.1.errors[0].extensions.code == RateLimitCode
              && r.1.errors[0].extensions.availableTokens == 0
              && r.1.errors[0].extensions.maxTokens == capacity
    ensures r.1.RestDenial? ==> !r.1.success
    ensures forall k :: k in h && k != LimitHeader && k != RemainingHeader && k != ResetHeader ==>
              k in r.0 && r.0[k] == h[k]
    ensures forall k :: k in r.0 ==> k in h || k == LimitHeader || k == RemainingHeader || k == ResetHeader
  {
    var seconds := ResetSeconds(lastRefill, now);
    var headers := SetRateLimitHeaders(h, RateLimitHeaders(IntToString(capacity), "0", Some(IntToString(seconds))));
    var denial :=
      if IsGraphQLRequest(body) then CreateGraphQLRateLimitResponse(seconds, capacity)
      else CreateRestRateLimitResponse(seconds, capacity);
    (headers, denial)
  }

  /** The Reset header, the `retryAfter` field and the message text of a
      denial all carry the same delay, and a clock that has not gone
      backwards puts it between one second and one hour. */
  lemma DenialIsConsistent(h: Headers, body: RequestBody, lastRefill: int, capacity: int, now: int)
    ensures var (headers, denial) := HandleRateLimitExceeded(h, body, lastRefill, capacity, now);
            && ParseInt(headers[ResetHeader]) == Some(RetryAfter(denial))
            && ParseInt(headers[RemainingHeader]) == Some(0)
            && ParseDenialMessage(Message(denial)) == Some(RetryAfter(denial))
            && ParseDuration(RetryAfterFormatted(denial)) == Some(RetryAfter(denial))
            && (now >= lastRefill ==> 1 <= RetryAfter(denial) <= 3600)
  {
    var (headers, denial) := HandleRateLimitExceeded(h, body, lastRefill, capacity, now);
    var seconds := RetryAfter(denial);
    ParseIntOfIntToString(seconds);
    ParseIntOfIntToString(0);
    DenialMessageRoundTrip(seconds);
    FormatTimeRoundTrip(seconds);
  }
}

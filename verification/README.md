# Leaky-bucket rate limiter: a verified Dafny model

This project models the per-client rate limiter of the `leaky-bucket` API server and the small mock
account registry next to it, and proves properties of the model.

- Each client identifier (by default the client's IP address) owns a bucket of at most `capacity` tokens.
- The bucket gains one token per whole hour elapsed. The refill is lazy: it runs when the bucket is next looked up.
- An admitted request consumes one token. A request that finds no token is denied with a
  GraphQL or REST envelope and `X-RateLimit-*` headers, including a Portuguese retry estimate
  ("2 minutos e 30 segundos").
- Requests whose GraphQL query mentions `tokenStatus` skip the limiter.

Modules, one per source file:

| module | file | models |
|---|---|---|
| `Wrappers` | `wrappers.dfy` | `Option` and `Result` |
| `Decimal` | `decimal.dfy` | JavaScript's decimal rendering of whole numbers, and a parser that reads it back |
| `Utils` | `utils.dfy` | `utils.ts`: hour arithmetic, JavaScript `%`, `Math.ceil`, the retry text, the body classifiers |
| `Bucket` | `bucket.dfy` | `bucket.ts`: the store `map<string, BucketState>`, refill, create, consume, restore, status |
| `Responses` | `responses.dfy` | `responses.ts`: headers and the two denial envelopes |
| `LeakyBucket` | `middleware.dfy` | `index.ts`: one request through the middleware, as a pure state transition |
| `Resolvers` | `resolvers.dfy` | `graphql/resolvers/index.ts`: `register`, `login`, and the `tokenStatus` query |

How the source's effects are represented:

- The source mutates a global `Map` and the bucket records in it. Every operation here takes the store and returns the new one.
- `Date.now()` is read in three places. Each reading becomes a parameter. The middleware takes two: `now` (`index.ts:24`) and `replyNow` (`responses.ts:103`).
- The downstream handler is represented only by how it finished: `Returned` or `Threw(error)`.
- Headers and bodies that the source writes into the Koa context are returned as values instead.

Arithmetic follows JavaScript:

- Timestamps, token counts and the capacity are unbounded `int`s.
- `Math.floor(x / 3600000)` is Dafny's `/`, because the divisor is positive.
- JavaScript's `%` truncates toward zero, so it is `Utils.JsRemainder`, not Dafny's Euclidean `%`.
- `Math.ceil(ms / 1000)` is `Utils.CeilSeconds`.

## Behaviour notes

Where the code and its own comments differ, the model follows the code:

- The doc comments of `consumeToken` and `restoreToken` (`bucket.ts:60-65`, `bucket.ts:71-75`) describe the consumed token as
  temporary, restored after the request is processed.
- The code restores it only in the `catch` at `index.ts:64-70`, that is, when downstream throws.
  A request that completes normally keeps its token consumed, whatever its body says.
  So `capacity` consecutive successful requests exhaust a fresh bucket (`LeakyBucket.FreshClientAdmitsExactlyCapacity`).
  A request that throws costs nothing (`LeakyBucket.ThrowingRequestIsFree`).
- `calculateTokensToAdd` (`utils.ts:7-14`) floors the elapsed hours, so it is negative when the clock went backwards.
  Only the refill guard `tokensToAdd > 0` (`bucket.ts:21`) makes this harmless.
  The model keeps the negative value (`Utils.TokensToAdd`).
- The exemption test is a substring search over the whole query text. Any query that mentions `tokenStatus`
  anywhere, even alongside a mutation, skips the limiter (`LeakyBucket.MarkerAnywhereBypasses`).
- The middleware uses `options.capacity || config.bucketCapacity` (`index.ts:19`), but the `tokenStatus` resolver always uses
  `config.bucketCapacity` (`resolvers/index.ts:85`). When the two differ, a status query can cut a bucket the middleware
  filled above the configured capacity down to it (`Resolvers.StatusQueryCapsAtConfiguredCapacity`).

## Model

| member | source | states |
|---|---|---|
| `Decimal.ParseIntOfIntToString` | api/src/middlewares/leakyBucket/responses.ts:112-114 | the decimal text written into a header (`toString()`) parses back to the same integer, negative values included |
| `Decimal.NatToStringInjective` | api/src/graphql/resolvers/index.ts:102 | two naturals have the same decimal rendering exactly when they are equal, so ids `(n).toString()` never collide |
| `Utils.TokensToAdd` | api/src/middlewares/leakyBucket/utils.ts:7-14 | the result k is the floor of elapsed/3 600 000: k·H ≤ now − lastRefill < (k+1)·H. It is 0 below one hour, negative when the clock went backwards, and positive from one hour on |
| `Utils.JsRemainder` | api/src/middlewares/leakyBucket/utils.ts:48 | JavaScript `%` for a positive divisor: a = b·trunc(a/b) + r with the quotient truncated toward zero, so r has the dividend's sign and magnitude below the divisor; it equals the Euclidean remainder on non-negative dividends |
| `Utils.TimeUntilNextToken` | api/src/middlewares/leakyBucket/utils.ts:43-49 | always in (0, 2H), and now + ms = lastRefill + (trunc((now − lastRefill)/H) + 1)·H. If now ≥ lastRefill it is in (0, H], now + ms is the next whole-hour boundary after lastRefill, and it is exactly H when now − lastRefill is a whole number of hours. It is ≥ H when the clock went backwards |
| `Utils.CeilSeconds` | api/src/middlewares/leakyBucket/responses.ts:108 | `Math.ceil(ms/1000)`: the least s with ms ≤ 1000·s |
| `Utils.FormatTimeInMinutes` | api/src/middlewares/leakyBucket/utils.ts:21-35 | under a minute, "S segundos" (including "0 segundos"). A whole number of minutes gives "M minuto" or "M minutos" with no seconds part. Otherwise "M minuto(s) e S segundos" with M = s div 60, S = s mod 60; the seconds word is always plural |
| `Utils.FormatTimeRoundTrip` | api/src/middlewares/leakyBucket/utils.ts:21-35 | the retry text of every non-negative duration parses back (`ParseDuration`) to that duration |
| `Utils.Contains` | api/src/middlewares/leakyBucket/utils.ts:60 | `includes`: true exactly when the pattern occurs at some index of the text |
| `Utils.IsTokenStatusQuery` | api/src/middlewares/leakyBucket/utils.ts:56-73 | true exactly when the body is an object whose `query` is a string containing "tokenStatus"; every such body is also a GraphQL request (object with a `query` key) |
| `Utils.IsGraphQLRequest` | api/src/middlewares/leakyBucket/utils.ts:69-73 | an object with a `query` key is a GraphQL request whatever the query's value (string or not); a falsy or non-object body, or an object without `query`, is not |
| `Bucket.Refill` | api/src/middlewares/leakyBucket/bucket.ts:14-29 | lastRefill only advances, and only by whole hours. Tokens become min(capacity, tokens + hours advanced). Under one hour elapsed, or a backwards clock, nothing changes. With now ≥ lastRefill, afterwards lastRefill ≤ now < lastRefill + H (the partial hour is carried). For a bucket within [0, capacity], the bounds are kept and tokens never drop |
| `Bucket.RefillAfterWholeHours` | api/src/middlewares/leakyBucket/bucket.ts:19-26 | after k whole hours, exactly min(k, capacity − tokens) tokens are added, and lastRefill advances by exactly k·H |
| `Bucket.RefillIdempotent` | api/src/middlewares/leakyBucket/bucket.ts:19-26 | a second refill at the same instant changes nothing |
| `Bucket.RefillComposes` | api/src/middlewares/leakyBucket/bucket.ts:19-26 | refilling at t1 then at t2 ≥ t1 equals refilling once at t2, so lazy refill is path-independent |
| `Bucket.GetOrCreateBucket` | api/src/middlewares/leakyBucket/bucket.ts:38-58 | an unseen identifier gets {capacity, now, now}. A known one is refilled and gets lastRequest = now. Its tokens equal `AvailableTokens`, no other key changes, and store bounds are kept |
| `Bucket.ConsumeToken` | api/src/middlewares/leakyBucket/bucket.ts:66-69 | tokens become max(0, tokens − 1): one less from one token up, 0 otherwise, never negative; timestamps are untouched |
| `Bucket.RestoreToken` | api/src/middlewares/leakyBucket/bucket.ts:76-81 | a known identifier gets min(capacity, tokens + 1). An unknown identifier leaves the store unchanged and creates nothing. Other keys are untouched |
| `Bucket.RestoreUndoesConsume` | api/src/middlewares/leakyBucket/bucket.ts:66-81 | restore right after consume returns the original store, when the bucket held between 1 and capacity tokens |
| `Bucket.GetTokenStatus` | api/src/middlewares/leakyBucket/bucket.ts:89-100 | reports the post-refill count and maxTokens = capacity. It may create a bucket, and no bucket in a within-capacity store loses tokens |
| `Responses.SetRateLimitHeaders` | api/src/middlewares/leakyBucket/responses.ts:18-27 | Limit and Remaining are always set. Reset is set only when supplied and non-empty. No other header changes |
| `Responses.DenialMessageRoundTrip` | api/src/middlewares/leakyBucket/responses.ts:39-45 | the denial message (fixed prefix, retry text, ".") parses back to the retry seconds |
| `Responses.CreateGraphQLRateLimitResponse` | api/src/middlewares/leakyBucket/responses.ts:35-61 | exactly one error with code RATE_LIMIT_EXCEEDED, retryAfter = the seconds given, the formatted text and message built from them, availableTokens 0, maxTokens = capacity, tokenStatus {0, capacity, 0} |
| `Responses.CreateRestRateLimitResponse` | api/src/middlewares/leakyBucket/responses.ts:69-86 | success = false, the same message, retryAfter and formatted text, and tokenStatus {0, capacity, 0} |
| `Responses.ResetSeconds` | api/src/middlewares/leakyBucket/responses.ts:104-108 | the ceiling of the milliseconds to the next token, divided by 1000. Always in [1, 7200]; in [1, 3600] when now ≥ lastRefill |
| `Responses.HandleRateLimitExceeded` | api/src/middlewares/leakyBucket/responses.ts:96-122 | the GraphQL envelope exactly when the body is a GraphQL request, otherwise REST. The GraphQL envelope has exactly one error, coded RATE_LIMIT_EXCEEDED, with availableTokens 0 and maxTokens = capacity; the REST one has success = false. Headers: Limit = capacity, Remaining = "0", Reset = retryAfter = `ResetSeconds`; no other header is added or changed |
| `Responses.DenialIsConsistent` | api/src/middlewares/leakyBucket/responses.ts:104-122 | the Reset header, the retryAfter field, the formatted text and the message all decode to the same delay, which is 1 to 3600 s when the clock has not gone backwards |
| `LeakyBucket.EffectiveCapacity` | api/src/middlewares/leakyBucket/index.ts:19 | a configured option is used unless absent or zero, in which case the configuration value is |
| `LeakyBucket.NormalizeBody` | api/src/middlewares/leakyBucket/index.ts:32 | a falsy body becomes the empty object `{}` (an object without a `query` key); any other body is kept |
| `LeakyBucket.NormalizingKeepsClassification` | api/src/middlewares/leakyBucket/index.ts:32 | reading a falsy body as `{}` changes neither the GraphQL nor the token-status classification |
| `LeakyBucket.AdmitRequest` | api/src/middlewares/leakyBucket/index.ts:55-70 | one token is consumed and Remaining is set to the post-decrement count. The token is restored (capped) only if downstream threw. Other keys of the store are untouched. Only Limit and Remaining are written: every other header, Reset included, keeps its value and none is added |
| `LeakyBucket.Handle` | api/src/middlewares/leakyBucket/index.ts:22-71 | `rateLimit = {identifier, capacity}` on every request. A token-status body bypasses: store and headers unchanged, downstream's outcome passed on. Otherwise the bucket gets lastRequest = now and the refilled lastRefill, and the request is denied iff the post-refill count is below 1. A denial leaves the count unchanged, sets Remaining "0" and Reset = retryAfter = `ResetSeconds(lastRefill, replyNow)`, carries one RATE_LIMIT_EXCEEDED error (GraphQL) or success = false (REST), and is exactly the body `handleRateLimitExceeded` builds from the normalized body, the refilled lastRefill, capacity and `replyNow`. On admission downstream's outcome is passed on unchanged, Remaining = count − 1, and the bucket keeps count − 1 if downstream returned or min(capacity, count) if it threw. An admitted request sets only Limit and Remaining and leaves Reset as it was; Reset is written only on a denial. Headers other than Limit, Remaining and Reset keep their values and no other header is added; other keys of the store are untouched; capacity bounds are kept |
| `LeakyBucket.TokenAccounting` | api/src/middlewares/leakyBucket/index.ts:41-70 | in a within-capacity store: a denial means the count was 0 and stays 0; a throwing request leaves the count as it was; a returning request leaves it one lower |
| `LeakyBucket.ServeDrainsBucket` | api/src/middlewares/leakyBucket/index.ts:41-56 | a bucket stamped `now` with t tokens admits t consecutive requests at `now`, denies the next, and ends at 0 tokens |
| `LeakyBucket.FirstRequestOfFreshClient` | api/src/middlewares/leakyBucket/bucket.ts:45-51 | an unseen client's first request is admitted and leaves capacity − 1 tokens |
| `LeakyBucket.FreshClientIsFullBucket` | api/src/middlewares/leakyBucket/bucket.ts:38-58 | lazy creation is unobservable: a request from an unseen identifier gets the same store, headers and verdict as if a full bucket stamped `now` had already been stored for it |
| `LeakyBucket.ServeFreshClient` | api/src/middlewares/leakyBucket/bucket.ts:38-58 | a run of n requests at `now` from an unseen client gets the same verdicts as a full bucket stamped `now` would |
| `LeakyBucket.HandleAtStamp` | api/src/middlewares/leakyBucket/index.ts:41-56 | a bucket already stamped `now` is not refilled: with 0 tokens the request is denied, with t ≥ 1 it is admitted and leaves t − 1 |
| `LeakyBucket.FreshClientAdmitsExactlyCapacity` | api/src/middlewares/leakyBucket/index.ts:41-56 | with capacity C ≥ 1, a fresh identifier and no time passing, exactly C consecutive normally-completing requests are admitted and the (C+1)th is denied |
| `LeakyBucket.ThrowingRequestIsFree` | api/src/middlewares/leakyBucket/index.ts:64-70 | after an admitted request whose downstream throws, the next request at the same instant is admitted with the same Remaining header |
| `LeakyBucket.DenialDelayIsHonest` | api/src/middlewares/leakyBucket/responses.ts:103-108 | after a denial, with the clock not gone backwards before the request nor between the request's reading `now` and the reply's reading `replyNow`, the client stays at 0 tokens until the next hour boundary after `now`, and a retry `retryAfter` seconds after `replyNow` finds at least one token |
| `LeakyBucket.MarkerAnywhereBypasses` | api/src/middlewares/leakyBucket/index.ts:35-38 | any string query containing "tokenStatus" anywhere bypasses the limiter and leaves the store unchanged |
| `Resolvers.FindByEmail` | api/src/graphql/resolvers/index.ts:124 | `find`: the index of the first user with that email, or none exactly when no user has it |
| `Resolvers.Register` | api/src/graphql/resolvers/index.ts:93-117 | fails with a UserInputError iff the email is taken, and the store is unchanged. On success exactly one user is appended, id = decimal(old length + 1), earlier users are unchanged, and it returns token "mock_token_for_" + id with the password-free record |
| `Resolvers.Login` | api/src/graphql/resolvers/index.ts:119-139 | an unknown email gives a UserInputError. The first user with the email decides: an AuthenticationError exactly when its password differs, success exactly when it matches, returning that user's token and password-free record. Both errors carry "Credenciais inválidas" |
| `Resolvers.InitialRegistry` | api/src/graphql/resolvers/index.ts:40-49 | the fixture satisfies the registry invariant (ids 1..n in order, distinct emails) |
| `Resolvers.RegistryIdsDistinct` | api/src/graphql/resolvers/index.ts:102 | in a registry, ids are pairwise distinct |
| `Resolvers.RegisterKeepsRegistry` | api/src/graphql/resolvers/index.ts:97-110 | one register call keeps the registry invariant |
| `Resolvers.RegisterAllKeepsRegistry` | api/src/graphql/resolvers/index.ts:97-110 | any sequence of register calls keeps emails pairwise distinct and ids sequential |
| `Resolvers.LoginAfterRegister` | api/src/graphql/resolvers/index.ts:101-138 | after a successful register, logging in with that email and password returns exactly what register returned |
| `Resolvers.StatusIdentifier` | api/src/graphql/resolvers/index.ts:84 | the identifier recorded by the middleware, unless absent or empty, else the client address |
| `Resolvers.TokenStatusQuery` | api/src/graphql/resolvers/index.ts:79-89 | resolves (creates or refills) the chosen identifier's bucket with the configured capacity, and reports its post-refill count with maxTokens = the configured capacity |
| `Resolvers.StatusRequestNeverConsumes` | api/src/middlewares/leakyBucket/index.ts:35-38 | a token-status request bypasses the middleware (whatever capacity it runs with) with headers untouched; the resolver that follows, with the configured capacity, never lowers any bucket's count in a store within that capacity, including at 0 |
| `Resolvers.StatusQueryCapsAtConfiguredCapacity` | api/src/graphql/resolvers/index.ts:85 | with the configured capacity below the middleware's, a status query after an hour cuts a bucket at 8 tokens to the configured 5 |

## Left out

- Koa plumbing is not modelled: `ctx.set`, `ctx.body`, `ctx.state`, `console.log` (and the `identifier` argument of `handleRateLimitExceeded`, used only for that log line). Values are returned instead.
- `options.identifierKey` is not modelled. The identifier it extracts (by default `ctx.ip`) is a parameter.
- `config.bucketCapacity` is not part of this model. It is a parameter; properties that need a positive capacity require `capacity >= 1`.
- `Date.now()` is not modelled: each reading is a parameter.
- Concurrency is not modelled. No suspension point separates lookup from consume, so the check-then-consume step is sequential. Other requests interleaving during `await next()` are out of scope, and the downstream handler is assumed not to touch the bucket store.
- A thrown downstream error is an opaque string tag, passed on unchanged.
- JavaScript numbers are modelled as unbounded integers. Floating-point timestamps, `NaN` and values beyond 2^53 are out of scope.
- `initiatePixTransaction` is left out: it uses floating-point amounts, `toFixed`, `Math.random` ids and ISO timestamps.
- `getRateLimit` is left out: it parses a response header and adds one second to the wall clock.
- `me` is left out: it returns a fixed fixture.
- The `createdAt`/`updatedAt` fields of users are left out, because they are wall-clock strings.
- The GraphQL envelope's `data` member is always `null` and is not stored.
- Apollo's `UserInputError` and `AuthenticationError` become the `AuthError` tags.
- Type declaration files (`types.ts`, `types/graphql.ts`), the k6 load tests and the dashboard front end carry no logic and are not part of this model.

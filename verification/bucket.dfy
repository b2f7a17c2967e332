/** The bucket store (api/src/middlewares/leakyBucket/bucket.ts): a map from
    client identifier to bucket state, with lazy creation at full capacity,
    lazy whole-hour refill capped at capacity, consumption floored at zero and
    restoration capped at capacity. The source mutates shared records in
    place; here every operation returns the new store. */
module Bucket {
  import opened Utils

  /** One client's bucket (types.ts:4-8). */
  datatype BucketState = BucketState(tokens: int, lastRefill: int, lastRequest: int)

  /** The process-wide map from identifier to bucket. */
  type Store = map<string, BucketState>

  /** What a token-status query reports. */
  datatype TokenStatus = TokenStatus(availableTokens: int, maxTokens: int)

  function Min(a: int, b: int): int {
    if a <= b then a else b
  }

  function Max(a: int, b: int): int {
    if a >= b then a else b
  }

  predicate WithinCapacity(b: BucketState, capacity: int) {
    0 <= b.tokens <= capacity
  }

  /** Every bucket of the store holds between zero and `capacity` tokens. */
  predicate StoreWithinCapacity(store: Store, capacity: int) {
    forall id :: id in store ==> WithinCapacity(store[id], capacity)
  }

  /** The refill performed by `getCurrentTokens`: one token per whole hour
      elapsed, capped at capacity; `lastRefill` moves by whole hours only, so
      the partial hour is carried forward. */
  function Refill(b: BucketState, capacity: int, now: int): (r: BucketState)
    ensures r.lastRequest == b.lastRequest
    ensures r.lastRefill >= b.lastRefill && (r.lastRefill - b.lastRefill) % MillisecondsInHour == 0
    ensures r.lastRefill == b.lastRefill ==> r == b
    ensures r.lastRefill > b.lastRefill ==>
              r.tokens == Min(capacity, b.tokens + (r.lastRefill - b.lastRefill) / MillisecondsInHour)
    ensures now < b.lastRefill + MillisecondsInHour ==> r == b
    ensures now >= b.lastRefill ==> r.lastRefill <= now < r.lastRefill + MillisecondsInHour
    ensures WithinCapacity(b, capacity) ==> WithinCapacity(r, capacity) && b.tokens <= r.tokens
  {
    var tokensToAdd := TokensToAdd(b.lastRefill, now);
    if tokensToAdd > 0 then
      b.(lastRefill := b.lastRefill + tokensToAdd * MillisecondsInHour,
         tokens := Min(capacity, b.tokens + tokensToAdd))
    else
      b
  }

  /** After exactly `k` whole hours (and less than `k + 1`) with no request in
      between, `min(k, capacity - tokens)` tokens are added and `lastRefill`
      advances by exactly `k` hours. */
  lemma RefillAfterWholeHours(b: BucketState, capacity: int, now: int, k: nat)
    requires WithinCapacity(b, capacity)
    requires k * MillisecondsInHour <= now - b.lastRefill < (k + 1) * MillisecondsInHour
    ensures Refill(b, capacity, now).lastRefill == b.lastRefill + k * MillisecondsInHour
    ensures Refill(b, capacity, now).tokens == b.tokens + Min(k, capacity - b.tokens)
  {
    assert TokensToAdd(b.lastRefill, now) == k;
  }

  /** Refilling twice at the same instant is the same as refilling once. */
  lemma RefillIdempotent(b: BucketState, capacity: int, now: int)
    ensures Refill(Refill(b, capacity, now), capacity, now) == Refill(b, capacity, now)
  {
  }

  /** Laziness is unobservable: refilling at `t1` and then at a later `t2`
      gives the same bucket as refilling only at `t2`. */
  lemma RefillComposes(b: BucketState, capacity: int, t1: int, t2: int)
    requires t1 <= t2
    ensures Refill(Refill(b, capacity, t1), capacity, t2) == Refill(b, capacity, t2)
  {
    var k1 := TokensToAdd(b.lastRefill, t1);
    var k := TokensToAdd(b.lastRefill, t2);
    assert k1 <= k;
    if k1 > 0 {
      var b1 := Refill(b, capacity, t1);
      assert b1.lastRefill == b.lastRefill + k1 * MillisecondsInHour;
      var k2 := TokensToAdd(b1.lastRefill, t2);
      assert k2 == k - k1;
    }
  }

  /** `getOrCreateBucket`: an unseen identifier gets a full bucket stamped
      `now`; a known one is refilled and its `lastRequest` set to `now`. No
      other entry changes. */
  function GetOrCreateBucket(store: Store, id: string, capacity: int, now: int): (s: Store)
    ensures id in s && s.Keys == store.Keys + {id}
    ensures forall other :: other in store && other != id ==> s[other] == store[other]
    ensures s[id].tokens == AvailableTokens(store, id, capacity, now)
    ensures id !in store ==> s[id] == BucketState(capacity, now, now)
    ensures id in store ==>
              s[id].lastRequest == now
              && s[id].tokens == Refill(store[id], capacity, now).tokens
              && s[id].lastRefill == Refill(store[id], capacity, now).lastRefill
    ensures capacity >= 0 && StoreWithinCapacity(store, capacity) ==> StoreWithinCapacity(s, capacity)
  {
    if id !in store then
      store[id := BucketState(capacity, now, now)]
    else
      store[id := Refill(store[id], capacity, now).(lastRequest := now)]
  }

  /** The token count an identifier would see after the lazy refill at `now`,
      computed without touching the store. */
  function AvailableTokens(store: Store, id: string, capacity: int, now: int): int {
    if id in store then Refill(store[id], capacity, now).tokens else capacity
  }

  /** `consumeToken`: one token less, never below zero. */
  function ConsumeToken(b: BucketState): (r: BucketState)
    ensures r.tokens >= 0
    ensures b.tokens >= 1 ==> r.tokens == b.tokens - 1
    ensures b.tokens <= 1 ==> r.tokens == 0
    ensures r.lastRefill == b.lastRefill && r.lastRequest == b.lastRequest
  {
    b.(tokens := Max(0, b.tokens - 1))
  }

  /** `restoreToken`: one token more, capped at capacity, for a known
      identifier; an unknown identifier is left absent. */
  function RestoreToken(store: Store, id: string, capacity: int): (s: Store)
    ensures s.Keys == store.Keys
    ensures forall other :: other in store && other != id ==> s[other] == store[other]
    ensures id in store ==>
              s[id].tokens == Min(capacity, store[id].tokens + 1)
              && s[id].lastRefill == store[id].lastRefill
              && s[id].lastRequest == store[id].lastRequest
    ensures id !in store ==> s == store
    ensures capacity >= 0 && StoreWithinCapacity(store, capacity) ==> StoreWithinCapacity(s, capacity)
  {
    if id in store then
      store[id := store[id].(tokens := Min(capacity, store[id].tokens + 1))]
    else
      store
  }

  /** Restoring right after consuming gives back the store as it was, as long
      as there was a token to consume and the bucket was within capacity. */
  lemma RestoreUndoesConsume(store: Store, id: string, capacity: int)
    requires id in store && 1 <= store[id].tokens <= capacity
    ensures RestoreToken(store[id := ConsumeToken(store[id])], id, capacity) == store
  {
    var s := RestoreToken(store[id := ConsumeToken(store[id])], id, capacity);
    assert s[id] == store[id];
    assert s.Keys == store.Keys;
  }

  /** `getTokenStatus`: resolves the bucket (which may create or refill it)
      and reports its token count against the capacity, consuming nothing. */
  function GetTokenStatus(store: Store, id: string, capacity: int, now: int): (r: (Store, TokenStatus))
    ensures r.0 == GetOrCreateBucket(store, id, capacity, now)
    ensures r.1 == TokenStatus(AvailableTokens(store, id, capacity, now), capacity)
    ensures StoreWithinCapacity(store, capacity) ==>
              forall other :: other in store ==> other in r.0 && store[other].tokens <= r.0[other].tokens
  {
    var s := GetOrCreateBucket(store, id, capacity, now);
    (s, TokenStatus(s[id].tokens, capacity))
  }
}

/** The pure helpers of the rate limiter (api/src/middlewares/leakyBucket/utils.ts):
    hour-based refill arithmetic, the Portuguese "minutos e segundos" retry
    text, and the two classifiers of a request body. */
module Utils {
  import opened Wrappers
  import opened Decimal

  /** One refill interval: one hour, in milliseconds. */
  const MillisecondsInHour: int := 60 * 60 * 1000

  // ---------------------------------------------------------------------------
  // Refill arithmetic
  // ---------------------------------------------------------------------------

  /** Whole hours elapsed between `lastRefill` and `now`, rounded toward minus
      infinity as `Math.floor` does; negative when the clock went backwards. */
  function TokensToAdd(lastRefill: int, now: int): (k: int)
    ensures k * MillisecondsInHour <= now - lastRefill < (k + 1) * MillisecondsInHour
    ensures 0 <= now - lastRefill < MillisecondsInHour ==> k == 0
    ensures now < lastRefill ==> k < 0
    ensures now - lastRefill >= MillisecondsInHour ==> k > 0
  {
    (now - lastRefill) / MillisecondsInHour
  }

  /** The quotient of `a / b` truncated toward zero, as `Math.trunc` gives it. */
  function TruncatedQuotient(a: int, b: int): (q: int)
    requires b > 0
    ensures a >= 0 ==> q * b <= a < (q + 1) * b
    ensures a < 0 ==> (q - 1) * b < a <= q * b
  {
    if a >= 0 then a / b else -((-a) / b)
  }

  /** JavaScript's `a % b` for a positive divisor: the remainder of division
      truncated toward zero, so it takes the sign of the dividend. */
  function JsRemainder(a: int, b: int): (r: int)
    requires b > 0
    ensures a == b * TruncatedQuotient(a, b) + r
    ensures -b < r < b
    ensures a >= 0 ==> r >= 0
    ensures a <= 0 ==> r <= 0
    ensures a >= 0 ==> r == a % b
  {
    if a >= 0 then a % b
    else
      assert -a == b * ((-a) / b) + (-a) % b;
      -((-a) % b)
  }

  /** Milliseconds until the bucket's next whole-hour boundary. */
  function TimeUntilNextToken(lastRefill: int, now: int): (ms: int)
    ensures 0 < ms < 2 * MillisecondsInHour
    ensures now >= lastRefill ==>
              ms <= MillisecondsInHour
              && now + ms == lastRefill + (TokensToAdd(lastRefill, now) + 1) * MillisecondsInHour
    ensures now >= lastRefill && (now - lastRefill) % MillisecondsInHour == 0 ==> ms == MillisecondsInHour
    ensures now < lastRefill ==> ms >= MillisecondsInHour
    ensures now + ms == lastRefill + (TruncatedQuotient(now - lastRefill, MillisecondsInHour) + 1) * MillisecondsInHour
  {
    MillisecondsInHour - JsRemainder(now - lastRefill, MillisecondsInHour)
  }

  /** `Math.ceil(ms / 1000)`: whole seconds, rounded up. */
  function CeilSeconds(ms: int): (s: int)
    ensures (s - 1) * 1000 < ms <= s * 1000
  {
    (ms + 999) / 1000
  }

  // ---------------------------------------------------------------------------
  // Retry text
  // ---------------------------------------------------------------------------

  function MinuteWord(minutes: int): string {
    if minutes == 1 then "minuto" else "minutos"
  }

  /** The words between the minute count and the second count. */
  function MinuteSeparator(m: int): (sep: string)
    ensures m == 1 ==> sep == " minuto e "
    ensures m != 1 ==> sep == " minutos e "
  {
    " " + MinuteWord(m) + " e "
  }

  /** The human-readable retry estimate: seconds only under a minute, minutes
      only on a whole minute, otherwise "M minuto(s) e S segundos". The
      seconds word is always plural. */
  function FormatTimeInMinutes(seconds: int): (text: string)
    ensures 0 <= seconds < 60 ==> text == NatToString(seconds) + " segundos"
    ensures seconds >= 60 && seconds % 60 == 0 ==>
              text == NatToString(seconds / 60) + (" " + MinuteWord(seconds / 60))
    ensures seconds >= 60 && seconds % 60 != 0 ==>
              text == NatToString(seconds / 60)
                      + (MinuteSeparator(seconds / 60) + (NatToString(seconds % 60) + " segundos"))
  {
    var minutes := seconds / 60;
    var remainingSeconds := JsRemainder(seconds, 60);
    if minutes == 0 then
      IntToString(remainingSeconds) + " segundos"
    else if remainingSeconds == 0 then
      IntToString(minutes) + (" " + MinuteWord(minutes))
    else
      IntToString(minutes) + (MinuteSeparator(minutes) + (IntToString(remainingSeconds) + " segundos"))
  }

  /** Reads "S segundos" at the very end of a retry text. */
  function ParseSecondsPart(text: string): Option<nat> {
    match ParseNat(text)
    case Some((r, rest)) => if rest == " segundos" then Some(r) else None
    case None => None
  }

  /** Reads what follows the leading count `n` of a retry text. */
  function ParseUnits(n: nat, rest: string): Option<int> {
    if rest == " segundos" then Some(n)
    else if rest == " minuto" || rest == " minutos" then Some(60 * n)
    else if |rest| >= 10 && rest[..10] == " minuto e " then
      match ParseSecondsPart(rest[10..])
      case Some(r) => Some(60 * n + r)
      case None => None
    else if |rest| >= 11 && rest[..11] == " minutos e " then
      match ParseSecondsPart(rest[11..])
      case Some(r) => Some(60 * n + r)
      case None => None
    else None
  }

  /** Reads a retry text back into seconds: the inverse of the formatter. */
  function ParseDuration(text: string): Option<int> {
    match ParseNat(text)
    case None => None
    case Some((n, rest)) => ParseUnits(n, rest)
  }

  lemma UnitsAfterMinute(m: nat, tail: string, r: nat)
    requires ParseSecondsPart(tail) == Some(r)
    ensures ParseUnits(m, " minuto e " + tail) == Some(60 * m + r)
  {
    var rest := " minuto e " + tail;
    assert rest[..10] == " minuto e " && rest[10..] == tail;
    assert rest[1] == 'm' && |rest| > 8;
  }

  lemma UnitsAfterMinutes(m: nat, tail: string, r: nat)
    requires ParseSecondsPart(tail) == Some(r)
    ensures ParseUnits(m, " minutos e " + tail) == Some(60 * m + r)
  {
    var rest := " minutos e " + tail;
    assert rest[..11] == " minutos e " && rest[11..] == tail;
    assert rest[1] == 'm' && rest[7] == 's' && |rest| > 8;
  }

  lemma ParseSecondsOnly(seconds: nat)
    ensures ParseDuration(NatToString(seconds) + " segundos") == Some(seconds)
  {
    ParseNatOfNatToString(seconds, " segundos");
  }

  lemma ParseMinutesOnly(m: nat)
    ensures ParseDuration(NatToString(m) + (" " + MinuteWord(m))) == Some(60 * m)
  {
    ParseNatOfNatToString(m, " " + MinuteWord(m));
  }

  lemma ParseMinutesAndSeconds(m: nat, r: nat)
    ensures ParseDuration(NatToString(m) + (MinuteSeparator(m) + (NatToString(r) + " segundos")))
            == Some(60 * m + r)
  {
    var tail := NatToString(r) + " segundos";
    ParseNatOfNatToString(r, " segundos");
    ParseNatOfNatToString(m, MinuteSeparator(m) + tail);
    if m == 1 {
      UnitsAfterMinute(m, tail, r);
    } else {
      UnitsAfterMinutes(m, tail, r);
    }
  }

  /** The retry text of a non-negative duration reads back to that duration,
      so the formatter never loses or confuses a value. */
  lemma FormatTimeRoundTrip(seconds: nat)
    ensures ParseDuration(FormatTimeInMinutes(seconds)) == Some(seconds)
  {
    var m := seconds / 60;
    var r := seconds % 60;
    if seconds < 60 {
      ParseSecondsOnly(seconds);
    } else if r == 0 {
      ParseMinutesOnly(m);
    } else {
      ParseMinutesAndSeconds(m, r);
    }
  }

  // ---------------------------------------------------------------------------
  // Request classification
  // ---------------------------------------------------------------------------

  /** The `query` member of a request body: absent, a string, or present with
      a value of some other type. */
  datatype QueryMember = NoQuery | TextQuery(text: string) | OtherQuery

  /** A parsed request body: a falsy value (missing, null, empty string, 0,
      false), a truthy primitive, or an object (arrays included). */
  datatype RequestBody = Falsy | Primitive | Object(query: QueryMember)

  /** The marker whose presence in a query text exempts the request. */
  const TokenStatusMarker: string := "tokenStatus"

  /** `pat` occurs in `text` starting at index `i`. */
  ghost predicate OccursAt(text: string, pat: string, i: int) {
    0 <= i && i + |pat| <= |text| && text[i..i + |pat|] == pat
  }

  lemma OccursAtShift(text: string, pat: string)
    requires |text| > 0
    ensures forall j :: 0 <= j ==> (OccursAt(text[1..], pat, j) <==> OccursAt(text, pat, j + 1))
  {
    forall j | 0 <= j
      ensures OccursAt(text[1..], pat, j) <==> OccursAt(text, pat, j + 1)
    {
      if j + 1 + |pat| <= |text| {
        assert text[1..][j..j + |pat|] == text[j + 1..j + 1 + |pat|];
      }
    }
  }

  /** JavaScript's `String.prototype.includes`. */
  function Contains(text: string, pat: string): (b: bool)
    ensures b <==> exists i :: OccursAt(text, pat, i)
    decreases |text|
  {
    if |text| < |pat| then false
    else if text[..|pat|] == pat then
      assert OccursAt(text, pat, 0);
      true
    else
      OccursAtShift(text, pat);
      assert forall i :: OccursAt(text, pat, i) ==> i != 0;
      assert forall i :: OccursAt(text, pat, i) ==> OccursAt(text[1..], pat, i - 1);
      Contains(text[1..], pat)
  }

  /** A GraphQL request: a body object that has a `query` key, whatever its
      value. Unlike the token-status test, a non-string query still counts. */
  function IsGraphQLRequest(body: RequestBody): (b: bool)
    ensures body.Falsy? || body.Primitive? ==> !b
    ensures body.Object? && body.query.NoQuery? ==> !b
    ensures body.Object? && body.query.TextQuery? ==> b
    ensures body.Object? && body.query.OtherQuery? ==> b
  {
    match body
    case Object(query) => !query.NoQuery?
    case _ => false
  }

  /** A token-status inspection: a string query that mentions the marker.
      Every such request is also a GraphQL request. */
  function IsTokenStatusQuery(body: RequestBody): (r: bool)
    ensures r <==> body.Object? && body.query.TextQuery?
                   && exists i :: OccursAt(body.query.text, TokenStatusMarker, i)
    ensures r ==> IsGraphQLRequest(body)
  {
    match body
    case Object(TextQuery(text)) => Contains(text, TokenStatusMarker)
    case _ => false
  }
}

/** Conversions between DNP3 timestamps, which are milliseconds since 1970, and .NET date-times,
    which are 100-nanosecond ticks since the year 1 together with the kind of clock they are on. */
module TimeStamps {
  import opened Results

  type int64 = n: int | -0x8000_0000_0000_0000 <= n < 0x8000_0000_0000_0000

  const TICKS_PER_MS := 10000
  const EPOCH := 621355968000000000     // 1970-01-01T00:00:00
  const LAST := 3155378975999999999     // `DateTime.MaxValue`
  const MAX := LAST - EPOCH             // the longest span that can be added to the epoch

  type ticks = t: int | 0 <= t <= LAST

  datatype Kind = Utc | Local | Unspecified
  datatype DateTime = DateTime(ticks: ticks, kind: Kind)

  datatype TimeError = Overflow | OutOfRange

  /** The milliseconds that `TimeSpan.FromMilliseconds` takes without overflow, up to this limit on
      either side of zero, reach past the last date-time; their ticks fit in 64 bits. */
  predicate Span(limit: nat) {
    MAX < limit * TICKS_PER_MS < 0x8000_0000_0000_0000
  }

  /** `Convert(Int64)`. */
  function FromDnp(time: int64, limit: nat): Result<DateTime, TimeError>
    requires Span(limit)
  {
    if time > limit || time + limit < 0 then Failure(Overflow)
    else
      var ms := time * TICKS_PER_MS;
      if ms > MAX then Success(DateTime(LAST, Unspecified))
      else if EPOCH + ms < 0 then Failure(OutOfRange)
      else Success(DateTime(EPOCH + ms, Utc))
  }

  /** `ToUniversalTime`: a date-time that is not on the UTC clock is taken to be local, and moved by
      the offset of the local zone, staying within the representable dates. */
  function Universal(d: DateTime, offset: int -> int): ticks {
    if d.kind == Utc then d.ticks
    else
      var t := d.ticks - offset(d.ticks);
      if t < 0 then 0 else if t > LAST then LAST else t
  }

  /** The ticks of a span in milliseconds; C# divides towards zero. */
  function Milliseconds(n: int): int {
    if n >= 0 then n / TICKS_PER_MS else 0 - (0 - n) / TICKS_PER_MS
  }

  /** `Convert(DateTime)`. */
  function ToDnp(d: DateTime, offset: int -> int): int64 {
    Milliseconds(Universal(d, offset) - EPOCH)
  }

  const FIRST_MS := -62135596800000
  const LAST_MS := 253402300799999

  const DAY := 24 * 60 * 60 * 1000 * TICKS_PER_MS

  /** The constants by the calendar: from the year 1 to 1970 there are 1969 years, 477 of them leap
      years, and from 1 to 10000 there are 9999 with 2424 leap years. */
  lemma ConstantsByCalendar()
    ensures EPOCH == (1969 * 365 + 477) * DAY && LAST == (9999 * 365 + 2424) * DAY - 1
    ensures 1969 / 4 - 1969 / 100 + 1969 / 400 == 477 && 9999 / 4 - 9999 / 100 + 9999 / 400 == 2424
  {}

  /** Some moments: the epoch itself, one day and one millisecond on either side, and noon in a zone
      that is an hour ahead of UTC. */
  lemma Moments(limit: nat, hour: int)
    requires Span(limit) && hour == DAY / 24
    ensures FromDnp(0, limit) == Success(DateTime(EPOCH, Utc))
    ensures FromDnp(86400001, limit) == Success(DateTime(EPOCH + DAY + 10000, Utc))
    ensures FromDnp(-86400001, limit) == Success(DateTime(EPOCH - DAY - 10000, Utc))
    ensures ToDnp(DateTime(EPOCH + 12 * hour, Local), t => hour) == 11 * 60 * 60 * 1000
    ensures ToDnp(DateTime(EPOCH + 12 * hour, Unspecified), t => hour) == 11 * 60 * 60 * 1000
    ensures ToDnp(DateTime(EPOCH + 12 * hour, Utc), t => hour) == 12 * 60 * 60 * 1000
  {}

  /** Local time is universal time plus the offset, as long as the universal time is representable;
      otherwise it is the nearest representable one. */
  lemma LocalIsUniversalPlusOffset(d: DateTime, offset: int -> int)
    ensures d.kind == Utc ==> Universal(d, offset) == d.ticks
    ensures d.kind != Utc && offset(d.ticks) <= d.ticks <= LAST + offset(d.ticks) ==>
              Universal(d, offset) + offset(d.ticks) == d.ticks
    ensures d.kind != Utc && d.ticks < offset(d.ticks) ==> Universal(d, offset) == 0
    ensures d.kind != Utc && LAST + offset(d.ticks) < d.ticks ==> Universal(d, offset) == LAST
  {}

  /** Exactly the timestamps from the first representable date up to the limit convert; those before
      it fail as out of range, and those beyond the limit on either side as overflow. */
  lemma ConvertsExactly(time: int64, limit: nat)
    requires Span(limit)
    ensures FromDnp(time, limit).Success? <==> FIRST_MS <= time <= limit
    ensures FromDnp(time, limit) == Failure(OutOfRange) <==> 0 <= time + limit && time < FIRST_MS
    ensures FromDnp(time, limit) == Success(DateTime(LAST, Unspecified)) <==> LAST_MS < time <= limit
  {}

  /** A timestamp comes back as itself if and only if it is not beyond the last date: above that it
      saturates, whatever the local zone. */
  lemma MillisecondsRoundTrip(time: int64, limit: nat, offset: int -> int)
    requires Span(limit) && FIRST_MS <= time <= limit
    ensures ToDnp(FromDnp(time, limit).value, offset) == time <==> time <= LAST_MS
    ensures time > LAST_MS ==> ToDnp(FromDnp(time, limit).value, offset) <= LAST_MS
  {
    var back := FromDnp(time, limit).value;
    if time <= LAST_MS {
      assert back == DateTime(EPOCH + time * TICKS_PER_MS, Utc);
    } else {
      assert Universal(back, offset) <= LAST;
    }
  }

  lemma QuotientIsTowardsZero(n: int)
    ensures var q := Milliseconds(n);
            && (n >= 0 ==> 0 <= n - q * TICKS_PER_MS < TICKS_PER_MS)
            && (n <= 0 ==> 0 <= q * TICKS_PER_MS - n < TICKS_PER_MS)
            && (q * TICKS_PER_MS == n <==> n % TICKS_PER_MS == 0)
  {}

  /** A date-time comes back on the UTC clock, less than a millisecond away and never further from
      the epoch; it comes back exactly if and only if it is a whole number of milliseconds. */
  lemma DateTimeRoundTrip(d: DateTime, limit: nat, offset: int -> int)
    requires Span(limit)
    ensures var back, u := FromDnp(ToDnp(d, offset), limit), Universal(d, offset);
            && back.Success? && back.value.kind == Utc
            && -TICKS_PER_MS < back.value.ticks - u < TICKS_PER_MS
            && (u >= EPOCH ==> EPOCH <= back.value.ticks <= u)
            && (u <= EPOCH ==> u <= back.value.ticks <= EPOCH)
            && (back.value.ticks == u <==> u % TICKS_PER_MS == 0)
  {
    var n := Universal(d, offset) - EPOCH;
    var q := Milliseconds(n);
    QuotientIsTowardsZero(n);
    assert FIRST_MS <= q <= LAST_MS;
    ConvertsExactly(q, limit);
    assert EPOCH == 62135596800000 * TICKS_PER_MS;
  }

  /** Neither direction changes an order; within the representable dates later timestamps are later
      date-times. */
  lemma ConversionsAreMonotone(s: int64, t: int64, c: DateTime, d: DateTime, limit: nat, offset: int -> int)
    requires Span(limit) && FIRST_MS <= s <= t <= limit
    requires Universal(c, offset) <= Universal(d, offset)
    ensures FromDnp(s, limit).value.ticks <= FromDnp(t, limit).value.ticks
    ensures FromDnp(s, limit).value.ticks == FromDnp(t, limit).value.ticks <==> s == t || s > LAST_MS
    ensures ToDnp(c, offset) <= ToDnp(d, offset)
  {
    ConvertsExactly(s, limit);
    ConvertsExactly(t, limit);
  }
}

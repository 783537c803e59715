/** The ends of the windows that are written with numbers, in nanoseconds. */
module WindowTexts {
  import opened Wrappers
  import opened Numbers
  import opened Durations
  import opened GoStrings
  import opened Calendar
  import opened Windows

  /** The seconds of a unit letter. */
  predicate LastsSeconds(unit: char, seconds: int) {
    (unit, seconds) in {('m', 60), ('h', 3_600), ('d', 86_400), ('w', 604_800)}
  }

  /** As an offset, a week stands for 24 weeks. */
  predicate OffsetLastsSeconds(unit: char, seconds: int) {
    (unit, seconds) in {('m', 60), ('h', 3_600), ('d', 86_400), ('w', 24 * 604_800)}
  }

  lemma BackIs(n: nat, unit: int)
    requires unit >= 0
    ensures Back(n, unit) == -(n * unit) <==> n * unit <= -MIN_INT64
  {
    var k := WrapShift(-(n * unit));
    var i: int := n;
    assert -i * unit == -(n * unit);
  }

  /** "Nm" and "Nh" end now and start that many minutes or hours before, exactly as long as these fit in 64 bits. */
  lemma PastMinutesAndHours(n: nat, unit: char, seconds: int, now: Time, rfc: string -> Option<(Time, Time)>)
    requires unit in {'m', 'h'} && LastsSeconds(unit, seconds)
    ensures var w := ParseWindowAt(Decimal(n) + [unit], now, rfc);
      && w.Success? && w.value.end == Some(now) && w.value.start.Some?
      && (w.value.start.value == Time(now.ns - n * (seconds * SECOND), now.zone) <==> n * (seconds * SECOND) <= -MIN_INT64)
  {
    hide ParseWindowAt, Decimal, Back;
    PastWindowText(n, unit, now, rfc);
    var length := seconds * SECOND;
    assert UnitLength(unit) == length;
    BackIs(n, length);
    BackIs(MAX_INT64, length);
    if n > MAX_INT64 {
      MoreThanFits(n, length);
    }
  }

  lemma MoreThanFits(n: int, length: int)
    requires n > MAX_INT64 && length >= 2
    ensures n * length > -MIN_INT64 && Back(MAX_INT64, length) != -(n * length)
  {
    assert n * length >= n * 2;
  }

  lemma AmountMatched(n: nat, unit: char, rest: string)
    requires unit in {'m', 'h', 'd', 'w'}
    ensures MatchAmount(Decimal(n) + ([unit] + rest)) == Some((Decimal(n), unit, rest))
  {
    hide Decimal, TakeDigits;
    DecimalRoundTrip(n);
    var tail := [unit] + rest;
    TakeDigitsOfConcat(Decimal(n), tail);
    assert tail[1..] == rest;
  }

  /** "Nu offset Mv" ends M units v before now and starts N units u before that, as long as these fit in 64 bits. */
  lemma OffsetWindowText(n: nat, u: char, seconds: int, m: nat, v: char, offsetSeconds: int, now: Time,
                         rfc: string -> Option<(Time, Time)>)
    requires LastsSeconds(u, seconds) && OffsetLastsSeconds(v, offsetSeconds)
    requires n * (seconds * SECOND) <= -MIN_INT64 && m * (offsetSeconds * SECOND) <= -MIN_INT64
    ensures var end := now.ns - m * (offsetSeconds * SECOND);
      ParseWindowAt(Decimal(n) + ([u] + (" offset " + (Decimal(m) + [v]))), now, rfc) ==
        Success(Closed(Time(end - n * (seconds * SECOND), now.zone), Time(end, now.zone)))
  {
    hide Decimal, Back, MatchAmount, StartOfToday, StartOfWeek, StartOfMonth, NatOf;
    var amount := Decimal(m) + [v];
    var rest := " offset " + amount;
    var s := Decimal(n) + ([u] + rest);
    AmountMatched(n, u, rest);
    AmountMatched(m, v, "");
    assert Decimal(m) + ([v] + "") == amount by {
      assert [v] + "" == [v];
    }
    assert rest[8..] == amount && HasPrefix(rest, " offset ") && rest != "";
    DecimalRoundTrip(n);
    DecimalRoundTrip(m);
    assert IsDigit(s[0]);
    NotNamed(s);
    FitsInInt64(n, seconds * SECOND);
    FitsInInt64(m, offsetSeconds * SECOND);
    assert UnitLength(u) == seconds * SECOND && OffsetUnitLength(v) == offsetSeconds * SECOND;
    BackIs(n, seconds * SECOND);
    BackIs(m, offsetSeconds * SECOND);
    OffsetEnds(n, u, seconds * SECOND, m, v, offsetSeconds * SECOND, now);
  }

  lemma FitsInInt64(n: nat, length: int)
    requires length >= 2 && n * length <= -MIN_INT64
    ensures n <= MAX_INT64
  {
    assert n * length >= n * 2;
  }

  lemma OffsetEnds(n: nat, u: char, length: int, m: nat, v: char, offset: int, now: Time)
    requires UnitLength(u) == length && OffsetUnitLength(v) == offset
    requires Back(n, length) == -(n * length) && Back(m, offset) == -(m * offset)
    ensures OffsetWindow(n, u, m, v, now) ==
      Closed(Time(now.ns - m * offset - n * length, now.zone), Time(now.ns - m * offset, now.zone))
  {
    hide Back;
  }

  /** Two numbers are seconds after 00:00 UTC of January 1, 1970, as long as they fit in 64 bits from year 1 on. */
  lemma TimestampPairText(a: nat, b: nat, separator: char, now: Time, rfc: string -> Option<(Time, Time)>)
    requires separator in {',', '|', '-'}
    requires a + DayNumber(Date(1970, 1, 1)) * 86_400 <= MAX_INT64 && b + DayNumber(Date(1970, 1, 1)) * 86_400 <= MAX_INT64
    ensures var epoch := DayNumber(Date(1970, 1, 1)) * DAY;
      ParseWindowAt(Decimal(a) + ([separator] + Decimal(b)), now, rfc) ==
        Success(Closed(Time(epoch + a * SECOND, 0), Time(epoch + b * SECOND, 0)))
  {
    hide Decimal, NatOf, TakeDigits, StartOfToday, StartOfWeek, StartOfMonth, DayNumber;
    EpochIs();
    DecimalRoundTrip(a);
    DecimalRoundTrip(b);
    var tail := [separator] + Decimal(b);
    var s := Decimal(a) + tail;
    assert tail[1..] == Decimal(b);
    TakeDigitsOfConcat(Decimal(a), tail);
    TakeDigitsOfConcat(Decimal(b), "");
    assert Decimal(b) + "" == Decimal(b);
    assert IsDigit(s[0]);
    NotNamed(s);
    assert MatchAmount(s) == None;
    assert MatchTimestampPair(s) == Some((Decimal(a), Decimal(b)));
  }

  lemma EpochIs()
    ensures DayNumber(Date(1970, 1, 1)) * 86_400 == UNIX_EPOCH
    ensures DayNumber(Date(1970, 1, 1)) * DAY == UNIX_EPOCH * SECOND
  {
  }
}

/** Printing durations for Prometheus and reading them back (timeutil.go). */
module DurationStrings {
  import opened Wrappers
  import opened Numbers
  import opened Durations
  import opened GoStrings

  const TWO_TO_THE_53: int := 0x20_0000_0000_0000

  predicate Fixed(float64: real -> real, n: int) {
    float64(n as real) == n as real
  }

  /** Two reals of at most 53 bits before the binary point. */
  predicate Ordered(x: real, y: real) {
    -(TWO_TO_THE_53 as real) <= x <= y <= TWO_TO_THE_53 as real
  }

  /** What is used of rounding to float64: it keeps the order and integers of 53 bits, and errs by half a unit. */
  ghost predicate IsFloat64(float64: real -> real) {
    && (forall x, y :: Ordered(x, y) ==> float64(x) <= float64(y))
    && (forall n :: -TWO_TO_THE_53 <= n <= TWO_TO_THE_53 ==> Fixed(float64, n))
    && (forall x :: Ordered(1.0 / TWO_TO_THE_53 as real, x) ==> HalfUnit(float64(x), x))
  }

  predicate HalfUnit(y: real, x: real) {
    -x <= (y - x) * TWO_TO_THE_53 as real <= x
  }

  /** Division of int64, truncated toward zero. */
  function Quotient(x: int, y: int): int
    requires y > 0
  {
    if x >= 0 then x / y else -(-x / y)
  }

  /** duration.Seconds(): whole seconds plus the rest, each operation rounded. */
  function Seconds(duration: int, float64: real -> real): real {
    var sec := Quotient(duration, SECOND);
    var nsec := duration - sec * SECOND;
    float64(float64(sec as real) + float64(float64(nsec as real) / SECOND as real))
  }

  /** int64(duration.Seconds()), truncated toward zero. */
  function WholeSeconds(duration: int, float64: real -> real): int {
    var x := Seconds(duration, float64);
    if x >= 0.0 then x.Floor else -((-x).Floor)
  }

  /** Days, hours, minutes or seconds; nothing below one second. */
  function Printed(secs: int): string {
    if secs <= 0 then ""
    else if secs % 86_400 == 0 then Decimal(secs / 86_400) + "d"
    else if secs % 3_600 == 0 then Decimal(secs / 3_600) + "h"
    else if secs % 60 == 0 then Decimal(secs / 60) + "m"
    else Decimal(secs) + "s"
  }

  function DurationString(duration: int, float64: real -> real): string {
    Printed(WholeSeconds(duration, float64))
  }

  function CleanDurationString(s: string): string {
    TrimPrefix(TrimSpace(s), "offset ")
  }

  function ParseDuration(s: string): Option<int> {
    Parsed(CleanDurationString(s))
  }

  /** The regular expression of a number and one unit among w, d, h, m and s. */
  predicate IsValidDurationString(s: string) {
    |s| >= 2 && AllDigits(s[..|s| - 1]) && s[|s| - 1] in {'w', 'd', 'h', 'm', 's'}
  }

  // ---------------------------------------------------------------------------------------

  /** A printed number is clean: trimming finds neither white space nor a prefix in front of it. */
  lemma CleanNumberAndUnit(digits: string, unit: char)
    requires digits != "" && AllDigits(digits) && unit in {'w', 'd', 'h', 'm', 's'}
    ensures CleanDurationString(digits + [unit]) == digits + [unit]
  {
    var s := digits + [unit];
    assert s[0] == digits[0] && s[|s| - 1] == unit;
    TrimNothing(s, SPACES);
    assert !("offset " <= s) by {
      assert "offset "[0] == 'o';
    }
  }

  /** A number followed by a unit denotes that many units. */
  lemma ParseNumberAndUnit(n: nat, unit: char)
    requires unit in {'w', 'd', 'h', 'm', 's'} && n * UnitMap()[[unit]] <= MAX_INT64
    ensures ParseDuration(Decimal(n) + [unit]) == Some(n * UnitMap()[[unit]])
    ensures IsValidDurationString(Decimal(n) + [unit])
  {
    var s := Decimal(n) + [unit];
    assert s[..|s| - 1] == Decimal(n);
    CleanNumberAndUnit(Decimal(n), unit);
    NumberAndUnitDenotes(n, unit);
    ParsedIsExact(s, n * UnitMap()[[unit]]);
  }

  lemma NumberAndUnitDenotes(n: nat, unit: char)
    requires unit in {'w', 'd', 'h', 'm', 's'} && n * UnitMap()[[unit]] <= MAX_INT64
    ensures Denotes(Decimal(n) + [unit], n * UnitMap()[[unit]])
  {
    hide Parsed;
    var s := Decimal(n) + [unit];
    var t := Term(Decimal(n), false, "", [unit]);
    SingleTerm(t);
    assert s == t.Text();
    assert Unsigned(s) == s && !Negative(s) by {
      assert IsDigit(s[0]);
    }
    DecimalRoundTrip(n);
    NoFractionNanos(UnitMap()[[unit]]);
    assert Spells(s, [t]);
  }

  lemma SingleTerm(t: Term)
    requires t.Valid()
    ensures AllValid([t]) && Text([t]) == t.Text() && Total([t]) == t.Nanos()
  {
    hide UnitMap, Term.Text, Term.Nanos;
    TotalOfOne(t);
    assert [t][1..] == [];
    assert t.Text() + "" == t.Text();
  }

  lemma NoFractionNanos(unit: nat)
    ensures FractionNanos("", unit) == 0
  {
    ScanFromStart("");
    NoShare(unit, 1);
  }

  /** A printed number of seconds is read back. */
  lemma PrintedIsParsed(secs: int)
    requires secs * SECOND <= MAX_INT64
    ensures ParseDuration(Printed(secs)) == if secs > 0 then Some(secs * SECOND) else None
    ensures IsValidDurationString(Printed(secs)) <==> secs > 0
  {
    hide ParseDuration, UnitMap;
    UnitsInSeconds();
    EmptyHasNoDuration();
    if secs > 0 {
      var (count, unit) := CountAndUnit(secs);
      CountAndUnitExact(secs);
      ParseNumberAndUnit(count, unit);
    }
  }

  /** So little is left to the next second that rounding can reach it: at most some microseconds. */
  predicate NearlyNextSecond(d: int) {
    (SECOND - d % SECOND) * (TWO_TO_THE_53 / 4) <= d
  }

  lemma AtInteger(float64: real -> real, n: int)
    requires IsFloat64(float64) && -TWO_TO_THE_53 <= n <= TWO_TO_THE_53
    ensures float64(n as real) == n as real
  {
    assert Fixed(float64, n);
  }

  lemma Between(float64: real -> real, m: int, x: real, n: int)
    requires IsFloat64(float64) && -TWO_TO_THE_53 <= m <= n <= TWO_TO_THE_53 && m as real <= x <= n as real
    ensures m as real <= float64(x) <= n as real
  {
    AtInteger(float64, m);
    AtInteger(float64, n);
    assert Ordered(m as real, x) && Ordered(x, n as real);
  }

  lemma NotPositive(d: int, float64: real -> real)
    requires IsFloat64(float64) && MIN_INT64 <= d < 0
    ensures WholeSeconds(d, float64) <= 0
  {
    hide IsFloat64;
    var sec := Quotient(d, SECOND);
    var nsec := d - sec * SECOND;
    assert -10_000_000_000 <= sec <= 0 && -SECOND < nsec <= 0;
    AtInteger(float64, sec);
    AtInteger(float64, nsec);
    var x := nsec as real / SECOND as real;
    Between(float64, -1, x, 0);
    var y := sec as real + float64(x);
    Between(float64, sec - 1, y, 0);
  }

  /** The printed seconds are those of the duration, or, only just before the next second, one more. */
  lemma RoundedSeconds(d: int, float64: real -> real)
    requires IsFloat64(float64) && 0 <= d <= MAX_INT64
    ensures d / SECOND <= WholeSeconds(d, float64) <= d / SECOND + 1
    ensures WholeSeconds(d, float64) == d / SECOND || NearlyNextSecond(d)
  {
    hide IsFloat64, HalfUnit;
    var sec, nsec := d / SECOND, d % SECOND;
    assert 0 <= sec <= 10_000_000_000 && d - sec * SECOND == nsec;
    AtInteger(float64, sec);
    AtInteger(float64, nsec);
    var x := nsec as real / SECOND as real;
    Between(float64, 0, x, 1);
    var y := sec as real + float64(x);
    Between(float64, sec, y, sec + 1);
    assert Seconds(d, float64) == float64(y);
    if nsec == 0 {
      AtInteger(float64, 0);
    } else {
      SmallFraction(float64, nsec);
      Near(float64, y);
      if float64(y) >= (sec + 1) as real {
        OnlyJustBefore(sec, nsec, float64(x), float64(y));
      }
    }
  }

  lemma SmallFraction(float64: real -> real, nsec: int)
    requires IsFloat64(float64) && 1 <= nsec < SECOND
    ensures var x := nsec as real / SECOND as real;
      HalfUnit(float64(x), x) && float64(x) >= 1.0 / TWO_TO_THE_53 as real
  {
    var x := nsec as real / SECOND as real;
    assert x * SECOND as real == nsec as real;
    assert Ordered(1.0 / TWO_TO_THE_53 as real, x);
  }

  lemma Near(float64: real -> real, y: real)
    requires IsFloat64(float64) && 1.0 / TWO_TO_THE_53 as real <= y <= TWO_TO_THE_53 as real
    ensures HalfUnit(float64(y), y)
  {
    assert Ordered(1.0 / TWO_TO_THE_53 as real, y);
  }

  lemma OnlyJustBefore(sec: int, nsec: int, a: real, s: real)
    requires 0 <= sec && 0 <= nsec < SECOND
    requires HalfUnit(a, nsec as real / SECOND as real) && HalfUnit(s, sec as real + a)
    requires s >= (sec + 1) as real && 0.0 <= a
    ensures (SECOND - nsec) * (TWO_TO_THE_53 / 4) <= sec * SECOND + nsec
  {
    var x := nsec as real / SECOND as real;
    assert x * SECOND as real == nsec as real;
    var d := sec as real + x;
    assert (1.0 - x) * TWO_TO_THE_53 as real <= 4.0 * d;
    assert (SECOND - nsec) as real * TWO_TO_THE_53 as real <= 4.0 * (sec * SECOND + nsec) as real;
  }

  /**
   Printing and reading back loses the part below one second; where rounding carries the seconds over,
   just before the next second, that is read back instead. A whole number of seconds comes back as it
   is, and nothing is read back from a duration below one second.
   */
  lemma PrintParseRoundTrip(d: int, float64: real -> real)
    requires MIN_INT64 <= d <= MAX_INT64 && IsFloat64(float64)
    ensures var read := ParseDuration(DurationString(d, float64));
      && (d < SECOND ==> read == None)
      && (d >= SECOND ==>
            || read == Some(d - d % SECOND)
            || (NearlyNextSecond(d) && read == Some(d - d % SECOND + SECOND)))
      && (d >= SECOND && d % SECOND == 0 ==> read == Some(d))
    ensures d >= SECOND <==> IsValidDurationString(DurationString(d, float64))
  {
    hide ParseDuration, Printed, WholeSeconds, IsFloat64, IsValidDurationString;
    if d < 0 {
      NotPositive(d, float64);
    } else {
      RoundedSeconds(d, float64);
    }
    PrintedIsParsed(WholeSeconds(d, float64));
  }

  /** The number and the unit that are printed for a positive number of seconds. */
  function CountAndUnit(secs: int): (nat, char)
    requires secs > 0
  {
    if secs % 86_400 == 0 then (secs / 86_400, 'd')
    else if secs % 3_600 == 0 then (secs / 3_600, 'h')
    else if secs % 60 == 0 then (secs / 60, 'm')
    else (secs, 's')
  }

  lemma CountAndUnitExact(secs: int)
    requires secs > 0
    ensures
      var (count, unit) := CountAndUnit(secs);
      [unit] in UnitMap() && count * UnitMap()[[unit]] == secs * SECOND
  {
    hide UnitMap;
    UnitsInSeconds();
  }

  lemma UnitsInSeconds()
    ensures forall u :: u in {"d", "h", "m", "s", "w"} ==> u in UnitMap()
    ensures UnitMap()["d"] == 86_400 * SECOND && UnitMap()["h"] == 3_600 * SECOND
    ensures UnitMap()["m"] == 60 * SECOND && UnitMap()["s"] == SECOND
  {
  }

  lemma EmptyHasNoDuration()
    ensures ParseDuration("") == None
  {
    assert TrimSpace("") == "";
  }

  /** The printed unit is the largest of days, hours, minutes and seconds that divides the duration. */
  lemma LargestUnitChosen(d: int, unit: char, float64: real -> real)
    requires SECOND <= d <= MAX_INT64 && d % SECOND == 0 && IsFloat64(float64)
    ensures
      var s := DurationString(d, float64);
      && s != ""
      && var u := s[|s| - 1];
         && [u] in UnitMap() && d % UnitMap()[[u]] == 0
         && (unit in {'d', 'h', 'm', 's'} && UnitMap()[[unit]] > UnitMap()[[u]] ==> d % UnitMap()[[unit]] != 0)
  {
    hide UnitMap, WholeSeconds, IsFloat64;
    UnitsInSeconds();
    RoundedSeconds(d, float64);
    var secs := WholeSeconds(d, float64);
    DividesInSeconds(secs, 86_400);
    DividesInSeconds(secs, 3_600);
    DividesInSeconds(secs, 60);
    DividesInSeconds(secs, 1);
    var s := DurationString(d, float64);
    assert s == Decimal(CountAndUnit(secs).0) + [CountAndUnit(secs).1];
  }

  lemma DividesInSeconds(secs: int, k: int)
    requires secs >= 0 && k in {1, 60, 3_600, 86_400}
    ensures (secs * SECOND) % (k * SECOND) == 0 <==> secs % k == 0
  {
  }
}

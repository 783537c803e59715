/** What the units, the sign and the order of amounts mean, in results of the duration parser alone. */
module DurationUnits {
  import opened Wrappers
  import opened Numbers
  import opened Durations
  import opened GoStrings
  import opened DurationStrings

  /** A number and a unit are that many units, or an error if these do not fit in 63 bits. */
  lemma AmountIs(n: nat, u: string)
    requires u in UnitMap()
    ensures Parsed(Decimal(n) + u) == if n * UnitMap()[u] <= MAX_INT64 then Some(n * UnitMap()[u]) else None
    ensures !Negative(Decimal(n) + u) && Unsigned(Decimal(n) + u) == Decimal(n) + u && Decimal(n) + u != "0"
  {
    hide UnitMap, Decimal, Scan, Term.Nanos, Text, Total;
    var t := Term(Decimal(n), false, "", u);
    var s := Decimal(n) + u;
    ValidAmount(n, u);
    SingleTerm(t);
    assert s == t.Text() by {
      assert "" + u == u;
    }
    assert IsDigit(s[0]);
    ScanOfText([t]);
    ZeroHasNoUnit([t]);
    AmountNanos(n, u);
  }

  lemma ValidAmount(n: nat, u: string)
    requires u in UnitMap()
    ensures Term(Decimal(n), false, "", u).Valid() && Decimal(n) != "" && IsDigit(Decimal(n)[0])
  {
    hide UnitMap;
    DecimalRoundTrip(n);
  }

  lemma AmountNanos(n: nat, u: string)
    requires u in UnitMap()
    ensures (ValidAmount(n, u); Term(Decimal(n), false, "", u).Nanos() == n * UnitMap()[u])
  {
    hide UnitMap, Decimal;
    ValidAmount(n, u);
    DecimalRoundTrip(n);
    NoFractionNanos(UnitMap()[u]);
  }

  /** What parsing a number and a unit gives. */
  function Reading(n: nat, u: string): Option<int> {
    Parsed(Decimal(n) + u)
  }

  lemma SameReading(m: nat, u: string, n: nat, v: string)
    requires u in UnitMap() && v in UnitMap() && m * UnitMap()[u] == n * UnitMap()[v]
    ensures Reading(m, u) == Reading(n, v)
  {
    hide UnitMap, Parsed, Decimal;
    AmountIs(m, u);
    AmountIs(n, v);
  }

  /** Each unit in terms of the next smaller one, down to nanoseconds; errors by overflow included. */
  lemma UnitsAre(n: nat)
    ensures Reading(n, "w") == Reading(7 * n, "d")
    ensures Reading(n, "d") == Reading(24 * n, "h")
    ensures Reading(n, "h") == Reading(60 * n, "m")
    ensures Reading(n, "m") == Reading(60 * n, "s")
    ensures Reading(n, "s") == Reading(1_000 * n, "ms")
    ensures Reading(n, "ms") == Reading(1_000 * n, "us") == Reading(1_000 * n, "\U{00B5}s") == Reading(1_000 * n, "\U{03BC}s")
    ensures Reading(n, "us") == Reading(1_000 * n, "ns")
    ensures Reading(n, "ns") == if n <= MAX_INT64 then Some(n) else None
  {
    hide Reading;
    SameReading(n, "w", 7 * n, "d");
    SameReading(n, "d", 24 * n, "h");
    SameReading(n, "h", 60 * n, "m");
    SameReading(n, "m", 60 * n, "s");
    SameReading(n, "s", 1_000 * n, "ms");
    SameReading(n, "ms", 1_000 * n, "us");
    SameReading(n, "ms", 1_000 * n, "\U{00B5}s");
    SameReading(n, "ms", 1_000 * n, "\U{03BC}s");
    SameReading(n, "us", 1_000 * n, "ns");
    NanosecondsAre(n);
  }

  lemma NanosecondsAre(n: nat)
    ensures Reading(n, "ns") == if n <= MAX_INT64 then Some(n) else None
  {
    hide Parsed, Decimal;
    AmountIs(n, "ns");
  }

  /** Nothing else is a unit; of numbers without a unit only 0 is a duration. */
  lemma NoOtherUnits(n: nat, u: string)
    requires UnitText(u) && u !in {"ns", "us", "\U{00B5}s", "\U{03BC}s", "ms", "s", "m", "h", "d", "w"}
    ensures Reading(n, u) == if u == "" && n == 0 then Some(0) else None
  {
    hide Decimal, TakeDigits, TakeUnit;
    assert u !in UnitMap();
    DecimalRoundTrip(n);
    var s := Decimal(n) + u;
    TakeDigitsOfConcat(Decimal(n), u);
    TakeUnitOfConcat(u, "");
    assert u + "" == u;
    assert IsDigit(s[0]) && Unsigned(s) == s;
    assert ScanTerm(s) == None;
    OnlyZero(n, u);
  }

  lemma OnlyZero(n: nat, u: string)
    requires UnitText(u)
    ensures Decimal(n) + u == "0" <==> u == "" && n == 0
  {
    hide Decimal, TakeDigits;
    DecimalRoundTrip(n);
    DecimalRoundTrip(0);
    if Decimal(n) + u == "0" {
      TakeDigitsOfConcat(Decimal(n), u);
      TakeDigitsOfConcat("0", "");
      assert "0" + "" == "0" && Decimal(n) == "0";
      assert NatOf("0") == 0 by { ZeroIsZero(); }
    } else if u == "" && n == 0 {
      assert Decimal(0) + "" == Decimal(0);
      ZeroIsZero();
    }
  }

  lemma ZeroIsZero()
    ensures NatOf("0") == 0 && Decimal(0) == "0"
  {
    assert "0"[..0] == "";
    assert NatOf("") == 0;
  }

  /**
   Digits after a period are tenths, hundredths and so on of the unit, down to whole nanoseconds, as long
   as they are themselves a number of 63 bits.
   */
  lemma FractionsAre(n: nat, frac: string, u: string, one: nat)
    requires AllDigits(frac) && NatOf(frac) <= MAX_INT64 && UnitText(u) && Reading(1, u) == Some(one)
    ensures var d := n * one + NatOf(frac) * one / Pow10(|frac|);
      Parsed(Decimal(n) + ("." + frac + u)) == if d <= MAX_INT64 then Some(d) else None
  {
    hide UnitMap, Decimal, Parsed, Term.Nanos;
    UnitOfOne(u, one);
    var t := Term(Decimal(n), true, frac, u);
    DecimalRoundTrip(n);
    FractionTerm(t, n, one);
    TermIsParsed(t);
  }

  lemma UnitOfOne(u: string, one: nat)
    requires UnitText(u) && Reading(1, u) == Some(one)
    ensures u in UnitMap() && UnitMap()[u] == one
  {
    hide Reading;
    if u !in UnitMap() {
      NoOtherUnits(1, u);
      assert false;
    }
    OneIs(u);
  }

  lemma OneIs(u: string)
    requires u in UnitMap()
    ensures Reading(1, u) == Some(UnitMap()[u])
  {
    hide UnitMap, Parsed, Decimal;
    AmountIs(1, u);
  }

  lemma FractionTerm(t: Term, n: nat, one: nat)
    requires t.Valid() && t.dot && NatOf(t.whole) == n && UnitMap()[t.unit] == one && NatOf(t.frac) <= MAX_INT64
    ensures t.Nanos() == n * one + NatOf(t.frac) * one / Pow10(|t.frac|)
  {
    hide UnitMap, KeptDigits, NatOf;
    KeptDigitsUnique(t.frac, "");
    assert t.frac + "" == t.frac;
  }

  lemma TermIsParsed(t: Term)
    requires t.Valid() && t.whole != ""
    ensures Parsed(t.Text()) == if t.Nanos() <= MAX_INT64 then Some(t.Nanos()) else None
  {
    hide UnitMap, Scan, Term.Nanos, Text, Total;
    SingleTerm(t);
    assert IsDigit(t.Text()[0]);
    ScanOfText([t]);
    ZeroHasNoUnit([t]);
  }

  // ---------------------------------------------------------------------------------------

  /** A sign in front of an unsigned text: a plus changes nothing, a minus negates. */
  lemma SignsAre(s: string)
    requires s == "" || (s[0] != '-' && s[0] != '+')
    ensures Parsed("+" + s) == Parsed(s)
    ensures Parsed("-" + s) == match Parsed(s) case None => None case Some(d) => Some(-d)
    ensures Parsed(s).Some? ==> Parsed(s).value >= 0
  {
    hide Scan;
    assert ("+" + s)[1..] == s && ("-" + s)[1..] == s;
    assert Unsigned(s) == s && Unsigned("+" + s) == s && Unsigned("-" + s) == s;
  }

  /** Amounts one after the other are added up. */
  lemma AmountsAdd(a: string, b: string, x: int, y: int)
    requires a != "" && b != "" && EndsUnit(a[0]) && EndsUnit(b[0]) && a != "0" && b != "0"
    requires Parsed(a) == Some(x) && Parsed(b) == Some(y)
    ensures Parsed(a + b) == if x + y <= MAX_INT64 then Some(x + y) else None
  {
    hide Scan, Total, Text, Term.Valid;
    var s, t := Scan(a).value, Scan(b).value;
    ScanSound(a);
    ScanSound(b);
    TextOfConcat(s, t);
    TotalOfConcat(s, t);
    ScanOfText(s + t);
    assert Scan(a + b) == Some(s + t);
    assert Unsigned(a) == a && Unsigned(b) == b && Unsigned(a + b) == a + b;
    assert |a + b| >= 2;
  }

  lemma {:induction false} TextOfConcat(s: seq<Term>, t: seq<Term>)
    ensures Text(s + t) == Text(s) + Text(t)
  {
    hide Term.Text;
    if s == [] {
      assert s + t == t;
    } else {
      assert (s + t)[1..] == s[1..] + t;
      TextOfConcat(s[1..], t);
    }
  }

  /** White space around a duration and the word offset before it are not read. */
  lemma OffsetIsNotRead(n: nat, unit: char)
    requires unit in {'w', 'd', 'h', 'm', 's'}
    ensures ParseDuration(" offset " + Decimal(n) + [unit] + " ") == Reading(n, [unit]) == ParseDuration(Decimal(n) + [unit])
  {
    hide Parsed, Decimal, SPACES;
    DecimalRoundTrip(n);
    LettersAreNoSpaces(unit);
    var s := Decimal(n) + [unit];
    CleanNumberAndUnit(Decimal(n), unit);
    var t := "offset " + s;
    assert " offset " + Decimal(n) + [unit] + " " == " " + t + " ";
    assert t[0] == 'o' && t[|t| - 1] == unit;
    TrimSpaces(t);
    assert t[7..] == s && "offset " <= t;
  }

  lemma TrimSpaces(t: string)
    requires t != "" && t[0] !in SPACES && t[|t| - 1] !in SPACES
    ensures TrimSpace(" " + t + " ") == t
  {
    hide SPACES;
    var s := " " + t + " ";
    SpaceIsSpace();
    assert s[1..] == t + " ";
    assert TrimLeft(s, SPACES) == TrimLeft(t + " ", SPACES) == t + " ";
    TrimRightChars(t, " ", SPACES);
  }

  lemma LettersAreNoSpaces(unit: char)
    requires unit in {'w', 'd', 'h', 'm', 's'}
    ensures 'o' !in SPACES && unit !in SPACES
  {
  }

  lemma SpaceIsSpace()
    ensures ' ' in SPACES
  {
  }

  /** A valid duration string is a number and one of five units. */
  lemma ValidExactly(s: string)
    ensures IsValidDurationString(s) <==>
      exists digits, unit :: IsNumberWithUnit(s, digits, unit)
  {
    if IsValidDurationString(s) {
      var n := |s| - 1;
      assert s == s[..n] + [s[n]];
      assert IsNumberWithUnit(s, s[..n], s[n]);
    }
    if digits, unit :| IsNumberWithUnit(s, digits, unit) {
      assert s[..|s| - 1] == digits;
    }
  }

  predicate IsNumberWithUnit(s: string, digits: string, unit: char) {
    digits != "" && AllDigits(digits) && unit in {'w', 'd', 'h', 'm', 's'} && s == digits + [unit]
  }
}

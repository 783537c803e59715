/**
 Duration strings (timeutil.go): the parser lifted from Go's standard library, extended with
 days and weeks, and the theorems that say what it accepts.

 Strings are sequences of code points. The parser looks only for ASCII signs, digits and dots,
 so reading code points instead of UTF-8 bytes does not change where it stops.
 */
module Durations {
  import opened Wrappers
  import opened Numbers

  const SECOND: int := 1_000_000_000
  const DAY: int := 86_400 * SECOND
  const WEEK: int := 7 * DAY

  predicate EndsUnit(c: char) {
    c == '.' || IsDigit(c)
  }

  predicate UnitText(u: string) {
    forall i :: 0 <= i < |u| ==> !EndsUnit(u[i])
  }

  /** Nanoseconds per unit. The two micro signs are U+00B5 and U+03BC. */
  function UnitMap(): (m: map<string, int>)
    ensures forall u :: u in m ==> u != "" && UnitText(u) && 1 <= m[u] <= WEEK
  {
    map["ns" := 1, "us" := 1_000, "\U{00B5}s" := 1_000, "\U{03BC}s" := 1_000, "ms" := 1_000_000,
        "s" := SECOND, "m" := 60 * SECOND, "h" := 3_600 * SECOND, "d" := DAY, "w" := WEEK]
  }

  /** Cuts s into its longest front without digits and dots, and the rest. */
  function TakeUnit(s: string): (r: (string, string))
    ensures s == r.0 + r.1 && UnitText(r.0)
    ensures r.1 == "" || EndsUnit(r.1[0])
  {
    if s == "" || EndsUnit(s[0]) then ("", s)
    else
      var (unit, rest) := TakeUnit(s[1..]);
      ([s[0]] + unit, rest)
  }

  lemma {:induction false} TakeUnitOfConcat(a: string, b: string)
    requires UnitText(a)
    requires b == "" || EndsUnit(b[0])
    ensures TakeUnit(a + b) == (a, b)
  {
    if a != "" {
      assert (a + b)[1..] == a[1..] + b;
      TakeUnitOfConcat(a[1..], b);
      assert [a[0]] + a[1..] == a;
    } else {
      assert a + b == b;
    }
  }

  // ---------------------------------------------------------------------------------------
  // The grammar: what a duration string is, and how much time it denotes
  // ---------------------------------------------------------------------------------------

  /** One amount with its unit: "300ms", "1.5h", ".25s". */
  datatype Term = Term(whole: string, dot: bool, frac: string, unit: string) {
    predicate Valid() {
      && AllDigits(whole) && AllDigits(frac)
      && (!dot ==> frac == "")
      && (whole != "" || frac != "")
      && unit in UnitMap()
    }

    function Text(): string {
      whole + ((if dot then "." + frac else "") + unit)
    }

    /** The denoted time in whole nanoseconds. */
    function Nanos(): nat
      requires Valid()
    {
      Product(NatOf(whole), UnitMap()[unit]) + FractionNanos(frac, UnitMap()[unit])
    }
  }

  predicate AllValid(ts: seq<Term>) {
    forall i :: 0 <= i < |ts| ==> ts[i].Valid()
  }

  function Text(ts: seq<Term>): string {
    if ts == [] then "" else ts[0].Text() + Text(ts[1..])
  }

  function Total(ts: seq<Term>): nat
    requires AllValid(ts)
  {
    if ts == [] then 0 else ts[0].Nanos() + Total(ts[1..])
  }

  function Unsigned(s: string): string {
    if s != "" && (s[0] == '-' || s[0] == '+') then s[1..] else s
  }

  predicate Negative(s: string) {
    s != "" && s[0] == '-'
  }

  function Signed(s: string, magnitude: int): int {
    if Negative(s) then -magnitude else magnitude
  }

  /** s is an optional sign and the terms ts, at least one. */
  predicate Spells(s: string, ts: seq<Term>) {
    ts != [] && AllValid(ts) && Unsigned(s) == Text(ts)
  }

  /**
   The language of duration strings and their meaning: an optional sign, then "0" or one or
   more terms whose sum fits in 63 bits.
   */
  ghost predicate Denotes(s: string, d: int) {
    || (Unsigned(s) == "0" && d == 0)
    || exists ts :: Spells(s, ts) && Total(ts) <= MAX_INT64 && d == Signed(s, Total(ts))
  }

  // ---------------------------------------------------------------------------------------
  // Fractions
  // ---------------------------------------------------------------------------------------

  /**
   The fraction digits that are kept, and the ones that are dropped: the longest front whose
   numeral fits in 63 bits.
   */
  function KeptDigits(frac: string): (r: (string, string))
    requires AllDigits(frac)
    ensures r.0 + r.1 == frac && AllDigits(r.0) && AllDigits(r.1)
    ensures NatOf(r.0) <= MAX_INT64
    ensures r.1 != "" ==> NatOf(r.0 + [r.1[0]]) > MAX_INT64
  {
    KeptAfter("", frac)
  }

  function KeptAfter(kept: string, more: string): (r: (string, string))
    requires AllDigits(kept) && AllDigits(more) && NatOf(kept) <= MAX_INT64
    ensures r.0 + r.1 == kept + more && AllDigits(r.0) && AllDigits(r.1)
    ensures NatOf(r.0) <= MAX_INT64
    ensures r.1 != "" ==> NatOf(r.0 + [r.1[0]]) > MAX_INT64
    decreases |more|
  {
    if more != "" && NatOf(kept + [more[0]]) <= MAX_INT64 then
      assert kept + [more[0]] + more[1..] == kept + more;
      KeptAfter(kept + [more[0]], more[1..])
    else (kept, more)
  }

  /** Whole nanoseconds in the kept part of the fraction of a unit. */
  function FractionNanos(frac: string, unit: nat): nat
    requires AllDigits(frac)
  {
    var kept := KeptDigits(frac).0;
    Share(NatOf(kept), unit, Pow10(|kept|))
  }

  function Product(a: nat, b: nat): nat {
    a * b
  }

  /** a/c of a unit of b nanoseconds, truncated. */
  function Share(a: nat, b: nat, c: nat): nat
    requires c > 0
  {
    a * b / c
  }

  lemma FractionBelowUnit(frac: string, unit: nat)
    requires AllDigits(frac) && unit >= 1
    ensures FractionNanos(frac, unit) < unit
  {
    var kept := KeptDigits(frac).0;
    NatOfBelowPow10(kept);
    QuotientBelow(NatOf(kept), unit, Pow10(|kept|));
  }

  lemma QuotientBelow(a: nat, b: nat, c: nat)
    requires a < c && b >= 1
    ensures a * b / c < b
  {
    var q, r := a * b / c, a * b % c;
    assert a * b == q * c + r;
    assert a * b < c * b;
    if q >= b {
      MulMonotone(b, q, c);
      assert false;
    }
  }

  lemma MulMonotone(a: nat, b: nat, c: nat)
    requires a <= b
    ensures a * c <= b * c
  {
  }

  /** The exact time a term denotes, fractions of nanoseconds included. */
  ghost function ExactNanos(t: Term): real
    requires t.Valid()
  {
    var unit := UnitMap()[t.unit];
    Product(NatOf(t.whole), unit) as real + Portion(NatOf(t.frac), Pow10(|t.frac|), unit)
  }

  /** a/b of a unit, exactly. */
  ghost function Portion(a: nat, b: nat, unit: nat): real
    requires b > 0
  {
    a as real / b as real * unit as real
  }

  /**
   The parser never overstates a term. It loses less than one nanosecond, plus, when the fraction
   has more digits than fit in 63 bits, less than one unit of the last digit it kept.
   */
  lemma FractionLoss(t: Term)
    requires t.Valid()
    ensures
      var (kept, dropped) := KeptDigits(t.frac);
      var loss := ExactNanos(t) - t.Nanos() as real;
      && 0.0 <= loss
      && (dropped == "" ==> loss < 1.0)
      && loss < 1.0 + Portion(1, Pow10(|kept|), UnitMap()[t.unit])
  {
    hide UnitMap, NatOf, KeptDigits, Portion, Share, Product;
    var (kept, dropped) := KeptDigits(t.frac);
    NatOfConcat(kept, dropped);
    NatOfBelowPow10(dropped);
    Pow10Sum(|kept|, |dropped|);
    PortionLoss(NatOf(kept), NatOf(dropped), Pow10(|kept|), Pow10(|dropped|), UnitMap()[t.unit]);
  }

  lemma Pow10Sum(a: nat, b: nat)
    ensures Pow10(a + b) == Pow10(a) * Pow10(b)
  {
    if b > 0 {
      Pow10Sum(a, b - 1);
      MulTenfold(Pow10(a), Pow10(b - 1));
    }
  }

  /** Of a unit u: the exact portion (x*q + y)/(p*q) against the truncated share x/p. */
  lemma PortionLoss(x: nat, y: nat, p: nat, q: nat, u: nat)
    requires p > 0 && q > 0 && y < q && u >= 1 && p * q > 0
    ensures
      var loss := Portion(x * q + y, p * q, u) - Share(x, u, p) as real;
      0.0 <= loss && (q == 1 ==> loss < 1.0) && loss < 1.0 + Portion(1, p, u)
  {
    hide Portion, Share;
    PortionSplits(x, y, p, q, u);
    PortionBounds(y, p, q, u);
    ShareIs(x, u, p);
  }

  lemma PortionSplits(x: nat, y: nat, p: nat, q: nat, u: nat)
    requires p > 0 && q > 0 && p * q > 0
    ensures Portion(x * q + y, p * q, u)
      == x as real * u as real / p as real + (y as real / q as real) * (u as real / p as real)
  {
    var pr, qr := p as real, q as real;
    RealProduct(p, q);
    RealProduct(x, q);
    PositiveProduct(pr, qr);
    SplitShare(x as real, y as real, pr, qr, u as real);
  }

  lemma PortionBounds(y: nat, p: nat, q: nat, u: nat)
    requires p > 0 && q > 0 && y < q && u >= 1
    ensures 0.0 <= (y as real / q as real) * (u as real / p as real) < Portion(1, p, u)
    ensures y == 0 ==> (y as real / q as real) * (u as real / p as real) == 0.0
  {
    var z := u as real / p as real;
    PositiveQuotient(u as real, p as real);
    DropBounds(y as real, q as real, z);
    ProductOfQuotient(u as real, 1.0 / p as real, p as real);
    assert u as real * (1.0 / p as real * p as real) == u as real;
  }

  lemma ShareIs(x: nat, u: nat, p: nat)
    requires p > 0
    ensures 0.0 <= x as real * u as real / p as real - Share(x, u, p) as real < 1.0
  {
    RealProduct(x, u);
    FloorOfQuotient(x * u, p);
  }

  lemma PositiveProduct(a: real, b: real)
    requires a > 0.0 && b > 0.0
    ensures a * b > 0.0
  {
  }

  lemma PositiveQuotient(a: real, b: real)
    requires a > 0.0 && b > 0.0
    ensures a / b > 0.0
  {
  }

  lemma SplitShare(x: real, y: real, p: real, q: real, u: real)
    requires p > 0.0 && q > 0.0 && p * q > 0.0
    ensures (x * q + y) / (p * q) * u == x * u / p + (y / q) * (u / p)
  {
    var a, z, e := y / q, u / p, (x * q + y) / (p * q);
    assert a * q == y && z * p == u;
    CancelFactor(e, p, q, x, a);
    Swap(e, p, z);
    ProductOfQuotient(x, z, p);
    assert (x + a) * z == x * z + a * z;
  }

  lemma Swap(e: real, p: real, z: real)
    ensures e * (z * p) == (e * p) * z
  {
  }

  lemma CancelFactor(e: real, p: real, q: real, x: real, a: real)
    requires q > 0.0 && p * q > 0.0 && e == (x * q + a * q) / (p * q)
    ensures e * p == x + a
  {
    QuotientTimes(x * q + a * q, p * q);
    Swap(e, p, q);
    assert p * q == q * p;
    assert x * q + a * q == (x + a) * q;
    CancelRight(e * p, x + a, q);
  }

  lemma QuotientTimes(n: real, d: real)
    requires d != 0.0
    ensures (n / d) * d == n
  {
  }

  lemma CancelRight(a: real, b: real, q: real)
    requires q > 0.0 && a * q == b * q
    ensures a == b
  {
    TimesQuotient(a, q);
    TimesQuotient(b, q);
  }

  lemma TimesQuotient(a: real, q: real)
    requires q > 0.0
    ensures (a * q) / q == a
  {
  }

  lemma DropBounds(y: real, q: real, z: real)
    requires 0.0 <= y < q && z > 0.0
    ensures 0.0 <= (y / q) * z < z
    ensures y == 0.0 ==> (y / q) * z == 0.0
  {
    var a := y / q;
    assert a * q == y;
    BelowOne(a, q, y);
    PositiveProduct(1.0 - a, z);
    assert (1.0 - a) * z == z - a * z;
    if y > 0.0 {
      PositiveQuotient(y, q);
      PositiveProduct(a, z);
    }
  }

  lemma BelowOne(a: real, q: real, y: real)
    requires q > 0.0 && a * q == y && y < q
    ensures a < 1.0
  {
    var d := 1.0 - a;
    assert d * q == q - y;
    if d < 0.0 {
      PositiveProduct(-d, q);
      assert false;
    }
  }

  // ---------------------------------------------------------------------------------------
  // The scanner as a function: cutting a string into terms
  // ---------------------------------------------------------------------------------------

  /** The optional fraction at the front of s: whether there is a dot, its digits, the rest. */
  function TakeFraction(s: string): (bool, string, string) {
    if s != "" && s[0] == '.' then
      var (frac, rest) := TakeDigits(s[1..]);
      (true, frac, rest)
    else (false, "", s)
  }

  /** The term at the front of s and the text behind it. */
  function ScanTerm(s: string): Option<(Term, string)> {
    var (whole, behind) := TakeDigits(s);
    var (dot, frac, rest) := TakeFraction(behind);
    var (unit, more) := TakeUnit(rest);
    if whole == "" && frac == "" then None
    else if unit !in UnitMap() then None
    else Some((Term(whole, dot, frac, unit), more))
  }

  lemma ScanTermSound(s: string)
    requires ScanTerm(s).Some?
    ensures
      var (t, more) := ScanTerm(s).value;
      t.Valid() && s == t.Text() + more && |more| < |s|
  {
    hide UnitMap;
    var (whole, behind) := TakeDigits(s);
    var (dot, frac, rest) := TakeFraction(behind);
    var (unit, more) := TakeUnit(rest);
    var point := if dot then "." + frac else "";
    TakeFractionSound(behind);
    Regroup(whole, point, unit, more);
  }

  lemma TakeFractionSound(s: string)
    ensures
      var (dot, frac, rest) := TakeFraction(s);
      AllDigits(frac) && (!dot ==> frac == "") && s == (if dot then "." + frac else "") + rest
  {
    if s != "" && s[0] == '.' {
      var (frac, rest) := TakeDigits(s[1..]);
      assert s == "." + (frac + rest);
      assert s == ("." + frac) + rest;
    }
  }

  lemma Regroup(a: string, b: string, c: string, d: string)
    ensures a + (b + (c + d)) == (a + (b + c)) + d
  {
  }

  function Scan(s: string): Option<seq<Term>>
    decreases |s|
  {
    if s == "" then Some([])
    else
      match ScanTerm(s)
      case None => None
      case Some((t, more)) =>
        ScanTermSound(s);
        match Scan(more)
        case None => None
        case Some(ts) => Some([t] + ts)
  }

  /** Whatever the scanner cuts s into are valid terms that spell s. */
  lemma {:induction false} ScanSound(s: string)
    requires Scan(s).Some?
    ensures AllValid(Scan(s).value) && Text(Scan(s).value) == s
    decreases |s|
  {
    hide ScanTerm, Term.Valid, Term.Text;
    if s != "" {
      ScanTermSound(s);
      var (t, more) := ScanTerm(s).value;
      ScanSound(more);
      assert ([t] + Scan(more).value)[1..] == Scan(more).value;
    }
  }

  /** Scanning a written term gives it back, whatever term or nothing follows. */
  lemma ScanTermOfText(t: Term, more: string)
    requires t.Valid()
    requires more == "" || EndsUnit(more[0])
    ensures ScanTerm(t.Text() + more) == Some((t, more))
  {
    hide UnitMap, TakeDigits, TakeUnit;
    var point := if t.dot then "." + t.frac else "";
    var rest := t.unit + more;
    assert t.Text() + more == t.whole + (point + rest);
    assert (point + rest)[0] == if t.dot then '.' else t.unit[0];
    TakeDigitsOfConcat(t.whole, point + rest);
    if t.dot {
      assert (point + rest)[1..] == t.frac + rest;
      TakeDigitsOfConcat(t.frac, rest);
    } else {
      assert point + rest == rest;
    }
    TakeUnitOfConcat(t.unit, more);
  }

  lemma TextStartsTerm(t: Term, more: string)
    requires t.Valid()
    ensures var s := t.Text() + more; s != "" && EndsUnit(s[0])
  {
    hide UnitMap;
  }

  /** The grammar is unambiguous: scanning written terms gives back exactly those terms. */
  lemma {:induction false} ScanOfText(ts: seq<Term>)
    requires AllValid(ts)
    ensures Scan(Text(ts)) == Some(ts)
  {
    hide ScanTerm, Term.Valid, Term.Text;
    if ts != [] {
      var more := ts[1..];
      if more != [] {
        TextStartsTerm(more[0], Text(more[1..]));
      }
      TextStartsTerm(ts[0], Text(more));
      ScanTermOfText(ts[0], Text(more));
      ScanOfText(more);
      assert [ts[0]] + more == ts;
    }
  }

  // ---------------------------------------------------------------------------------------
  // The parser's result as a function, and its exactness
  // ---------------------------------------------------------------------------------------

  function FitTotal(s: string, ts: seq<Term>): Option<int>
    requires AllValid(ts)
  {
    if Total(ts) > MAX_INT64 then None else Some(Signed(s, Total(ts)))
  }

  /** What goParseDuration answers: None stands for its error. */
  function Parsed(s: string): Option<int> {
    var body := Unsigned(s);
    if body == "0" then Some(0)
    else if body == "" || Scan(body).None? then None
    else
      ScanSound(body);
      FitTotal(s, Scan(body).value)
  }

  lemma ZeroHasNoUnit(ts: seq<Term>)
    requires AllValid(ts) && ts != []
    ensures Text(ts) != "0" && Text(ts) != ""
  {
    hide Term.Valid, Term.Text;
    ScanOfText(ts);
    TextStartsTerm(ts[0], Text(ts[1..]));
    if Text(ts) == "0" {
      ZeroDoesNotScan();
    }
  }

  lemma ZeroDoesNotScan()
    ensures ScanTerm("0") == None
  {
    hide UnitMap;
    assert "0" + "" == "0";
    TakeDigitsOfConcat("0", "");
    assert "" !in UnitMap();
  }

  /** The parser accepts exactly the language, with exactly its meaning, and no overflow goes unseen. */
  lemma ParsedIsExact(s: string, d: int)
    ensures Parsed(s) == Some(d) <==> Denotes(s, d)
  {
    hide Term.Valid, Term.Text, Term.Nanos, Text, Total, Scan, Signed;
    var body := Unsigned(s);
    if Denotes(s, d) && !(body == "0" && d == 0) {
      var ts :| Spells(s, ts) && Total(ts) <= MAX_INT64 && d == Signed(s, Total(ts));
      ZeroHasNoUnit(ts);
      ScanOfText(ts);
    }
    if Parsed(s) == Some(d) && body != "0" {
      ScanSound(body);
      NothingSpellsNothing();
      assert Spells(s, Scan(body).value);
    }
  }

  lemma NothingSpellsNothing()
    ensures Text([]) == ""
  {
  }

  // ---------------------------------------------------------------------------------------
  // The parser's loops
  // ---------------------------------------------------------------------------------------

  /** Appending a digit to an int64, on wrapping arithmetic: overflow shows up as a negative value. */
  lemma AppendDigit(x: int, c: char)
    requires 0 <= x <= MAX_INT64 && IsDigit(c)
    ensures
      var exact := 10 * x + DigitValue(c);
      && (x > MAX_INT64 / 10 ==> exact > MAX_INT64)
      && (x <= MAX_INT64 / 10 ==>
            var y := Wrap(Wrap(Wrap(x * 10) + c as int) - '0' as int);
            if exact <= MAX_INT64 then y == exact else y < 0)
  {
  }

  lemma TakeDigitsStep(s: string)
    requires s != "" && IsDigit(s[0])
    ensures TakeDigits(s) == ([s[0]] + TakeDigits(s[1..]).0, TakeDigits(s[1..]).1)
  {
  }

  lemma ScanDigit(s: string, i: nat, done: string)
    requires i < |s| && IsDigit(s[i])
    requires TakeDigits(s) == (done + TakeDigits(s[i..]).0, TakeDigits(s[i..]).1)
    ensures
      var (later, rest) := TakeDigits(s[i + 1..]);
      AllDigits(later) && TakeDigits(s) == ((done + [s[i]]) + later, rest)
  {
    hide TakeDigits;
    var later := TakeDigits(s[i + 1..]).0;
    TakeDigitsStep(s[i..]);
    assert s[i..][1..] == s[i + 1..];
    assert done + ([s[i]] + later) == (done + [s[i]]) + later;
  }

  lemma ScanFromStart(s: string)
    ensures TakeDigits(s) == ("" + TakeDigits(s[0..]).0, TakeDigits(s[0..]).1)
    ensures NatOf("") == 0
  {
    assert s[0..] == s;
    assert "" + TakeDigits(s).0 == TakeDigits(s).0;
  }

  lemma ScanStops(s: string, i: nat, done: string)
    requires i <= |s| && (i < |s| ==> !IsDigit(s[i]))
    requires TakeDigits(s) == (done + TakeDigits(s[i..]).0, TakeDigits(s[i..]).1)
    ensures TakeDigits(s) == (done, s[i..])
  {
    assert TakeDigits(s[i..]) == ("", s[i..]);
    assert done + "" == done;
  }

  /** leadingInt: the digits at the front of s as an int64. */
  method LeadingInt(s: string) returns (x: int, rem: string, ok: bool)
    ensures ok <==> NatOf(TakeDigits(s).0) <= MAX_INT64
    ensures ok ==> x == NatOf(TakeDigits(s).0) && rem == TakeDigits(s).1
    ensures !ok ==> x == 0 && rem == ""
  {
    hide Wrap, NatOf, TakeDigits;
    x := 0;
    var i := 0;
    ghost var digits := "";
    ScanFromStart(s);
    while i < |s|
      invariant 0 <= i <= |s| && AllDigits(digits)
      invariant TakeDigits(s) == (digits + TakeDigits(s[i..]).0, TakeDigits(s[i..]).1)
      invariant x == NatOf(digits) <= MAX_INT64
      decreases |s| - i
    {
      var c := s[i];
      if c < '0' || c > '9' {
        break;
      }
      ScanDigit(s, i, digits);
      NatOfAppend(digits, c);
      NatOfExtended(digits + [c], TakeDigits(s[i + 1..]).0);
      AppendDigit(x, c);
      if x > MAX_INT64 / 10 {
        return 0, "", false;
      }
      x := Wrap(Wrap(Wrap(x * 10) + c as int) - '0' as int);
      if x < 0 {
        return 0, "", false;
      }
      digits := digits + [c];
      i := i + 1;
    }
    ScanStops(s, i, digits);
    return x, s[i..], true;
  }

  /** Two cuts of one text: the longer front extends the shorter one. */
  lemma LongerCut(a: string, b: string, c: string, d: string)
    requires a + b == c + d && |a| < |c|
    ensures b != "" && c == (a + [b[0]]) + c[|a| + 1..]
  {
    var s := a + b;
    assert s[..|c|] == c && s[..|a|] == a && s[|a|] == b[0];
  }

  /** The kept digits are determined by where the numeral stops fitting. */
  lemma KeptDigitsUnique(kept: string, dropped: string)
    requires AllDigits(kept) && AllDigits(dropped) && NatOf(kept) <= MAX_INT64
    requires dropped != "" ==> NatOf(kept + [dropped[0]]) > MAX_INT64
    ensures KeptDigits(kept + dropped) == (kept, dropped)
  {
    hide NatOf, KeptAfter;
    var (k, d) := KeptDigits(kept + dropped);
    if |k| < |kept| {
      LongerCut(k, d, kept, dropped);
      NatOfExtended(k + [d[0]], kept[|k| + 1..]);
      assert false;
    } else if |kept| < |k| {
      LongerCut(kept, dropped, k, d);
      NatOfExtended(kept + [dropped[0]], k[|kept| + 1..]);
      assert false;
    } else {
      SameCut(kept, dropped, k, d);
    }
  }

  lemma SameCut(a: string, b: string, c: string, d: string)
    requires a + b == c + d && |a| == |c|
    ensures a == c && b == d
  {
    var s := a + b;
    assert s[..|a|] == a && s[..|a|] == c && s[|a|..] == b && s[|a|..] == d;
  }

  /** leadingFraction: the digits at the front of s; once they overflow, the rest is skipped. */
  method LeadingFraction(s: string) returns (x: int, scale: real, rem: string)
    ensures rem == TakeDigits(s).1
    ensures
      var kept := KeptDigits(TakeDigits(s).0).0;
      && x == NatOf(kept) && scale == Pow10(|kept|) as real
      && 0 <= x <= MAX_INT64 && x as real < scale
  {
    hide Wrap, NatOf, KeptDigits, TakeDigits;
    x, scale := 0, 1.0;
    var i, overflow := 0, false;
    ghost var kept, dropped := "", "";
    ScanFromStart(s);
    assert kept + dropped == "";
    while i < |s|
      invariant 0 <= i <= |s| && AllDigits(kept) && AllDigits(dropped)
      invariant TakeDigits(s) == ((kept + dropped) + TakeDigits(s[i..]).0, TakeDigits(s[i..]).1)
      invariant x == NatOf(kept) <= MAX_INT64 && scale == Pow10(|kept|) as real
      invariant overflow <==> dropped != ""
      invariant overflow ==> NatOf(kept + [dropped[0]]) > MAX_INT64
      decreases |s| - i
    {
      var c := s[i];
      if c < '0' || c > '9' {
        break;
      }
      ScanDigit(s, i, kept + dropped);
      assert (kept + dropped) + [c] == kept + (dropped + [c]);
      i := i + 1;
      if overflow {
        dropped := dropped + [c];
        continue;
      }
      NatOfAppend(kept, c);
      AppendDigit(x, c);
      if x > MAX_INT64 / 10 {
        overflow, dropped := true, dropped + [c];
        continue;
      }
      var y := Wrap(Wrap(Wrap(x * 10) + c as int) - '0' as int);
      if y < 0 {
        overflow, dropped := true, dropped + [c];
        continue;
      }
      assert kept + (dropped + [c]) == (kept + [c]) + dropped;
      x := y;
      scale := scale * 10.0;
      kept := kept + [c];
    }
    rem := s[i..];
    ScanStops(s, i, kept + dropped);
    KeptDigitsUnique(kept, dropped);
    NatOfBelowPow10(kept);
  }

  /** v * unit on int64, guarded by the division test that precedes it. */
  lemma GuardedProduct(v: nat, unit: int)
    requires unit >= 1
    ensures v > MAX_INT64 / unit <==> Product(v, unit) > MAX_INT64
    ensures v <= MAX_INT64 / unit ==> Wrap(v * unit) == Product(v, unit)
  {
    var q, r := MAX_INT64 / unit, MAX_INT64 % unit;
    assert MAX_INT64 == q * unit + r;
    if v > q {
      MulMonotone(q + 1, v, unit);
    } else {
      MulMonotone(v, q, unit);
      WrapFits(Product(v, unit));
    }
  }

  /** int64(float64(f) * (float64(unit) / scale)), over the reals and for values that are not negative. */
  function RealShare(f: int, unit: int, scale: real): int
    requires scale != 0.0
  {
    (f as real * (unit as real / scale)).Floor
  }

  lemma RealShareIsShare(f: nat, unit: nat, p: nat)
    requires p > 0
    ensures RealShare(f, unit, p as real) == Share(f, unit, p)
  {
    FloorOfQuotient(f * unit, p);
    var fr, ur, pr := f as real, unit as real, p as real;
    var z := ur / pr;
    assert z * pr == ur;
    ProductOfQuotient(fr, z, pr);
    RealProduct(f, unit);
    assert fr * z == (f * unit) as real / pr;
  }

  lemma RealProduct(a: nat, b: nat)
    ensures (a * b) as real == a as real * b as real
  {
  }

  lemma ProductOfQuotient(f: real, z: real, p: real)
    requires p > 0.0
    ensures f * z == (f * (z * p)) / p
  {
    assert f * (z * p) == (f * z) * p;
  }

  lemma NoShare(unit: nat, p: nat)
    requires p > 0
    ensures Share(0, unit, p) == 0
  {
  }

  /** A sum of two int64 values that are not negative overflows exactly when it turns negative. */
  lemma GuardedSum(a: int, b: int)
    requires 0 <= a <= MAX_INT64 && 0 <= b <= MAX_INT64
    ensures Wrap(a + b) < 0 <==> a + b > MAX_INT64
    ensures a + b <= MAX_INT64 ==> Wrap(a + b) == a + b
  {
  }

  /** The unit at the front of s, up to the next digit or dot. */
  method ConsumeUnit(s: string) returns (u: string, rem: string)
    ensures (u, rem) == TakeUnit(s)
  {
    var i := 0;
    while i < |s|
      invariant 0 <= i <= |s|
      invariant UnitText(s[..i])
    {
      if s[i] == '.' || '0' <= s[i] <= '9' {
        break;
      }
      i := i + 1;
    }
    assert s == s[..i] + s[i..];
    TakeUnitOfConcat(s[..i], s[i..]);
    return s[..i], s[i..];
  }

  /** v and the fraction f/scale of a unit, in nanoseconds on int64, or an overflow error. */
  method Amount(v0: int, f: int, scale: real, unit: int, ghost t: Term) returns (r: Option<int>)
    requires t.Valid() && unit == UnitMap()[t.unit] && v0 == NatOf(t.whole) <= MAX_INT64
    requires t.dot ==>
      f == NatOf(KeptDigits(t.frac).0) && scale == Pow10(|KeptDigits(t.frac).0|) as real
    requires !t.dot ==> f == 0
    ensures r == if t.Nanos() <= MAX_INT64 then Some(t.Nanos()) else None
  {
    hide UnitMap, NatOf, KeptDigits, Wrap, FractionNanos, Product, RealShare;
    FractionOf(t, f, scale);
    GuardedProduct(v0, unit);
    if v0 > MAX_INT64 / unit {
      return None;
    }
    var v := Wrap(v0 * unit);
    if f > 0 {
      var share := RealShare(f, unit, scale);
      GuardedSum(v, share);
      v := Wrap(v + share);
      if v < 0 {
        return None;
      }
    }
    return Some(v);
  }

  /** One round of goParseDuration's loop: the next term as an int64, or its error. */
  method ParseTerm(s0: string) returns (r: Option<(int, string)>)
    requires s0 != ""
    ensures ScanTerm(s0).Some? ==> ScanTerm(s0).value.0.Valid()
    ensures r ==
      if ScanTerm(s0).Some? && ScanTerm(s0).value.0.Nanos() <= MAX_INT64
      then Some((ScanTerm(s0).value.0.Nanos(), ScanTerm(s0).value.1))
      else None
  {
    hide UnitMap, NatOf, KeptDigits, Wrap, Term.Nanos, TakeDigits, TakeUnit;
    if ScanTerm(s0).Some? {
      ScanTermSound(s0);
    }
    var s := s0;
    // A term starts with a digit or a period.
    if !(s[0] == '.' || '0' <= s[0] <= '9') {
      NoDigitsInFront(s);
      return None;
    }
    // The digits before the period.
    var pl := |s|;
    var v, behind, ok := LeadingInt(s);
    if !ok {
      if ScanTerm(s0).Some? {
        WholeTooLarge(ScanTerm(s0).value.0);
      }
      return None;
    }
    s := behind;
    var pre := pl != |s|;
    // The period and the digits after it.
    var post, f, scale := false, 0, 1.0;
    if s != "" && s[0] == '.' {
      s := s[1..];
      pl := |s|;
      f, scale, s := LeadingFraction(s);
      post := pl != |s|;
    }
    if !pre && !post {
      return None;
    }
    var u;
    u, s := ConsumeUnit(s);
    if u == "" {
      return None;
    }
    if u !in UnitMap() {
      return None;
    }
    ghost var t := ScanTerm(s0).value.0;
    var amount := Amount(v, f, scale, UnitMap()[u], t);
    if amount.None? {
      return None;
    }
    return Some((amount.value, s));
  }

  lemma NoDigitsInFront(s: string)
    requires s != "" && !EndsUnit(s[0])
    ensures ScanTerm(s).None?
  {
    hide UnitMap;
    assert TakeDigits(s) == ("", s);
  }

  lemma WrapFits(x: int)
    requires MIN_INT64 <= x <= MAX_INT64
    ensures Wrap(x) == x
  {
  }

  lemma WholeTooLarge(t: Term)
    requires t.Valid() && NatOf(t.whole) > MAX_INT64
    ensures t.Nanos() > MAX_INT64
  {
    hide UnitMap;
    MulAtLeast(NatOf(t.whole), UnitMap()[t.unit]);
  }

  /** What the parser adds for a fraction, from what leadingFraction returned for it. */
  lemma FractionOf(t: Term, f: int, scale: real)
    requires t.Valid()
    requires t.dot ==>
      f == NatOf(KeptDigits(t.frac).0) && scale == Pow10(|KeptDigits(t.frac).0|) as real
    requires !t.dot ==> f == 0
    ensures
      var unit := UnitMap()[t.unit];
      && 0 <= FractionNanos(t.frac, unit) < unit
      && (f <= 0 ==> FractionNanos(t.frac, unit) == 0)
      && (f > 0 ==> scale != 0.0 && RealShare(f, unit, scale) == FractionNanos(t.frac, unit))
  {
    hide UnitMap, Share, NatOf, KeptDigits, RealShare;
    var unit, kept := UnitMap()[t.unit], KeptDigits(t.frac).0;
    FractionBelowUnit(t.frac, unit);
    RealShareIsShare(NatOf(kept), unit, Pow10(|kept|));
    NoShare(unit, Pow10(|kept|));
    ScanFromStart("");
  }

  /** Scanning s after the terms done, one step at a time. */
  lemma ScanStep(s: string, done: seq<Term>)
    requires s != "" && AllValid(done) && ScanTerm(s).Some?
    ensures
      var (t, more) := ScanTerm(s).value;
      && t.Valid() && |more| < |s|
      && AllValid(done + [t]) && Total(done + [t]) == Total(done) + t.Nanos()
      && Append(done, Scan(s)) == Append(done + [t], Scan(more))
      && (Scan(s).Some? ==>
            && AllValid(done + Scan(s).value)
            && Total(done + Scan(s).value) >= Total(done) + t.Nanos())
  {
    hide ScanTerm, Term.Valid, Term.Nanos, Term.Text, Scan, Total, Text;
    ScanTermSound(s);
    ScanUnfold(s);
    var (t, more) := ScanTerm(s).value;
    TotalOfConcat(done, [t]);
    TotalOfOne(t);
    if Scan(s).Some? {
      ScanSound(s);
      ScanSound(more);
      assert done + ([t] + Scan(more).value) == (done + [t]) + Scan(more).value;
      TotalOfConcat(done + [t], Scan(more).value);
    }
  }

  lemma ScanUnfold(s: string)
    requires s != "" && ScanTerm(s).Some?
    ensures Scan(s) == Append([ScanTerm(s).value.0], Scan(ScanTerm(s).value.1))
  {
    hide ScanTerm;
    ScanTermSound(s);
  }

  function Append(done: seq<Term>, more: Option<seq<Term>>): Option<seq<Term>> {
    if more.Some? then Some(done + more.value) else None
  }

  lemma TotalOfOne(t: Term)
    requires t.Valid()
    ensures AllValid([t]) && Total([t]) == t.Nanos()
  {
    assert [t][1..] == [];
  }

  lemma {:induction false} TotalOfConcat(a: seq<Term>, b: seq<Term>)
    requires AllValid(a) && AllValid(b)
    ensures AllValid(a + b) && Total(a + b) == Total(a) + Total(b)
  {
    hide Term.Valid, Term.Nanos;
    if a == [] {
      assert a + b == b;
    } else {
      assert (a + b)[1..] == a[1..] + b;
      TotalOfConcat(a[1..], b);
    }
  }

  /** goParseDuration, on wrapping int64 values. */
  method GoParseDuration(s0: string) returns (r: Option<int>)
    ensures r == Parsed(s0)
  {
    hide Wrap, ScanTerm, Scan, Term.Valid, Term.Nanos, Term.Text, Total;
    var s, d, neg := s0, 0, false;
    if s != "" {
      var c := s[0];
      if c == '-' || c == '+' {
        neg := c == '-';
        s := s[1..];
      }
    }
    if s == "0" {
      return Some(0);
    }
    if s == "" {
      return None;
    }
    ghost var body, done := s, [];
    StartScan(body);
    while s != ""
      invariant AllValid(done)
      invariant Scan(body) == Append(done, Scan(s))
      invariant d == Total(done) <= MAX_INT64
      decreases |s|
    {
      var term := ParseTerm(s);
      if ScanTerm(s).Some? {
        ScanStep(s, done);
      } else {
        NoTermNoScan(s);
      }
      if term.None? {
        return None;
      }
      var (v, more) := term.value;
      done := done + [ScanTerm(s).value.0];
      GuardedSum(d, v);
      d := Wrap(d + v);
      if d < 0 {
        return None;
      }
      s := more;
    }
    EndScan(done);
    if neg {
      WrapFits(-d);
      d := Wrap(-d);
    }
    return Some(d);
  }

  lemma StartScan(s: string)
    ensures Scan(s) == Append([], Scan(s)) && Total([]) == 0
  {
    if Scan(s).Some? {
      assert [] + Scan(s).value == Scan(s).value;
    }
  }

  lemma EndScan(done: seq<Term>)
    ensures Append(done, Scan("")) == Some(done)
  {
    assert done + [] == done;
  }

  lemma NoTermNoScan(s: string)
    requires s != "" && ScanTerm(s).None?
    ensures Scan(s).None?
  {
  }

  /** The parser's answer, stated in terms of the language alone. */
  method ParseDenoted(s: string) returns (r: Option<int>)
    ensures forall d :: r == Some(d) <==> Denotes(s, d)
  {
    hide Denotes, Parsed;
    r := GoParseDuration(s);
    forall d ensures r == Some(d) <==> Denotes(s, d) {
      ParsedIsExact(s, d);
    }
  }
}

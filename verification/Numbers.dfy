/** Go's int64 arithmetic and decimal numerals. */
module Numbers {

  const MAX_INT64: int := 0x7FFF_FFFF_FFFF_FFFF
  const MIN_INT64: int := -0x8000_0000_0000_0000

  /** The int64 value that Go keeps of the exact result x: two's complement wrap-around. */
  function Wrap(x: int): int {
    (x - MIN_INT64) % 0x1_0000_0000_0000_0000 + MIN_INT64
  }

  predicate IsDigit(c: char) {
    '0' <= c <= '9'
  }

  function DigitValue(c: char): nat
    requires IsDigit(c)
  {
    c as int - '0' as int
  }

  predicate AllDigits(s: string) {
    forall i :: 0 <= i < |s| ==> IsDigit(s[i])
  }

  /** The number a decimal numeral denotes; the empty numeral denotes 0. */
  function NatOf(s: string): nat
    requires AllDigits(s)
  {
    if s == "" then 0 else 10 * NatOf(s[..|s| - 1]) + DigitValue(s[|s| - 1])
  }

  /** Cuts s into its longest front of digits and the rest. */
  function TakeDigits(s: string): (r: (string, string))
    ensures s == r.0 + r.1 && AllDigits(r.0)
    ensures r.1 == "" || !IsDigit(r.1[0])
  {
    if s == "" || !IsDigit(s[0]) then ("", s)
    else
      var (digits, rest) := TakeDigits(s[1..]);
      ([s[0]] + digits, rest)
  }

  function Pow10(n: nat): (p: nat)
    ensures p >= 1
  {
    if n == 0 then 1 else 10 * Pow10(n - 1)
  }

  /** The decimal numeral of n without leading zeros, as fmt's %d prints it. */
  function Decimal(n: nat): (s: string)
    ensures |s| > 0 && AllDigits(s)
  {
    var last := ['0' + (n % 10) as char];
    if n < 10 then last else Decimal(n / 10) + last
  }

  lemma {:induction false} TakeDigitsOfConcat(a: string, b: string)
    requires AllDigits(a)
    requires b == "" || !IsDigit(b[0])
    ensures TakeDigits(a + b) == (a, b)
  {
    if a != "" {
      assert (a + b)[1..] == a[1..] + b;
      TakeDigitsOfConcat(a[1..], b);
      assert [a[0]] + a[1..] == a;
    } else {
      assert a + b == b;
    }
  }

  /** The printed numeral denotes the printed number. */
  lemma {:induction false} DecimalRoundTrip(n: nat)
    ensures NatOf(Decimal(n)) == n
  {
    var s := Decimal(n);
    if n >= 10 {
      DecimalRoundTrip(n / 10);
      assert s[..|s| - 1] == Decimal(n / 10);
    } else {
      assert s[..|s| - 1] == "";
    }
    assert DigitValue(s[|s| - 1]) == n % 10;
  }

  lemma NatOfAppend(s: string, c: char)
    requires AllDigits(s) && IsDigit(c)
    ensures AllDigits(s + [c]) && NatOf(s + [c]) == 10 * NatOf(s) + DigitValue(c)
  {
    assert (s + [c])[..|s|] == s;
  }

  lemma {:induction false} NatOfConcat(a: string, b: string)
    requires AllDigits(a) && AllDigits(b)
    ensures AllDigits(a + b)
    ensures NatOf(a + b) == NatOf(a) * Pow10(|b|) + NatOf(b)
  {
    if b == "" {
      assert a + b == a;
    } else {
      var b', c := b[..|b| - 1], b[|b| - 1];
      assert b == b' + [c] && a + b == (a + b') + [c];
      NatOfConcat(a, b');
      NatOfAppend(a + b', c);
      MulTenfold(NatOf(a), Pow10(|b'|));
    }
  }

  lemma MulTenfold(a: nat, p: nat)
    ensures 10 * (a * p) == a * (10 * p)
  {
  }

  lemma {:induction false} NatOfBelowPow10(s: string)
    requires AllDigits(s)
    ensures NatOf(s) < Pow10(|s|)
  {
    if s != "" {
      NatOfBelowPow10(s[..|s| - 1]);
    }
  }

  /** A longer numeral never denotes less. */
  lemma NatOfExtended(a: string, b: string)
    requires AllDigits(a) && AllDigits(b)
    ensures NatOf(a) <= NatOf(a + b)
  {
    NatOfConcat(a, b);
    MulAtLeast(NatOf(a), Pow10(|b|));
  }

  lemma MulAtLeast(a: nat, b: nat)
    requires b >= 1
    ensures a * b >= a
  {
  }

  /** Truncating the exact quotient of two naturals is integer division. */
  lemma FloorOfQuotient(a: nat, b: nat)
    requires b > 0
    ensures (a as real / b as real).Floor == a / b
  {
    var q, r := a / b, a % b;
    assert a == q * b + r;
    assert a as real == q as real * b as real + r as real;
    assert a as real / b as real == q as real + r as real / b as real;
    assert 0.0 <= r as real / b as real < 1.0;
  }
}

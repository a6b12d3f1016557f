/** Decimal numerals, and the code-point order in which Rust and SQL compare text. */
module Text {

  predicate IsDigit(c: char) {
    '0' <= c <= '9'
  }

  predicate AllDigits(s: string) {
    forall i | 0 <= i < |s| :: IsDigit(s[i])
  }

  function DigitValue(c: char): (n: nat)
    requires IsDigit(c)
    ensures n < 10
  {
    c as int - '0' as int
  }

  function DigitChar(n: nat): (c: char)
    requires n < 10
    ensures IsDigit(c) && DigitValue(c) == n
  {
    (n + '0' as int) as char
  }

  // The number a run of digits denotes.
  function NumeralValue(s: string): nat
    requires AllDigits(s)
  {
    if s == [] then 0 else 10 * NumeralValue(s[..|s| - 1]) + DigitValue(s[|s| - 1])
  }

  // The decimal print of a number.
  function Decimal(n: nat): (s: string)
    ensures s != [] && AllDigits(s)
  {
    if n < 10 then [DigitChar(n)] else Decimal(n / 10) + [DigitChar(n % 10)]
  }

  lemma {:induction false} DecimalValue(n: nat)
    ensures NumeralValue(Decimal(n)) == n
  {
    if n < 10 {
      assert Decimal(n)[..0] == [];
    } else {
      DecimalValue(n / 10);
      assert Decimal(n)[..|Decimal(n)| - 1] == Decimal(n / 10);
    }
  }

  // The print of a signed number, as Rust's Display writes it.
  function IntText(n: int): (s: string)
    ensures s != []
  {
    if n < 0 then ['-'] + Decimal(-n) else Decimal(n)
  }

  // A minus for a negative number, then the digits of its size, without leading zeros.
  lemma IntTextReads(n: int)
    ensures var (s, size) := (IntText(n), if n < 0 then -n else n);
            && (n < 0 ==> s[0] == '-')
            && var digits := if n < 0 then s[1..] else s;
               digits != [] && AllDigits(digits) && NumeralValue(digits) == size && (size > 0 ==> digits[0] != '0')
  {
    hide Decimal, NumeralValue;
    var size := if n < 0 then -n else n;
    DecimalValue(size);
    NoLeadingZero(size);
    if n < 0 {
      assert IntText(n)[1..] == Decimal(size);
    }
  }

  lemma {:induction false} NoLeadingZero(n: nat)
    ensures n > 0 ==> Decimal(n)[0] != '0'
  {
    if n >= 10 {
      NoLeadingZero(n / 10);
      assert Decimal(n)[0] == Decimal(n / 10)[0];
    }
  }

  lemma IntTextInjective(a: int, b: int)
    requires IntText(a) == IntText(b)
    ensures a == b
  {
    hide Decimal;
    assert (IntText(a)[0] == '-') == (a < 0) by { assert a >= 0 ==> IsDigit(Decimal(a)[0]); }
    assert (IntText(b)[0] == '-') == (b < 0) by { assert b >= 0 ==> IsDigit(Decimal(b)[0]); }
    if a < 0 {
      assert IntText(a)[1..] == Decimal(-a) && IntText(b)[1..] == Decimal(-b);
      DecimalValue(-a);
      DecimalValue(-b);
    } else {
      DecimalValue(a);
      DecimalValue(b);
    }
  }

  // Zero-padded print in exactly `width` digits; the leading digits are lost if it is too narrow.
  function Padded(n: nat, width: nat): (s: string)
    ensures |s| == width && AllDigits(s)
  {
    if width == 0 then "" else Padded(n / 10, width - 1) + [DigitChar(n % 10)]
  }

  // Strict and non-strict lexicographic order by code point.
  predicate Less(a: string, b: string) {
    b != [] && (a == [] || a[0] < b[0] || (a[0] == b[0] && Less(a[1..], b[1..])))
  }

  predicate AtMost(a: string, b: string) {
    a == b || Less(a, b)
  }

  lemma {:induction false} LessIrreflexive(a: string)
    ensures !Less(a, a)
  {
    if a != [] {
      LessIrreflexive(a[1..]);
    }
  }

  lemma {:induction false} LessTransitive(a: string, b: string, c: string)
    requires Less(a, b) && Less(b, c)
    ensures Less(a, c)
  {
    if a != [] && a[0] == b[0] == c[0] {
      LessTransitive(a[1..], b[1..], c[1..]);
    }
  }

  lemma {:induction false} LessTotal(a: string, b: string)
    ensures a == b || Less(a, b) || Less(b, a)
  {
    if a != [] && b != [] && a[0] == b[0] {
      LessTotal(a[1..], b[1..]);
      assert a == [a[0]] + a[1..] && b == [b[0]] + b[1..];
    }
  }

  // Prefixes of equal length decide first; the rest breaks a tie.
  lemma {:induction false} LessConcat(a: string, b: string, x: string, y: string)
    requires |a| == |b|
    ensures Less(a + x, b + y) <==> Less(a, b) || (a == b && Less(x, y))
  {
    if a == [] {
      assert a + x == x && b + y == y;
    } else {
      LessConcat(a[1..], b[1..], x, y);
      assert (a + x)[1..] == a[1..] + x && (b + y)[1..] == b[1..] + y;
      assert a == [a[0]] + a[1..] && b == [b[0]] + b[1..];
    }
  }

  function Pow10(k: nat): (p: nat)
    ensures p >= 1
  {
    if k == 0 then 1 else 10 * Pow10(k - 1)
  }

  lemma {:induction false} PaddedInjective(m: nat, n: nat, width: nat)
    requires m < Pow10(width) && n < Pow10(width)
    ensures Padded(m, width) == Padded(n, width) <==> m == n
  {
    if width > 0 {
      PaddedInjective(m / 10, n / 10, width - 1);
      var a, b := Padded(m, width), Padded(n, width);
      assert a[..width - 1] == Padded(m / 10, width - 1) && b[..width - 1] == Padded(n / 10, width - 1);
      assert a[width - 1] == DigitChar(m % 10) && b[width - 1] == DigitChar(n % 10);
    }
  }

  // Zero padding makes the text order agree with the numeric order.
  lemma {:induction false} PaddedOrder(m: nat, n: nat, width: nat)
    requires m < Pow10(width) && n < Pow10(width)
    ensures Less(Padded(m, width), Padded(n, width)) <==> m < n
  {
    if width > 0 {
      PaddedOrder(m / 10, n / 10, width - 1);
      PaddedInjective(m / 10, n / 10, width - 1);
      LessConcat(Padded(m / 10, width - 1), Padded(n / 10, width - 1), [DigitChar(m % 10)], [DigitChar(n % 10)]);
      assert Less([DigitChar(m % 10)], [DigitChar(n % 10)]) <==> m % 10 < n % 10;
    }
  }

  lemma {:induction false} PaddedValue(n: nat, width: nat)
    requires n < Pow10(width)
    ensures NumeralValue(Padded(n, width)) == n
  {
    if width > 0 {
      assert n / 10 < Pow10(width - 1);
      PaddedValue(n / 10, width - 1);
      hide Pow10;
      var s := Padded(n / 10, width - 1);
      assert Padded(n, width) == s + [DigitChar(n % 10)];
      hide Padded;
      LastDigit(s, n % 10);
    }
  }

  lemma LastDigit(s: string, d: nat)
    requires AllDigits(s) && d < 10
    ensures AllDigits(s + [DigitChar(d)]) && NumeralValue(s + [DigitChar(d)]) == 10 * NumeralValue(s) + d
  {
    assert (s + [DigitChar(d)])[..|s|] == s;
  }
}

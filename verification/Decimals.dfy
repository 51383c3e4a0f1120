/** Decimal numerals, and how many digits they have. */
module Decimals {
  import opened Arithmetic

  const WORD64: nat := 0x1_0000_0000_0000_0000

  function Pow(b: nat, e: nat): nat { if e == 0 then 1 else b * Pow(b, e - 1) }

  function Digit(d: nat): char
    requires d < 10
  {
    '0' + d as char
  }

  predicate IsDigit(c: char) { '0' <= c <= '9' }

  function DigitValue(c: char): (d: nat)
    requires IsDigit(c)
    ensures d < 10 && Digit(d) == c
  {
    c as nat - '0' as nat
  }

  /** The numeral of `n`: most significant digit first, no leading zeros. */
  function Numeral(n: nat): (text: string)
    ensures text != [] && forall i :: 0 <= i < |text| ==> IsDigit(text[i])
  {
    if n < 10 then [Digit(n)] else Numeral(n / 10) + [Digit(n % 10)]
  }

  /** The value of a string of digits. */
  function Value(text: string): nat
    requires forall i :: 0 <= i < |text| ==> IsDigit(text[i])
  {
    if text == [] then 0 else Value(text[..|text| - 1]) * 10 + DigitValue(text[|text| - 1])
  }

  lemma {:induction false} ValueOfNumeral(n: nat)
    ensures Value(Numeral(n)) == n
  {
    if n >= 10 {
      ValueOfNumeral(n / 10);
      assert Numeral(n)[..|Numeral(n)| - 1] == Numeral(n / 10);
    }
  }

  /** Leading zeros change nothing, and a string without them is the numeral of its value. */
  lemma {:induction false} LeadingZero(text: string)
    requires forall i :: 0 <= i < |text| ==> IsDigit(text[i])
    ensures Value(['0'] + text) == Value(text)
    decreases |text|
  {
    if text == [] {
      assert (['0'] + text)[..0] == [];
    } else {
      var all := ['0'] + text;
      assert all[..|all| - 1] == ['0'] + text[..|text| - 1];
      LeadingZero(text[..|text| - 1]);
    }
  }

  lemma {:induction false} NumeralOfValue(text: string)
    requires text != [] && (|text| == 1 || text[0] != '0') && forall i :: 0 <= i < |text| ==> IsDigit(text[i])
    ensures Numeral(Value(text)) == text && (text[0] != '0' ==> Value(text) > 0)
    decreases |text|
  {
    var front := text[..|text| - 1];
    assert text == front + [text[|text| - 1]];
    if |text| > 1 {
      NumeralOfValue(front);
      assert Value(front) > 0;
    }
  }

  /** The ten digits are the ten characters from '0' to '9', in order. */
  lemma DigitOrder(a: nat, b: nat)
    requires a < b < 10
    ensures '0' <= Digit(a) < Digit(b) <= '9'
  {}

  /** `a` comes before `b`: the first character in which they differ is smaller. */
  ghost predicate TextBefore(a: string, b: string) {
    exists k :: 0 <= k < |a| && k < |b| && a[..k] == b[..k] && a[k] < b[k]
  }

  lemma SamePrefix(a: string, b: string, k: nat)
    requires k <= |a| && k <= |b| && a[..k] == b[..k]
    ensures forall i :: 0 <= i < k ==> a[i] == b[i]
  {
    assert forall i :: 0 <= i < k ==> a[i] == a[..k][i] && b[i] == b[..k][i];
  }

  lemma NotBothBefore(a: string, b: string)
    requires TextBefore(a, b)
    ensures !TextBefore(b, a)
  {
    var j :| 0 <= j < |a| && j < |b| && a[..j] == b[..j] && a[j] < b[j];
    SamePrefix(a, b, j);
    forall k | 0 <= k < |b| && k < |a| && b[..k] == a[..k] ensures b[k] >= a[k] {
      SamePrefix(a, b, k);
    }
  }

  lemma {:induction false} SmallerIsBefore(m: nat, n: nat)
    requires m < n && |Numeral(m)| == |Numeral(n)|
    ensures TextBefore(Numeral(m), Numeral(n))
  {
    var a, b := Numeral(m), Numeral(n);
    if n < 10 {
      DigitOrder(m, n);
      assert a[..0] == b[..0] && a[0] < b[0];
    } else {
      var p, q, k := Numeral(m / 10), Numeral(n / 10), |a| - 1;
      assert a[..k] == p && b[..k] == q;
      if m / 10 == n / 10 {
        DigitOrder(m % 10, n % 10);
        assert a[k] < b[k];
      } else {
        SmallerIsBefore(m / 10, n / 10);
        var i :| 0 <= i < |p| && i < |q| && p[..i] == q[..i] && p[i] < q[i];
        assert a[..i] == p[..i] && b[..i] == q[..i] && a[i] == p[i] && b[i] == q[i];
      }
    }
  }

  /** Of two numerals of one length that which comes first as text is that of the smaller number. */
  lemma NumeralOrder(m: nat, n: nat)
    requires |Numeral(m)| == |Numeral(n)|
    ensures m < n <==> TextBefore(Numeral(m), Numeral(n))
  {
    hide Numeral, TextBefore;
    if m < n {
      SmallerIsBefore(m, n);
    } else if n < m {
      SmallerIsBefore(n, m);
      NotBothBefore(Numeral(n), Numeral(m));
    } else {
      NotBeforeItself(Numeral(n));
    }
  }

  lemma NotBeforeItself(a: string)
    ensures !TextBefore(a, a)
  {}

  lemma PowStep(b: nat, e: nat)
    ensures Pow(b, e + 1) == b * Pow(b, e)
  {}

  lemma {:induction false} PowMonotone(b: nat, d: nat, e: nat)
    requires b > 0 && d <= e
    ensures 0 < Pow(b, d) <= Pow(b, e)
    decreases e
  {
    if d == e {
      if d > 0 { PowMonotone(b, d - 1, e - 1); }
    } else {
      PowMonotone(b, d, e - 1);
      PowStep(b, e - 1);
      MulMonotone(1, b, Pow(b, e - 1));
    }
  }

  /** The length of a numeral is the number of digits: `10^(k-1) <= n < 10^k`, with at least one. */
  lemma {:induction false} NumeralLength(n: nat)
    ensures n < Pow(10, |Numeral(n)|)
    ensures |Numeral(n)| == 1 || Pow(10, |Numeral(n)| - 1) <= n
  {
    var k := |Numeral(n)|;
    PowStep(10, k - 1);
    if n >= 10 {
      NumeralLength(n / 10);
      PowStep(10, k - 2);
    }
  }

  lemma LengthIs(n: nat, k: nat)
    requires k > 0 && n < Pow(10, k) && (k == 1 || Pow(10, k - 1) <= n)
    ensures |Numeral(n)| == k
  {
    NumeralLength(n);
    var l := |Numeral(n)|;
    if l < k { PowMonotone(10, l, k - 1); }
    if k < l { PowMonotone(10, k, l - 1); }
  }

  // Counting digits by the position of the highest bit

  /** The number of bits of `n`; for a word of w bits, w minus the count of leading zeros. */
  function Bits(n: nat): nat {
    if n == 0 then 0 else 1 + Bits(n / 2)
  }

  lemma {:induction false} BitsBound(n: nat)
    requires n > 0
    ensures Bits(n) > 0 && Pow(2, Bits(n) - 1) <= n < Pow(2, Bits(n))
  {
    if n == 1 {
      assert Bits(1) == 1 + Bits(0);
    } else {
      BitsBound(n / 2);
      PowStep(2, Bits(n / 2) - 1);
      PowStep(2, Bits(n / 2));
    }
  }

  /** `n | 1` */
  function OrOne(n: nat): nat { if n % 2 == 0 then n + 1 else n }

  /** The multiplication and shift that stand for the logarithm. */
  function Log(bits: nat): nat { bits * 1233 / 4096 }

  const POWERS_OF_10_32: seq<nat> := [0, 10, 100, 1000, 10000, 100000, 1000000, 10000000, 100000000, 1000000000]
  const POWERS_OF_10_64: seq<nat> := [
    0, 10, 100, 1000, 10000, 100000, 1000000, 10000000, 100000000, 1000000000,
    10000000000, 100000000000, 1000000000000, 10000000000000, 100000000000000, 1000000000000000,
    10000000000000000, 100000000000000000, 1000000000000000000, 10000000000000000000]

  /** The digit count as it is computed. */
  function CountDigits(n: nat, powers: seq<nat>): int
    requires Log(Bits(OrOne(n))) < |powers|
  {
    var t := Log(Bits(OrOne(n)));
    t - (if n < powers[t] then 1 else 0) + 1
  }

  /** The largest number of bits with logarithm `t`. */
  function LastBits(t: nat): nat { ((t + 1) * 4096 - 1) / 1233 }

  lemma LogBrackets(bits: nat)
    ensures var t := Log(bits); bits <= LastBits(t) && (t > 0 ==> LastBits(t - 1) < bits)
  {}

  /** The powers of two at the end of a bracket lie between consecutive powers of ten. */
  ghost predicate Fits(t: nat) {
    Pow(10, t) <= Pow(2, LastBits(t)) <= Pow(10, t + 1)
  }

  lemma PowersOfTwo()
    ensures Pow(2, 3) == 8
    ensures Pow(2, 6) == 64
    ensures Pow(2, 9) == 512
    ensures Pow(2, 13) == 8192
    ensures Pow(2, 16) == 65536
    ensures Pow(2, 19) == 524288
    ensures Pow(2, 23) == 8388608
    ensures Pow(2, 26) == 67108864
    ensures Pow(2, 29) == 536870912
    ensures Pow(2, 33) == 8589934592
    ensures Pow(2, 36) == 68719476736
    ensures Pow(2, 39) == 549755813888
    ensures Pow(2, 43) == 8796093022208
    ensures Pow(2, 46) == 70368744177664
    ensures Pow(2, 49) == 562949953421312
    ensures Pow(2, 53) == 9007199254740992
    ensures Pow(2, 56) == 72057594037927936
    ensures Pow(2, 59) == 576460752303423488
    ensures Pow(2, 63) == 9223372036854775808
    ensures Pow(2, 66) == 73786976294838206464
  {
    assert Pow(2, 3) == 8;
    assert Pow(2, 6) == 64;
    assert Pow(2, 9) == 512;
    assert Pow(2, 13) == 8192;
    assert Pow(2, 16) == 65536;
    assert Pow(2, 19) == 524288;
    assert Pow(2, 23) == 8388608;
    assert Pow(2, 26) == 67108864;
    assert Pow(2, 29) == 536870912;
    assert Pow(2, 33) == 8589934592;
    assert Pow(2, 36) == 68719476736;
    assert Pow(2, 39) == 549755813888;
    assert Pow(2, 43) == 8796093022208;
    assert Pow(2, 46) == 70368744177664;
    assert Pow(2, 49) == 562949953421312;
    assert Pow(2, 53) == 9007199254740992;
    assert Pow(2, 56) == 72057594037927936;
    assert Pow(2, 59) == 576460752303423488;
    assert Pow(2, 63) == 9223372036854775808;
    assert Pow(2, 66) == 73786976294838206464;
  }

  lemma PowersOfTen()
    ensures Pow(10, 0) == 1
    ensures Pow(10, 1) == 10
    ensures Pow(10, 2) == 100
    ensures Pow(10, 3) == 1000
    ensures Pow(10, 4) == 10000
    ensures Pow(10, 5) == 100000
    ensures Pow(10, 6) == 1000000
    ensures Pow(10, 7) == 10000000
    ensures Pow(10, 8) == 100000000
    ensures Pow(10, 9) == 1000000000
    ensures Pow(10, 10) == 10000000000
    ensures Pow(10, 11) == 100000000000
    ensures Pow(10, 12) == 1000000000000
    ensures Pow(10, 13) == 10000000000000
    ensures Pow(10, 14) == 100000000000000
    ensures Pow(10, 15) == 1000000000000000
    ensures Pow(10, 16) == 10000000000000000
    ensures Pow(10, 17) == 100000000000000000
    ensures Pow(10, 18) == 1000000000000000000
    ensures Pow(10, 19) == 10000000000000000000
    ensures Pow(10, 20) == 100000000000000000000
  {
    assert Pow(10, 0) == 1;
    assert Pow(10, 1) == 10;
    assert Pow(10, 2) == 100;
    assert Pow(10, 3) == 1000;
    assert Pow(10, 4) == 10000;
    assert Pow(10, 5) == 100000;
    assert Pow(10, 6) == 1000000;
    assert Pow(10, 7) == 10000000;
    assert Pow(10, 8) == 100000000;
    assert Pow(10, 9) == 1000000000;
    assert Pow(10, 10) == 10000000000;
    assert Pow(10, 11) == 100000000000;
    assert Pow(10, 12) == 1000000000000;
    assert Pow(10, 13) == 10000000000000;
    assert Pow(10, 14) == 100000000000000;
    assert Pow(10, 15) == 1000000000000000;
    assert Pow(10, 16) == 10000000000000000;
    assert Pow(10, 17) == 100000000000000000;
    assert Pow(10, 18) == 1000000000000000000;
    assert Pow(10, 19) == 10000000000000000000;
    assert Pow(10, 20) == 100000000000000000000;
  }

  lemma FitsTable()
    ensures forall t :: 0 <= t < 20 ==> Fits(t)
  {
    hide Pow;
    PowersOfTwo();
    PowersOfTen();
    assert Fits(0);
    assert Fits(1);
    assert Fits(2);
    assert Fits(3);
    assert Fits(4);
    assert Fits(5);
    assert Fits(6);
    assert Fits(7);
    assert Fits(8);
    assert Fits(9);
    assert Fits(10);
    assert Fits(11);
    assert Fits(12);
    assert Fits(13);
    assert Fits(14);
    assert Fits(15);
    assert Fits(16);
    assert Fits(17);
    assert Fits(18);
    assert Fits(19);
  }

  ghost predicate IsTable(powers: seq<nat>) {
    forall t :: 0 <= t < |powers| ==> powers[t] == if t == 0 then 0 else Pow(10, t)
  }

  lemma Tables()
    ensures |POWERS_OF_10_32| == 10 && IsTable(POWERS_OF_10_32)
    ensures |POWERS_OF_10_64| == 20 && IsTable(POWERS_OF_10_64)
  {
    hide Pow;
    PowersOfTen();
  }

  /** The computed count is the length of the numeral, whenever the table is long enough for the logarithm. */
  lemma CountIsLength(n: nat, powers: seq<nat>)
    requires IsTable(powers) && |powers| <= 20 && Log(Bits(OrOne(n))) < |powers|
    ensures CountDigits(n, powers) == |Numeral(n)|
  {
    var b := Bits(OrOne(n));
    var t := Log(b);
    BitsBound(OrOne(n));
    LogBrackets(b);
    FitsTable();
    assert Fits(t);
    PowMonotone(2, b, LastBits(t));
    if t == 0 {
      assert Pow(2, 3) == 8;
      LengthIs(n, 1);
    } else {
      assert Fits(t - 1);
      PowMonotone(2, LastBits(t - 1), b - 1);
      EvenBelow(n, b - 1);
      if n < Pow(10, t) { LengthIs(n, t); } else { LengthIs(n, t + 1); }
    }
  }

  /** Setting the lowest bit does not pass a power of two. */
  lemma EvenBelow(n: nat, e: nat)
    requires e > 0 && Pow(2, e) <= OrOne(n)
    ensures Pow(2, e) <= n
  {
    hide Pow;
    PowStep(2, e - 1);
    var half := Pow(2, e - 1);
    assert n % 2 == 0 ==> n == 2 * (n / 2) && 2 * half <= n + 1;
  }

  lemma LogBound(n: nat)
    ensures n < WORD ==> Log(Bits(OrOne(n))) < 10
    ensures n < WORD64 ==> Log(Bits(OrOne(n))) < 20
  {
    hide Pow, Bits;
    BitsBound(OrOne(n));
    PowersOfTwo();
    PowStep(2, 32);
    PowStep(2, 64);
    PowStep(2, 65);
    var b := Bits(OrOne(n));
    if b > 32 { PowMonotone(2, 32, b - 1); }
    if b > 64 { PowMonotone(2, 64, b - 1); }
  }

  /** For every 32-bit and every 64-bit value the count is the number of decimal digits. */
  lemma CountIsExact(n: nat)
    ensures n < WORD ==>
              Log(Bits(OrOne(n))) < |POWERS_OF_10_32| && CountDigits(n, POWERS_OF_10_32) == |Numeral(n)|
    ensures n < WORD64 ==>
              Log(Bits(OrOne(n))) < |POWERS_OF_10_64| && CountDigits(n, POWERS_OF_10_64) == |Numeral(n)|
  {
    Tables();
    LogBound(n);
    if n < WORD { CountIsLength(n, POWERS_OF_10_32); }
    if n < WORD64 { CountIsLength(n, POWERS_OF_10_64); }
  }
}

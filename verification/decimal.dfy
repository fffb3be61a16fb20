/**
 Decimal text of integers, as the Swift standard library writes and reads it:
 `String(n)` (no leading zeros, a leading '-' for negatives) and the failable
 `Int(s)` (an optional sign followed by at least one ASCII digit).
 */
module Decimal {
  import opened Wrappers

  predicate IsDigit(c: char) {
    '0' <= c <= '9'
  }

  predicate AllDigits(s: string) {
    forall i :: 0 <= i < |s| ==> IsDigit(s[i])
  }

  function DigitValue(c: char): (d: nat)
    requires IsDigit(c)
    ensures d < 10
  {
    c as int - '0' as int
  }

  function DigitChar(d: nat): (c: char)
    requires d < 10
    ensures IsDigit(c) && DigitValue(c) == d
  {
    ('0' as int + d) as char
  }

  function Pow10(k: nat): (p: nat)
    ensures p >= 1
  {
    if k == 0 then 1 else 10 * Pow10(k - 1)
  }

  lemma Pow10Values()
    ensures Pow10(1) == 10 && Pow10(2) == 100 && Pow10(3) == 1000 && Pow10(4) == 10000
    ensures Pow10(5) == 100000 && Pow10(6) == 1000000 && Pow10(7) == 10000000
    ensures Pow10(8) == 100000000
  {
    assert Pow10(1) == 10;
    assert Pow10(2) == 100;
    assert Pow10(3) == 1000;
    assert Pow10(4) == 10000;
    assert Pow10(5) == 100000;
    assert Pow10(6) == 1000000;
    assert Pow10(7) == 10000000;
  }

  lemma {:induction false} Pow10Monotone(i: nat, j: nat)
    requires i < j
    ensures Pow10(i) < Pow10(j)
  {
    if i + 1 < j {
      Pow10Monotone(i, j - 1);
    }
  }

  /** The number a string of digits denotes, read most significant digit first. */
  function Value(s: string): (v: nat)
    requires AllDigits(s)
    ensures v < Pow10(|s|)
  {
    if |s| == 0 then 0 else 10 * Value(s[..|s| - 1]) + DigitValue(s[|s| - 1])
  }

  /** `n` zero characters, the padding `String(repeating: "0", count: n)`. */
  function Zeros(n: nat): (s: string)
    ensures |s| == n && AllDigits(s)
    ensures forall i :: 0 <= i < n ==> s[i] == '0'
  {
    seq(n, _ => '0')
  }

  /** Swift's `String(n)` for a non-negative `n`: its decimal digits without leading zeros. */
  function Digits(n: nat): (s: string)
    ensures 1 <= |s| && AllDigits(s)
    ensures Value(s) == n
    ensures |s| > 1 ==> Pow10(|s| - 1) <= n
    decreases n
  {
    if n < 10 then [DigitChar(n)]
    else
      var s := Digits(n / 10) + [DigitChar(n % 10)];
      assert s[..|s| - 1] == Digits(n / 10);
      s
  }

  /** Swift's `String(n)`. */
  function IntString(n: int): (s: string)
    ensures |s| >= 1
    ensures n >= 0 <==> AllDigits(s)
  {
    if n < 0 then
      var s := "-" + Digits(-n);
      assert !IsDigit(s[0]);
      s
    else Digits(n)
  }

  /** Swift's `Int(s)`: an optional sign, then one or more ASCII digits. */
  function ParseInt(s: string): (r: Option<int>)
    ensures AllDigits(s) && |s| > 0 ==> r == Some(Value(s))
    ensures |s| == 0 ==> r == None
    ensures |s| == 1 && !IsDigit(s[0]) ==> r == None
  {
    if |s| > 0 && (s[0] == '-' || s[0] == '+') then
      var body := s[1..];
      if |body| > 0 && AllDigits(body) then
        var v: int := Value(body);
        Some(if s[0] == '-' then -v else v)
      else None
    else if |s| > 0 && AllDigits(s) then Some(Value(s))
    else None
  }

  /** The number of digits of `n` is fixed by the powers of ten around it. */
  lemma DigitsLength(n: nat, k: nat)
    requires k >= 1
    ensures |Digits(n)| <= k <==> n < Pow10(k)
  {
    var s := Digits(n);
    if |s| <= k {
      if |s| < k {
        Pow10Monotone(|s|, k);
      }
    } else if k < |s| - 1 {
      Pow10Monotone(k, |s| - 1);
    }
  }

  lemma {:induction false} ValueConcat(a: string, b: string)
    requires AllDigits(a) && AllDigits(b)
    ensures AllDigits(a + b)
    ensures Value(a + b) == Value(a) * Pow10(|b|) + Value(b)
    decreases |b|
  {
    assert AllDigits(a + b);
    if |b| > 0 {
      var b' := b[..|b| - 1];
      assert (a + b)[..|a + b| - 1] == a + b';
      ValueConcat(a, b');
      var va, p, d := Value(a), Pow10(|b'|), DigitValue(b[|b| - 1]);
      assert Value(a + b) == 10 * Value(a + b') + d;
      assert Value(b) == 10 * Value(b') + d;
      assert Pow10(|b|) == 10 * p;
      MulTen(va, p);
    } else {
      assert a + b == a;
    }
  }

  lemma MulTen(x: int, y: int)
    ensures 10 * (x * y) == x * (10 * y)
  {
  }

  lemma {:induction false} ValueZeros(n: nat)
    ensures Value(Zeros(n)) == 0
  {
    if n > 0 {
      assert Zeros(n)[..n - 1] == Zeros(n - 1);
      ValueZeros(n - 1);
    }
  }

  /** Leading zeros do not change the number a digit string denotes. */
  lemma ValueLeftPadded(n: nat, s: string)
    requires AllDigits(s)
    ensures AllDigits(Zeros(n) + s) && Value(Zeros(n) + s) == Value(s)
  {
    ValueConcat(Zeros(n), s);
    ValueZeros(n);
  }

  /** Reading the first `k` characters and the rest splits the value at a power of ten. */
  lemma ValueSplit(s: string, k: nat)
    requires AllDigits(s) && k <= |s|
    ensures Value(s) == Value(s[..k]) * Pow10(|s| - k) + Value(s[k..])
  {
    assert s == s[..k] + s[k..];
    ValueConcat(s[..k], s[k..]);
  }

  /** The fields of an eight-digit string `ddMMyyyy` are the arithmetic slices of its value. */
  lemma SplitEight(s: string)
    requires |s| == 8 && AllDigits(s)
    ensures Value(s[..2]) == Value(s) / 1000000
    ensures Value(s[2..4]) == Value(s) / 10000 % 100
    ensures Value(s[4..]) == Value(s) % 10000
  {
    Pow10Values();
    var v := Value(s);
    ValueSplit(s, 4);
    var head := s[..4];
    ValueSplit(head, 2);
    assert head[..2] == s[..2];
    assert head[2..] == s[2..4];
    DivModFields(v, Value(s[..2]), Value(s[2..4]), Value(s[4..]));
  }

  /** The fields of a seven-digit string `dMMyyyy`, read as in `Int.toDate`. */
  lemma SplitSeven(s: string)
    requires |s| == 7 && AllDigits(s)
    ensures Value(s[..1]) == Value(s) / 1000000
    ensures Value(s[1..3]) == Value(s) / 10000 % 100
    ensures Value(s[3..]) == Value(s) % 10000
  {
    Pow10Values();
    var v := Value(s);
    ValueSplit(s, 3);
    var head := s[..3];
    ValueSplit(head, 1);
    assert head[..1] == s[..1];
    assert head[1..] == s[1..3];
    DivModFields(v, Value(s[..1]), Value(s[1..3]), Value(s[3..]));
  }

  /** Integer division recovers the fields of `a * 10^6 + m * 10^4 + y`. */
  lemma DivModFields(v: int, a: nat, m: nat, y: nat)
    requires m < 100 && y < 10000
    requires v == (a * 100 + m) * 10000 + y
    ensures v / 1000000 == a && v / 10000 % 100 == m && v % 10000 == y
  {
    assert v == (a * 100 + m) * 10000 + y;
    assert v / 10000 == a * 100 + m;
    assert v == a * 1000000 + (m * 10000 + y);
  }
}

/** Decimal text of whole numbers, as JavaScript writes an integral Number
    below 2^53 converted to a string (`n + ""`), and `String.prototype.slice`
    with a negative start. Workout ids and the day in a description are
    built from these. */
module Decimal {

  predicate IsDigit(c: char) {
    '0' <= c <= '9'
  }

  predicate AllDigits(s: string) {
    forall i :: 0 <= i < |s| ==> IsDigit(s[i])
  }

  function DigitChar(d: nat): (c: char)
    requires d < 10
    ensures IsDigit(c)
  {
    ('0' as int + d) as char
  }

  function DigitValue(c: char): (d: nat)
    requires IsDigit(c)
    ensures d < 10 && DigitChar(d) == c
  {
    c as int - '0' as int
  }

  function Pow10(k: nat): (p: nat)
    ensures p >= 1
  {
    if k == 0 then 1 else 10 * Pow10(k - 1)
  }

  /** The decimal digits of `n`, most significant first, with no leading zero. */
  function NatToString(n: nat): (s: string)
    ensures 1 <= |s| && AllDigits(s)
    ensures |s| > 1 ==> s[0] != '0'
  {
    if n < 10 then [DigitChar(n)] else NatToString(n / 10) + [DigitChar(n % 10)]
  }

  /** The number a string of decimal digits denotes; the inverse of NatToString. */
  function Value(s: string): nat
    requires AllDigits(s)
  {
    if s == [] then 0 else Value(s[..|s| - 1]) * 10 + DigitValue(s[|s| - 1])
  }

  /** `s.slice(-k)` for k > 0: the last k characters, or all of s when it is shorter. */
  function SliceFromEnd(s: string, k: nat): (r: string)
    requires k > 0
    ensures |r| == if |s| <= k then |s| else k
    ensures s == s[..|s| - |r|] + r
  {
    if |s| <= k then s else s[|s| - k..]
  }

  lemma {:induction false} ValueOfNatToString(n: nat)
    ensures Value(NatToString(n)) == n
  {
    var s := NatToString(n);
    if n >= 10 {
      ValueOfNatToString(n / 10);
      assert s[..|s| - 1] == NatToString(n / 10);
    }
  }

  /** Decimal text is unambiguous: different numbers have different texts. */
  lemma NatToStringInjective(m: nat, n: nat)
    ensures NatToString(m) == NatToString(n) <==> m == n
  {
    ValueOfNatToString(m);
    ValueOfNatToString(n);
  }

  lemma {:induction false} ValueBound(s: string)
    requires AllDigits(s)
    ensures Value(s) < Pow10(|s|)
  {
    if s != [] {
      ValueBound(s[..|s| - 1]);
    }
  }

  lemma {:induction false} Pow10Monotone(j: nat, k: nat)
    ensures j <= k ==> Pow10(j) <= Pow10(k)
  {
    if j < k {
      Pow10Monotone(j, k - 1);
    }
  }

  /** Two digit strings of the same length that denote the same number are equal. */
  lemma {:induction false} ValueInjective(s: string, t: string)
    requires AllDigits(s) && AllDigits(t) && |s| == |t|
    requires Value(s) == Value(t)
    ensures s == t
  {
    if s != [] {
      var ds, dt := DigitValue(s[|s| - 1]), DigitValue(t[|t| - 1]);
      var vs, vt := Value(s[..|s| - 1]), Value(t[..|t| - 1]);
      assert vs * 10 + ds == vt * 10 + dt;
      assert ds == dt && vs == vt;
      ValueInjective(s[..|s| - 1], t[..|t| - 1]);
      assert s == s[..|s| - 1] + [s[|s| - 1]];
      assert t == t[..|t| - 1] + [t[|t| - 1]];
    }
  }

  lemma MulAtLeast(a: int, m: int)
    requires a >= 1 && m > 0
    ensures a * m >= m
  {
  }

  lemma ModUnique(x: int, m: int, q: int, r: int)
    requires m > 0 && x == q * m + r && 0 <= r < m
    ensures x % m == r && x / m == q
  {
    var q', r' := x / m, x % m;
    var dq := q - q';
    assert dq * m == r' - r by {
      assert x == q' * m + r';
      assert q * m - q' * m == dq * m;
    }
    if dq >= 1 {
      MulAtLeast(dq, m);
    } else if dq <= -1 {
      MulAtLeast(-dq, m);
    }
  }

  lemma ModShift(a: nat, d: nat, p: nat)
    requires d < 10 && p >= 1
    ensures (a * 10 + d) % (10 * p) == (a % p) * 10 + d
  {
    var q, r := a / p, a % p;
    assert a * 10 + d == q * (10 * p) + (r * 10 + d);
    ModUnique(a * 10 + d, 10 * p, q, r * 10 + d);
  }

  /** The last k digits of a digit string denote its value modulo 10^k. */
  lemma {:induction false} SuffixValue(s: string, k: nat)
    requires AllDigits(s) && k <= |s|
    ensures Value(s[|s| - k..]) == Value(s) % Pow10(k)
  {
    if k > 0 {
      var init := s[..|s| - 1];
      SuffixValue(init, k - 1);
      var suffix := s[|s| - k..];
      assert suffix[..|suffix| - 1] == init[|init| - (k - 1)..];
      ModShift(Value(init), DigitValue(s[|s| - 1]), Pow10(k - 1));
    }
  }

  /** `s.slice(-k)` of a number's decimal text denotes the number modulo 10^k. */
  lemma SliceFromEndValue(n: nat, k: nat)
    requires k > 0
    ensures AllDigits(SliceFromEnd(NatToString(n), k))
    ensures Value(SliceFromEnd(NatToString(n), k)) == n % Pow10(k)
  {
    var s := NatToString(n);
    ValueOfNatToString(n);
    if |s| <= k {
      ValueBound(s);
      Pow10Monotone(|s|, k);
      ModUnique(n, Pow10(k), 0, n);
    } else {
      SuffixValue(s, k);
    }
  }

  /** A number of at least 10^k has more than k decimal digits. */
  lemma LongEnough(n: nat, k: nat)
    requires n >= Pow10(k)
    ensures |NatToString(n)| > k
  {
    var s := NatToString(n);
    ValueOfNatToString(n);
    ValueBound(s);
    Pow10Monotone(|s|, k);
  }
}

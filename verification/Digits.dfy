/** Decimal digit strings: the spelling Python's `str(int)` produces, and how to read it back. */
module Digits {

  predicate IsDigit(c: char) {
    '0' <= c <= '9'
  }

  predicate AllDigits(s: string) {
    forall i | 0 <= i < |s| :: IsDigit(s[i])
  }

  /** A nonempty digit string without a superfluous leading zero. */
  predicate IsNatText(s: string) {
    |s| > 0 && AllDigits(s) && (s[0] == '0' ==> |s| == 1)
  }

  function DigitChar(d: nat): (c: char)
    requires d < 10
    ensures IsDigit(c) && DigitValue(c) == d
  {
    '0' + d as char
  }

  function DigitValue(c: char): (d: nat)
    requires IsDigit(c)
    ensures d < 10
  {
    c as int - '0' as int
  }

  function NatText(n: nat): (s: string)
    ensures IsNatText(s)
    ensures n > 0 ==> s[0] != '0'
    ensures n < 10 <==> |s| == 1
  {
    if n < 10 then [DigitChar(n)] else NatText(n / 10) + [DigitChar(n % 10)]
  }

  function NatValue(s: string): nat
    requires AllDigits(s)
  {
    if |s| == 0 then 0 else 10 * NatValue(s[..|s| - 1]) + DigitValue(s[|s| - 1])
  }

  function IntText(i: int): (s: string)
    ensures |s| > 0
    ensures i >= 0 ==> IsNatText(s)
    ensures i < 0 ==> s[0] == '-' && |s| > 1 && IsNatText(s[1..]) && s[1] != '0'
  {
    if i < 0 then "-" + NatText(-i) else NatText(i)
  }

  /** Reading a spelled number gives the number back. */
  lemma {:induction false} NatValueOfText(n: nat)
    ensures NatValue(NatText(n)) == n
  {
    if n >= 10 {
      NatValueOfText(n / 10);
      assert NatText(n)[..|NatText(n)| - 1] == NatText(n / 10);
    }
  }

  /** Every digit string without superfluous zeros is the spelling of its value. */
  lemma {:induction false} NatTextOfValue(s: string)
    requires IsNatText(s)
    ensures NatText(NatValue(s)) == s
    ensures |s| > 1 ==> NatValue(s) >= 10
  {
    var front, last := s[..|s| - 1], DigitValue(s[|s| - 1]);
    if |s| > 1 {
      assert front[0] == s[0];
      NatTextOfValue(front);
      if NatValue(front) == 0 {
        assert false;
      }
      assert s == front + [s[|s| - 1]];
    } else {
      assert NatValue(front) == 0;
      assert s == [DigitChar(last)];
    }
  }

  lemma NatTextInjective(m: nat, n: nat)
    requires NatText(m) == NatText(n)
    ensures m == n
  {
    NatValueOfText(m);
    NatValueOfText(n);
  }

  lemma IntTextInjective(i: int, j: int)
    requires IntText(i) == IntText(j)
    ensures i == j
  {
    if i < 0 && j < 0 {
      assert IntText(i)[1..] == NatText(-i) && IntText(j)[1..] == NatText(-j);
      NatTextInjective(-i, -j);
    } else if i >= 0 && j >= 0 {
      NatTextInjective(i, j);
    }
  }

  /** `10^k`. */
  function Pow10(k: nat): (p: nat)
    ensures p > 0
  {
    if k == 0 then 1 else 10 * Pow10(k - 1)
  }

  /** `2^k`. */
  function Pow2(k: nat): nat {
    if k == 0 then 1 else 2 * Pow2(k - 1)
  }

  lemma {:induction false} Pow2Grows(j: nat, k: nat)
    requires j <= k
    ensures Pow2(j) <= Pow2(k)
  {
    if j < k {
      Pow2Grows(j, k - 1);
    }
  }

  lemma Pow2SixtyThree()
    ensures Pow2(63) == 0x8000_0000_0000_0000
  {
    assert Pow2(8) == 0x100;
    assert Pow2(16) == 0x1_0000;
    assert Pow2(24) == 0x100_0000;
    assert Pow2(32) == 0x1_0000_0000;
    assert Pow2(40) == 0x100_0000_0000;
    assert Pow2(48) == 0x1_0000_0000_0000;
    assert Pow2(56) == 0x100_0000_0000_0000;
  }

  lemma {:induction false} ThreeBitsADigit(k: nat, bits: nat)
    requires bits <= 3 * k
    ensures Pow2(bits) <= Pow10(k)
  {
    if bits > 3 {
      ThreeBitsADigit(k - 1, bits - 3);
      assert Pow2(bits) == 2 * Pow2(bits - 1) && Pow2(bits - 1) == 2 * Pow2(bits - 2);
    } else {
      Pow10Grows(if bits == 0 then 0 else 1, k);
      assert Pow2(0) == 1 && Pow2(1) == 2 && Pow2(2) == 4 && Pow2(3) == 8 && Pow10(0) == 1 && Pow10(1) == 10;
    }
  }

  lemma Pow10Nineteen()
    ensures Pow10(19) == 10_000_000_000_000_000_000
  {
    assert Pow10(5) == 100_000;
    assert Pow10(10) == 10_000_000_000;
    assert Pow10(15) == 1_000_000_000_000_000;
  }

  /** A number below `10^k` is spelled with at most `k` digits. */
  lemma {:induction false} NatTextLength(n: nat, k: nat)
    requires k > 0
    ensures n < Pow10(k) <==> |NatText(n)| <= k
  {
    if n >= 10 && k > 1 {
      NatTextLength(n / 10, k - 1);
    } else if k == 1 {
      assert Pow10(1) == 10 * Pow10(0) == 10;
    } else {
      Pow10Grows(1, k);
      assert Pow10(1) == 10 * Pow10(0) == 10;
    }
  }

  lemma {:induction false} Pow10Grows(j: nat, k: nat)
    requires j <= k
    ensures Pow10(j) <= Pow10(k)
  {
    if j < k {
      Pow10Grows(j, k - 1);
    }
  }

  /** The number of leading digits of `s`. */
  function LeadingDigits(s: string): (n: nat)
    ensures n <= |s|
    ensures AllDigits(s[..n])
    ensures n < |s| ==> !IsDigit(s[n])
  {
    if |s| > 0 && IsDigit(s[0]) then
      var m := LeadingDigits(s[1..]);
      assert s[..m + 1] == [s[0]] + s[1..][..m];
      m + 1
    else 0
  }

  lemma {:induction false} LeadingDigitsOfAppend(digits: string, rest: string)
    requires AllDigits(digits)
    requires |rest| > 0 ==> !IsDigit(rest[0])
    ensures LeadingDigits(digits + rest) == |digits|
  {
    var all := digits + rest;
    var n := LeadingDigits(all);
    forall i | 0 <= i < n ensures IsDigit(all[i]) {
      assert all[..n][i] == all[i];
    }
    forall i | 0 <= i < |digits| ensures IsDigit(all[i]) {
      assert all[i] == digits[i];
    }
    assert rest != "" ==> all[|digits|] == rest[0];
  }
}

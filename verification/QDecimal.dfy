/** Fixed-point spelling of nonnegative decimals in signed state: one spelling for each number. */
module QDecimal {
  import opened Basics
  import opened Digits
  import C = Canonical

  /** A finite nonnegative decimal, with the digits and exponent of `as_tuple()`. */
  datatype Dec = Dec(digits: string, exponent: int)

  predicate IsDec(d: Dec) {
    IsNatText(d.digits)
  }

  predicate IsZero(d: Dec) {
    d.digits == "0"
  }

  /** The number a decimal is, whatever its spelling: equal exactly when the values are. */
  function Number(d: Dec): C.Scaled
    requires IsDec(d)
  {
    C.NormalDecimal(false, d.digits, d.exponent)
  }

  function Zeros(n: nat): (s: string)
    ensures |s| == n && forall k | 0 <= k < n :: s[k] == '0'
  {
    if n == 0 then "" else Zeros(n - 1) + "0"
  }

  /** `format(value, "f")`. */
  function Fixed(d: Dec): string {
    if d.exponent >= 0 then d.digits + Zeros(d.exponent)
    else
      var split := |d.digits| + d.exponent;
      if split > 0 then d.digits[..split] + "." + d.digits[split..] else "0." + Zeros(-split) + d.digits
  }

  function RStrip(s: string, c: char): string {
    if s != "" && s[|s| - 1] == c then RStrip(s[..|s| - 1], c) else s
  }

  /** `_decimal_wire`. */
  function Wire(d: Dec): string {
    if IsZero(d) then "0" else
    var fixed := Fixed(d);
    if '.' in fixed then RStrip(RStrip(fixed, '0'), '.') else fixed
  }

  /** The index of the point, or the length. */
  function Point(s: string): (k: nat)
    ensures k <= |s| && (k < |s| ==> s[k] == '.') && forall j | 0 <= j < k :: s[j] != '.'
  {
    if s == "" || s[0] == '.' then 0 else 1 + Point(s[1..])
  }

  /** The grammar of the wire form: no superfluous zero on either side, and no bare point. */
  predicate IsWire(s: string) {
    var k := Point(s);
    && IsNatText(s[..k])
    && (k < |s| ==> k + 1 < |s| && AllDigits(s[k + 1..]) && s[|s| - 1] != '0')
  }

  function StripLeading(s: string): (r: string)
    requires s != "" && AllDigits(s)
    ensures IsNatText(r)
  {
    if |s| > 1 && s[0] == '0' then StripLeading(s[1..]) else s
  }

  /** `Decimal(raw)` for a string of the grammar. */
  function Parse(s: string): (d: Dec)
    requires IsWire(s)
    ensures IsDec(d)
  {
    var k := Point(s);
    if k == |s| then
      assert s[..k] == s;
      Dec(s, 0)
    else
      var t := s[..k] + s[k + 1..];
      Dec(StripLeading(t), -(|s| - k - 1))
  }

  // ---------- Dropping trailing zeros ----------

  /** The same number with its trailing zeros moved into the exponent. */
  function Reduce(d: Dec): Dec
    decreases |d.digits|
  {
    if |d.digits| > 1 && d.digits[|d.digits| - 1] == '0' then Reduce(Dec(d.digits[..|d.digits| - 1], d.exponent + 1)) else d
  }

  lemma RStripStep(s: string, c: char)
    ensures RStrip(s + [c], c) == RStrip(s, c)
  {
    assert (s + [c])[..|s|] == s;
  }

  lemma NoPoint(digits: string)
    requires AllDigits(digits)
    ensures '.' !in digits
  {
    assert !IsDigit('.');
  }

  lemma NoPointInZeros(n: nat)
    ensures '.' !in Zeros(n)
  {
  }

  lemma {:induction false} ZerosShift(n: nat)
    ensures "0" + Zeros(n) == Zeros(n + 1)
  {
    if n > 0 {
      ZerosShift(n - 1);
      assert "0" + (Zeros(n - 1) + "0") == ("0" + Zeros(n - 1)) + "0";
    }
  }

  /** A final zero digit only shows as one more zero of the fixed-point text. */
  lemma FixedStep(front: string, exponent: int)
    requires IsNatText(front)
    ensures exponent >= 0 ==> Fixed(Dec(front + "0", exponent)) == Fixed(Dec(front, exponent + 1))
    ensures exponent == -1 ==> Fixed(Dec(front + "0", exponent)) == front + ".0" && Fixed(Dec(front, 0)) == front
    ensures exponent < -1 ==> Fixed(Dec(front + "0", exponent)) == Fixed(Dec(front, exponent + 1)) + "0"
    ensures exponent < -1 ==> '.' in Fixed(Dec(front, exponent + 1))
  {
    hide NatValue;
    var d := front + "0";
    if exponent >= 0 {
      ZerosShift(exponent);
      assert (front + "0") + Zeros(exponent) == front + ("0" + Zeros(exponent));
    } else {
      var split := |d| + exponent;
      if split > 0 {
        assert d[..split] == front[..split] && d[split..] == front[split..] + "0";
      }
    }
  }

  lemma WireStep(front: string, exponent: int)
    requires IsNatText(front) && front != "0"
    ensures Wire(Dec(front + "0", exponent)) == Wire(Dec(front, exponent + 1))
  {
    hide NatValue;
    FixedStep(front, exponent);
    NoPoint(front);
    if exponent >= 0 {
    } else if exponent == -1 {
      assert front + ".0" == (front + ".") + "0";
      RStripStep(front + ".", '0');
      RStripStep(front, '.');
      assert RStrip(front, '.') == front;
    } else {
      RStripStep(Fixed(Dec(front, exponent + 1)), '0');
    }
  }

  lemma FrontOfNat(digits: string)
    requires IsNatText(digits) && |digits| > 1
    ensures IsNatText(digits[..|digits| - 1]) && digits[..|digits| - 1] != "0" && digits != "0"
  {
    hide NatValue;
    assert digits[..|digits| - 1][0] == digits[0];
  }

  lemma OneDigit(digits: string)
    requires |digits| == 1
    ensures digits == [digits[0]]
  {
  }

  lemma {:induction false} WireOfReduced(d: Dec)
    requires IsDec(d) && !IsZero(d)
    ensures IsDec(Reduce(d)) && !IsZero(Reduce(d)) && Wire(d) == Wire(Reduce(d))
    ensures Reduce(d).digits != "" && Reduce(d).digits[|Reduce(d).digits| - 1] != '0'
    decreases |d.digits|
  {
    hide NatValue, IsNatText, AllDigits, Wire, Fixed;
    NatTextStarts(d.digits);
    var n := |d.digits| - 1;
    if n > 0 && d.digits[n] == '0' {
      var front := d.digits[..n];
      FrontOfNat(d.digits);
      assert d.digits == front + "0";
      WireStep(front, d.exponent);
      WireOfReduced(Dec(front, d.exponent + 1));
    } else if n == 0 {
      OneDigit(d.digits);
    }
  }

  /** A reduced decimal is printed as it stands. */
  lemma WireIsFixed(d: Dec)
    requires IsDec(d) && d.digits[|d.digits| - 1] != '0'
    ensures Wire(d) == Fixed(d)
  {
    hide NatValue;
    var n := |d.digits|;
    if d.exponent >= 0 {
      NoPoint(d.digits);
      NoPointInZeros(d.exponent);
    } else {
      var f := Fixed(d);
      assert f[|f| - 1] == d.digits[n - 1];
      assert IsDigit(d.digits[n - 1]);
    }
  }

  /** `_decimal_wire_length`: how long the text will be, found without printing it. */
  method DecimalWireLength(d: Dec) returns (n: int)
    requires IsDec(d)
    ensures n == |Wire(d)|
  {
    hide NatValue;
    if IsZero(d) {
      return 1;
    }
    var digits, exponent := d.digits, d.exponent;
    WireOfReduced(d);
    hide Wire, Fixed;
    while |digits| > 1 && digits[|digits| - 1] == '0'
      invariant |digits| > 0 && Reduce(Dec(digits, exponent)) == Reduce(d)
      decreases |digits|
    {
      digits := digits[..|digits| - 1];
      exponent := exponent + 1;
    }
    assert Reduce(d) == Dec(digits, exponent);
    WireIsFixed(Dec(digits, exponent));
    FixedLength(Dec(digits, exponent));
    if exponent >= 0 {
      return |digits| + exponent;
    }
    var split := |digits| + exponent;
    if split > 0 {
      return |digits| + 1;
    }
    return 2 - split + |digits|;
  }

  lemma FixedLength(d: Dec)
    ensures var split := |d.digits| + d.exponent;
      |Fixed(d)| == if d.exponent >= 0 then split else if split > 0 then |d.digits| + 1 else 2 - split + |d.digits|
  {
  }

  // ---------- One spelling for each number ----------

  lemma {:induction false} ReduceIsNumber(d: Dec)
    requires IsDec(d) && !IsZero(d)
    ensures IsDec(Reduce(d)) && NatValue(d.digits) > 0
    ensures Number(d) == C.Scaled(NatValue(Reduce(d).digits), Reduce(d).exponent)
    decreases |d.digits|
  {
    NatTextOfValue(d.digits);
    NonzeroValue(d);
    var n := |d.digits| - 1;
    C.NormalDecimalCases(false, d.digits, d.exponent);
    if n > 0 && d.digits[n] == '0' {
      var front := Dec(d.digits[..n], d.exponent + 1);
      C.StripZerosStep(d.digits, d.exponent);
      assert front.digits[0] == d.digits[0];
      ReduceIsNumber(front);
      C.NormalDecimalCases(false, front.digits, front.exponent);
    } else if d.digits[n] != '0' {
      C.StripZerosDone(d.digits, d.exponent);
    }
  }

  lemma NonzeroValue(d: Dec)
    requires IsDec(d)
    ensures NatValue(d.digits) == 0 <==> IsZero(d)
  {
    NatTextOfValue(d.digits);
    if IsZero(d) {
      assert d.digits[..0] == "" && NatValue("0") == 10 * NatValue("") + 0;
    }
  }

  /** Numerically equal decimals have one spelling on the wire. */
  lemma WireOfNumber(a: Dec, b: Dec)
    requires IsDec(a) && IsDec(b) && Number(a) == Number(b)
    ensures Wire(a) == Wire(b)
  {
    NonzeroValue(a);
    NonzeroValue(b);
    C.NormalDecimalCases(false, a.digits, a.exponent);
    C.NormalDecimalCases(false, b.digits, b.exponent);
    if !IsZero(a) && !IsZero(b) {
      WireOfReduced(a);
      WireOfReduced(b);
      ReduceIsNumber(a);
      ReduceIsNumber(b);
      NatTextOfValue(Reduce(a).digits);
      NatTextOfValue(Reduce(b).digits);
      assert Reduce(a) == Reduce(b);
    }
  }

  lemma PointOf(a: string, b: string)
    requires '.' !in a
    ensures Point(a) == |a| && Point(a + ("." + b)) == |a|
  {
    var s := a + ("." + b);
    assert forall k | 0 <= k < |a| :: s[k] == a[k];
    assert s[|a|] == '.';
  }

  lemma NumberStep(front: string, exponent: int)
    requires IsNatText(front) && front != "0"
    ensures IsNatText(front + "0") && Number(Dec(front + "0", exponent)) == Number(Dec(front, exponent + 1))
  {
    var d, f := Dec(front + "0", exponent), Dec(front, exponent + 1);
    ReduceIsNumber(d);
    ReduceIsNumber(f);
    assert d.digits[..|d.digits| - 1] == front;
  }

  lemma {:induction false} NumberShift(digits: string, k: nat)
    requires IsNatText(digits) && digits != "0"
    ensures IsNatText(digits + Zeros(k)) && Number(Dec(digits + Zeros(k), 0)) == Number(Dec(digits, k))
    decreases k
  {
    hide Number;
    NumberShiftBy(digits, k, 0);
  }

  lemma {:induction false} NumberShiftBy(digits: string, k: nat, exponent: int)
    requires IsNatText(digits) && digits != "0"
    ensures IsNatText(digits + Zeros(k)) && Number(Dec(digits + Zeros(k), exponent)) == Number(Dec(digits, k + exponent))
    decreases k
  {
    hide Number;
    if k == 0 {
      assert digits + Zeros(0) == digits;
    } else {
      NumberShiftBy(digits, k - 1, exponent + 1);
      var front := digits + Zeros(k - 1);
      assert front[0] == digits[0];
      NumberStep(front, exponent);
      assert digits + Zeros(k) == front + "0";
    }
  }

  lemma {:induction false} StripLeadingIs(t: string)
    requires t != "" && AllDigits(t)
    ensures var d := StripLeading(t); |d| <= |t| && t == Zeros(|t| - |d|) + d
    ensures t[0] != '0' ==> StripLeading(t) == t
    ensures t[0] == '0' && |t| > 1 ==> |StripLeading(t)| < |t|
  {
    hide NatValue;
    if |t| > 1 && t[0] == '0' {
      StripLeadingIs(t[1..]);
      var d := StripLeading(t);
      assert d == StripLeading(t[1..]);
      hide StripLeading, Zeros, AllDigits, IsNatText;
      ZerosShift(|t| - 1 - |d|);
      assert t == "0" + t[1..];
      assert "0" + (Zeros(|t| - 1 - |d|) + d) == ("0" + Zeros(|t| - 1 - |d|)) + d;
    }
  }

  lemma {:induction false} StripLeadingZeros(k: nat, digits: string)
    requires IsNatText(digits) && digits != "0"
    ensures AllDigits(Zeros(k) + digits) && StripLeading(Zeros(k) + digits) == digits
  {
    hide NatValue;
    if k == 0 {
      assert Zeros(0) + digits == digits;
    } else {
      StripLeadingZeros(k - 1, digits);
      ZerosShift(k - 1);
      var t := Zeros(k) + digits;
      assert t == "0" + (Zeros(k - 1) + digits);
      assert t[1..] == Zeros(k - 1) + digits;
    }
  }

  /** A whole and a fractional part as the grammar has them. */
  predicate Parts(ip: string, fp: string) {
    IsNatText(ip) && fp != "" && AllDigits(fp) && fp[|fp| - 1] != '0'
  }

  lemma PartsRead(ip: string, fp: string)
    requires Parts(ip, fp)
    ensures var s := ip + ("." + fp);
      IsWire(s) && AllDigits(ip + fp) && Parse(s) == Dec(StripLeading(ip + fp), -|fp|)
  {
    hide NatValue;
    var s := ip + ("." + fp);
    NoPoint(ip);
    PointOf(ip, fp);
    hide Point, StripLeading;
    assert s[..|ip|] == ip && s[|ip| + 1..] == fp;
    assert s[|s| - 1] == fp[|fp| - 1];
  }

  lemma WholeReadsBack(d: Dec)
    requires IsDec(d) && !IsZero(d) && d.exponent >= 0
    ensures IsWire(Fixed(d)) && Number(Parse(Fixed(d))) == Number(d)
  {
    hide NatValue;
    hide Number;
    var f, digits := Fixed(d), d.digits;
    NumberShift(digits, d.exponent);
    NoPoint(f);
    PointOf(f, "");
    hide Point;
    assert f[..|f|] == f;
  }

  function WholePart(d: Dec): string {
    var split := |d.digits| + d.exponent;
    if 0 < split <= |d.digits| then d.digits[..split] else "0"
  }

  function FractionPart(d: Dec): string {
    var split := |d.digits| + d.exponent;
    if 0 < split <= |d.digits| then d.digits[split..] else if split <= 0 then Zeros(-split) + d.digits else ""
  }

  lemma FixedParts(d: Dec)
    requires IsDec(d) && !IsZero(d) && d.digits[|d.digits| - 1] != '0' && d.exponent < 0
    ensures Parts(WholePart(d), FractionPart(d)) && |FractionPart(d)| == -d.exponent
    ensures Fixed(d) == WholePart(d) + ("." + FractionPart(d))
    ensures StripLeading(WholePart(d) + FractionPart(d)) == d.digits
  {
    var digits, split := d.digits, |d.digits| + d.exponent;
    if split > 0 {
      PartsOfSplit(digits, split);
    } else {
      PartsOfSmall(digits, -split);
    }
  }

  lemma PartsOfSplit(digits: string, split: nat)
    requires IsNatText(digits) && digits != "0" && digits[|digits| - 1] != '0' && 0 < split < |digits|
    ensures Parts(digits[..split], digits[split..])
    ensures digits[..split] + digits[split..] == digits && StripLeading(digits) == digits
  {
    StripLeadingIs(digits);
    hide StripLeading, NatValue;
    assert digits[..split][0] == digits[0];
    assert digits[split..][|digits| - split - 1] == digits[|digits| - 1];
  }

  lemma ZeroIsNat()
    ensures IsNatText("0")
  {
  }

  lemma PartsOfSmall(digits: string, k: nat)
    requires IsNatText(digits) && digits != "0" && digits[|digits| - 1] != '0'
    ensures Parts("0", Zeros(k) + digits) && StripLeading("0" + (Zeros(k) + digits)) == digits
  {
    hide StripLeading, NatValue, Zeros, IsNatText, AllDigits;
    NatTextStarts(digits);
    ZeroIsNat();
    StripLeadingZeros(k, digits);
    StripLeadingZeros(k + 1, digits);
    ZerosShift(k);
    LastOfAppend(Zeros(k), digits);
    Regroup("0", Zeros(k), digits);
  }

  lemma Regroup(a: string, b: string, c: string)
    ensures (a + b) + c == a + (b + c)
  {
  }

  /** A reduced decimal is printed in the grammar and reads back as the same number. */
  lemma FixedReadsBack(d: Dec)
    requires IsDec(d) && !IsZero(d) && d.digits[|d.digits| - 1] != '0'
    ensures IsWire(Fixed(d)) && Number(Parse(Fixed(d))) == Number(d)
  {
    hide *;
    if d.exponent >= 0 {
      WholeReadsBack(d);
    } else {
      FixedParts(d);
      PartsRead(WholePart(d), FractionPart(d));
      assert Parse(Fixed(d)) == d;
    }
  }

  /** Every decimal is spelled in the grammar, and its spelling reads back as the same number. */
  lemma WireReadsBack(d: Dec)
    requires IsDec(d)
    ensures IsWire(Wire(d)) && Number(Parse(Wire(d))) == Number(d)
  {
    if IsZero(d) {
      assert Point("0") == 1;
      assert "0"[..1] == "0";
      ZeroNumber(d);
      ZeroNumber(Dec("0", 0));
    } else {
      WireOfReduced(d);
      var r := Reduce(d);
      WireIsFixed(r);
      FixedReadsBack(r);
      ReduceIsNumber(d);
      ReduceIsNumber(r);
      assert Reduce(r) == r;
    }
  }

  lemma ZeroNumber(d: Dec)
    requires IsDec(d) && IsZero(d)
    ensures Number(d) == C.Scaled(0, 0)
  {
    NonzeroValue(d);
    C.NormalDecimalCases(false, d.digits, d.exponent);
  }

  lemma PartsOf(s: string)
    requires IsWire(s) && Point(s) < |s|
    ensures var ip, fp := s[..Point(s)], s[Point(s) + 1..]; Parts(ip, fp) && s == ip + ("." + fp)
  {
    hide NatValue, Point, IsNatText, AllDigits;
    var k := Point(s);
    assert s[k + 1..][|s| - k - 2] == s[|s| - 1];
    SplitAt(s, k);
  }

  lemma SplitAt(s: string, k: nat)
    requires k < |s| && s[k] == '.'
    ensures s == s[..k] + ("." + s[k + 1..])
  {
  }

  lemma LastOfAppend(a: string, b: string)
    requires b != ""
    ensures (a + b)[|a + b| - 1] == b[|b| - 1]
  {
  }

  lemma TailOfZero(digits: string, m: nat, fp: string)
    requires m >= 1 && "0" + fp == Zeros(m) + digits
    ensures fp == Zeros(m - 1) + digits
  {
    ZerosShift(m - 1);
    assert "0" + fp == "0" + (Zeros(m - 1) + digits);
    assert ("0" + fp)[1..] == fp && ("0" + (Zeros(m - 1) + digits))[1..] == Zeros(m - 1) + digits;
  }

  lemma PartsAre(ip: string, fp: string)
    requires Parts(ip, fp)
    ensures AllDigits(ip + fp) && ip != "" && fp != "" && fp[|fp| - 1] != '0' && (ip == "0" || ip[0] != '0')
  {
  }

  lemma PartsPrint(ip: string, fp: string)
    requires Parts(ip, fp)
    ensures AllDigits(ip + fp)
    ensures var d := Dec(StripLeading(ip + fp), -|fp|);
      d.digits != "" && d.digits[|d.digits| - 1] != '0' && Fixed(d) == ip + ("." + fp)
  {
    hide StripLeading, NatValue, IsNatText, AllDigits, Fixed, Zeros, Parts;
    PartsAre(ip, fp);
    var t := ip + fp;
    StripLeadingIs(t);
    var digits := StripLeading(t);
    NatTextStarts(digits);
    LastOfAppend(ip, fp);
    var m := |t| - |digits|;
    LastOfAppend(Zeros(m), digits);
    if ip == "0" {
      TailOfZero(digits, m, fp);
      PrintSmall(digits, m - 1);
    } else {
      assert t[0] == ip[0];
      PrintSplit(ip, fp);
    }
  }

  lemma NatTextStarts(ip: string)
    requires IsNatText(ip)
    ensures ip != "" && (ip == "0" || ip[0] != '0')
  {
  }

  lemma PrintSmall(digits: string, k: nat)
    requires digits != ""
    ensures Fixed(Dec(digits, -(k + |digits|))) == "0" + ("." + (Zeros(k) + digits))
  {
  }

  lemma PrintSplit(ip: string, fp: string)
    requires ip != "" && fp != ""
    ensures Fixed(Dec(ip + fp, -|fp|)) == ip + ("." + fp)
  {
    assert (ip + fp)[..|ip|] == ip && (ip + fp)[|ip|..] == fp;
  }

  /** Every string of the grammar is the spelling of the number it reads as. */
  lemma ParsedSpelling(s: string)
    requires IsWire(s)
    ensures Wire(Parse(s)) == s
  {
    var k := Point(s);
    if k == |s| {
      assert s[..k] == s;
      assert s + Zeros(0) == s;
    } else {
      PartsOf(s);
      var ip, fp := s[..k], s[k + 1..];
      hide *;
      PartsRead(ip, fp);
      PartsPrint(ip, fp);
      WireIsFixed(Parse(s));
    }
  }

  /** The wire form is the one string of the grammar that reads as the number. */
  lemma WireIsUnique(d: Dec, s: string)
    requires IsDec(d)
    ensures s == Wire(d) <==> IsWire(s) && Number(Parse(s)) == Number(d)
  {
    WireReadsBack(d);
    if IsWire(s) && Number(Parse(s)) == Number(d) {
      ParsedSpelling(s);
      WireOfNumber(Parse(s), d);
    }
  }
}

/** src/util.c: printing and parsing 64-bit integers in decimal. */
module Decimal {
  import opened Prelude

  const LLONG_MAX: int := 0x7fff_ffff_ffff_ffff
  const LLONG_MIN: int := -0x8000_0000_0000_0000
  const ULLONG_MAX: int := 0xffff_ffff_ffff_ffff

  predicate IsLongLong(v: int) {
    LLONG_MIN <= v <= LLONG_MAX
  }

  const MINUS: byte := 45
  const ZERO: byte := 48

  predicate IsDigit(b: byte) {
    48 <= b <= 57
  }

  function ValueOf(b: byte): (d: nat)
    requires IsDigit(b)
    ensures d < 10
  {
    b as int - 48
  }

  function DigitOf(d: nat): (b: byte)
    requires d < 10
    ensures IsDigit(b)
  {
    (48 + d) as byte
  }

  /** The canonical decimal numeral of n. */
  function Digits(n: nat): (s: seq<byte>)
    ensures |s| >= 1
    ensures forall i :: 0 <= i < |s| ==> IsDigit(s[i])
    ensures s[0] == ZERO <==> n == 0
  {
    if n < 10 then [DigitOf(n)] else Digits(n / 10) + [DigitOf(n % 10)]
  }

  function Print(v: int): (s: seq<byte>)
    ensures |s| >= 1
  {
    if v < 0 then [MINUS] + Digits(-v) else Digits(v)
  }

  /** The value of a string of digits. */
  function Value(s: seq<byte>): nat
    requires forall i :: 0 <= i < |s| ==> IsDigit(s[i])
  {
    if s == [] then 0 else Value(s[..|s| - 1]) * 10 + ValueOf(s[|s| - 1])
  }

  lemma {:induction false} ValueOfDigits(n: nat)
    ensures Value(Digits(n)) == n
  {
    if n >= 10 {
      ValueOfDigits(n / 10);
      assert Digits(n)[..|Digits(n)| - 1] == Digits(n / 10);
    }
  }

  /** A numeral without a leading zero is the canonical one. */
  lemma {:induction false} DigitsOfValue(s: seq<byte>)
    requires s != [] && forall i :: 0 <= i < |s| ==> IsDigit(s[i])
    requires s[0] != ZERO
    ensures Value(s) >= 1 && Digits(Value(s)) == s
  {
    var n := |s| - 1;
    if n == 0 {
      assert s[..0] == [];
      assert s == [s[0]];
    } else {
      DigitsOfValue(s[..n]);
      assert s == s[..n] + [s[n]];
    }
  }

  /** Reading more digits never makes the value smaller. */
  lemma {:induction false} ValueGrows(s: seq<byte>, k: nat)
    requires forall i :: 0 <= i < |s| ==> IsDigit(s[i])
    requires k <= |s|
    ensures Value(s[..k]) <= Value(s)
    ensures k < |s| ==> Value(s[..k]) * 10 <= Value(s)
  {
    if k == |s| {
      assert s[..k] == s;
    } else {
      var t := s[..|s| - 1];
      ValueGrows(t, k);
      assert t[..k] == s[..k];
    }
  }

  /** `digits10`. */
  function Digits10(v: nat): nat {
    if v < 10 then 1
    else if v < 100 then 2
    else if v < 1000 then 3
    else if v < 1000000000000 then
      if v < 100000000 then
        if v < 1000000 then
          if v < 10000 then 4 else 5 + (if v >= 100000 then 1 else 0)
        else 7 + (if v >= 10000000 then 1 else 0)
      else if v < 10000000000 then 9 + (if v >= 1000000000 then 1 else 0)
      else 11 + (if v >= 100000000000 then 1 else 0)
    else 12 + Digits10(v / 1000000000000)
  }

  /** Dropping three digits of a number drops three digits of its numeral. */
  lemma ThousandthIsShorter(v: nat)
    requires v >= 1000
    ensures |Digits(v)| == 3 + |Digits(v / 1000)|
  {
    assert |Digits(v)| == 1 + |Digits(v / 10)|;
    assert |Digits(v / 10)| == 1 + |Digits(v / 10 / 10)|;
    assert |Digits(v / 10 / 10)| == 1 + |Digits(v / 10 / 10 / 10)|;
    assert v / 10 / 10 / 10 == v / 1000;
  }

  lemma FewDigits(v: nat)
    requires v < 1000
    ensures |Digits(v)| == if v < 10 then 1 else if v < 100 then 2 else 3
  {
    if v >= 10 {
      assert |Digits(v)| == 1 + |Digits(v / 10)|;
      assert v >= 100 ==> |Digits(v / 10)| == 1 + |Digits(v / 10 / 10)|;
    }
  }

  /** `digits10` counts the digits of the numeral. */
  lemma {:induction false} Digits10Counts(v: nat)
    ensures Digits10(v) == |Digits(v)|
  {
    hide Digits;
    var a, b, c := v / 1000, v / 1000000, v / 1000000000;
    if v < 1000 {
      FewDigits(v);
    } else if v < 1000000 {
      ThousandthIsShorter(v);
      FewDigits(a);
    } else if v < 1000000000 {
      ThousandthIsShorter(v);
      ThousandthIsShorter(a);
      assert a / 1000 == b;
      FewDigits(b);
    } else {
      ThousandthIsShorter(v);
      ThousandthIsShorter(a);
      ThousandthIsShorter(b);
      assert a / 1000 == b && b / 1000 == c;
      if v < 1000000000000 {
        FewDigits(c);
      } else {
        ThousandthIsShorter(c);
        assert c / 1000 == v / 1000000000000;
        Digits10Counts(v / 1000000000000);
      }
    }
  }

  /** Taking off two digits, as the loop of `ll2string` does. */
  lemma DigitPair(v: nat)
    requires v >= 100
    ensures Digits(v) == Digits(v / 100) + [DigitOf(v % 100 / 10), DigitOf(v % 10)]
  {
    assert Digits(v) == Digits(v / 10) + [DigitOf(v % 10)];
    assert Digits(v / 10) == Digits(v / 10 / 10) + [DigitOf(v / 10 % 10)];
    assert v / 10 / 10 == v / 100 && v / 10 % 10 == v % 100 / 10;
  }

  lemma LastDigits(v: nat)
    requires v < 100
    ensures Digits(v) == if v < 10 then [DigitOf(v)] else [DigitOf(v / 10), DigitOf(v % 10)]
  {
  }

  /** The digit loop of `ll2string`, filling the buffer from the back two digits at a time. */
  method WriteDigits(dst: array<byte>, lo: nat, length: nat, magnitude: nat)
    requires lo + |Digits(magnitude)| == length <= dst.Length
    modifies dst
    ensures dst[lo..length] == Digits(magnitude)
    ensures forall i :: 0 <= i < dst.Length && !(lo <= i < length) ==> dst[i] == old(dst[i])
  {
    hide Digits;
    var next := length - 1;
    var value := magnitude;
    while value >= 100
      invariant next + 1 == lo + |Digits(value)| && next < length
      invariant Digits(magnitude) == Digits(value) + dst[next + 1..length]
      invariant forall i :: 0 <= i < dst.Length && !(next < i < length) ==> dst[i] == old(dst[i])
    {
      DigitPair(value);
      ghost var tail := dst[next + 1..length];
      dst[next] := DigitOf(value % 10);
      dst[next - 1] := DigitOf(value % 100 / 10);
      assert dst[next - 1..length] == [dst[next - 1], dst[next]] + tail;
      value := value / 100;
      next := next - 2;
    }
    ghost var tail := dst[next + 1..length];
    LastDigits(value);
    if value < 10 {
      dst[next] := DigitOf(value);
      assert dst[next..length] == [dst[next]] + tail;
    } else {
      dst[next] := DigitOf(value % 10);
      dst[next - 1] := DigitOf(value / 10);
      assert dst[next - 1..length] == [dst[next - 1], dst[next]] + tail;
    }
  }

  /**
   * `ll2string`: prints the value and a terminator, or returns 0 and leaves the buffer alone when
   * they do not fit.
   */
  method LlToString(dst: array<byte>, svalue: int) returns (length: nat)
    requires IsLongLong(svalue)
    modifies dst
    ensures |Print(svalue)| >= dst.Length ==> length == 0 && dst[..] == old(dst[..])
    ensures |Print(svalue)| < dst.Length ==>
              length == |Print(svalue)| && dst[..length] == Print(svalue) && dst[length] == 0
    ensures forall i :: length < i < dst.Length ==> dst[i] == old(dst[i])
  {
    hide Digits10, Digits;
    var negative := if svalue < 0 then 1 else 0;
    var magnitude: nat := if svalue < 0 then -svalue else svalue;
    Digits10Counts(magnitude);
    length := Digits10(magnitude) + negative;
    if length >= dst.Length {
      length := 0;
      return;
    }
    dst[length] := 0;
    WriteDigits(dst, negative, length, magnitude);
    if negative == 1 {
      dst[0] := MINUS;
      assert dst[..length] == [MINUS] + dst[1..length];
    }
  }

  /** Reading more digits than fit in 64 bits: no 64-bit value has this numeral. */
  lemma Overflows(p: seq<byte>, k: nat)
    requires k <= |p| && forall i :: 0 <= i < k ==> IsDigit(p[i])
    requires Value(p[..k]) > ULLONG_MAX
    ensures forall n: nat :: n <= ULLONG_MAX ==> p != Digits(n)
  {
    hide Digits, Value;
    forall n: nat | n <= ULLONG_MAX ensures p != Digits(n) {
      if p == Digits(n) {
        ValueGrows(p, k);
        ValueOfDigits(n);
      }
    }
  }

  /** The digit loop of `string2ll`: accepts exactly the numerals of 1 up to ULLONG_MAX. */
  method ReadMagnitude(p: seq<byte>) returns (r: Option<nat>)
    requires p != []
    ensures r.Some? ==> 1 <= r.value <= ULLONG_MAX && p == Digits(r.value)
    ensures r.None? ==> forall n: nat :: 1 <= n <= ULLONG_MAX ==> p != Digits(n)
  {
    hide Digits;
    if !(49 <= p[0] <= 57) {
      return None;
    }
    var v: nat := ValueOf(p[0]);
    var plen := 1;
    assert p[..1][..0] == [];
    while plen < |p| && IsDigit(p[plen])
      invariant 1 <= plen <= |p|
      invariant forall i :: 0 <= i < plen ==> IsDigit(p[i])
      invariant v == Value(p[..plen]) <= ULLONG_MAX
    {
      assert p[..plen + 1][..plen] == p[..plen];
      if v > ULLONG_MAX / 10 || v * 10 > ULLONG_MAX - ValueOf(p[plen]) {
        Overflows(p, plen + 1);
        return None;
      }
      v := v * 10 + ValueOf(p[plen]);
      plen := plen + 1;
    }
    if plen < |p| {
      return None;
    }
    assert p[..plen] == p;
    DigitsOfValue(p);
    r := Some(v);
  }

  /** The sign and the digits of a printed value. */
  lemma PrintShape(v: int)
    ensures Print(v)[0] == MINUS <==> v < 0
    ensures v < 0 ==> Print(v)[1..] == Digits(-v)
    ensures Print(v)[0] == ZERO <==> v == 0
    ensures v == 0 ==> Print(v) == [ZERO]
  {
  }

  /** The 64-bit value that prints as s, if there is one. */
  ghost function ParseLl(s: seq<byte>): (r: Option<int>)
    ensures r.Some? ==> IsLongLong(r.value) && Print(r.value) == s
    ensures r.None? ==> forall v :: IsLongLong(v) ==> Print(v) != s
  {
    if v :| IsLongLong(v) && Print(v) == s then Some(v) else None
  }

  /** `string2ll`: accepts exactly the strings that some 64-bit value prints as. */
  method StringToLl(s: seq<byte>) returns (r: Option<int>)
    ensures r.Some? ==> IsLongLong(r.value) && s == Print(r.value)
    ensures r.None? ==> forall v :: IsLongLong(v) ==> s != Print(v)
    ensures r == ParseLl(s)
  {
    hide Digits, ParseLl, Print;
    if |s| == 0 {
      return None;
    }
    if |s| == 1 && s[0] == ZERO {
      PrintShape(0);
      ParseInvertsPrint(0);
      return Some(0);
    }
    var negative := s[0] == MINUS;
    var p := if negative then s[1..] else s;
    var m := None;
    if p != [] {
      m := ReadMagnitude(p);
    }
    if m.None? || (if negative then m.value > -LLONG_MIN else m.value > LLONG_MAX) {
      forall v | IsLongLong(v) ensures s != Print(v) {
        Unprinted(s, m, v);
      }
      return None;
    }
    var v := if negative then 0 - m.value else m.value;
    assert negative ==> s == [MINUS] + p;
    PrintOf(v);
    ParseInvertsPrint(v);
    r := Some(v);
  }

  lemma PrintOf(v: int)
    ensures Print(v) == if v < 0 then [MINUS] + Digits(-v) else Digits(v)
  {
  }

  /** A string whose digits are no numeral, or too big a one, is not the print of any value. */
  lemma Unprinted(s: seq<byte>, m: Option<nat>, v: int)
    requires s != [] && s != [ZERO] && IsLongLong(v)
    requires var p := if s[0] == MINUS then s[1..] else s;
      if m.None? then p == [] || forall n: nat :: 1 <= n <= ULLONG_MAX ==> p != Digits(n)
      else p == Digits(m.value) && m.value > (if s[0] == MINUS then -LLONG_MIN else LLONG_MAX)
    ensures s != Print(v)
  {
    hide Digits, Print;
    PrintShape(v);
    PrintOf(v);
    ValueOfDigits(if v < 0 then -v else v);
    if m.Some? {
      ValueOfDigits(m.value);
    }
  }

  /** What `ll2string` prints, `string2ll` reads back, on every 64-bit value. */
  lemma ParseInvertsPrint(v: int)
    requires IsLongLong(v)
    ensures ParseLl(Print(v)) == Some(v)
  {
    hide Print;
    PrintInjective(v, ParseLl(Print(v)).value);
  }

  lemma PrintInjective(v: int, w: int)
    requires Print(v) == Print(w)
    ensures v == w
  {
    hide Digits;
    PrintShape(v);
    PrintShape(w);
    ValueOfDigits(if v < 0 then -v else v);
    ValueOfDigits(if w < 0 then -w else w);
  }
}

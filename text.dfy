/** Decimal rendering of integers, as Java's string concatenation does it,
    and the parser that reads such a rendering back. */
module Text {

  datatype Option<T> = None | Some(value: T)

  function DigitChar(d: nat): (c: char)
    requires d < 10
    ensures '0' <= c <= '9'
  {
    "0123456789"[d]
  }

  function DigitValue(c: char): (d: nat)
    requires '0' <= c <= '9'
    ensures d < 10
  {
    (c as int - '0' as int) as nat
  }

  /** The decimal digits of n, most significant first, without leading zeros. */
  function NatToString(n: nat): (s: string)
    ensures |s| > 0
    ensures forall i :: 0 <= i < |s| ==> '0' <= s[i] <= '9'
    decreases n
  {
    if n < 10 then [DigitChar(n)] else NatToString(n / 10) + [DigitChar(n % 10)]
  }

  /** Java's String.valueOf(int): a leading '-' for negative values. */
  function IntToString(n: int): (s: string)
    ensures |s| > 0
    ensures forall i :: 0 <= i < |s| ==> s[i] == '-' || '0' <= s[i] <= '9'
    ensures s[0] == '-' <==> n < 0
    ensures forall i :: 0 < i < |s| ==> '0' <= s[i] <= '9'
  {
    if n < 0 then "-" + NatToString(-n) else NatToString(n)
  }

  predicate AllDigits(s: string) {
    forall i :: 0 <= i < |s| ==> '0' <= s[i] <= '9'
  }

  /** The value of a non-empty run of decimal digits. */
  function DigitsValue(s: string): (n: nat)
    requires AllDigits(s)
    decreases |s|
  {
    if |s| == 0 then 0 else DigitsValue(s[..|s| - 1]) * 10 + DigitValue(s[|s| - 1])
  }

  const MinInt32: int := -0x8000_0000
  const MaxInt32: int := 0x7fff_ffff

  /** The range of Java's int. */
  predicate IsInt32(n: int) {
    MinInt32 <= n <= MaxInt32
  }

  /** Integer.parseInt: an optional sign followed by one or more decimal
      digits, whose value fits in an int; anything else is rejected. */
  function ParseInt(s: string): (r: Option<int>)
    ensures r.Some? ==> |s| > 0 && IsInt32(r.value)
  {
    var v :=
      if |s| > 1 && (s[0] == '-' || s[0] == '+') && AllDigits(s[1..]) then
        Some(if s[0] == '-' then -(DigitsValue(s[1..]) as int) else DigitsValue(s[1..]) as int)
      else if |s| > 0 && AllDigits(s) then Some(DigitsValue(s) as int)
      else None;
    if v.Some? && IsInt32(v.value) then v else None
  }

  lemma {:induction false} NatToStringValue(n: nat)
    ensures AllDigits(NatToString(n)) && DigitsValue(NatToString(n)) == n
    decreases n
  {
    var s := NatToString(n);
    if n < 10 {
      assert s == [DigitChar(n)];
      assert s[..0] == [];
    } else {
      NatToStringValue(n / 10);
      var p := NatToString(n / 10);
      assert s[..|s| - 1] == p;
      assert s[|s| - 1] == DigitChar(n % 10);
    }
  }

  /** Reading back a rendered integer gives the integer. */
  lemma IntToStringRoundTrip(n: int)
    requires IsInt32(n)
    ensures ParseInt(IntToString(n)) == Some(n)
  {
    if n < 0 {
      NegativeRoundTrip(-n);
    } else {
      UnsignedRoundTrip(n);
    }
  }

  lemma UnsignedRoundTrip(m: nat)
    requires m <= MaxInt32
    ensures ParseInt(NatToString(m)) == Some(m)
  {
    NatToStringValue(m);
    ParseUnsigned(NatToString(m));
  }

  lemma NegativeRoundTrip(m: nat)
    requires 0 < m <= -MinInt32
    ensures ParseInt("-" + NatToString(m)) == Some(-(m as int))
  {
    NatToStringValue(m);
    ParseNegative(NatToString(m));
  }

  /** A run of digits whose value fits in an int parses as that value. */
  lemma ParseUnsigned(d: string)
    requires |d| > 0 && AllDigits(d) && IsInt32(DigitsValue(d))
    ensures ParseInt(d) == Some(DigitsValue(d) as int)
  {
    assert d[0] != '-' && d[0] != '+';
  }

  /** A minus followed by a run of digits whose negated value fits in an
      int parses as that negated value. */
  lemma ParseNegative(d: string)
    requires |d| > 0 && AllDigits(d) && IsInt32(-(DigitsValue(d) as int))
    ensures ParseInt("-" + d) == Some(-(DigitsValue(d) as int))
  {
    var s := "-" + d;
    assert s[0] == '-' && s[1..] == d && |s| > 1;
  }

  /** A rendered integer never contains the tag delimiter '<'. */
  lemma IntToStringNoTag(n: int)
    ensures '<' !in IntToString(n)
  {
  }
}

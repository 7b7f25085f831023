/** `strconv.FormatInt`, `strconv.FormatUint` and the numbers `json.Unmarshal` reads back. */
module Decimal {
  import opened Wrappers
  import opened Utf8
  import opened Json

  function FormatNat(n: nat): (s: seq<byte>)
    ensures s != []
  {
    if n < 10 then [0x30 + n] else FormatNat(n / 10) + [0x30 + n % 10]
  }

  function FormatInt(n: int): (s: seq<byte>)
    ensures s != []
  {
    if n < 0 then [MINUS] + FormatNat(-n) else FormatNat(n)
  }

  predicate AllDigits(s: seq<byte>) {
    forall i :: 0 <= i < |s| ==> IsDigit(s[i])
  }

  function DigitsValue(s: seq<byte>): (v: int)
    requires AllDigits(s)
    ensures v >= 0
  {
    if s == [] then 0 else DigitsValue(s[..|s| - 1]) * 10 + (s[|s| - 1] - 0x30)
  }

  /** The integer a JSON number denotes, if it has neither fraction nor exponent. */
  function ParseInt(literal: seq<byte>): Option<int> {
    if literal != [] && literal[0] == MINUS then
      if AllDigits(literal[1..]) then Some(-DigitsValue(literal[1..])) else None
    else if AllDigits(literal) then Some(DigitsValue(literal))
    else None
  }

  lemma {:induction false} FormatNatDigits(n: nat)
    ensures AllDigits(FormatNat(n)) && DigitsValue(FormatNat(n)) == n
    ensures FormatNat(n)[0] == 0x30 <==> n == 0
  {
    if n < 10 {
      assert FormatNat(n)[..0] == [];
    } else {
      FormatNatDigits(n / 10);
      assert FormatNat(n)[..|FormatNat(n)| - 1] == FormatNat(n / 10);
    }
  }

  lemma FormatIntParses(n: int)
    ensures ParseInt(FormatInt(n)) == Some(n)
  {
    if n < 0 {
      FormatNatDigits(-n);
      assert FormatInt(n)[1..] == FormatNat(-n);
    } else {
      FormatNatDigits(n);
      assert IsDigit(FormatInt(n)[0]);
    }
  }

  lemma {:induction false} DigitRunOf(digits: seq<byte>, rest: seq<byte>)
    requires AllDigits(digits) && (rest == [] || !IsDigit(rest[0]))
    ensures DigitRun(digits + rest) == |digits|
  {
    if digits == [] {
      assert digits + rest == rest;
    } else {
      assert (digits + rest)[1..] == digits[1..] + rest;
      DigitRunOf(digits[1..], rest);
    }
  }

  lemma PlainIntegerLength(s: seq<byte>, sign: nat, digits: nat)
    requires s != [] && sign == if s[0] == MINUS then 1 else 0
    requires sign + digits < |s| && digits > 0 && DigitRun(s[sign..]) == digits
    requires s[sign] == 0x30 ==> digits == 1
    requires s[sign + digits] == CLOSE_BRACE || s[sign + digits] == COMMA
    ensures NumberLength(s) == Some(sign + digits)
  {
    var t := s[sign + digits..];
    assert FracLength(t) == Some(0) && ExpLength(t) == Some(0);
  }

  lemma UnsignedLength(d: seq<byte>, rest: seq<byte>)
    requires d != [] && AllDigits(d) && (d[0] == 0x30 ==> |d| == 1)
    requires rest != [] && (rest[0] == CLOSE_BRACE || rest[0] == COMMA)
    ensures NumberLength(d + rest) == Some(|d|)
  {
    var s := d + rest;
    DigitRunOf(d, rest);
    assert IsDigit(d[0]) && s[0] == d[0];
    assert s[0..] == s;
    PlainIntegerLength(s, 0, |d|);
  }

  lemma NegativeLength(d: seq<byte>, rest: seq<byte>)
    requires d != [] && AllDigits(d) && (d[0] == 0x30 ==> |d| == 1)
    requires rest != [] && (rest[0] == CLOSE_BRACE || rest[0] == COMMA)
    ensures NumberLength([MINUS] + d + rest) == Some(1 + |d|)
  {
    var s := [MINUS] + d + rest;
    DigitRunOf(d, rest);
    assert s[1..] == d + rest;
    assert s[1] == d[0];
    PlainIntegerLength(s, 1, |d|);
  }

  lemma IntLength(n: int, rest: seq<byte>)
    requires rest != [] && (rest[0] == CLOSE_BRACE || rest[0] == COMMA)
    ensures NumberLength(FormatInt(n) + rest) == Some(|FormatInt(n)|)
  {
    var m := if n < 0 then -n else n;
    FormatNatDigits(m);
    UnsignedLength(FormatNat(m), rest);
    NegativeLength(FormatNat(m), rest);
  }

  lemma NumberReads(s: seq<byte>, n: nat)
    requires NumberLength(s) == Some(n) && (IsDigit(s[0]) || s[0] == MINUS)
    ensures ReadValue(s) == Some((Number(s[..n]), s[n..]))
  {
    hide ReadString, ReadMembers, ReadElements, SkipWhitespace, NumberLength, ReadWord;
  }

  lemma IntReads(n: int, rest: seq<byte>)
    requires rest != [] && (rest[0] == CLOSE_BRACE || rest[0] == COMMA)
    ensures ReadValue(FormatInt(n) + rest) == Some((Number(FormatInt(n)), rest))
  {
    var d := FormatInt(n);
    var s := d + rest;
    IntLength(n, rest);
    FormatNatDigits(if n < 0 then -n else n);
    assert s[0] == d[0];
    NumberReads(s, |d|);
    assert s[..|d|] == d && s[|d|..] == rest;
  }
}

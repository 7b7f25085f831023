/**
 The string printer of the state file: a byte scan picks a fast path that copies the key
 verbatim; every other key goes through the escapes of `json.Marshal`.
 */
module JsonStrings {
  import opened Wrappers
  import opened Utf8
  import opened Json

  /** Valid UTF-8 made only of code points that JSON lets stand for themselves. */
  predicate Plain(value: seq<byte>) {
    Valid(value) && forall i :: 0 <= i < |Decode(value).value| ==> Unescaped(Decode(value).value[i])
  }

  predicate Special(b: byte) {
    b == BACKSLASH || b == QUOTE || b < 0x20
  }

  lemma SpecialIsNotPlain(value: seq<byte>, i: nat)
    requires i < |value| && Special(value[i])
    ensures !Plain(value)
  {
    if Valid(value) {
      var rs := Decode(value).value;
      EncodeDecode(value);
      AsciiBytesAreRunes(rs, value[i]);
      var k :| 0 <= k < |rs| && rs[k] == value[i];
      assert !Unescaped(rs[k]);
    }
  }

  lemma NoSpecialIsPlain(value: seq<byte>)
    requires forall i :: 0 <= i < |value| ==> !Special(value[i])
    ensures Plain(value) <==> Valid(value)
  {
    if Valid(value) {
      var rs := Decode(value).value;
      EncodeDecode(value);
      forall i | 0 <= i < |rs| ensures Unescaped(rs[i]) {
        if rs[i] < 0x80 {
          AsciiBytesAreRunes(rs, rs[i]);
        }
      }
    }
  }

  /** The byte scan decides plainness. */
  method IsPlainJSONString(value: seq<byte>) returns (plain: bool)
    ensures plain <==> Plain(value)
    ensures plain <==>
            Valid(value) && forall i :: 0 <= i < |value| ==> value[i] >= 0x20 && value[i] != 0x22 && value[i] != 0x5C
  {
    var asciiOnly := true;
    for i := 0 to |value|
      invariant forall k :: 0 <= k < i ==> !Special(value[k])
      invariant asciiOnly <==> AllAscii(value[..i])
    {
      if value[i] == BACKSLASH || value[i] == QUOTE || value[i] < 0x20 {
        SpecialIsNotPlain(value, i);
        return false;
      }
      if value[i] >= 0x80 {
        asciiOnly := false;
      }
      assert value[..i + 1] == value[..i] + [value[i]];
    }
    assert value[..|value|] == value;
    if asciiOnly {
      AsciiDecodes(value);
    }
    NoSpecialIsPlain(value);
    return asciiOnly || Valid(value);
  }

  function HexChar(d: nat): byte
    requires d < 16
  {
    if d < 10 then 0x30 + d else 0x57 + d
  }

  /** How `json.Marshal` writes one code point, with its escapes for HTML. */
  function EscapeRune(r: rune): (s: seq<byte>)
    ensures s != []
  {
    if r == QUOTE || r == BACKSLASH then [BACKSLASH, r]
    else if r == 0x08 then [BACKSLASH, 0x62]
    else if r == 0x0C then [BACKSLASH, 0x66]
    else if r == 0x0A then [BACKSLASH, 0x6E]
    else if r == 0x0D then [BACKSLASH, 0x72]
    else if r == 0x09 then [BACKSLASH, 0x74]
    else if r < 0x20 || r == 0x3C || r == 0x3E || r == 0x26 then
      [BACKSLASH, 0x75, 0x30, 0x30, HexChar(r / 16), HexChar(r % 16)]
    else if r == 0x2028 || r == 0x2029 then
      [BACKSLASH, 0x75, 0x32, 0x30, 0x32, HexChar(r % 16)]
    else EncodeRune(r)
  }

  const REPLACEMENT: seq<byte> := [BACKSLASH, 0x75, 0x66, 0x66, 0x66, 0x64]

  /** The body `json.Marshal` writes; a byte that is not part of valid UTF-8 becomes `\ufffd`. */
  function Escaped(value: seq<byte>): seq<byte> {
    if value == [] then []
    else
      var d := DecodeRune(value);
      if d.None? then REPLACEMENT + Escaped(value[1..])
      else EscapeRune(d.value.0) + Escaped(value[d.value.1..])
  }

  function Lossy(value: seq<byte>): seq<rune> {
    if value == [] then []
    else
      var d := DecodeRune(value);
      if d.None? then [0xFFFD] + Lossy(value[1..]) else [d.value.0] + Lossy(value[d.value.1..])
  }

  function JSONString(value: seq<byte>): seq<byte> {
    [QUOTE] + (if Plain(value) then value else Escaped(value)) + [QUOTE]
  }

  /** The escapes by number: short ones where there are any, \u00xx, \u2028 and \u2029, and else none. */
  lemma EscapesByNumber(r: rune)
    ensures EscapeRune(r) ==
            if r == 0x22 || r == 0x5C then [0x5C, r]
            else if r == 0x08 then [0x5C, 0x62]
            else if r == 0x09 then [0x5C, 0x74]
            else if r == 0x0A then [0x5C, 0x6E]
            else if r == 0x0C then [0x5C, 0x66]
            else if r == 0x0D then [0x5C, 0x72]
            else if r < 0x20 || r == 0x26 || r == 0x3C || r == 0x3E then
              [0x5C, 0x75, 0x30, 0x30, 0x30 + r / 16, if r % 16 < 10 then 0x30 + r % 16 else 0x57 + r % 16]
            else if r == 0x2028 || r == 0x2029 then [0x5C, 0x75, 0x32, 0x30, 0x32, 0x30 + r % 16]
            else EncodeRune(r)
  {
  }

  /**
   What `json.Marshal` writes is safe inside HTML: no angle bracket and no ampersand, and neither
   a quotation mark nor a control character stands for itself.
   */
  lemma {:induction false} EscapedIsSafe(value: seq<byte>, i: nat)
    requires i < |Escaped(value)|
    ensures var b := Escaped(value)[i];
            && b >= 0x20 && b != 0x3C && b != 0x3E && b != 0x26
            && (b == 0x22 ==> i > 0 && Escaped(value)[i - 1] == 0x5C)
  {
    hide DecodeRune;
    var d := DecodeRune(value);
    var n := if d.None? then 1 else d.value.1;
    var head := if d.None? then REPLACEMENT else EscapeRune(d.value.0);
    if i < |head| {
      if d.Some? {
        EscapeRuneIsSafe(d.value.0, i);
      }
    } else {
      EscapedIsSafe(value[n..], i - |head|);
    }
  }

  lemma EscapeRuneIsSafe(r: rune, i: nat)
    requires i < |EscapeRune(r)|
    ensures var b := EscapeRune(r)[i];
            && b >= 0x20 && b != 0x3C && b != 0x3E && b != 0x26
            && (b == 0x22 ==> i == 1 && EscapeRune(r)[0] == 0x5C)
  {
  }

  lemma EscapeRuneReads(r: rune, rest: seq<byte>)
    ensures ReadChar(EscapeRune(r) + rest) == Some((r, rest))
  {
    var e := EscapeRune(r);
    var s := e + rest;
    if e == EncodeRune(r) {
      DecodeEncodedRune(r, rest);
      assert s[|e|..] == rest;
      assert s[0] != BACKSLASH by { assert s[0] == e[0]; }
    } else {
      var t := s[1..];
      assert s[0] == BACKSLASH;
      assert t == e[1..] + rest;
      if |e| == 2 {
        assert t[0] == e[1] && t[1..] == rest;
      } else {
        var h := t[1..];
        assert h[0] == e[2] && h[1] == e[3] && h[2] == e[4] && h[3] == e[5];
        assert Hex4(h) == Some(r);
        assert t[5..] == rest;
      }
    }
  }

  lemma ReplacementReads(rest: seq<byte>)
    ensures ReadChar(REPLACEMENT + rest) == Some((0xFFFD, rest))
  {
    var s := REPLACEMENT + rest;
    var h := s[1..][1..];
    assert h[0] == 0x66 && h[1] == 0x66 && h[2] == 0x66 && h[3] == 0x64;
    assert Hex4(h) == Some(0xFFFD);
    assert s[1..][5..] == rest;
  }

  lemma {:induction false} EscapedReads(value: seq<byte>, rest: seq<byte>)
    ensures ReadString(Escaped(value) + [QUOTE] + rest) == Some((Lossy(value), rest))
  {
    hide ReadChar, EscapeRune, DecodeRune;
    var s := Escaped(value) + [QUOTE] + rest;
    if value != [] {
      var d := DecodeRune(value);
      var n := if d.None? then 1 else d.value.1;
      var tail := Escaped(value[n..]) + [QUOTE] + rest;
      EscapedReads(value[n..], rest);
      if d.None? {
        assert s == REPLACEMENT + tail;
        ReplacementReads(tail);
      } else {
        assert s == EscapeRune(d.value.0) + tail;
        EscapeRuneReads(d.value.0, tail);
      }
      CharThenString(s);
    }
  }

  lemma CharThenString(s: seq<byte>)
    requires ReadChar(s).Some? && ReadString(ReadChar(s).value.1).Some?
    ensures var (c, t) := ReadChar(s).value;
            ReadString(s) == Some(([c] + ReadString(t).value.0, ReadString(t).value.1))
  {
    assert s[0] != QUOTE;
  }

  lemma {:induction false} VerbatimReads(rs: seq<rune>, rest: seq<byte>)
    requires forall i :: 0 <= i < |rs| ==> Unescaped(rs[i])
    ensures ReadString(Encode(rs) + [QUOTE] + rest) == Some((rs, rest))
  {
    var s := Encode(rs) + [QUOTE] + rest;
    if rs != [] {
      var e := EncodeRune(rs[0]);
      var tail := Encode(rs[1..]) + [QUOTE] + rest;
      assert s == e + tail;
      DecodeEncodedRune(rs[0], tail);
      assert s[|e|..] == tail;
      assert s[0] == e[0];
      VerbatimReads(rs[1..], rest);
      CharThenString(s);
      assert rs == [rs[0]] + rs[1..];
    }
  }

  lemma {:induction false} LossyOfValid(value: seq<byte>)
    requires Valid(value)
    ensures Lossy(value) == Decode(value).value
  {
    if value != [] {
      LossyOfValid(value[DecodeRune(value).value.1..]);
    }
  }

  /** Both paths of the string printer read back alike. */
  lemma JSONStringReads(value: seq<byte>, rest: seq<byte>)
    ensures var s := JSONString(value) + rest;
            s[0] == QUOTE && ReadString(s[1..]) == Some((Lossy(value), rest))
  {
    hide ReadString, Escaped, Lossy;
    var s := JSONString(value) + rest;
    if Plain(value) {
      assert s[1..] == value + [QUOTE] + rest;
      EncodeDecode(value);
      VerbatimReads(Decode(value).value, rest);
      LossyOfValid(value);
    } else {
      assert s[1..] == Escaped(value) + [QUOTE] + rest;
      EscapedReads(value, rest);
    }
  }

  /** A string survives printing and reading exactly when it is valid UTF-8. */
  lemma KeySurvives(value: seq<byte>)
    ensures Encode(Lossy(value)) == value <==> Valid(value)
  {
    if Valid(value) {
      LossyOfValid(value);
      EncodeDecode(value);
    } else {
      DecodeEncode(Lossy(value));
    }
  }
}

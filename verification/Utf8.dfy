/** UTF-8, by the byte grammar of section 4 of RFC 3629. */
module Utf8 {
  import opened Wrappers

  type byte = b: int | 0 <= b < 0x100

  /** Unicode scalar values. */
  type rune = r: int | 0 <= r < 0xD800 || 0xE000 <= r < 0x110000

  function EncodeRune(r: rune): (s: seq<byte>)
    ensures s != []
  {
    var a := r / 0x40;
    var b := a / 0x40;
    if r < 0x80 then [r]
    else if r < 0x800 then [0xC0 + a, 0x80 + r % 0x40]
    else if r < 0x10000 then [0xE0 + b, 0x80 + a % 0x40, 0x80 + r % 0x40]
    else [0xF0 + b / 0x40, 0x80 + b % 0x40, 0x80 + a % 0x40, 0x80 + r % 0x40]
  }

  function Encode(rs: seq<rune>): seq<byte> {
    if rs == [] then [] else EncodeRune(rs[0]) + Encode(rs[1..])
  }

  predicate Tail(b: byte) {
    0x80 <= b <= 0xBF
  }

  /** Append the six bits of a continuation byte. */
  function Join(high: int, b: byte): int {
    high * 0x40 + (b as int - 0x80)
  }

  /** The code point at the head of `s` and its length, if `s` starts with a well-formed one. */
  function DecodeRune(s: seq<byte>): (d: Option<(rune, nat)>)
    ensures d.Some? ==> 0 < d.value.1 <= |s|
  {
    if s == [] then None
    else
      var b := s[0];
      if b < 0x80 then
        Some((b, 1))
      else if 0xC2 <= b <= 0xDF && |s| >= 2 && Tail(s[1]) then
        Some((Join(b as int - 0xC0, s[1]), 2))
      else if |s| >= 3 && Tail(s[1]) && Tail(s[2]) && ThreeByteLead(b, s[1]) then
        Some((Join(Join(b as int - 0xE0, s[1]), s[2]), 3))
      else if |s| >= 4 && Tail(s[1]) && Tail(s[2]) && Tail(s[3]) && FourByteLead(b, s[1]) then
        Some((Join(Join(Join(b as int - 0xF0, s[1]), s[2]), s[3]), 4))
      else None
  }

  predicate ThreeByteLead(b: byte, next: byte) {
    || (b == 0xE0 && 0xA0 <= next)
    || 0xE1 <= b <= 0xEC
    || (b == 0xED && next <= 0x9F)
    || 0xEE <= b <= 0xEF
  }

  predicate FourByteLead(b: byte, next: byte) {
    || (b == 0xF0 && 0x90 <= next)
    || 0xF1 <= b <= 0xF3
    || (b == 0xF4 && next <= 0x8F)
  }

  function Decode(s: seq<byte>): Option<seq<rune>> {
    if s == [] then Some([])
    else
      var d := DecodeRune(s);
      if d.None? then None
      else
        var rest := Decode(s[d.value.1..]);
        if rest.None? then None else Some([d.value.0] + rest.value)
  }

  /** `utf8.ValidString`. */
  predicate Valid(s: seq<byte>) {
    Decode(s).Some?
  }

  lemma SplitLow(x: nat)
    ensures Join(x / 0x40, 0x80 + x % 0x40) == x
  {
  }

  lemma JoinSplits(high: nat, b: byte)
    requires Tail(b)
    ensures Join(high, b) / 0x40 == high && 0x80 + Join(high, b) % 0x40 == b
  {
  }

  lemma DecodeEncodedRune(r: rune, rest: seq<byte>)
    ensures DecodeRune(EncodeRune(r) + rest) == Some((r, |EncodeRune(r)|))
  {
    var e := EncodeRune(r);
    var s := e + rest;
    var a := r / 0x40;
    var b := a / 0x40;
    SplitLow(r);
    SplitLow(a);
    SplitLow(b);
    if 0x80 <= r {
      assert s[0] == e[0] && s[1] == e[1];
      if 0x800 <= r {
        assert s[2] == e[2];
        if 0x10000 <= r {
          assert s[3] == e[3];
        }
      }
    }
  }

  lemma DecodedRuneEncodes(s: seq<byte>)
    requires DecodeRune(s).Some?
    ensures var (r, n) := DecodeRune(s).value; s[..n] == EncodeRune(r)
  {
    var (r, n) := DecodeRune(s).value;
    if n == 2 {
      JoinSplits(s[0] - 0xC0, s[1]);
    } else if n == 3 {
      var h := Join(s[0] - 0xE0, s[1]);
      JoinSplits(s[0] - 0xE0, s[1]);
      JoinSplits(h, s[2]);
    } else if n == 4 {
      var h := Join(s[0] - 0xF0, s[1]);
      var k := Join(h, s[2]);
      JoinSplits(s[0] - 0xF0, s[1]);
      JoinSplits(h, s[2]);
      JoinSplits(k, s[3]);
    }
  }

  lemma {:induction false} DecodeEncode(rs: seq<rune>)
    ensures Decode(Encode(rs)) == Some(rs)
  {
    if rs != [] {
      var rest := Encode(rs[1..]);
      DecodeEncodedRune(rs[0], rest);
      assert Encode(rs)[|EncodeRune(rs[0])|..] == rest;
      DecodeEncode(rs[1..]);
      assert rs == [rs[0]] + rs[1..];
    }
  }

  lemma {:induction false} EncodeDecode(s: seq<byte>)
    requires Valid(s)
    ensures Encode(Decode(s).value) == s
  {
    if s != [] {
      DecodedRuneEncodes(s);
      var n := DecodeRune(s).value.1;
      EncodeDecode(s[n..]);
      assert s == s[..n] + s[n..];
      assert Decode(s).value[1..] == Decode(s[n..]).value;
    }
  }

  ghost predicate AllAscii(s: seq<byte>) {
    forall i :: 0 <= i < |s| ==> s[i] < 0x80
  }

  lemma {:induction false} AsciiDecodes(s: seq<byte>)
    requires AllAscii(s)
    ensures Decode(s) == Some(s)
  {
    if s != [] {
      AsciiDecodes(s[1..]);
      assert s == [s[0]] + s[1..];
    }
  }

  /** In valid UTF-8 the ASCII bytes are exactly the ASCII code points. */
  lemma {:induction false} AsciiBytesAreRunes(rs: seq<rune>, b: byte)
    requires b < 0x80
    ensures b in Encode(rs) <==> b in rs
  {
    if rs != [] {
      AsciiBytesAreRunes(rs[1..], b);
      assert b in rs <==> b == rs[0] || b in rs[1..];
      assert b in EncodeRune(rs[0]) <==> b == rs[0];
    }
  }
}

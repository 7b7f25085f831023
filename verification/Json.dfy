/**
 A reader for JSON texts: the grammar of sections 2 to 7 of RFC 8259 on UTF-8 bytes, where a byte
 of a string that is not part of valid UTF-8 reads as U+FFFD. Each reading function returns what
 it read and the rest of the input.
 */
module Json {
  import opened Wrappers
  import opened Utf8

  datatype JSON =
    | Null
    | Bool(b: bool)
    | Number(literal: seq<byte>)
    | String(chars: seq<rune>)
    | Array(items: seq<JSON>)
    | Object(members: seq<(seq<rune>, JSON)>)

  type Read<+T> = Option<(T, seq<byte>)>

  const QUOTE: byte := 0x22
  const BACKSLASH: byte := 0x5C
  const COMMA: byte := 0x2C
  const COLON: byte := 0x3A
  const OPEN_BRACE: byte := 0x7B
  const CLOSE_BRACE: byte := 0x7D
  const OPEN_BRACKET: byte := 0x5B
  const CLOSE_BRACKET: byte := 0x5D
  const MINUS: byte := 0x2D

  function Ascii(s: string): (r: seq<byte>)
    requires forall i :: 0 <= i < |s| ==> s[i] < '\U{0080}'
    ensures |r| == |s|
  {
    seq(|s|, i requires 0 <= i < |s| => s[i] as int)
  }

  predicate StartsWith(s: seq<byte>, prefix: seq<byte>) {
    |prefix| <= |s| && s[..|prefix|] == prefix
  }

  predicate IsWhitespace(b: byte) {
    b == 0x20 || b == 0x09 || b == 0x0A || b == 0x0D
  }

  function SkipWhitespace(s: seq<byte>): (r: seq<byte>)
    ensures |r| <= |s|
  {
    if s != [] && IsWhitespace(s[0]) then SkipWhitespace(s[1..]) else s
  }

  // --------------------------------------------------------------------------
  // Numbers (section 6)
  // --------------------------------------------------------------------------

  predicate IsDigit(b: byte) {
    0x30 <= b <= 0x39
  }

  /** How many digits `s` starts with. */
  function DigitRun(s: seq<byte>): (n: nat)
    ensures n <= |s|
  {
    if s != [] && IsDigit(s[0]) then 1 + DigitRun(s[1..]) else 0
  }

  /** Length of the `frac` part at the head of `s`; `None` if it is begun but malformed. */
  function FracLength(s: seq<byte>): (n: Option<nat>)
    ensures n.Some? ==> n.value <= |s|
  {
    if s != [] && s[0] == 0x2E then
      var digits := DigitRun(s[1..]);
      if digits == 0 then None else Some(1 + digits)
    else Some(0)
  }

  function ExpLength(s: seq<byte>): (n: Option<nat>)
    ensures n.Some? ==> n.value <= |s|
  {
    if s != [] && (s[0] == 0x65 || s[0] == 0x45) then
      var sign := if |s| > 1 && (s[1] == 0x2B || s[1] == MINUS) then 1 else 0;
      var digits := DigitRun(s[1 + sign..]);
      if digits == 0 then None else Some(1 + sign + digits)
    else Some(0)
  }

  function NumberLength(s: seq<byte>): (n: Option<nat>)
    ensures n.Some? ==> 0 < n.value <= |s|
  {
    var sign := if s != [] && s[0] == MINUS then 1 else 0;
    var digits := DigitRun(s[sign..]);
    if digits == 0 then None
    else
      // a leading zero is a whole integer part
      var whole := sign + if s[sign] == 0x30 then 1 else digits;
      var frac := FracLength(s[whole..]);
      if frac.None? then None
      else
        var exp := ExpLength(s[whole + frac.value..]);
        if exp.None? then None else Some(whole + frac.value + exp.value)
  }

  // --------------------------------------------------------------------------
  // Strings (section 7)
  // --------------------------------------------------------------------------

  /** The code points that may stand for themselves inside a string. */
  predicate Unescaped(r: rune) {
    0x20 <= r && r != QUOTE && r != BACKSLASH
  }

  function HexDigit(b: byte): Option<nat> {
    if IsDigit(b) then Some(b - 0x30)
    else if 0x61 <= b <= 0x66 then Some((b as int) - 0x57)
    else if 0x41 <= b <= 0x46 then Some((b as int) - 0x37)
    else None
  }

  function Hex4(s: seq<byte>): (h: Option<nat>)
    ensures h.Some? ==> |s| >= 4 && h.value < 0x10000
  {
    if |s| < 4 || HexDigit(s[0]).None? || HexDigit(s[1]).None? || HexDigit(s[2]).None? || HexDigit(s[3]).None?
    then None
    else Some(HexDigit(s[0]).value * 0x1000 + HexDigit(s[1]).value * 0x100
              + HexDigit(s[2]).value * 0x10 + HexDigit(s[3]).value)
  }

  /** The character a two-character escape stands for. */
  function ShortEscape(b: byte): Option<rune> {
    if b == QUOTE || b == BACKSLASH || b == 0x2F then Some(b)
    else if b == 0x62 then Some(0x08)
    else if b == 0x66 then Some(0x0C)
    else if b == 0x6E then Some(0x0A)
    else if b == 0x72 then Some(0x0D)
    else if b == 0x74 then Some(0x09)
    else None
  }

  /** `s` follows a backslash. A surrogate that has no partner reads as U+FFFD. */
  function ReadEscape(s: seq<byte>): (r: Read<rune>)
    ensures r.Some? ==> |r.value.1| < |s|
  {
    if s == [] then None
    else if s[0] != 0x75 then
      var c := ShortEscape(s[0]);
      if c.None? then None else Some((c.value, s[1..]))
    else
      var h := Hex4(s[1..]);
      if h.None? then None
      else if h.value < 0xD800 || 0xE000 <= h.value then Some((h.value, s[5..]))
      else if h.value < 0xDC00 && |s| >= 7 && s[5] == BACKSLASH && s[6] == 0x75
              && Hex4(s[7..]).Some? && 0xDC00 <= Hex4(s[7..]).value < 0xE000
      then Some((0x10000 + (h.value - 0xD800) * 0x400 + (Hex4(s[7..]).value - 0xDC00), s[11..]))
      else Some((0xFFFD, s[5..]))
  }

  function ReadChar(s: seq<byte>): (r: Read<rune>)
    ensures r.Some? ==> |r.value.1| < |s|
  {
    if s == [] then None
    else if s[0] == BACKSLASH then ReadEscape(s[1..])
    else
      var d := DecodeRune(s);
      if d.None? then Some((0xFFFD, s[1..]))
      else if !Unescaped(d.value.0) then None
      else Some((d.value.0, s[d.value.1..]))
  }

  /** `s` follows the opening quotation mark. */
  function ReadString(s: seq<byte>): (r: Read<seq<rune>>)
    ensures r.Some? ==> |r.value.1| < |s|
  {
    if s == [] then None
    else if s[0] == QUOTE then Some(([], s[1..]))
    else
      var c := ReadChar(s);
      if c.None? then None
      else
        var tail := ReadString(c.value.1);
        if tail.None? then None else Some(([c.value.0] + tail.value.0, tail.value.1))
  }

  // --------------------------------------------------------------------------
  // Values (sections 2 to 5)
  // --------------------------------------------------------------------------

  function ReadWord(s: seq<byte>, word: seq<byte>, value: JSON): Read<JSON> {
    if StartsWith(s, word) then Some((value, s[|word|..])) else None
  }

  /** `s` does not start with whitespace. */
  function ReadValue(s: seq<byte>): (r: Read<JSON>)
    ensures r.Some? ==> |r.value.1| < |s|
    decreases |s|, 0
  {
    if s == [] then None
    else if s[0] == QUOTE then
      var str := ReadString(s[1..]);
      if str.None? then None else Some((String(str.value.0), str.value.1))
    else if s[0] == OPEN_BRACE then
      var t := SkipWhitespace(s[1..]);
      if t != [] && t[0] == CLOSE_BRACE then Some((Object([]), t[1..]))
      else
        var ms := ReadMembers(t);
        if ms.None? then None else Some((Object(ms.value.0), ms.value.1))
    else if s[0] == OPEN_BRACKET then
      var t := SkipWhitespace(s[1..]);
      if t != [] && t[0] == CLOSE_BRACKET then Some((Array([]), t[1..]))
      else
        var es := ReadElements(t);
        if es.None? then None else Some((Array(es.value.0), es.value.1))
    else if s[0] == 0x74 then ReadWord(s, Ascii("true"), Bool(true))
    else if s[0] == 0x66 then ReadWord(s, Ascii("false"), Bool(false))
    else if s[0] == 0x6E then ReadWord(s, Ascii("null"), Null)
    else
      var n := NumberLength(s);
      if n.None? then None else Some((Number(s[..n.value]), s[n.value..]))
  }

  /** One `name : value`, up to the separator that follows it. */
  function ReadMember(s: seq<byte>): (r: Read<(seq<rune>, JSON)>)
    ensures r.Some? ==> |r.value.1| < |s|
    decreases |s|, 1
  {
    if s == [] || s[0] != QUOTE then None
    else
      var name := ReadString(s[1..]);
      if name.None? then None
      else
        var t := SkipWhitespace(name.value.1);
        if t == [] || t[0] != COLON then None
        else
          var v := ReadValue(SkipWhitespace(t[1..]));
          if v.None? then None
          else Some(((name.value.0, v.value.0), SkipWhitespace(v.value.1)))
  }

  /** The members of an object that has some, with its closing brace. */
  function ReadMembers(s: seq<byte>): (r: Read<seq<(seq<rune>, JSON)>>)
    ensures r.Some? ==> |r.value.1| < |s|
    decreases |s|, 2
  {
    var m := ReadMember(s);
    if m.None? || m.value.1 == [] then None
    else
      var t := m.value.1;
      if t[0] == CLOSE_BRACE then Some(([m.value.0], t[1..]))
      else if t[0] != COMMA then None
      else
        var more := ReadMembers(SkipWhitespace(t[1..]));
        if more.None? then None else Some(([m.value.0] + more.value.0, more.value.1))
  }

  function ReadElements(s: seq<byte>): (r: Read<seq<JSON>>)
    ensures r.Some? ==> |r.value.1| < |s|
    decreases |s|, 2
  {
    var v := ReadValue(s);
    if v.None? then None
    else
      var t := SkipWhitespace(v.value.1);
      if t == [] then None
      else if t[0] == CLOSE_BRACKET then Some(([v.value.0], t[1..]))
      else if t[0] != COMMA then None
      else
        var more := ReadElements(SkipWhitespace(t[1..]));
        if more.None? then None else Some(([v.value.0] + more.value.0, more.value.1))
  }

  /** A JSON text is one value, with whitespace allowed around it. */
  function Parse(s: seq<byte>): Option<JSON> {
    var v := ReadValue(SkipWhitespace(s));
    if v.None? || SkipWhitespace(v.value.1) != [] then None else Some(v.value.0)
  }
}

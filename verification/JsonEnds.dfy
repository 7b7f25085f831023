/**
 Where a JSON text ends: what follows a value is left alone by the reader, so a text that is cut
 short, or that goes on after its value, is no JSON text.
 */
module JsonEnds {
  import opened Wrappers
  import opened Utf8
  import opened Json

  lemma DropConcat(s: seq<byte>, x: seq<byte>, k: nat)
    requires k <= |s|
    ensures (s + x)[k..] == s[k..] + x
  {
  }

  lemma {:induction false} SkipMore(s: seq<byte>, x: seq<byte>)
    requires SkipWhitespace(s) != []
    ensures SkipWhitespace(s + x) == SkipWhitespace(s) + x
  {
    if IsWhitespace(s[0]) {
      DropConcat(s, x, 1);
      SkipMore(s[1..], x);
    }
  }

  // --------------------------------------------------------------------------
  // Numbers
  // --------------------------------------------------------------------------

  lemma {:induction false} DigitsMore(s: seq<byte>, x: seq<byte>)
    ensures DigitRun(s) <= DigitRun(s + x)
    ensures DigitRun(s) < |s| ==> DigitRun(s + x) == DigitRun(s)
  {
    if s != [] && IsDigit(s[0]) {
      DropConcat(s, x, 1);
      DigitsMore(s[1..], x);
    }
  }

  lemma FracMore(s: seq<byte>, x: seq<byte>)
    requires FracLength(s).Some? && FracLength(s).value < |s|
    ensures FracLength(s + x) == FracLength(s)
  {
    DropConcat(s, x, 1);
    DigitsMore(s[1..], x);
  }

  lemma ExpMore(s: seq<byte>, x: seq<byte>)
    requires ExpLength(s).Some? && ExpLength(s).value < |s|
    ensures ExpLength(s + x) == ExpLength(s)
  {
    var sign := if |s| > 1 && (s[1] == 0x2B || s[1] == MINUS) then 1 else 0;
    if s[0] == 0x65 || s[0] == 0x45 {
      DropConcat(s, x, 1 + sign);
      DigitsMore(s[1 + sign..], x);
    }
  }

  /** A number that does not reach the end of the input is the same in a longer one. */
  lemma NumberMore(s: seq<byte>, x: seq<byte>)
    requires NumberLength(s).Some? && NumberLength(s).value < |s|
    ensures NumberLength(s + x) == NumberLength(s)
  {
    hide DigitRun, FracLength, ExpLength;
    var sign := if s[0] == MINUS then 1 else 0;
    DropConcat(s, x, sign);
    DigitsMore(s[sign..], x);
    var whole := sign + if s[sign] == 0x30 then 1 else DigitRun(s[sign..]);
    DropConcat(s, x, whole);
    FracMore(s[whole..], x);
    var frac := FracLength(s[whole..]).value;
    DropConcat(s, x, whole + frac);
    ExpMore(s[whole + frac..], x);
  }

  ghost predicate Digits(s: seq<byte>, from: nat, to: nat) {
    from <= to <= |s| && forall i :: from <= i < to ==> 0x30 <= s[i] <= 0x39
  }

  lemma {:induction false} DigitsFrom(s: seq<byte>, i: nat)
    requires i <= |s|
    ensures Digits(s, i, i + DigitRun(s[i..]))
    decreases |s| - i
  {
    if i < |s| && IsDigit(s[i]) {
      assert s[i..][1..] == s[i + 1..];
      DigitsFrom(s, i + 1);
    }
  }

  lemma FracFrom(s: seq<byte>, i: nat)
    requires i <= |s| && FracLength(s[i..]).Some?
    ensures var n := FracLength(s[i..]).value;
            i + n <= |s| && (n > 0 ==> s[i] == 0x2E && n > 1 && Digits(s, i + 1, i + n))
  {
    if i < |s| {
      assert s[i..][1..] == s[i + 1..];
      DigitsFrom(s, i + 1);
    }
  }

  lemma ExpFrom(s: seq<byte>, i: nat)
    requires i <= |s| && ExpLength(s[i..]).Some?
    ensures var n := ExpLength(s[i..]).value;
            && i + n <= |s|
            && (n > 0 ==>
                  && (s[i] == 0x65 || s[i] == 0x45) && n > 1
                  && var sign := if s[i + 1] == 0x2B || s[i + 1] == 0x2D then 1 else 0;
                     n > 1 + sign && Digits(s, i + 1 + sign, i + n))
  {
    if i < |s| {
      var sign := if i + 1 < |s| && (s[i + 1] == 0x2B || s[i + 1] == MINUS) then 1 else 0;
      assert s[i..][1 + sign..] == s[i + 1 + sign..];
      DigitsFrom(s, i + 1 + sign);
    }
  }

  /**
   The shape of a number: an optional minus, digits that start with a zero only if that is all,
   then at least one digit after a point, and at least one in an exponent, if there are such.
   */
  lemma NumberShape(s: seq<byte>) returns (first: nat, whole: nat, frac: nat)
    requires NumberLength(s).Some?
    ensures first <= 1 && (first == 1 <==> s[0] == 0x2D)
    ensures first < whole <= frac <= NumberLength(s).value
    ensures Digits(s, first, whole) && (s[first] == 0x30 ==> whole == first + 1)
    ensures frac > whole ==> s[whole] == 0x2E && frac > whole + 1 && Digits(s, whole + 1, frac)
    ensures var n := NumberLength(s).value;
            n > frac ==>
              && (s[frac] == 0x65 || s[frac] == 0x45) && n > frac + 1
              && var sign := if s[frac + 1] == 0x2B || s[frac + 1] == 0x2D then 1 else 0;
                 n > frac + 1 + sign && Digits(s, frac + 1 + sign, n)
  {
    hide DigitRun, FracLength, ExpLength;
    first := if s[0] == MINUS then 1 else 0;
    DigitsFrom(s, first);
    whole := first + if s[first] == 0x30 then 1 else DigitRun(s[first..]);
    FracFrom(s, whole);
    frac := whole + FracLength(s[whole..]).value;
    ExpFrom(s, frac);
  }

  // --------------------------------------------------------------------------
  // Strings
  // --------------------------------------------------------------------------

  /** The escapes of two characters, and what they stand for; no other letter may follow a backslash but u. */
  lemma ShortEscapes(b: byte, rest: seq<byte>)
    requires b != 0x75
    ensures ReadChar([0x5C, b] + rest) ==
            if b == 0x22 || b == 0x5C || b == 0x2F then Some((b, rest))
            else if b == 0x62 then Some((0x08, rest))
            else if b == 0x66 then Some((0x0C, rest))
            else if b == 0x6E then Some((0x0A, rest))
            else if b == 0x72 then Some((0x0D, rest))
            else if b == 0x74 then Some((0x09, rest))
            else None
  {
    var s := [0x5C, b] + rest;
    assert s[1..] == [b] + rest && ([b] + rest)[1..] == rest;
  }

  /** Hexadecimal digits, in small and in capital letters. */
  lemma HexDigitByNumber(b: byte)
    ensures HexDigit(b) ==
            if 0x30 <= b <= 0x39 then Some(b - 0x30)
            else if 0x41 <= b <= 0x46 then Some(10 + (b - 0x41))
            else if 0x61 <= b <= 0x66 then Some(10 + (b - 0x61))
            else None
  {
  }

  /** A unit that is no surrogate stands for itself; a high one and a low one together for one code point. */
  lemma UnitReads(digits: seq<byte>, rest: seq<byte>)
    requires |digits| == 4 && Hex4(digits).Some?
    ensures var unit := Hex4(digits).value;
            unit < 0xD800 || 0xE000 <= unit ==> ReadChar([0x5C, 0x75] + digits + rest) == Some((unit, rest))
  {
    var s := [0x75] + digits + rest;
    assert ([0x5C, 0x75] + digits + rest)[1..] == s;
    assert s[1..] == digits + rest && s[5..] == rest;
    HexMore(digits, rest);
  }

  lemma PairReads(high: seq<byte>, low: seq<byte>, rest: seq<byte>)
    requires |high| == |low| == 4 && Hex4(high).Some? && Hex4(low).Some?
    requires 0xD800 <= Hex4(high).value < 0xDC00 <= Hex4(low).value < 0xE000
    ensures ReadChar([0x5C, 0x75] + high + [0x5C, 0x75] + low + rest) ==
            Some((0x10000 + 0x400 * (Hex4(high).value - 0xD800) + (Hex4(low).value - 0xDC00), rest))
  {
    var s := [0x75] + high + [0x5C, 0x75] + low + rest;
    assert ([0x5C, 0x75] + high + [0x5C, 0x75] + low + rest)[1..] == s;
    assert s[1..] == high + ([0x5C, 0x75] + low + rest);
    assert s[7..] == low + rest && s[11..] == rest;
    HexMore(high, [0x5C, 0x75] + low + rest);
    HexMore(low, rest);
  }

  /** A control character may not stand in a string. */
  lemma ControlsAreErrors(s: seq<byte>)
    requires s != [] && s[0] < 0x20
    ensures ReadString(s).None?
  {
  }

  ghost predicate IsSuffix(t: seq<byte>, s: seq<byte>) {
    |t| <= |s| && s[|s| - |t|..] == t
  }

  lemma SuffixDrop(t: seq<byte>, s: seq<byte>, k: nat)
    requires k <= |s| && IsSuffix(t, s[k..])
    ensures IsSuffix(t, s)
  {
    assert s[k..][|s| - k - |t|..] == s[|s| - |t|..];
  }

  lemma SuffixChain(t: seq<byte>, u: seq<byte>, s: seq<byte>)
    requires IsSuffix(t, u) && IsSuffix(u, s)
    ensures IsSuffix(t, s)
  {
    SuffixDrop(t, s, |s| - |u|);
  }

  /** The byte before a suffix is the same in the whole and in the part. */
  lemma ByteBefore(t: seq<byte>, u: seq<byte>, s: seq<byte>)
    requires IsSuffix(t, u) && IsSuffix(u, s) && |t| < |u|
    ensures IsSuffix(t, s) && s[|s| - |t| - 1] == u[|u| - |t| - 1]
  {
    SuffixChain(t, u, s);
    assert s[|s| - |u|..][|u| - |t| - 1] == s[|s| - |t| - 1];
  }

  lemma RuneMore(s: seq<byte>, x: seq<byte>)
    ensures DecodeRune(s).Some? ==> DecodeRune(s + x) == DecodeRune(s)
    ensures DecodeRune(s).None? && QUOTE in s ==> DecodeRune(s + x).None?
  {
    if DecodeRune(s).None? && QUOTE in s {
      var i :| 0 <= i < |s| && s[i] == QUOTE;
      assert (s + x)[i] == QUOTE;
    }
  }

  lemma CharIsSuffix(s: seq<byte>)
    requires ReadChar(s).Some?
    ensures IsSuffix(ReadChar(s).value.1, s)
  {
  }

  lemma {:induction false} StringIsSuffix(s: seq<byte>)
    requires ReadString(s).Some?
    ensures IsSuffix(ReadString(s).value.1, s) && QUOTE in s
    decreases |s|
  {
    hide ReadChar;
    if s[0] != QUOTE {
      CharIsSuffix(s);
      var t := ReadChar(s).value.1;
      StringIsSuffix(t);
      SuffixChain(ReadString(s).value.1, t, s);
      assert s[|s| - |t|..] == t;
    }
  }

  lemma HexMore(s: seq<byte>, x: seq<byte>)
    requires |s| >= 4
    ensures Hex4(s + x) == Hex4(s)
  {
  }

  /** Half of a surrogate pair stays half of one: the other half would be in the rest of the string. */
  lemma EscapeMore(s: seq<byte>, x: seq<byte>)
    requires ReadEscape(s).Some? && ReadString(ReadEscape(s).value.1).Some?
    ensures ReadEscape(s + x) == Some((ReadEscape(s).value.0, ReadEscape(s).value.1 + x))
  {
    DropConcat(s, x, 1);
    if s[0] == 0x75 {
      HexMore(s[1..], x);
      DropConcat(s, x, 5);
      var rest := s[5..];
      if |s| >= 11 {
        DropConcat(s, x, 7);
        DropConcat(s, x, 11);
        HexMore(s[7..], x);
      } else if rest != [] && rest[0] == BACKSLASH {
        assert ReadChar(rest) == ReadEscape(rest[1..]);
        assert |s| == 6 || s[6] != 0x75;
      }
    }
  }

  lemma CharMore(s: seq<byte>, x: seq<byte>)
    requires ReadChar(s).Some? && ReadString(ReadChar(s).value.1).Some?
    ensures ReadChar(s + x) == Some((ReadChar(s).value.0, ReadChar(s).value.1 + x))
  {
    hide ReadString, ReadEscape, DecodeRune;
    DropConcat(s, x, 1);
    if s[0] == BACKSLASH {
      EscapeMore(s[1..], x);
    } else {
      var t := ReadChar(s).value.1;
      StringIsSuffix(t);
      CharIsSuffix(s);
      assert s[|s| - |t|..] == t;
      RuneMore(s, x);
      if DecodeRune(s).Some? {
        DropConcat(s, x, DecodeRune(s).value.1);
      }
    }
  }

  lemma {:induction false} StringMore(s: seq<byte>, x: seq<byte>)
    requires ReadString(s).Some?
    ensures ReadString(s + x) == Some((ReadString(s).value.0, ReadString(s).value.1 + x))
    decreases |s|
  {
    hide ReadChar;
    DropConcat(s, x, 1);
    if s[0] != QUOTE {
      CharMore(s, x);
      StringMore(ReadChar(s).value.1, x);
    }
  }

  // --------------------------------------------------------------------------
  // Values
  // --------------------------------------------------------------------------

  lemma WordMore(s: seq<byte>, x: seq<byte>, word: seq<byte>, value: JSON)
    requires ReadWord(s, word, value).Some?
    ensures ReadWord(s + x, word, value) == Some((value, s[|word|..] + x))
  {
    DropConcat(s, x, |word|);
    assert (s + x)[..|word|] == s[..|word|];
  }

  /** A value reads alike in a longer input; only a number may go on. */
  lemma {:induction false} ValueMore(s: seq<byte>, x: seq<byte>)
    requires ReadValue(s).Some? && (ReadValue(s).value.0.Number? ==> ReadValue(s).value.1 != [])
    ensures ReadValue(s + x) == Some((ReadValue(s).value.0, ReadValue(s).value.1 + x))
    decreases |s|, 0
  {
    hide ReadString, ReadMembers, ReadElements, NumberLength, Ascii;
    DropConcat(s, x, 1);
    if s[0] == QUOTE {
      StringMore(s[1..], x);
    } else if s[0] == OPEN_BRACE || s[0] == OPEN_BRACKET {
      var t := SkipWhitespace(s[1..]);
      NothingReads();
      SkipMore(s[1..], x);
      DropConcat(t, x, 1);
      if s[0] == OPEN_BRACE && t[0] != CLOSE_BRACE {
        MembersMore(t, x);
      } else if s[0] == OPEN_BRACKET && t[0] != CLOSE_BRACKET {
        ElementsMore(t, x);
      }
    } else if s[0] == 0x74 {
      WordMore(s, x, Ascii("true"), Bool(true));
    } else if s[0] == 0x66 {
      WordMore(s, x, Ascii("false"), Bool(false));
    } else if s[0] == 0x6E {
      WordMore(s, x, Ascii("null"), Null);
    } else {
      NumberMore(s, x);
      DropConcat(s, x, NumberLength(s).value);
      assert (s + x)[..NumberLength(s).value] == s[..NumberLength(s).value];
    }
  }

  lemma NothingReads()
    ensures ReadMembers([]).None? && ReadElements([]).None? && ReadValue([]).None?
  {
    assert ReadMember([]).None?;
  }

  lemma {:induction false} MemberMore(s: seq<byte>, x: seq<byte>)
    requires ReadMember(s).Some? && ReadMember(s).value.1 != []
    ensures ReadMember(s + x) == Some((ReadMember(s).value.0, ReadMember(s).value.1 + x))
    decreases |s|, 1
  {
    hide ReadString, ReadValue;
    DropConcat(s, x, 1);
    StringMore(s[1..], x);
    var name := ReadString(s[1..]).value;
    SkipMore(name.1, x);
    var t := SkipWhitespace(name.1);
    DropConcat(t, x, 1);
    var u := SkipWhitespace(t[1..]);
    NothingReads();
    SkipMore(t[1..], x);
    ValueMore(u, x);
    SkipMore(ReadValue(u).value.1, x);
  }

  lemma {:induction false} MembersMore(s: seq<byte>, x: seq<byte>)
    requires ReadMembers(s).Some?
    ensures ReadMembers(s + x) == Some((ReadMembers(s).value.0, ReadMembers(s).value.1 + x))
    decreases |s|, 2
  {
    hide ReadMember;
    MemberMore(s, x);
    var t := ReadMember(s).value.1;
    DropConcat(t, x, 1);
    if t[0] != CLOSE_BRACE {
      var u := SkipWhitespace(t[1..]);
      NothingReads();
      SkipMore(t[1..], x);
      MembersMore(u, x);
    }
  }

  lemma {:induction false} ElementsMore(s: seq<byte>, x: seq<byte>)
    requires ReadElements(s).Some?
    ensures ReadElements(s + x) == Some((ReadElements(s).value.0, ReadElements(s).value.1 + x))
    decreases |s|, 2
  {
    hide ReadValue;
    var v := ReadValue(s).value.1;
    ValueMore(s, x);
    SkipMore(v, x);
    var t := SkipWhitespace(v);
    DropConcat(t, x, 1);
    if t[0] != CLOSE_BRACKET {
      var u := SkipWhitespace(t[1..]);
      NothingReads();
      SkipMore(t[1..], x);
      ElementsMore(u, x);
    }
  }

  // --------------------------------------------------------------------------
  // Texts
  // --------------------------------------------------------------------------

  predicate AllWhitespace(s: seq<byte>) {
    forall i :: 0 <= i < |s| ==> IsWhitespace(s[i])
  }

  lemma {:induction false} SkipsAll(s: seq<byte>)
    ensures SkipWhitespace(s) == [] <==> AllWhitespace(s)
  {
    if s != [] && IsWhitespace(s[0]) {
      SkipsAll(s[1..]);
      assert s == [s[0]] + s[1..];
    }
  }

  /** A whole text that is not a number, with more behind it: whitespace is ignored, the rest is an error. */
  lemma TextAndMore(s: seq<byte>, v: JSON, x: seq<byte>)
    requires ReadValue(s) == Some((v, [])) && !v.Number? && !IsWhitespace(s[0])
    ensures Parse(s + x) == if AllWhitespace(x) then Some(v) else None
  {
    hide ReadValue;
    ValueMore(s, x);
    assert [] + x == x;
    SkipsAll(x);
    assert (s + x)[0] == s[0];
  }

  lemma ObjectEndsOnce(p: seq<byte>, x: seq<byte>, members: seq<(seq<rune>, JSON)>)
    requires x != [] && ReadValue(p + x) == Some((Object(members), []))
    ensures ReadValue(p).None?
  {
    hide ReadValue;
    StartsWithBrace(p + x);
    StartsWithBrace(p);
    NothingReads();
    if ReadValue(p).Some? {
      assert (p + x)[0] == p[0];
      ValueMore(p, x);
      assert false;
    }
  }

  /** An object that is cut short anywhere is no JSON text. */
  lemma TornObject(p: seq<byte>, x: seq<byte>, members: seq<(seq<rune>, JSON)>)
    requires x != [] && ReadValue(p + x) == Some((Object(members), []))
    ensures Parse(p).None?
  {
    hide ReadValue, SkipWhitespace;
    ObjectEndsOnce(p, x, members);
    NothingReads();
    StartsWithBrace(p + x);
    NothingSkipped(p);
    if p != [] {
      assert (p + x)[0] == p[0];
    }
  }

  lemma NothingSkipped(s: seq<byte>)
    ensures s == [] || !IsWhitespace(s[0]) ==> SkipWhitespace(s) == s
  {
  }

  /** Only an object starts with a brace. */
  lemma StartsWithBrace(s: seq<byte>)
    ensures ReadValue(s).Some? ==> (ReadValue(s).value.0.Object? <==> s[0] == OPEN_BRACE)
  {
  }

  lemma {:induction false} SkipIsSuffix(s: seq<byte>)
    ensures var t := SkipWhitespace(s); IsSuffix(t, s) && (t != [] ==> !IsWhitespace(t[0]))
  {
    if s != [] && IsWhitespace(s[0]) {
      SkipIsSuffix(s[1..]);
      SuffixDrop(SkipWhitespace(s[1..]), s, 1);
    }
  }

  lemma {:induction false} SkippedIsWhitespace(s: seq<byte>)
    ensures AllWhitespace(s[..|s| - |SkipWhitespace(s)|])
  {
    if s != [] && IsWhitespace(s[0]) {
      SkippedIsWhitespace(s[1..]);
      var k := |s| - |SkipWhitespace(s)|;
      assert s[..k] == [s[0]] + s[1..][..k - 1];
    }
  }

  lemma WordIsSuffix(s: seq<byte>, word: seq<byte>, value: JSON)
    ensures ReadWord(s, word, value).Some? ==> IsSuffix(ReadWord(s, word, value).value.1, s)
  {
  }

  lemma ScalarIsSuffix(s: seq<byte>)
    requires ReadValue(s).Some? && s[0] != OPEN_BRACE && s[0] != OPEN_BRACKET
    ensures IsSuffix(ReadValue(s).value.1, s)
  {
    hide ReadString, NumberLength, Ascii, ReadWord;
    if s[0] == QUOTE {
      StringIsSuffix(s[1..]);
      SuffixDrop(ReadValue(s).value.1, s, 1);
    } else {
      WordIsSuffix(s, Ascii("true"), Bool(true));
      WordIsSuffix(s, Ascii("false"), Bool(false));
      WordIsSuffix(s, Ascii("null"), Null);
    }
  }

  lemma ObjectRest(v: seq<byte>)
    requires ReadValue(v).Some? && v[0] == OPEN_BRACE
    ensures var t, rest := SkipWhitespace(v[1..]), ReadValue(v).value.1;
            && t != []
            && if t[0] == CLOSE_BRACE then rest == t[1..]
               else ReadMembers(t).Some? && ReadMembers(t).value.1 == rest
  {
    hide ReadMembers, ReadElements, ReadString, ReadWord, NumberLength;
    NothingReads();
  }

  lemma ArrayRest(v: seq<byte>)
    requires ReadValue(v).Some? && v[0] == OPEN_BRACKET
    ensures var t, rest := SkipWhitespace(v[1..]), ReadValue(v).value.1;
            && t != []
            && if t[0] == CLOSE_BRACKET then rest == t[1..]
               else ReadElements(t).Some? && ReadElements(t).value.1 == rest
  {
    hide ReadMembers, ReadElements, ReadString, ReadWord, NumberLength;
    NothingReads();
  }

  lemma {:induction false} ValueIsSuffix(s: seq<byte>)
    requires ReadValue(s).Some?
    ensures s != [] && IsSuffix(ReadValue(s).value.1, s)
    decreases |s|, 0
  {
    hide ReadValue, ReadMembers, ReadElements, SkipWhitespace;
    NothingReads();
    var rest := ReadValue(s).value.1;
    if s[0] == OPEN_BRACE || s[0] == OPEN_BRACKET {
      var t := SkipWhitespace(s[1..]);
      SkipIsSuffix(s[1..]);
      SuffixDrop(t, s, 1);
      if s[0] == OPEN_BRACE {
        ObjectRest(s);
        if t[0] != CLOSE_BRACE {
          MembersEnd(t);
        }
      } else {
        ArrayRest(s);
        if t[0] != CLOSE_BRACKET {
          ElementsIsSuffix(t);
        }
      }
      SuffixChain(rest, t, s);
    } else {
      ScalarIsSuffix(s);
    }
  }

  lemma {:induction false} MemberIsSuffix(s: seq<byte>)
    requires ReadMember(s).Some?
    ensures IsSuffix(ReadMember(s).value.1, s) && s[0] == QUOTE
    decreases |s|, 1
  {
    hide ReadString, ReadValue;
    StringIsSuffix(s[1..]);
    var name := ReadString(s[1..]).value.1;
    SuffixDrop(name, s, 1);
    SkipIsSuffix(name);
    var t := SkipWhitespace(name);
    SuffixChain(t, name, s);
    SkipIsSuffix(t[1..]);
    var u := SkipWhitespace(t[1..]);
    SuffixDrop(u, t, 1);
    SuffixChain(u, t, s);
    ValueIsSuffix(u);
    var v := ReadValue(u).value.1;
    SuffixChain(v, u, s);
    SkipIsSuffix(v);
    SuffixChain(SkipWhitespace(v), v, s);
  }

  /** Members start with a quotation mark, and the byte before their rest is the closing brace. */
  lemma {:induction false} MembersEnd(s: seq<byte>)
    requires ReadMembers(s).Some?
    ensures var t := ReadMembers(s).value.1;
            IsSuffix(t, s) && s[0] == QUOTE && s[|s| - |t| - 1] == CLOSE_BRACE
    decreases |s|, 2
  {
    hide ReadMember;
    MemberIsSuffix(s);
    var t := ReadMember(s).value.1;
    var rest := ReadMembers(s).value.1;
    assert s[|s| - |t|..] == t;
    if t[0] != CLOSE_BRACE {
      NothingReads();
      var u := SkipWhitespace(t[1..]);
      SkipIsSuffix(t[1..]);
      SuffixDrop(u, t, 1);
      SuffixChain(u, t, s);
      MembersEnd(u);
      ByteBefore(rest, u, s);
    } else {
      SuffixDrop(rest, t, 1);
      ByteBefore(rest, t, s);
    }
  }

  lemma {:induction false} ElementsIsSuffix(s: seq<byte>)
    requires ReadElements(s).Some?
    ensures IsSuffix(ReadElements(s).value.1, s)
    decreases |s|, 2
  {
    hide ReadValue;
    var rest := ReadElements(s).value.1;
    ValueIsSuffix(s);
    var v := ReadValue(s).value.1;
    SkipIsSuffix(v);
    var t := SkipWhitespace(v);
    SuffixChain(t, v, s);
    if t[0] != CLOSE_BRACKET {
      NothingReads();
      var u := SkipWhitespace(t[1..]);
      SkipIsSuffix(t[1..]);
      SuffixDrop(u, t, 1);
      SuffixChain(u, t, s);
      ElementsIsSuffix(u);
      SuffixChain(rest, u, s);
    } else {
      SuffixDrop(rest, t, 1);
      SuffixChain(rest, t, s);
    }
  }

  lemma FirstOfSuffix(t: seq<byte>, s: seq<byte>)
    requires IsSuffix(t, s) && t != []
    ensures s[|s| - |t|] == t[0]
  {
    assert s[|s| - |t|..][0] == t[0];
  }

  lemma TakeOfDrop(s: seq<byte>, k: nat)
    requires 1 <= k <= |s|
    ensures s[1..k] == s[1..][..k - 1]
  {
  }

  lemma ObjectEnds(v: seq<byte>) returns (next: nat)
    requires ReadValue(v).Some? && v[0] == OPEN_BRACE
    ensures var rest := ReadValue(v).value.1;
            && IsSuffix(rest, v) && 0 < next <= |v| - |rest| - 1 && v[|v| - |rest| - 1] == CLOSE_BRACE
            && (v[next] == QUOTE || next == |v| - |rest| - 1)
    ensures AllWhitespace(v[1..next])
  {
    hide ReadMembers, ReadValue, SkipWhitespace;
    SkipIsSuffix(v[1..]);
    SkippedIsWhitespace(v[1..]);
    ObjectRest(v);
    var t := SkipWhitespace(v[1..]);
    SuffixDrop(t, v, 1);
    next := |v| - |t|;
    FirstOfSuffix(t, v);
    TakeOfDrop(v, next);
    var rest := ReadValue(v).value.1;
    if t[0] != CLOSE_BRACE {
      MembersEnd(t);
    } else {
      SuffixDrop(rest, t, 1);
    }
    ByteBefore(rest, t, v);
  }

  /**
   A JSON text that is an object: whitespace, an opening brace, more whitespace, a quotation mark
   or the closing brace, and at the end a closing brace and whitespace.
   */
  lemma ObjectShape(s: seq<byte>) returns (open: nat, next: nat, close: nat)
    requires Parse(s).Some? && Parse(s).value.Object?
    ensures open < next <= close < |s| && s[open] == OPEN_BRACE && s[close] == CLOSE_BRACE
    ensures s[next] == QUOTE || next == close
    ensures AllWhitespace(s[..open]) && AllWhitespace(s[open + 1..next]) && AllWhitespace(s[close + 1..])
  {
    hide ReadValue, SkipWhitespace;
    SkipIsSuffix(s);
    SkippedIsWhitespace(s);
    var v := SkipWhitespace(s);
    open := |s| - |v|;
    assert s[open..] == v;
    NothingReads();
    StartsWithBrace(v);
    var n := ObjectEnds(v);
    next := open + n;
    assert s[open + 1..next] == s[open..][1..n];
    var rest := ReadValue(v).value.1;
    SuffixChain(rest, v, s);
    SkipsAll(rest);
    close := |s| - |rest| - 1;
    assert s[close] == v[|v| - |rest| - 1] && s[next] == v[n];
    assert s[close + 1..] == rest;
  }
}

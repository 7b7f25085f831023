/** The `strings` functions the middleware uses, and the facts about them it relies on. */
module Text {

  /** The pieces once `c` stands in front. */
  function Prepend(c: char, sep: char, rest: seq<string>): seq<string>
    requires rest != []
  {
    if c == sep then [""] + rest else [[c] + rest[0]] + rest[1..]
  }

  /** `strings.Split` for a one-character separator. */
  function Split(s: string, sep: char): (parts: seq<string>)
    ensures parts != []
  {
    if s == "" then [""] else Prepend(s[0], sep, Split(s[1..], sep))
  }

  function Join(parts: seq<string>, sep: char): string
    requires parts != []
  {
    if |parts| == 1 then parts[0]
    else parts[0] + [sep] + Join(parts[1..], sep)
  }

  lemma JoinPrepend(c: char, sep: char, rest: seq<string>)
    requires rest != []
    ensures Join(Prepend(c, sep, rest), sep) == [c] + Join(rest, sep)
  {
    if c == sep {
      assert ([""] + rest)[1..] == rest;
    } else if |rest| > 1 {
      var parts := [[c] + rest[0]] + rest[1..];
      assert parts[1..] == rest[1..];
      assert [c] + rest[0] + [sep] + Join(rest[1..], sep) == [c] + (rest[0] + [sep] + Join(rest[1..], sep));
    }
  }

  lemma {:induction false} JoinSplit(s: string, sep: char)
    ensures Join(Split(s, sep), sep) == s
  {
    if s != "" {
      var rest := Split(s[1..], sep);
      JoinSplit(s[1..], sep);
      JoinPrepend(s[0], sep, rest);
      assert s == [s[0]] + s[1..];
    }
  }

  predicate HasSuffix(s: string, suffix: string) {
    |suffix| <= |s| && s[|s| - |suffix|..] == suffix
  }

  ghost predicate EndsWith(s: seq<string>, suffix: seq<string>) {
    |suffix| <= |s| && s[|s| - |suffix|..] == suffix
  }

  lemma SplitCons(c: char, s: string, sep: char)
    ensures Split([c] + s, sep) == Prepend(c, sep, Split(s, sep))
  {
    assert ([c] + s)[1..] == s;
  }

  lemma PrependConcat(c: char, sep: char, a: seq<string>, b: seq<string>)
    requires a != []
    ensures Prepend(c, sep, a + b) == Prepend(c, sep, a) + b
  {
    assert (a + b)[1..] == a[1..] + b;
  }

  lemma {:induction false} SplitConcat(x: string, y: string, sep: char)
    ensures Split(x + [sep] + y, sep) == Split(x, sep) + Split(y, sep)
  {
    if x == "" {
      SplitCons(sep, y, sep);
      assert x + [sep] + y == [sep] + y;
      assert Split("", sep) == [""];
    } else {
      hide Split;
      var t := x[1..];
      SplitConcat(t, y, sep);
      SplitCons(x[0], t, sep);
      SplitCons(x[0], t + [sep] + y, sep);
      PrependConcat(x[0], sep, Split(t, sep), Split(y, sep));
      assert x == [x[0]] + t;
      assert x + [sep] + y == [x[0]] + (t + [sep] + y);
    }
  }

  lemma {:induction false} JoinConcat(a: seq<string>, b: seq<string>, sep: char)
    requires a != [] && b != []
    ensures Join(a + b, sep) == Join(a, sep) + [sep] + Join(b, sep)
  {
    if |a| == 1 {
      assert (a + b)[1..] == b;
    } else {
      assert (a + b)[1..] == a[1..] + b;
      JoinConcat(a[1..], b, sep);
    }
  }

  /** Ending in `sep` and then `t` is ending, piece by piece, in the pieces of `t`. */
  lemma SuffixOnBoundary(s: string, t: string, sep: char)
    ensures s == t || HasSuffix(s, [sep] + t) <==> EndsWith(Split(s, sep), Split(t, sep))
  {
    hide Split, Join;
    var a, b := Split(s, sep), Split(t, sep);
    if s != t && HasSuffix(s, [sep] + t) {
      var x := s[..|s| - |t| - 1];
      assert s == x + [sep] + t;
      SplitConcat(x, t, sep);
      assert a[|a| - |b|..] == b;
    }
    if EndsWith(a, b) {
      JoinSplit(s, sep);
      JoinSplit(t, sep);
      var c := a[..|a| - |b|];
      assert a == c + b;
      if c == [] {
        assert a == b;
      } else {
        JoinConcat(c, b, sep);
      }
    }
  }

  /** The code points `unicode.IsSpace` accepts. */
  predicate IsSpace(c: char) {
    || c in "\t\n\r \U{000B}\U{000C}\U{0085}\U{00A0}\U{1680}\U{2028}\U{2029}\U{202F}\U{205F}\U{3000}"
    || '\U{2000}' <= c <= '\U{200A}'
  }

  /** By number: tab to carriage return, space, and the spaces and line separators of Unicode. */
  lemma SpacesByNumber(c: char)
    ensures IsSpace(c) <==>
            var n := c as int;
            || 0x09 <= n <= 0x0D || n == 0x20 || n == 0x85 || n == 0xA0 || n == 0x1680 || 0x2000 <= n <= 0x200A
            || n == 0x2028 || n == 0x2029 || n == 0x202F || n == 0x205F || n == 0x3000
  {
    var spaces := "\t\n\r \U{000B}\U{000C}\U{0085}\U{00A0}\U{1680}\U{2028}\U{2029}\U{202F}\U{205F}\U{3000}";
    assert spaces[0] == '\t' && spaces[1] == '\n' && spaces[2] == '\r' && spaces[3] == ' ';
    assert spaces[4] == '\U{000B}' && spaces[5] == '\U{000C}' && spaces[6] == '\U{0085}';
    assert spaces[7] == '\U{00A0}' && spaces[8] == '\U{1680}' && spaces[9] == '\U{2028}';
    assert spaces[10] == '\U{2029}' && spaces[11] == '\U{202F}' && spaces[12] == '\U{205F}' && spaces[13] == '\U{3000}';
  }

  function TrimLeft(s: string, cut: char -> bool): string {
    if s != "" && cut(s[0]) then TrimLeft(s[1..], cut) else s
  }

  function TrimRight(s: string, cut: char -> bool): string {
    if s != "" && cut(s[|s| - 1]) then TrimRight(s[..|s| - 1], cut) else s
  }

  function Trim(s: string, cut: char -> bool): string {
    TrimRight(TrimLeft(s, cut), cut)
  }

  ghost predicate AllCut(s: string, cut: char -> bool) {
    forall k :: 0 <= k < |s| ==> cut(s[k])
  }

  /** Trimming removes exactly the leading and the trailing characters that `cut` accepts. */
  lemma TrimIsExact(s: string, cut: char -> bool) returns (left: string, right: string)
    ensures s == left + Trim(s, cut) + right
    ensures AllCut(left, cut) && AllCut(right, cut)
    ensures var r := Trim(s, cut); r != "" ==> !cut(r[0]) && !cut(r[|r| - 1])
  {
    left := TrimLeftIsExact(s, cut);
    var t := TrimLeft(s, cut);
    right := TrimRightIsExact(t, cut);
    assert Trim(s, cut) != "" ==> Trim(s, cut)[0] == t[0];
  }

  lemma {:induction false} TrimLeftIsExact(s: string, cut: char -> bool) returns (left: string)
    ensures s == left + TrimLeft(s, cut) && AllCut(left, cut)
    ensures var r := TrimLeft(s, cut); r != "" ==> !cut(r[0])
  {
    left := "";
    if s != "" && cut(s[0]) {
      var l := TrimLeftIsExact(s[1..], cut);
      left := [s[0]] + l;
    }
  }

  lemma {:induction false} TrimRightIsExact(s: string, cut: char -> bool) returns (right: string)
    ensures s == TrimRight(s, cut) + right && AllCut(right, cut)
    ensures var r := TrimRight(s, cut); r != "" ==> !cut(r[|r| - 1])
  {
    right := "";
    if s != "" && cut(s[|s| - 1]) {
      var r := TrimRightIsExact(s[..|s| - 1], cut);
      right := r + [s[|s| - 1]];
    }
  }

  function TrimSpace(s: string): string {
    Trim(s, IsSpace)
  }
}

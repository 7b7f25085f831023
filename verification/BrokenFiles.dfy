/**
 Which contents of the state file are an error: files that are cut short or go on after their
 end, texts that are not one object, and objects whose known fields have values of a wrong type.
 */
module BrokenFiles {
  import opened Wrappers
  import opened Utf8
  import opened Json
  import opened JsonEnds
  import opened GoCache
  import opened StateFile
  import opened StateRoundTrip

  // --------------------------------------------------------------------------
  // Files cut short, and files that go on
  // --------------------------------------------------------------------------

  /** The printed text is one object from its first byte to its last. */
  lemma TextIsObject(order: seq<Key>, items: map<Key, Item>)
    requires Printable(order, items)
    ensures ReadValue(StateText(order, items)) == Some((Object(StateJson(order, items)), []))
    ensures !IsWhitespace(StateText(order, items)[0])
  {
    hide ReadValue, Entries, MemoryUsage, StateJson;
    var s := StateText(order, items);
    FileParses(order, items);
    assert s[0] == OPEN_BRACE by { assert FILE_HEAD[0] == OPEN_BRACE; }
    assert s[|s| - 1] == CLOSE_BRACE by { assert FILE_TAIL[1] == CLOSE_BRACE; }
    hide StateText;
    var rest := ReadValue(s).value.1;
    ValueIsSuffix(s);
    assert rest != [] ==> rest[|rest| - 1] == s[|s| - 1];
    SkipsAll(rest);
  }

  /** A state file that is cut short anywhere is an error. */
  lemma TornFileFails(order: seq<Key>, items: map<Key, Item>, n: nat)
    requires Printable(order, items) && n < |StateText(order, items)|
    ensures Unmarshal(StateText(order, items)[..n]).None?
  {
    hide StateText, Parse;
    TextIsObject(order, items);
    var s := StateText(order, items);
    assert s == s[..n] + s[n..];
    TornObject(s[..n], s[n..], StateJson(order, items));
  }

  /** Whitespace after a state file changes nothing, and anything else is an error. */
  lemma FileAndMore(order: seq<Key>, items: map<Key, Item>, x: seq<byte>)
    requires Printable(order, items)
    ensures var s := StateText(order, items);
            if forall i :: 0 <= i < |x| ==> x[i] == 0x20 || x[i] == 0x09 || x[i] == 0x0A || x[i] == 0x0D
            then Unmarshal(s + x) == Unmarshal(s) else Unmarshal(s + x).None?
  {
    hide StateText, Parse, StateJson, DecodeFields;
    var s := StateText(order, items);
    TextIsObject(order, items);
    TextAndMore(s, Object(StateJson(order, items)), x);
    FileParses(order, items);
  }

  // --------------------------------------------------------------------------
  // Texts that are not one object
  // --------------------------------------------------------------------------

  /**
   Whitespace, an opening brace, whitespace, a quotation mark or the closing brace, and at the end
   a closing brace and whitespace.
   */
  ghost predicate Braced(s: seq<byte>) {
    exists open: nat, next: nat, close: nat ::
      && open < next <= close < |s| && s[open] == OPEN_BRACE && s[close] == CLOSE_BRACE
      && (s[next] == QUOTE || next == close)
      && AllWhitespace(s[..open]) && AllWhitespace(s[open + 1..next]) && AllWhitespace(s[close + 1..])
  }

  /** The word `null` with whitespace around it, which the decoder takes for an empty state. */
  ghost predicate IsNull(s: seq<byte>) {
    exists from: nat ::
      && from + 4 <= |s| && s[from..from + 4] == [0x6E, 0x75, 0x6C, 0x6C]
      && AllWhitespace(s[..from]) && AllWhitespace(s[from + 4..])
  }

  lemma NullShape(s: seq<byte>)
    requires Parse(s) == Some(Null)
    ensures IsNull(s)
  {
    hide SkipWhitespace, ReadMembers, ReadElements, ReadString, NumberLength;
    SkipIsSuffix(s);
    SkippedIsWhitespace(s);
    var v := SkipWhitespace(s);
    var from := |s| - |v|;
    assert s[from..] == v;
    NothingReads();
    assert v[0] == 0x6E;
    assert Ascii("null") == [0x6E, 0x75, 0x6C, 0x6C];
    assert v[..4] == Ascii("null");
    assert s[from..from + 4] == v[..4];
    assert s[from + 4..] == v[4..];
    SkipsAll(v[4..]);
  }

  lemma LoadableShape(content: seq<byte>)
    requires Unmarshal(content).Some?
    ensures Braced(content) || IsNull(content)
  {
    hide Parse, DecodeFields;
    if Parse(content).value.Object? {
      var open, next, close := ObjectShape(content);
    } else {
      NullShape(content);
    }
  }

  /** A content that no save has left behind whole, in one of these ways. */
  ghost predicate Broken(content: seq<byte>) {
    || (exists order, items, n: nat :: Printable(order, items) && n < |StateText(order, items)|
          && content == StateText(order, items)[..n])
    || (exists order, items, x, i: nat :: Printable(order, items) && i < |x| && !IsWhitespace(x[i])
          && content == StateText(order, items) + x)
    || !(Braced(content) || IsNull(content))
  }

  /** A brace, and then neither a name nor the other brace. */
  lemma NoNameIsBroken(content: seq<byte>)
    requires |content| > 1 && content[0] == OPEN_BRACE
    requires content[1] != QUOTE && content[1] != CLOSE_BRACE && !IsWhitespace(content[1])
    ensures Broken(content)
  {
    forall k | 0 < k <= |content| ensures !AllWhitespace(content[..k]) {
      NotAllWhitespace(content, k);
    }
    forall k | 1 < k <= |content| ensures !AllWhitespace(content[1..k]) {
      NotAllWhitespace(content[1..], k - 1);
      assert content[1..][..k - 1] == content[1..k];
    }
    assert |content| >= 4 ==> content[0..4][0] == OPEN_BRACE;
  }

  lemma NotAllWhitespace(s: seq<byte>, k: nat)
    requires 0 < k <= |s| && !IsWhitespace(s[0])
    ensures !AllWhitespace(s[..k])
  {
    assert s[..k][0] == s[0];
  }

  /** And each of them is an error. */
  lemma BrokenFails(content: seq<byte>)
    requires Broken(content)
    ensures Unmarshal(content).None?
  {
    hide StateText, Unmarshal, Braced, IsNull;
    if order, items, n: nat :| Printable(order, items) && n < |StateText(order, items)|
                               && content == StateText(order, items)[..n] {
      TornFileFails(order, items, n);
    } else if order, items, x, i: nat :| Printable(order, items) && i < |x| && !IsWhitespace(x[i])
                                         && content == StateText(order, items) + x {
      FileAndMore(order, items, x);
    } else if Unmarshal(content).Some? {
      LoadableShape(content);
    }
  }

  // --------------------------------------------------------------------------
  // Values of a wrong type
  // --------------------------------------------------------------------------

  ghost predicate GoodEntry(v: JSON) {
    || v.Null?
    || (v.Object? && forall i :: 0 <= i < |v.members| && !v.members[i].1.Null? ==>
          && (IsField(v.members[i].0, VALUE) ==> v.members[i].1.Bool?)
          && (IsField(v.members[i].0, EXPIRATION) ==> ToInt64(v.members[i].1).Some?))
  }

  ghost predicate GoodEntries(v: JSON) {
    v.Null? || (v.Object? && forall i :: 0 <= i < |v.members| ==> GoodEntry(v.members[i].1))
  }

  ghost predicate GoodMemory(v: JSON) {
    || v.Null?
    || (v.Object? && forall i :: 0 <= i < |v.members| ==>
          v.members[i].1.Null? || ToUintptr(v.members[i].1).Some?)
  }

  /** The field names, in capital letters or not; `field` is in small ones. */
  lemma FieldNameExactly(name: seq<rune>, field: seq<byte>)
    requires forall i :: 0 <= i < |field| ==> 0x61 <= field[i] <= 0x7A
    ensures IsField(name, field) <==>
            |name| == |field| && forall i :: 0 <= i < |name| ==> name[i] == field[i] || name[i] == field[i] - 0x20
  {
  }

  lemma FieldsDiffer(name: seq<rune>)
    ensures !(IsField(name, VALUE) && IsField(name, EXPIRATION))
    ensures !(IsField(name, VERIFIED) && IsField(name, MEMORY))
  {
  }

  lemma {:induction false} EntryDecodesWhen(ms: Members, acc: PersistentEntry)
    ensures DecodeEntry(ms, acc).Some? <==> GoodEntry(Object(ms))
  {
    hide Ascii, ToInt64, IsField;
    if ms != [] {
      var (name, v) := ms[0];
      FieldsDiffer(name);
      assert ms == [ms[0]] + ms[1..];
      var good := v.Null? || ((IsField(name, VALUE) ==> v.Bool?) && (IsField(name, EXPIRATION) ==> ToInt64(v).Some?));
      assert GoodEntry(Object(ms)) <==> good && GoodEntry(Object(ms[1..]));
      if good {
        var acc' := if v.Null? then acc
                    else if IsField(name, VALUE) then acc.(value := v.b)
                    else if IsField(name, EXPIRATION) then acc.(expiration := ToInt64(v).value)
                    else acc;
        EntryDecodesWhen(ms[1..], acc');
      }
    }
  }

  /** The last `value` and the last `expiration` count, and `null` is no value. */
  lemma {:induction false} LastFieldCounts(ms: Members, last: (seq<rune>, JSON), acc: PersistentEntry)
    requires DecodeEntry(ms, acc).Some?
    ensures var entry := DecodeEntry(ms, acc).value;
            var (name, v) := last;
            && (v.Null? || !(IsField(name, VALUE) || IsField(name, EXPIRATION)) ==>
                  DecodeEntry(ms + [last], acc) == Some(entry))
            && (v.Bool? && IsField(name, VALUE) ==>
                  DecodeEntry(ms + [last], acc) == Some(PersistentEntry(v.b, entry.expiration)))
            && (ToInt64(v).Some? && IsField(name, EXPIRATION) ==>
                  DecodeEntry(ms + [last], acc) == Some(PersistentEntry(entry.value, ToInt64(v).value)))
  {
    hide Ascii, ToInt64, IsField;
    var all := ms + [last];
    FieldsDiffer(last.0);
    if ms == [] {
      assert all[1..] == [];
      OnlyNumbersAreIntegers(last.1);
    } else {
      var (name, v) := ms[0];
      assert all[1..] == ms[1..] + [last];
      var acc' := if v.Null? then acc
                  else if IsField(name, VALUE) then acc.(value := v.b)
                  else if IsField(name, EXPIRATION) then acc.(expiration := ToInt64(v).value)
                  else acc;
      LastFieldCounts(ms[1..], last, acc');
    }
  }

  lemma OnlyNumbersAreIntegers(v: JSON)
    ensures ToInt64(v).Some? ==> v.Number?
  {
  }

  lemma {:induction false} EntriesDecodeWhen(ms: Members, acc: map<Key, PersistentEntry>)
    ensures DecodeEntries(ms, acc).Some? <==> GoodEntries(Object(ms))
  {
    hide GoodEntry, DecodeEntry, Encode;
    if ms != [] {
      var (name, v) := ms[0];
      assert ms == [ms[0]] + ms[1..];
      assert GoodEntries(Object(ms)) <==> GoodEntry(v) && GoodEntries(Object(ms[1..]));
      OneEntryDecodesWhen(v);
      if GoodEntry(v) {
        var entry := if v.Null? then PersistentEntry(false, 0)
                     else DecodeEntry(v.members, PersistentEntry(false, 0)).value;
        EntriesDecodeWhen(ms[1..], acc[Encode(name) := entry]);
      }
    }
  }

  lemma OneEntryDecodesWhen(v: JSON)
    ensures GoodEntry(v) <==>
            v.Null? || (v.Object? && DecodeEntry(v.members, PersistentEntry(false, 0)).Some?)
  {
    if v.Object? {
      EntryDecodesWhen(v.members, PersistentEntry(false, 0));
    }
  }

  lemma {:induction false} MemoryDecodesWhen(ms: Members, acc: map<Key, nat>)
    ensures DecodeMemory(ms, acc).Some? <==> GoodMemory(Object(ms))
  {
    hide ToUintptr, Encode;
    if ms != [] {
      var (name, v) := ms[0];
      assert ms == [ms[0]] + ms[1..];
      var n := if v.Null? then Some(0) else ToUintptr(v);
      assert GoodMemory(Object(ms)) <==> n.Some? && GoodMemory(Object(ms[1..]));
      if n.Some? {
        MemoryDecodesWhen(ms[1..], acc[Encode(name) := n.value]);
      }
    }
  }

  ghost predicate GoodFields(ms: Members) {
    forall i :: 0 <= i < |ms| ==>
      && (IsField(ms[i].0, VERIFIED) ==> GoodEntries(ms[i].1))
      && (IsField(ms[i].0, MEMORY) ==> GoodMemory(ms[i].1))
  }

  lemma {:induction false} FieldsDecodeWhen(ms: Members, acc: PersistentState)
    ensures DecodeFields(ms, acc).Some? <==> GoodFields(ms)
  {
    hide Ascii, IsField, GoodEntries, GoodMemory, DecodeEntries, DecodeMemory;
    if ms != [] {
      var (name, v) := ms[0];
      FieldsDiffer(name);
      assert ms == [ms[0]] + ms[1..];
      assert GoodFields(ms) <==>
             && (IsField(name, VERIFIED) ==> GoodEntries(v)) && (IsField(name, MEMORY) ==> GoodMemory(v))
             && GoodFields(ms[1..]);
      MapsDecodeWhen(v, acc);
      if (IsField(name, VERIFIED) ==> GoodEntries(v)) && (IsField(name, MEMORY) ==> GoodMemory(v)) {
        var acc' :=
          if IsField(name, VERIFIED) then
            acc.(verified := if v.Null? then map[] else DecodeEntries(v.members, acc.verified).value)
          else if IsField(name, MEMORY) then
            acc.(memory := if v.Null? then map[] else DecodeMemory(v.members, acc.memory).value)
          else acc;
        FieldsDecodeWhen(ms[1..], acc');
      }
    }
  }

  lemma MapsDecodeWhen(v: JSON, acc: PersistentState)
    ensures GoodEntries(v) <==> v.Null? || (v.Object? && DecodeEntries(v.members, acc.verified).Some?)
    ensures GoodMemory(v) <==> v.Null? || (v.Object? && DecodeMemory(v.members, acc.memory).Some?)
  {
    if v.Object? {
      EntriesDecodeWhen(v.members, acc.verified);
      MemoryDecodesWhen(v.members, acc.memory);
    }
  }

  /**
   Which contents load: JSON texts that are `null`, or an object whose fields `verified` and
   `memory` (in any case) hold objects, the entries of the one having a boolean `value` and a
   64-bit `expiration` if they have any, the entries of the other being unsigned numbers. Any
   other field may hold anything.
   */
  lemma LoadsExactly(content: seq<byte>)
    ensures Unmarshal(content).Some? <==>
            && Parse(content).Some?
            && var v := Parse(content).value;
               v.Null? || (v.Object? && GoodFields(v.members))
  {
    hide GoodFields, DecodeFields, Parse;
    var v := Parse(content);
    if v.Some? && v.value.Object? {
      FieldsDecodeWhen(v.value.members, PersistentState(map[], map[]));
    }
  }

  lemma {:induction false} EntriesAppend(a: Members, b: Members, acc: map<Key, PersistentEntry>)
    ensures DecodeEntries(a + b, acc) ==
            if DecodeEntries(a, acc).None? then None else DecodeEntries(b, DecodeEntries(a, acc).value)
  {
    hide DecodeEntry, Encode;
    if a == [] {
      assert a + b == b;
    } else {
      var (name, v) := a[0];
      assert (a + b)[0] == a[0] && (a + b)[1..] == a[1..] + b;
      var entry := if v.Null? then Some(PersistentEntry(false, 0))
                   else if v.Object? then DecodeEntry(v.members, PersistentEntry(false, 0)) else None;
      if entry.Some? {
        EntriesAppend(a[1..], b, acc[Encode(name) := entry.value]);
      }
    }
  }

  /** Two maps of the same field are read as one, and `null` empties what was read before. */
  lemma MapsMerge(name: seq<rune>, other: seq<rune>, a: Members, b: Members, acc: PersistentState)
    requires IsField(name, VERIFIED) && IsField(other, VERIFIED)
    ensures DecodeFields([(name, Object(a)), (other, Object(b))], acc) == DecodeFields([(name, Object(a + b))], acc)
    ensures DecodeFields([(name, Null)], acc) == Some(acc.(verified := map[]))
  {
    hide Ascii, IsField, DecodeEntries;
    EntriesAppend(a, b, acc.verified);
    var two: Members := [(name, Object(a)), (other, Object(b))];
    var one: Members := [(name, Object(a + b))];
    var last: Members := [(other, Object(b))];
    var none: Members := [(name, Null)];
    assert two[1..] == last && last[1..] == [] && one[1..] == [] && none[1..] == [];
    if DecodeEntries(a, acc.verified).Some? {
      var acc' := acc.(verified := DecodeEntries(a, acc.verified).value);
      assert DecodeFields(two, acc) == DecodeFields(last, acc');
    }
  }

  /** A field of another name changes nothing, wherever it stands. */
  lemma {:induction false} OtherFieldsIgnored(before: Members, other: (seq<rune>, JSON), after: Members,
                                              acc: PersistentState)
    requires !IsField(other.0, VERIFIED) && !IsField(other.0, MEMORY)
    ensures DecodeFields(before + [other] + after, acc) == DecodeFields(before + after, acc)
  {
    hide Ascii, IsField, DecodeEntries, DecodeMemory;
    var longer, shorter := before + [other] + after, before + after;
    if before == [] {
      assert longer[1..] == after && shorter == after;
    } else {
      var (name, v) := before[0];
      assert longer[0] == before[0] && shorter[0] == before[0];
      assert longer[1..] == before[1..] + [other] + after && shorter[1..] == before[1..] + after;
      if IsField(name, VERIFIED) {
        var entries := if v.Null? then Some(map[])
                       else if v.Object? then DecodeEntries(v.members, acc.verified) else None;
        if entries.Some? {
          OtherFieldsIgnored(before[1..], other, after, acc.(verified := entries.value));
        }
      } else if IsField(name, MEMORY) {
        var memory := if v.Null? then Some(map[])
                      else if v.Object? then DecodeMemory(v.members, acc.memory) else None;
        if memory.Some? {
          OtherFieldsIgnored(before[1..], other, after, acc.(memory := memory.value));
        }
      } else {
        OtherFieldsIgnored(before[1..], other, after, acc);
      }
    }
  }
}

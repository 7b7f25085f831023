/** Reading back what the printer wrote. */
module StateRoundTrip {
  import opened Wrappers
  import opened Utf8
  import opened Json
  import opened JsonStrings
  import opened Decimal
  import opened GoCache
  import opened StateFile

  // --------------------------------------------------------------------------
  // Reading the pieces
  // --------------------------------------------------------------------------

  /** A name of the file format, quoted as it appears in the printed literals. */
  function Quoted(name: seq<byte>): seq<byte> {
    [QUOTE] + name + [QUOTE]
  }

  ghost predicate IsName(name: seq<byte>) {
    AllAscii(name) && forall i :: 0 <= i < |name| ==> !Special(name[i])
  }

  lemma NameReads(name: seq<byte>, rest: seq<byte>)
    requires IsName(name)
    ensures var s := Quoted(name) + rest;
            s[0] == QUOTE && ReadString(s[1..]) == Some((name, rest))
  {
    hide ReadString, Encode, Decode;
    AsciiDecodes(name);
    NoSpecialIsPlain(name);
    EncodeDecode(name);
    VerbatimReads(name, rest);
    assert (Quoted(name) + rest)[1..] == name + [QUOTE] + rest;
  }

  /** `v` starts a value and `t` follows it. */
  ghost predicate ValueReads(v: seq<byte>, val: JSON, t: seq<byte>) {
    && v != [] && !IsWhitespace(v[0]) && ReadValue(v) == Some((val, t))
    && t != [] && !IsWhitespace(t[0])
  }

  lemma MemberReads(s: seq<byte>, name: seq<rune>, v: seq<byte>, val: JSON, t: seq<byte>)
    requires s != [] && s[0] == QUOTE && ReadString(s[1..]) == Some((name, [COLON] + v))
    requires ValueReads(v, val, t)
    ensures ReadMember(s) == Some(((name, val), t))
  {
    assert ([COLON] + v)[1..] == v;
  }

  lemma LastMember(s: seq<byte>, m: (seq<rune>, JSON), rest: seq<byte>)
    requires ReadMember(s) == Some((m, [CLOSE_BRACE] + rest))
    ensures ReadMembers(s) == Some(([m], rest))
  {
    assert ([CLOSE_BRACE] + rest)[1..] == rest;
  }

  lemma MemberThenMore(s: seq<byte>, m: (seq<rune>, JSON), more: seq<byte>, ms: Members, rest: seq<byte>)
    requires ReadMember(s) == Some((m, [COMMA] + more))
    requires more != [] && !IsWhitespace(more[0]) && ReadMembers(more) == Some((ms, rest))
    ensures ReadMembers(s) == Some(([m] + ms, rest))
  {
    assert ([COMMA] + more)[1..] == more;
  }

  lemma ObjectReads(body: seq<byte>, ms: Members, t: seq<byte>)
    requires body != [] && body[0] == QUOTE && ReadMembers(body) == Some((ms, t))
    requires t != [] && !IsWhitespace(t[0])
    ensures ValueReads([OPEN_BRACE] + body, Object(ms), t)
  {
    assert ([OPEN_BRACE] + body)[1..] == body;
  }

  lemma EmptyObjectReads(t: seq<byte>)
    requires t != [] && !IsWhitespace(t[0])
    ensures ValueReads([OPEN_BRACE, CLOSE_BRACE] + t, Object([]), t)
  {
    var s := [OPEN_BRACE, CLOSE_BRACE] + t;
    assert s[1..] == [CLOSE_BRACE] + t;
    assert s[1..][1..] == t;
  }

  lemma BoolReads(b: bool, t: seq<byte>)
    requires t != [] && !IsWhitespace(t[0])
    ensures ValueReads(BoolText(b) + t, Bool(b), t)
  {
    var w := BoolText(b);
    var s := w + t;
    assert s[0] == w[0];
    assert s[..|w|] == w && s[|w|..] == t;
  }

  lemma NumberFieldReads(n: int, t: seq<byte>)
    requires t != [] && (t[0] == CLOSE_BRACE || t[0] == COMMA)
    ensures ValueReads(FormatInt(n) + t, Number(FormatInt(n)), t)
  {
    IntReads(n, t);
    FormatNatDigits(if n < 0 then -n else n);
    var d := FormatInt(n);
    assert (d + t)[0] == d[0];
    assert n >= 0 ==> IsDigit(d[0]);
  }

  lemma Names()
    ensures IsName(VERIFIED) && IsName(MEMORY) && IsName(VALUE) && IsName(EXPIRATION)
    ensures VERIFIED != MEMORY && VALUE != EXPIRATION
  {
    assert VERIFIED[0] == 0x76 && MEMORY[0] == 0x6D && VALUE[0] == 0x76 && EXPIRATION[0] == 0x65;
  }

  /** The file of a cache with one pass that never expires, under the key "a". */
  lemma TextExample()
    ensures Printable([[0x61]], map[[0x61] := Item(BoolValue(true), 0)])
    ensures StateText([[0x61]], map[[0x61] := Item(BoolValue(true), 0)]) ==
            Ascii("{\"verified\":") + Ascii("{\"a\":{\"value\":") + Ascii("true") + Ascii(",\"expiration\":")
            + Ascii("0}}") + Ascii(",\"memory\":{\"verified\":") + Ascii("49}}")
  {
    hide Ascii, JSONString;
    var key: Key := [0x61];
    var items := map[key := Item(BoolValue(true), 0)];
    ExampleKey();
    assert FormatInt(0) == [0x30];
    ExampleMemory(key);
    assert Entries([key], items) == EntryText(key, items[key]);
    ExamplePieces();
  }

  lemma ExampleMemory(key: Key)
    requires |key| == 1
    ensures MemoryUsage([key]) == 49 && FormatNat(49) == [0x34, 0x39]
  {
    assert [key][..0] == [];
    assert FormatNat(4) == [0x34];
    assert 49 / 10 == 4 && 49 % 10 == 9;
  }

  lemma ExampleKey()
    ensures JSONString([0x61]) == [QUOTE, 0x61, QUOTE]
  {
    hide Decode, Plain;
    AsciiDecodes([0x61]);
    NoSpecialIsPlain([0x61]);
  }

  lemma ExamplePieces()
    ensures Ascii("{\"a\":{\"value\":") == [OPEN_BRACE] + [QUOTE, 0x61, QUOTE] + ENTRY_HEAD
    ensures Ascii("0}}") == [0x30] + [CLOSE_BRACE] + [CLOSE_BRACE]
    ensures Ascii("49}}") == [0x34, 0x39] + FILE_TAIL
  {
  }

  /** Each name is the one of its own field, and of no other of the same object. */
  lemma FieldNames()
    ensures IsField(VERIFIED, VERIFIED) && IsField(MEMORY, MEMORY) && !IsField(MEMORY, VERIFIED)
    ensures IsField(VALUE, VALUE) && IsField(EXPIRATION, EXPIRATION) && !IsField(EXPIRATION, VALUE)
  {
    OwnField(VERIFIED);
    OwnField(MEMORY);
    OwnField(VALUE);
    OwnField(EXPIRATION);
  }

  lemma OwnField(name: seq<byte>)
    requires name == VERIFIED || name == MEMORY || name == VALUE || name == EXPIRATION
    ensures IsField(name, name)
  {
  }

  lemma Literals()
    ensures FILE_HEAD == [OPEN_BRACE] + Quoted(VERIFIED) + [COLON]
    ensures FILE_MIDDLE == [COMMA] + Quoted(MEMORY) + [COLON, OPEN_BRACE] + Quoted(VERIFIED) + [COLON]
    ensures FILE_TAIL == [CLOSE_BRACE, CLOSE_BRACE]
    ensures ENTRY_HEAD == [COLON, OPEN_BRACE] + Quoted(VALUE) + [COLON]
    ensures ENTRY_MIDDLE == [COMMA] + Quoted(EXPIRATION) + [COLON]
  {
  }

  // --------------------------------------------------------------------------
  // Reading the file
  // --------------------------------------------------------------------------

  function EntryJson(item: Item): JSON
    requires item.stored.BoolValue?
  {
    Object([(VALUE, Bool(item.stored.b)), (EXPIRATION, Number(FormatInt(item.expiration)))])
  }

  function EntriesJson(order: seq<Key>, items: map<Key, Item>): Members
    requires Printable(order, items)
  {
    seq(|order|, i requires 0 <= i < |order| => (Lossy(order[i]), EntryJson(items[order[i]])))
  }

  /** `"name":v` is a member. */
  lemma NamedMember(name: seq<byte>, v: seq<byte>, val: JSON, t: seq<byte>)
    requires IsName(name) && ValueReads(v, val, t)
    ensures ReadMember(Quoted(name) + [COLON] + v) == Some(((name, val), t))
  {
    var s := Quoted(name) + ([COLON] + v);
    NameReads(name, [COLON] + v);
    MemberReads(s, name, v, val, t);
    assert s == Quoted(name) + [COLON] + v;
  }

  /** The printed value of an entry, with what follows it, reads as an object of two fields. */
  lemma EntryValueReads(item: Item, t: seq<byte>)
    requires item.stored.BoolValue? && t != [] && !IsWhitespace(t[0])
    ensures ValueReads([OPEN_BRACE] + Quoted(VALUE) + [COLON] + BoolText(item.stored.b) + [COMMA]
                       + Quoted(EXPIRATION) + [COLON] + FormatInt(item.expiration) + [CLOSE_BRACE] + t,
                       EntryJson(item), t)
  {
    hide ReadMember, ReadMembers, ValueReads, BoolText, FormatInt, IsName, Ascii;
    Names();
    var number, text := FormatInt(item.expiration), BoolText(item.stored.b);
    var last := Quoted(EXPIRATION) + [COLON] + (number + ([CLOSE_BRACE] + t));
    NumberFieldReads(item.expiration, [CLOSE_BRACE] + t);
    NamedMember(EXPIRATION, number + ([CLOSE_BRACE] + t), Number(number), [CLOSE_BRACE] + t);
    LastMember(last, (EXPIRATION, Number(number)), t);

    var first := Quoted(VALUE) + [COLON] + (text + ([COMMA] + last));
    BoolReads(item.stored.b, [COMMA] + last);
    NamedMember(VALUE, text + ([COMMA] + last), Bool(item.stored.b), [COMMA] + last);
    MemberThenMore(first, (VALUE, Bool(item.stored.b)), last, [(EXPIRATION, Number(number))], t);

    ObjectReads(first, [(VALUE, Bool(item.stored.b))] + [(EXPIRATION, Number(number))], t);
    assert EntryJson(item) == Object([(VALUE, Bool(item.stored.b))] + [(EXPIRATION, Number(number))]);
    assert [OPEN_BRACE] + first ==
      [OPEN_BRACE] + Quoted(VALUE) + [COLON] + text + [COMMA]
      + Quoted(EXPIRATION) + [COLON] + number + [CLOSE_BRACE] + t;
  }

  lemma EntryReads(key: Key, item: Item, t: seq<byte>)
    requires item.stored.BoolValue? && t != [] && !IsWhitespace(t[0])
    ensures var s := EntryText(key, item) + t;
            s[0] == QUOTE && ReadMember(s) == Some(((Lossy(key), EntryJson(item)), t))
  {
    hide ReadMember, ReadString, ReadValue, BoolText, FormatInt, JSONString, Lossy, Ascii, EntryJson;
    var v := [OPEN_BRACE] + Quoted(VALUE) + [COLON] + BoolText(item.stored.b) + [COMMA]
      + Quoted(EXPIRATION) + [COLON] + FormatInt(item.expiration) + [CLOSE_BRACE] + t;
    EntryValueReads(item, t);
    JSONStringReads(key, [COLON] + v);
    MemberReads(JSONString(key) + ([COLON] + v), Lossy(key), v, EntryJson(item), t);
    Literals();
    assert EntryText(key, item) + t == JSONString(key) + ([COLON] + v);
  }

  lemma {:induction false} EntriesRead(order: seq<Key>, items: map<Key, Item>, t: seq<byte>)
    requires Printable(order, items) && order != []
    ensures var s := Entries(order, items) + [CLOSE_BRACE] + t;
            s[0] == QUOTE && ReadMembers(s) == Some((EntriesJson(order, items), t))
  {
    hide ReadMember, ReadMembers, EntryText, EntryJson, Lossy;
    var s := Entries(order, items) + [CLOSE_BRACE] + t;
    var m := (Lossy(order[0]), EntryJson(items[order[0]]));
    if |order| == 1 {
      EntryReads(order[0], items[order[0]], [CLOSE_BRACE] + t);
      assert s == EntryText(order[0], items[order[0]]) + ([CLOSE_BRACE] + t);
      LastMember(s, m, t);
      assert EntriesJson(order, items) == [m];
    } else {
      var more := Entries(order[1..], items) + [CLOSE_BRACE] + t;
      EntriesRead(order[1..], items, t);
      EntryReads(order[0], items[order[0]], [COMMA] + more);
      assert s == EntryText(order[0], items[order[0]]) + ([COMMA] + more);
      MemberThenMore(s, m, more, EntriesJson(order[1..], items), t);
      assert EntriesJson(order, items) == [m] + EntriesJson(order[1..], items);
    }
  }

  lemma MapReads(order: seq<Key>, items: map<Key, Item>, t: seq<byte>)
    requires Printable(order, items) && t != [] && !IsWhitespace(t[0])
    ensures ValueReads([OPEN_BRACE] + Entries(order, items) + [CLOSE_BRACE] + t, Object(EntriesJson(order, items)), t)
  {
    hide ReadMembers, EntryText, EntryJson, ValueReads;
    if order == [] {
      EmptyObjectReads(t);
      assert [OPEN_BRACE] + Entries(order, items) + [CLOSE_BRACE] + t == [OPEN_BRACE, CLOSE_BRACE] + t;
      assert EntriesJson(order, items) == [];
    } else {
      EntriesRead(order, items, t);
      ObjectReads(Entries(order, items) + [CLOSE_BRACE] + t, EntriesJson(order, items), t);
      assert [OPEN_BRACE] + Entries(order, items) + [CLOSE_BRACE] + t ==
        [OPEN_BRACE] + (Entries(order, items) + [CLOSE_BRACE] + t);
    }
  }

  function StateJson(order: seq<Key>, items: map<Key, Item>): Members
    requires Printable(order, items)
  {
    [(VERIFIED, Object(EntriesJson(order, items))),
     (MEMORY, Object([(VERIFIED, Number(FormatNat(MemoryUsage(order))))]))]
  }

  /** The `memory` object and the two closing braces. */
  lemma MemoryReads(memory: nat)
    ensures var m := (MEMORY, Object([(VERIFIED, Number(FormatNat(memory)))]));
            ReadMembers(Quoted(MEMORY) + [COLON, OPEN_BRACE] + Quoted(VERIFIED) + [COLON] + FormatNat(memory)
                        + [CLOSE_BRACE, CLOSE_BRACE]) == Some(([m], []))
  {
    hide ReadMember, ReadMembers, ValueReads, FormatNat, IsName, Ascii;
    Names();
    var number := FormatNat(memory);
    var inner := Quoted(VERIFIED) + [COLON] + (number + [CLOSE_BRACE, CLOSE_BRACE]);
    NumberFieldReads(memory, [CLOSE_BRACE, CLOSE_BRACE]);
    NamedMember(VERIFIED, number + [CLOSE_BRACE, CLOSE_BRACE], Number(number), [CLOSE_BRACE, CLOSE_BRACE]);
    assert [CLOSE_BRACE] + [CLOSE_BRACE] == [CLOSE_BRACE, CLOSE_BRACE];
    LastMember(inner, (VERIFIED, Number(number)), [CLOSE_BRACE]);
    ObjectReads(inner, [(VERIFIED, Number(number))], [CLOSE_BRACE]);
    var value := Object([(VERIFIED, Number(number))]);
    NamedMember(MEMORY, [OPEN_BRACE] + inner, value, [CLOSE_BRACE]);
    var s := Quoted(MEMORY) + [COLON] + ([OPEN_BRACE] + inner);
    assert [CLOSE_BRACE] + [] == [CLOSE_BRACE];
    LastMember(s, (MEMORY, value), []);
    assert s == Quoted(MEMORY) + [COLON, OPEN_BRACE] + Quoted(VERIFIED) + [COLON] + number
                + [CLOSE_BRACE, CLOSE_BRACE];
  }

  lemma TopLevelObject(body: seq<byte>, ms: Members)
    requires body != [] && body[0] == QUOTE && ReadMembers(body) == Some((ms, []))
    ensures Parse([OPEN_BRACE] + body) == Some(Object(ms))
  {
    hide ReadMembers;
    assert ([OPEN_BRACE] + body)[1..] == body;
  }

  lemma FileParses(order: seq<Key>, items: map<Key, Item>)
    requires Printable(order, items)
    ensures Parse(StateText(order, items)) == Some(Object(StateJson(order, items)))
  {
    hide ReadMember, ReadMembers, ReadValue, Parse, ValueReads, FormatNat, IsName, Entries, EntriesJson;
    hide MemoryUsage, Ascii;
    Names();
    var memory := MemoryUsage(order);
    var map_ := [OPEN_BRACE] + Entries(order, items) + [CLOSE_BRACE];
    var tail := Quoted(MEMORY) + [COLON, OPEN_BRACE] + Quoted(VERIFIED) + [COLON] + FormatNat(memory)
      + [CLOSE_BRACE, CLOSE_BRACE];
    MemoryReads(memory);
    MapReads(order, items, [COMMA] + tail);
    NamedMember(VERIFIED, map_ + ([COMMA] + tail), Object(EntriesJson(order, items)), [COMMA] + tail);
    var body := Quoted(VERIFIED) + [COLON] + (map_ + ([COMMA] + tail));
    var m := (MEMORY, Object([(VERIFIED, Number(FormatNat(memory)))]));
    MemberThenMore(body, (VERIFIED, Object(EntriesJson(order, items))), tail, [m], []);
    TopLevelObject(body, [(VERIFIED, Object(EntriesJson(order, items)))] + [m]);
    assert StateJson(order, items) == [(VERIFIED, Object(EntriesJson(order, items)))] + [m];
    Literals();
    assert StateText(order, items) == [OPEN_BRACE] + body;
  }

  // --------------------------------------------------------------------------
  // Decoding it
  // --------------------------------------------------------------------------

  function Snapshot(items: map<Key, Item>): map<Key, PersistentEntry>
    requires AllBool(items)
  {
    map k | k in items :: PersistentEntry(items[k].stored.b, items[k].expiration)
  }

  /** The entries under the keys they have once they were printed. */
  function Decoded(order: seq<Key>, items: map<Key, Item>, acc: map<Key, PersistentEntry>): map<Key, PersistentEntry>
    requires Printable(order, items)
  {
    if order == [] then acc
    else
      var item := items[order[0]];
      Decoded(order[1..], items, acc[Encode(Lossy(order[0])) := PersistentEntry(item.stored.b, item.expiration)])
  }

  lemma EntryDecodes(item: Item)
    requires item.stored.BoolValue?
    ensures DecodeEntry(EntryJson(item).members, PersistentEntry(false, 0)) ==
            Some(PersistentEntry(item.stored.b, item.expiration))
  {
    hide Ascii, FormatInt;
    FieldNames();
    FormatIntParses(item.expiration);
    var v := Number(FormatInt(item.expiration));
    assert ToInt64(v) == Some(item.expiration);
    var ms: Members := EntryJson(item).members;
    var last: Members := [(EXPIRATION, v)];
    var acc := PersistentEntry(item.stored.b, 0);
    assert ms[0] == (VALUE, Bool(item.stored.b)) && ms[1..] == last;
    assert DecodeEntry(ms, PersistentEntry(false, 0)) == DecodeEntry(last, acc);
    assert last[1..] == [];
    assert DecodeEntry(last, acc) == DecodeEntry(last[1..], acc.(expiration := item.expiration));
  }

  lemma {:induction false} EntriesDecode(order: seq<Key>, items: map<Key, Item>, acc: map<Key, PersistentEntry>)
    requires Printable(order, items)
    ensures DecodeEntries(EntriesJson(order, items), acc) == Some(Decoded(order, items, acc))
  {
    hide Lossy, Encode, DecodeEntry, FormatInt, Ascii;
    var ms := EntriesJson(order, items);
    if order != [] {
      var item := items[order[0]];
      EntryDecodes(item);
      assert EntryJson(item).Object?;
      assert ms[0] == (Lossy(order[0]), EntryJson(item));
      assert ms[1..] == EntriesJson(order[1..], items);
      EntriesDecode(order[1..], items,
                    acc[Encode(Lossy(order[0])) := PersistentEntry(item.stored.b, item.expiration)]);
    }
  }

  lemma FileDecodes(order: seq<Key>, items: map<Key, Item>)
    requires Printable(order, items)
    ensures Unmarshal(StateText(order, items)) ==
            Some(PersistentState(Decoded(order, items, map[]), map[VERIFIED := MemoryUsage(order)]))
  {
    hide StateText, Parse, EntriesJson, DecodeEntries, Decoded, MemoryUsage, FormatNat, Ascii;
    FileParses(order, items);
    EntriesDecode(order, items, map[]);
    FieldNames();
    AsciiNameKept();
    var memory := MemoryUsage(order);
    MemoryBelowRange(order);
    FormatIntParses(memory);
    FormatNatDigits(memory);
    assert ToUintptr(Number(FormatNat(memory))) == Some(memory);
    var inner: Members := [(VERIFIED, Number(FormatNat(memory)))];
    assert inner[1..] == [];
    assert DecodeMemory(inner, map[]) == DecodeMemory([], map[VERIFIED := memory]);
    var ms: Members := StateJson(order, items);
    var last: Members := [(MEMORY, Object(inner))];
    assert ms[1..] == last && last[1..] == [];
    var acc := PersistentState(Decoded(order, items, map[]), map[]);
    assert DecodeFields(ms, PersistentState(map[], map[])) == DecodeFields(last, acc);
    assert DecodeFields(last, acc) == DecodeFields(last[1..], acc.(memory := map[VERIFIED := memory]));
  }

  lemma AsciiNameKept()
    ensures Encode(VERIFIED) == VERIFIED
  {
    Names();
    AsciiDecodes(VERIFIED);
    EncodeDecode(VERIFIED);
  }

  lemma MemoryBelowRange(order: seq<Key>)
    ensures MemoryUsage(order) < UINTPTR_RANGE
  {
  }

  /** Printing and reading a key that is valid UTF-8 changes nothing. */
  lemma {:induction false} DecodedIsExact(order: seq<Key>, items: map<Key, Item>, acc: map<Key, PersistentEntry>)
    requires Printable(order, items) && Distinct(order)
    requires forall i :: 0 <= i < |order| ==> Valid(order[i])
    ensures var d := Decoded(order, items, acc);
            && (forall k :: k in d <==> k in acc || k in order)
            && (forall k :: k in order ==> d[k] == PersistentEntry(items[k].stored.b, items[k].expiration))
            && (forall k :: k in acc && k !in order ==> d[k] == acc[k])
  {
    if order != [] {
      var k0 := order[0];
      KeySurvives(k0);
      var entry := PersistentEntry(items[k0].stored.b, items[k0].expiration);
      DecodedIsExact(order[1..], items, acc[k0 := entry]);
      assert forall k :: k in order <==> k == k0 || k in order[1..];
      assert k0 !in order[1..];
    }
  }

  lemma {:induction false} DecodedKeysAreValid(order: seq<Key>, items: map<Key, Item>, acc: map<Key, PersistentEntry>)
    requires Printable(order, items) && forall k :: k in acc ==> Valid(k)
    ensures forall k :: k in Decoded(order, items, acc) ==> Valid(k)
  {
    if order != [] {
      var item := items[order[0]];
      DecodeEncode(Lossy(order[0]));
      DecodedKeysAreValid(order[1..], items,
                          acc[Encode(Lossy(order[0])) := PersistentEntry(item.stored.b, item.expiration)]);
    }
  }

  /**
   The whole file: for every snapshot of booleans and every order in which the map is
   visited, the printed text reads back, its memory estimate is the printed one, and the
   entries are the snapshot's if and only if every key is valid UTF-8.
   */
  lemma RoundTrip(order: seq<Key>, items: map<Key, Item>)
    requires AllBool(items) && IsIteration(order, items) && Printable(order, items)
    ensures var r := Unmarshal(StateText(order, items));
            && r.Some?
            && r.value.memory == map[VERIFIED := MemoryUsage(order)]
            && (r.value.verified == Snapshot(items) <==> forall k :: k in items ==> Valid(k))
  {
    hide StateText, Unmarshal, MemoryUsage, Valid;
    FileDecodes(order, items);
    if forall k :: k in items ==> Valid(k) {
      DecodedIsExact(order, items, map[]);
    } else {
      DecodedKeysAreValid(order, items, map[]);
      var k :| k in items && !Valid(k);
      assert k in Snapshot(items);
    }
  }

  // --------------------------------------------------------------------------
  // One key among others
  // --------------------------------------------------------------------------

  /** The key a printed key is read back as. */
  function PrintsAs(key: Key): Key {
    Encode(Lossy(key))
  }

  /** Number `j` is the last key of the order that is read back as `k`. */
  ghost predicate LastPrintingAs(order: seq<Key>, k: Key, j: nat) {
    j < |order| && PrintsAs(order[j]) == k && forall m :: j < m < |order| ==> PrintsAs(order[m]) != k
  }

  lemma {:induction false} UnprintedKeeps(order: seq<Key>, items: map<Key, Item>, acc: map<Key, PersistentEntry>,
                                          k: Key)
    requires Printable(order, items) && forall i :: 0 <= i < |order| ==> PrintsAs(order[i]) != k
    ensures var d := Decoded(order, items, acc); (k in d <==> k in acc) && (k in acc ==> d[k] == acc[k])
  {
    if order != [] {
      var entry := PersistentEntry(items[order[0]].stored.b, items[order[0]].expiration);
      assert PrintsAs(order[0]) != k;
      UnprintedKeeps(order[1..], items, acc[PrintsAs(order[0]) := entry], k);
    }
  }

  lemma {:induction false} LastPrintedWins(order: seq<Key>, items: map<Key, Item>, acc: map<Key, PersistentEntry>,
                                           k: Key, j: nat)
    requires Printable(order, items) && LastPrintingAs(order, k, j)
    ensures var d := Decoded(order, items, acc);
            k in d && d[k] == PersistentEntry(items[order[j]].stored.b, items[order[j]].expiration)
  {
    var entry := PersistentEntry(items[order[0]].stored.b, items[order[0]].expiration);
    var acc' := acc[PrintsAs(order[0]) := entry];
    if j == 0 {
      UnprintedKeeps(order[1..], items, acc', k);
    } else {
      assert LastPrintingAs(order[1..], k, j - 1);
      LastPrintedWins(order[1..], items, acc', k, j - 1);
    }
  }

  /** No other key is read back as this one. */
  ghost predicate Distinguished(items: map<Key, Item>, k: Key) {
    forall other :: other in items && other != k ==> PrintsAs(other) != k
  }

  /**
   Key by key: a valid key that no other key is read back as keeps its entry, whatever the other
   keys are, and one that is not there does not appear.
   */
  lemma KeyReadsBack(order: seq<Key>, items: map<Key, Item>, k: Key)
    requires AllBool(items) && IsIteration(order, items) && Printable(order, items)
    requires Distinguished(items, k) && (k in items ==> Valid(k))
    ensures var r := Unmarshal(StateText(order, items));
            && r.Some? && (k in r.value.verified <==> k in items)
            && (k in items ==> r.value.verified[k] == PersistentEntry(items[k].stored.b, items[k].expiration))
  {
    FileDecodes(order, items);
    hide StateText, Unmarshal, MemoryUsage, Valid, Decoded, PrintsAs;
    if k in items {
      PrintsItself(k);
      var j :| 0 <= j < |order| && order[j] == k;
      assert LastPrintingAs(order, k, j);
      LastPrintedWins(order, items, map[], k, j);
    } else {
      UnprintedKeeps(order, items, map[], k);
    }
  }

  function EntryOf(item: Item): PersistentEntry
    requires item.stored.BoolValue?
  {
    PersistentEntry(item.stored.b, item.expiration)
  }

  /** What is read back is what was printed: every entry is the one of an item. */
  lemma ReadBackWasPrinted(order: seq<Key>, items: map<Key, Item>, k: Key)
    requires Printable(order, items)
    ensures var r := Unmarshal(StateText(order, items));
            && r.Some?
            && (k in r.value.verified ==>
                  exists key :: key in order && PrintsAs(key) == k && r.value.verified[k] == EntryOf(items[key]))
  {
    hide StateText, Unmarshal, MemoryUsage, Decoded, PrintsAs;
    FileDecodes(order, items);
    if i :| 0 <= i < |order| && PrintsAs(order[i]) == k {
      var j := LastFrom(order, k, i);
      LastPrintedWins(order, items, map[], k, j);
      assert order[j] in order;
    } else {
      UnprintedKeeps(order, items, map[], k);
    }
  }

  /** The key has its entry in what is read back. */
  ghost predicate KeepsKey(order: seq<Key>, items: map<Key, Item>, k: Key)
    requires AllBool(items) && Printable(order, items) && k in items
  {
    var r := Unmarshal(StateText(order, items));
    r.Some? && k in r.value.verified && r.value.verified[k] == EntryOf(items[k])
  }

  /**
   A key keeps its entry in whatever order the map is visited exactly when it is valid UTF-8 and
   every key that is read back as it has the same entry.
   */
  lemma KeyKeptExactly(order: seq<Key>, items: map<Key, Item>, k: Key)
    requires AllBool(items) && IsIteration(order, items) && k in items
    ensures (forall o :: IsIteration(o, items) && Printable(o, items) ==> KeepsKey(o, items, k)) <==>
            Valid(k) && forall other :: other in items && PrintsAs(other) == k ==>
                                          EntryOf(items[other]) == EntryOf(items[k])
  {
    hide StateText, Unmarshal, MemoryUsage, Valid, Decoded, PrintsAs, IsIteration, Printable, KeepsKey;
    PrintsItself(k);
    if Valid(k) {
      forall o, other | IsIteration(o, items) && Printable(o, items) && other in items && LastIs(o, k, other)
        ensures KeepsKey(o, items, k) <==> EntryOf(items[other]) == EntryOf(items[k])
      {
        LastKeyCounts(o, items, k, other);
      }
      forall o | IsIteration(o, items) && Printable(o, items)
        ensures exists other :: other in items && LastIs(o, k, other)
      {
        SomeIsLast(o, items, k);
      }
      forall other | other in items && PrintsAs(other) == k
        ensures exists o :: IsIteration(o, items) && Printable(o, items) && LastIs(o, k, other)
      {
        var o := PutLast(order, items, k, other);
      }
    } else {
      IterationIsPrintable(order, items);
      InvalidIsLost(order, items, k);
    }
  }

  /** `other` is the last key of the order that is read back as `k`. */
  ghost predicate LastIs(order: seq<Key>, k: Key, other: Key) {
    exists j: nat :: LastPrintingAs(order, k, j) && order[j] == other
  }

  lemma LastKeyCounts(order: seq<Key>, items: map<Key, Item>, k: Key, other: Key)
    requires AllBool(items) && IsIteration(order, items) && Printable(order, items) && k in items && other in items
    requires LastIs(order, k, other)
    ensures KeepsKey(order, items, k) <==> EntryOf(items[other]) == EntryOf(items[k])
  {
    hide StateText, Unmarshal, MemoryUsage, Decoded, PrintsAs;
    var j: nat :| LastPrintingAs(order, k, j) && order[j] == other;
    FileDecodes(order, items);
    LastPrintedWins(order, items, map[], k, j);
  }

  lemma SomeIsLast(order: seq<Key>, items: map<Key, Item>, k: Key)
    requires IsIteration(order, items) && k in items && PrintsAs(k) == k
    ensures exists other :: other in items && LastIs(order, k, other)
  {
    hide PrintsAs;
    assert k in order;
    var i :| 0 <= i < |order| && order[i] == k;
    var j := LastFrom(order, k, i);
    assert order[j] in items && LastIs(order, k, order[j]);
  }

  lemma {:induction false} LastFrom(order: seq<Key>, k: Key, i: nat) returns (j: nat)
    requires i < |order| && PrintsAs(order[i]) == k
    ensures LastPrintingAs(order, k, j)
    decreases |order| - i
  {
    if m :| i < m < |order| && PrintsAs(order[m]) == k {
      j := LastFrom(order, k, m);
    } else {
      j := i;
    }
  }

  lemma IterationIsPrintable(order: seq<Key>, items: map<Key, Item>)
    requires AllBool(items) && IsIteration(order, items)
    ensures Printable(order, items)
  {
  }

  lemma PutLast(order: seq<Key>, items: map<Key, Item>, k: Key, other: Key) returns (o: seq<Key>)
    requires AllBool(items) && IsIteration(order, items) && other in items && PrintsAs(other) == k
    ensures IsIteration(o, items) && Printable(o, items) && LastIs(o, k, other)
  {
    hide PrintsAs;
    assert other in order;
    var i :| 0 <= i < |order| && order[i] == other;
    var rest := WithoutOne(order, i);
    o := rest + [other];
    assert forall key :: key in o <==> key in rest || key == other;
    forall m | 0 <= m < |o| ensures o[m] in items {
      assert o[m] in o;
    }
    assert Distinct(o) by {
      assert forall m :: 0 <= m < |rest| ==> rest[m] in rest;
    }
    assert o[|rest|] == other && LastPrintingAs(o, k, |rest|);
  }

  lemma InvalidIsLost(order: seq<Key>, items: map<Key, Item>, k: Key)
    requires AllBool(items) && IsIteration(order, items) && Printable(order, items) && k in items && !Valid(k)
    ensures !KeepsKey(order, items, k)
  {
    hide StateText, Unmarshal, MemoryUsage, Valid, Decoded;
    FileDecodes(order, items);
    DecodedKeysAreValid(order, items, map[]);
  }

  lemma PrintsItself(k: Key)
    ensures PrintsAs(k) == k <==> Valid(k)
  {
    KeySurvives(k);
  }

  lemma {:induction false} InvalidIsReplaced(value: seq<byte>)
    requires !Valid(value)
    ensures 0xFFFD in Lossy(value)
  {
    var d := DecodeRune(value);
    if d.Some? {
      InvalidIsReplaced(value[d.value.1..]);
    }
  }

  /** Only a key that itself contains U+FFFD can be confused with another. */
  lemma OnlyReplacementIsConfused(items: map<Key, Item>, k: Key)
    requires Valid(k) && 0xFFFD !in Decode(k).value
    ensures Distinguished(items, k)
  {
    forall other | other in items && other != k ensures PrintsAs(other) != k {
      if PrintsAs(other) == k {
        PrintsItself(other);
        DecodeEncode(Lossy(other));
        InvalidIsReplaced(other);
        assert false;
      }
    }
  }

  // --------------------------------------------------------------------------
  // The memory estimate
  // --------------------------------------------------------------------------

  function KeyBytes(order: seq<Key>): nat {
    if order == [] then 0 else |order[0]| + KeyBytes(order[1..])
  }

  lemma {:induction false} KeyBytesSplit(a: seq<Key>, b: seq<Key>)
    ensures KeyBytes(a + b) == KeyBytes(a) + KeyBytes(b)
  {
    if a == [] {
      assert a + b == b;
    } else {
      assert (a + b)[1..] == a[1..] + b;
      KeyBytesSplit(a[1..], b);
    }
  }

  lemma {:induction false} MemoryIsSum(order: seq<Key>)
    ensures MemoryUsage(order) ==
            (8 + 40 * |order| + KeyBytes(order)) % 0x1_0000_0000_0000_0000
  {
    if order != [] {
      var init, last := order[..|order| - 1], order[|order| - 1];
      MemoryIsSum(init);
      KeyBytesSplit(init, [last]);
      assert order == init + [last];
    }
  }

  lemma WithoutOne(b: seq<Key>, i: nat) returns (rest: seq<Key>)
    requires i < |b| && Distinct(b)
    ensures Distinct(rest) && |rest| == |b| - 1 && KeyBytes(b) == |b[i]| + KeyBytes(rest)
    ensures forall k :: k in rest <==> k in b && k != b[i]
  {
    rest := b[..i] + b[i + 1..];
    var tail := [b[i]] + b[i + 1..];
    assert b == b[..i] + tail && tail[1..] == b[i + 1..];
    KeyBytesSplit(b[..i], tail);
    KeyBytesSplit(b[..i], b[i + 1..]);
    assert forall k :: k in b <==> k in b[..i] || k == b[i] || k in b[i + 1..];
  }

  lemma HasMember(b: seq<Key>)
    ensures b != [] ==> exists k :: k in b
  {
    if b != [] {
      assert b[0] in b;
    }
  }

  lemma {:induction false} SameKeysSameBytes(a: seq<Key>, b: seq<Key>)
    requires Distinct(a) && Distinct(b) && forall k :: k in a <==> k in b
    ensures |a| == |b| && KeyBytes(a) == KeyBytes(b)
    decreases |a|
  {
    hide KeyBytes;
    if a == [] {
      HasMember(b);
    } else {
      assert a[0] in b;
      var i :| 0 <= i < |b| && b[i] == a[0];
      var a' := WithoutOne(a, 0);
      var b' := WithoutOne(b, i);
      SameKeysSameBytes(a', b');
    }
  }

  /** The printed estimate does not depend on the order in which the map is visited. */
  lemma MemoryIsOrderIndependent<V>(a: seq<Key>, b: seq<Key>, items: map<Key, V>)
    requires IsIteration(a, items) && IsIteration(b, items)
    ensures MemoryUsage(a) == MemoryUsage(b)
  {
    forall k ensures k in a <==> k in b {
      assert k in a ==> k in items;
    }
    SameKeysSameBytes(a, b);
    MemoryIsSum(a);
    MemoryIsSum(b);
  }
}

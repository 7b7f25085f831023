/**
 The state file: the printer that walks the cache, the decoding of a parsed file, and the
 round trip between the two.
 */
module StateFile {
  import opened Wrappers
  import opened Utf8
  import opened Json
  import opened JsonStrings
  import opened Decimal
  import opened GoCache

  datatype PersistentEntry = PersistentEntry(value: bool, expiration: int64)

  datatype PersistentState = PersistentState(verified: map<Key, PersistentEntry>, memory: map<Key, nat>)

  const UINTPTR_RANGE: nat := 0x1_0000_0000_0000_0000

  // sizes that package reflect reports on a 64-bit platform
  const CACHE_ENTRY_MAP_SIZE: nat := 8
  const STRING_SIZE: nat := 16
  const LRU_ITEM_SIZE: nat := 24

  const VERIFIED := Ascii("verified")
  const MEMORY := Ascii("memory")
  const VALUE := Ascii("value")
  const EXPIRATION := Ascii("expiration")

  // the literal text between the variable parts
  const FILE_HEAD := Ascii("{\"verified\":")
  const FILE_MIDDLE := Ascii(",\"memory\":{\"verified\":")
  const FILE_TAIL := Ascii("}}")
  const ENTRY_HEAD := Ascii(":{\"value\":")
  const ENTRY_MIDDLE := Ascii(",\"expiration\":")

  // --------------------------------------------------------------------------
  // What is printed
  // --------------------------------------------------------------------------

  predicate AllBool(items: map<Key, Item>) {
    forall k :: k in items ==> items[k].stored.BoolValue?
  }

  /** `order` lists every key once: one way to iterate over the map. */
  ghost predicate IsIteration<V>(order: seq<Key>, items: map<Key, V>) {
    && (forall i :: 0 <= i < |order| ==> order[i] in items)
    && (forall k :: k in items ==> k in order)
    && Distinct(order)
  }

  ghost predicate Distinct(order: seq<Key>) {
    forall i, j :: 0 <= i < j < |order| ==> order[i] != order[j]
  }

  /** Every listed key is present and holds a boolean. */
  predicate Printable(order: seq<Key>, items: map<Key, Item>) {
    forall i :: 0 <= i < |order| ==> order[i] in items && items[order[i]].stored.BoolValue?
  }

  function BoolText(b: bool): seq<byte> {
    if b then Ascii("true") else Ascii("false")
  }

  function EntryText(key: Key, item: Item): seq<byte>
    requires item.stored.BoolValue?
  {
    JSONString(key) + ENTRY_HEAD + BoolText(item.stored.b)
    + ENTRY_MIDDLE + FormatInt(item.expiration) + [CLOSE_BRACE]
  }

  function Entries(order: seq<Key>, items: map<Key, Item>): seq<byte>
    requires Printable(order, items)
  {
    if order == [] then []
    else if |order| == 1 then EntryText(order[0], items[order[0]])
    else EntryText(order[0], items[order[0]]) + [COMMA] + Entries(order[1..], items)
  }

  function AddEntry(memoryUsage: nat, key: Key): nat {
    (memoryUsage + STRING_SIZE + LRU_ITEM_SIZE + |key|) % UINTPTR_RANGE
  }

  /** The memory estimate, which wraps like the `uintptr` it is kept in. */
  function MemoryUsage(order: seq<Key>): nat {
    if order == [] then CACHE_ENTRY_MAP_SIZE
    else
      AddEntry(MemoryUsage(order[..|order| - 1]), order[|order| - 1])
  }

  function StateText(order: seq<Key>, items: map<Key, Item>): seq<byte>
    requires Printable(order, items)
  {
    FILE_HEAD + ([OPEN_BRACE] + Entries(order, items) + [CLOSE_BRACE])
    + FILE_MIDDLE + FormatNat(MemoryUsage(order)) + FILE_TAIL
  }

  // --------------------------------------------------------------------------
  // The printer
  // --------------------------------------------------------------------------

  /** The buffered writer: once a write has failed, all later ones fail. */
  class Writer {
    var out: seq<byte>
    var failed: bool
    const sound: bool  // no write fails

    constructor (sound: bool)
      ensures out == [] && !failed && this.sound == sound
    {
      out, failed := [], false;
      this.sound := sound;
    }

    method Write(s: seq<byte>) returns (ok: bool)
      modifies this
      ensures ok <==> !failed
      ensures old(failed) ==> failed
      ensures sound ==> failed == old(failed)
      ensures ok ==> out == old(out) + s
    {
      var broken: bool := *;
      if failed || (broken && !sound) {
        failed := true;
        return false;
      }
      out := out + s;
      ok := true;
    }
  }

  lemma Concat3(s: seq<byte>, a: seq<byte>, b: seq<byte>, c: seq<byte>)
    ensures s + a + b + c == s + (a + b + c)
  {
  }

  lemma Concat6(s: seq<byte>, a: seq<byte>, b: seq<byte>, c: seq<byte>, d: seq<byte>, e: seq<byte>, f: seq<byte>)
    ensures s + a + b + c + d + e + f == s + (a + b + c + d + e + f)
  {
    Concat3(s, a, b, c);
    Concat3(s + (a + b + c), d, e, f);
    Concat3(a + b + c, d, e, f);
    Concat3(s, a + b + c, d + e + f, []);
  }

  method WriteJSONString(writer: Writer, value: seq<byte>) returns (ok: bool)
    modifies writer
    ensures ok <==> !writer.failed
    ensures old(writer.failed) ==> writer.failed
    ensures writer.sound ==> writer.failed == old(writer.failed)
    ensures ok ==> writer.out == old(writer.out) + JSONString(value)
  {
    hide Plain, Escaped;
    var plain := IsPlainJSONString(value);
    if !plain {
      ok := writer.Write([QUOTE] + Escaped(value) + [QUOTE]);
      return;
    }
    var start := writer.out;
    ok := writer.Write([QUOTE]);
    if ok {
      ok := writer.Write(value);
    }
    if ok {
      ok := writer.Write([QUOTE]);
    }
    Concat3(start, [QUOTE], value, [QUOTE]);
  }

  method WriteEntry(writer: Writer, key: Key, item: Item) returns (ok: bool)
    requires item.stored.BoolValue?
    modifies writer
    ensures ok <==> !writer.failed
    ensures old(writer.failed) ==> writer.failed
    ensures writer.sound ==> writer.failed == old(writer.failed)
    ensures ok ==> writer.out == old(writer.out) + EntryText(key, item)
  {
    hide JSONString, FormatInt, BoolText;
    var start := writer.out;
    ok := WriteJSONString(writer, key);
    if !ok { return; }
    ok := writer.Write(ENTRY_HEAD);
    if !ok { return; }
    ok := writer.Write(BoolText(item.stored.b));
    if !ok { return; }
    ok := writer.Write(ENTRY_MIDDLE);
    if !ok { return; }
    ok := writer.Write(FormatInt(item.expiration));
    if !ok { return; }
    ok := writer.Write([CLOSE_BRACE]);
    Concat6(start, JSONString(key), ENTRY_HEAD, BoolText(item.stored.b), ENTRY_MIDDLE,
            FormatInt(item.expiration), [CLOSE_BRACE]);
  }

  lemma {:induction false} EntriesAppend(order: seq<Key>, key: Key, items: map<Key, Item>)
    requires Printable(order, items) && key in items && items[key].stored.BoolValue?
    ensures Printable(order + [key], items)
    ensures Entries(order + [key], items) ==
            Entries(order, items) + (if order == [] then [] else [COMMA]) + EntryText(key, items[key])
  {
    hide EntryText;
    if order == [] {
      assert order + [key] == [key];
    } else {
      EntriesAppend(order[1..], key, items);
      assert (order + [key])[1..] == order[1..] + [key];
    }
  }

  lemma MemoryAppend(order: seq<Key>, key: Key)
    ensures MemoryUsage(order + [key]) == AddEntry(MemoryUsage(order), key)
  {
    assert (order + [key])[..|order|] == order;
  }

  /** `order` has visited exactly the keys that are not `left`, each once. */
  ghost predicate Visited(order: seq<Key>, items: map<Key, Item>, left: set<Key>) {
    && left <= items.Keys && Distinct(order) && Printable(order, items)
    && forall k :: k in items && k !in left <==> k in order
  }

  lemma VisitedStep(order: seq<Key>, items: map<Key, Item>, left: set<Key>, key: Key)
    requires Visited(order, items, left) && key in left && items[key].stored.BoolValue?
    ensures Visited(order + [key], items, left - {key})
  {
    assert forall i :: 0 <= i < |order| ==> order[i] in order;
  }

  lemma VisitedAll(order: seq<Key>, items: map<Key, Item>)
    requires Visited(order, items, {})
    ensures IsIteration(order, items) && AllBool(items)
  {
    forall k | k in items ensures items[k].stored.BoolValue? {
      assert k in order;
    }
  }

  /**
   Go visits a map in any order, so the loop takes an arbitrary key that is left. It fails
   exactly when a value is not a boolean or a write fails.
   */
  method WriteCacheEntryMap(writer: Writer, items: map<Key, Item>)
    returns (memoryUsage: nat, ok: bool, ghost order: seq<Key>)
    modifies writer
    ensures ok <==> AllBool(items) && !writer.failed
    ensures writer.sound ==> writer.failed == old(writer.failed)
    ensures ok ==> IsIteration(order, items) && Printable(order, items) && memoryUsage == MemoryUsage(order)
    ensures ok ==> writer.out == old(writer.out) + ([OPEN_BRACE] + Entries(order, items) + [CLOSE_BRACE])
  {
    hide EntryText, AddEntry;
    memoryUsage, order := CACHE_ENTRY_MAP_SIZE, [];
    ok := writer.Write([OPEN_BRACE]);
    if !ok {
      return;
    }
    ghost var start := writer.out;
    var first := true;
    var left := items.Keys;
    while left != {}
      invariant Visited(order, items, left) && !writer.failed && (writer.sound ==> !old(writer.failed))
      invariant first <==> order == []
      invariant memoryUsage == MemoryUsage(order)
      invariant writer.out == start + Entries(order, items)
      decreases left
    {
      var key :| key in left;
      var item := items[key];
      if !item.stored.BoolValue? {
        return memoryUsage, false, order;
      }
      ok := WriteSeparated(writer, first, key, item);
      if !ok {
        return;
      }
      first := false;
      memoryUsage := AddEntry(memoryUsage, key);

      EntriesAppend(order, key, items);
      MemoryAppend(order, key);
      VisitedStep(order, items, left, key);
      Concat3(start, Entries(order, items), if order == [] then [] else [COMMA], EntryText(key, item));
      order := order + [key];
      left := left - {key};
    }
    VisitedAll(order, items);
    ok := writer.Write([CLOSE_BRACE]);
    Concat3(old(writer.out), [OPEN_BRACE], Entries(order, items), [CLOSE_BRACE]);
  }

  /** One turn of the loop: a comma unless the entry is the first, then the entry. */
  method WriteSeparated(writer: Writer, first: bool, key: Key, item: Item) returns (ok: bool)
    requires item.stored.BoolValue?
    modifies writer
    ensures ok <==> !writer.failed
    ensures old(writer.failed) ==> writer.failed
    ensures writer.sound ==> writer.failed == old(writer.failed)
    ensures ok ==> writer.out == old(writer.out) + (if first then [] else [COMMA]) + EntryText(key, item)
  {
    hide EntryText;
    if !first {
      ok := writer.Write([COMMA]);
      if !ok {
        return;
      }
    }
    ok := WriteEntry(writer, key, item);
    assert old(writer.out) + [] == old(writer.out);
  }

  /** `writeStateJSON` fails exactly when a value has an unexpected type or a write fails. */
  method WriteStateJSON(writer: Writer, verifiedItems: map<Key, Item>) returns (ok: bool, ghost order: seq<Key>)
    modifies writer
    ensures ok <==> AllBool(verifiedItems) && !writer.failed
    ensures writer.sound ==> writer.failed == old(writer.failed)
    ensures ok ==> IsIteration(order, verifiedItems) && Printable(order, verifiedItems)
    ensures ok ==> writer.out == old(writer.out) + StateText(order, verifiedItems)
  {
    hide Entries, MemoryUsage, FormatNat, IsIteration;
    order := [];
    var start := writer.out;
    ok := writer.Write(FILE_HEAD);
    if !ok { return; }
    var memory;
    memory, ok, order := WriteCacheEntryMap(writer, verifiedItems);
    if !ok { return; }
    ok := writer.Write(FILE_MIDDLE);
    if !ok { return; }
    ok := writer.Write(FormatNat(memory));
    if !ok { return; }
    ok := writer.Write(FILE_TAIL);
    ghost var body := [OPEN_BRACE] + Entries(order, verifiedItems) + [CLOSE_BRACE];
    Concat6(start, FILE_HEAD, body, FILE_MIDDLE, FormatNat(memory), FILE_TAIL, []);
  }

  // --------------------------------------------------------------------------
  // What `json.Unmarshal` makes of a parsed file
  // --------------------------------------------------------------------------

  type Members = seq<(seq<rune>, JSON)>

  function ToInt64(v: JSON): Option<int64> {
    if !v.Number? then None
    else
      var n := ParseInt(v.literal);
      if n.Some? && -0x8000_0000_0000_0000 <= n.value < 0x8000_0000_0000_0000 then Some(n.value) else None
  }

  function ToUintptr(v: JSON): Option<nat> {
    if !v.Number? then None
    else
      var n := ParseInt(v.literal);
      if n.Some? && v.literal != [] && v.literal[0] != MINUS && 0 <= n.value < UINTPTR_RANGE
      then Some(n.value) else None
  }

  /** Field names match whatever the case of their letters; the four that are used have no k and no s. */
  predicate IsField(name: seq<rune>, field: seq<byte>) {
    |name| == |field| && forall i :: 0 <= i < |name| ==> LowerCase(name[i]) == field[i]
  }

  function LowerCase(r: rune): rune {
    if 0x41 <= r <= 0x5A then r + 0x20 else r
  }

  /** The fields of one entry, in order, over the values read so far; `null` changes none of them. */
  function DecodeEntry(ms: Members, acc: PersistentEntry): Option<PersistentEntry> {
    if ms == [] then Some(acc)
    else
      var (name, v) := ms[0];
      if v.Null? then DecodeEntry(ms[1..], acc)
      else if IsField(name, VALUE) then
        if v.Bool? then DecodeEntry(ms[1..], acc.(value := v.b)) else None
      else if IsField(name, EXPIRATION) then
        if ToInt64(v).Some? then DecodeEntry(ms[1..], acc.(expiration := ToInt64(v).value)) else None
      else DecodeEntry(ms[1..], acc)
  }

  /** A later member replaces an earlier one of the same name; `null` stands for an empty entry. */
  function DecodeEntries(ms: Members, acc: map<Key, PersistentEntry>): Option<map<Key, PersistentEntry>> {
    if ms == [] then Some(acc)
    else
      var (name, v) := ms[0];
      var entry :=
        if v.Null? then Some(PersistentEntry(false, 0))
        else if v.Object? then DecodeEntry(v.members, PersistentEntry(false, 0))
        else None;
      if entry.None? then None else DecodeEntries(ms[1..], acc[Encode(name) := entry.value])
  }

  function DecodeMemory(ms: Members, acc: map<Key, nat>): Option<map<Key, nat>> {
    if ms == [] then Some(acc)
    else
      var (name, v) := ms[0];
      var n := if v.Null? then Some(0) else ToUintptr(v);
      if n.None? then None else DecodeMemory(ms[1..], acc[Encode(name) := n.value])
  }

  /** The fields of the file; a second map of the same name is merged into the first, `null` empties it. */
  function DecodeFields(ms: Members, acc: PersistentState): Option<PersistentState> {
    if ms == [] then Some(acc)
    else
      var (name, v) := ms[0];
      if IsField(name, VERIFIED) then
        var entries :=
          if v.Null? then Some(map[]) else if v.Object? then DecodeEntries(v.members, acc.verified) else None;
        if entries.None? then None else DecodeFields(ms[1..], acc.(verified := entries.value))
      else if IsField(name, MEMORY) then
        var memory :=
          if v.Null? then Some(map[]) else if v.Object? then DecodeMemory(v.members, acc.memory) else None;
        if memory.None? then None else DecodeFields(ms[1..], acc.(memory := memory.value))
      else DecodeFields(ms[1..], acc)
  }

  /** `json.Unmarshal` into an empty state; `None` is an error. */
  function Unmarshal(content: seq<byte>): Option<PersistentState> {
    var v := Parse(content);
    if v.None? then None
    else if v.value.Null? then Some(PersistentState(map[], map[]))
    else if !v.value.Object? then None
    else DecodeFields(v.value.members, PersistentState(map[], map[]))
  }
}

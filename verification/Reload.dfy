/**
 Loading the state file: expirations go from absolute time to a duration and back to
 absolute time, and expired entries are dropped on the way.
 */
module Reload {
  import opened Wrappers
  import opened Utf8
  import opened GoCache
  import opened StateFile
  import opened StateRoundTrip
  import opened BrokenFiles
  import FileLock
  import LockProtocol

  const MAX_INT64: int := 0x7FFF_FFFF_FFFF_FFFF
  const MIN_INT64: int := -0x8000_0000_0000_0000

  function CalculateDuration(expiration: int64, now: int): int64 {
    if expiration == 0 then NO_EXPIRATION else Wrap64(expiration - now)
  }

  /** The test both loaders apply to an entry. */
  predicate Kept(expiration: int64, now: int) {
    !(0 < expiration <= now)
  }

  /** The recorded expiration is the saved one, late by no more than the load took. */
  ghost predicate Shifted(saved: int64, recorded: int64, now: int, end: int) {
    if saved > 0 then saved + (end - now) <= MAX_INT64 ==> saved <= recorded <= saved + (end - now)
    else saved - now >= MIN_INT64 ==> recorded == 0
  }

  /** A live entry is in the cache; without one the cache has under the key what it had before. */
  ghost predicate LoadedKey(entries: map<Key, PersistentEntry>, before: map<Key, Item>, after: map<Key, Item>,
                            now: int, end: int, k: Key) {
    if k in entries && Kept(entries[k].expiration, now) then
      && k in after && after[k].stored == BoolValue(entries[k].value)
      && Shifted(entries[k].expiration, after[k].expiration, now, end)
    else
      (k in after <==> k in before) && (k in after ==> after[k] == before[k])
  }

  /** `after` is `before` with the live entries loaded between the times `now` and `end`. */
  ghost predicate Loaded(entries: map<Key, PersistentEntry>, before: map<Key, Item>, after: map<Key, Item>,
                         now: int, end: int) {
    forall k :: LoadedKey(entries, before, after, now, end, k)
  }

  /** What a load comes to, in numbers. */
  lemma LoadedExactly(entries: map<Key, PersistentEntry>, before: map<Key, Item>, after: map<Key, Item>,
                      now: int, end: int, k: Key)
    requires 0 <= now <= end && Loaded(entries, before, after, now, end)
    ensures k in entries && (entries[k].expiration <= 0 || now < entries[k].expiration) ==>
              && k in after && after[k].stored == BoolValue(entries[k].value)
              && (0 < entries[k].expiration && entries[k].expiration + (end - now) <= 0x7FFF_FFFF_FFFF_FFFF ==>
                    entries[k].expiration <= after[k].expiration <= entries[k].expiration + (end - now))
              && (entries[k].expiration == 0 && now <= 0x7FFF_FFFF_FFFF_FFFF ==> after[k].expiration == 0)
    ensures !(k in entries && (entries[k].expiration <= 0 || now < entries[k].expiration)) ==>
              (k in after <==> k in before) && (k in after ==> after[k] == before[k])
  {
    assert LoadedKey(entries, before, after, now, end, k);
  }

  /** The durations handed to `Set` never hit a sentinel by accident. */
  lemma DurationIsNoSentinel(expiration: int64, now: int)
    requires 0 <= now <= MAX_INT64 && expiration >= 0 && Kept(expiration, now)
    ensures var d := CalculateDuration(expiration, now);
            if expiration == 0 then d == NO_EXPIRATION else d == expiration - now && d > 0
  {
  }

  lemma SetIsShifted(saved: int64, now: int, at: int, end: int, default: int64)
    requires 0 <= now <= at <= end <= MAX_INT64 && Kept(saved, now)
    ensures Shifted(saved, ExpirationOf(at, CalculateDuration(saved, now), default), now, end)
  {
  }

  method LoadPersistentBoolEntries(entries: map<Key, PersistentEntry>, cache: Cache, clock: Clock)
    returns (now: int)
    requires clock.time >= 0
    modifies cache, clock
    ensures old(clock.time) <= now <= clock.time
    ensures clock.time <= MAX_INT64 ==> Loaded(entries, old(cache.items), cache.items, now, clock.time)
  {
    now := clock.Now();
    var left := entries.Keys;
    while left != {}
      invariant left <= entries.Keys && now <= clock.time
      invariant clock.time <= MAX_INT64 ==>
                  Loaded(entries - left, old(cache.items), cache.items, now, clock.time)
      decreases left
    {
      var key :| key in left;
      var entry := entries[key];
      ghost var before, start := cache.items, clock.time;
      if Kept(entry.expiration, now) {
        cache.Set(clock, key, BoolValue(entry.value), CalculateDuration(entry.expiration, now));
        if clock.time <= MAX_INT64 {
          SetIsShifted(entry.expiration, now, clock.time, clock.time, cache.defaultExpiration);
          LoadedStep(entries - left, old(cache.items), before, cache.items, now, start, clock.time, key, entry);
        }
      } else if clock.time <= MAX_INT64 {
        SkippedStep(entries - left, old(cache.items), cache.items, now, clock.time, key, entry);
      }
      assert entries - (left - {key}) == (entries - left)[key := entry];
      left := left - {key};
    }
    assert entries - {} == entries;
  }

  lemma LoadedStep(done: map<Key, PersistentEntry>, before: map<Key, Item>, middle: map<Key, Item>,
                   after: map<Key, Item>, now: int, start: int, end: int, key: Key, entry: PersistentEntry)
    requires Loaded(done, before, middle, now, start) && start <= end
    requires Kept(entry.expiration, now) && key in after && after == middle[key := after[key]]
    requires after[key].stored == BoolValue(entry.value)
    requires Shifted(entry.expiration, after[key].expiration, now, end)
    ensures Loaded(done[key := entry], before, after, now, end)
  {
    var done' := done[key := entry];
    forall k ensures LoadedKey(done', before, after, now, end, k) {
      assert LoadedKey(done, before, middle, now, start, k);
    }
  }

  lemma SkippedStep(done: map<Key, PersistentEntry>, before: map<Key, Item>, after: map<Key, Item>,
                    now: int, end: int, key: Key, entry: PersistentEntry)
    requires Loaded(done, before, after, now, end) && key !in done && !Kept(entry.expiration, now)
    ensures Loaded(done[key := entry], before, after, now, end)
  {
    var done' := done[key := entry];
    forall k ensures LoadedKey(done', before, after, now, end, k) {
      assert LoadedKey(done, before, after, now, end, k);
    }
  }

  /** An entry of the in-memory `State`, whose value may have any type. */
  datatype CacheEntry = CacheEntry(value: Value, expiration: int64)

  function ConvertBoolValue(v: Value): Option<bool> {
    if v.BoolValue? then Some(v.b) else None
  }

  ghost function BoolEntries(entries: map<Key, CacheEntry>): map<Key, PersistentEntry> {
    map k | k in entries && entries[k].value.BoolValue? :: PersistentEntry(entries[k].value.b, entries[k].expiration)
  }

  /** The loader behind `SetState`: like the other one on the entries that convert. */
  method LoadCacheEntries(entries: map<Key, CacheEntry>, cache: Cache, clock: Clock) returns (now: int)
    requires clock.time >= 0
    modifies cache, clock
    ensures old(clock.time) <= now <= clock.time
    ensures clock.time <= MAX_INT64 ==> Loaded(BoolEntries(entries), old(cache.items), cache.items, now, clock.time)
  {
    now := clock.Now();
    var left := entries.Keys;
    while left != {}
      invariant left <= entries.Keys && now <= clock.time
      invariant clock.time <= MAX_INT64 ==>
                  Loaded(BoolEntries(entries - left), old(cache.items), cache.items, now, clock.time)
      decreases left
    {
      var key :| key in left;
      var entry := entries[key];
      ghost var before, start := cache.items, clock.time;
      ghost var done := BoolEntries(entries - left);
      assert BoolEntries(entries - (left - {key})) ==
             if entry.value.BoolValue? then done[key := PersistentEntry(entry.value.b, entry.expiration)] else done;
      left := left - {key};
      if !Kept(entry.expiration, now) {
        if entry.value.BoolValue? && clock.time <= MAX_INT64 {
          SkippedStep(done, old(cache.items), cache.items, now, clock.time, key,
                      PersistentEntry(entry.value.b, entry.expiration));
        }
        continue;
      }
      var value := ConvertBoolValue(entry.value);
      if value.None? {
        continue;
      }
      cache.Set(clock, key, BoolValue(value.value), CalculateDuration(entry.expiration, now));
      if clock.time <= MAX_INT64 {
        SetIsShifted(entry.expiration, now, clock.time, clock.time, cache.defaultExpiration);
        LoadedStep(done, old(cache.items), before, cache.items, now, start, clock.time, key,
                   PersistentEntry(value.value, entry.expiration));
      }
    }
    assert entries - {} == entries;
  }

  /** `Waiting` stands for a Lock that has not returned yet. */
  datatype LoadError = Waiting | NotLocked | ReadFailed | BadContent

  /** `LoadStateFromFile`; `content` is what it reads once it has the lock, `None` if that fails. */
  method LoadStateFromFile(locks: FileLock.LockDir, p: LockProtocol.Attempt, rounds: nat,
                           content: Option<seq<byte>>, cache: Cache, clock: Clock)
    returns (error: Option<LoadError>, now: int)
    requires clock.time >= 0 && locks.Valid() && locks.At(p, LockProtocol.NotStarted)
    modifies locks, cache, clock
    ensures p in locks.state.held <==> error != Some(Waiting) && error != Some(NotLocked)
    ensures old(locks.Quiet()) && rounds >= FileLock.QUIET_ROUNDS ==>
              && error != Some(Waiting) && (error == Some(NotLocked) <==> !FileLock.WillLock(old(locks.state)))
              && locks.Quiet() && FileLock.OthersRest(old(locks.state), locks.state, p)
              && locks.state.guard == old(locks.state).guard
              && old(locks.state).now <= locks.state.now <= old(locks.state).now + LockProtocol.LOCK_TIMEOUT
              && locks.state.lock == (if error == Some(NotLocked)
                                      then FileLock.Released(old(locks.state), locks.owners[p]).lock else None)
    ensures locks.Valid() && locks.At(p, if error == Some(Waiting) then LockProtocol.Trying else LockProtocol.Done)
    ensures old(clock.time) <= now <= clock.time
    ensures error.Some? || content == Some([]) ==> cache.items == old(cache.items)
    ensures p in locks.state.held && content.Some? && content.value != [] && Broken(content.value) ==>
              error == Some(BadContent)
    ensures error == Some(ReadFailed) ==> content.None?
    ensures error == Some(BadContent) ==>
              content.Some? && content.value != [] && Unmarshal(content.value).None?
    ensures error.None? ==> content.Some? && (content.value == [] || Unmarshal(content.value).Some?)
    ensures error.None? && content.value != [] && clock.time <= MAX_INT64 ==>
              Loaded(Unmarshal(content.value).value.verified, old(cache.items), cache.items, now, clock.time)
  {
    hide Loaded, Unmarshal, Broken, LockProtocol.Run, LockProtocol.After, LockProtocol.Initial;
    hide FileLock.OthersRest, FileLock.WillLock, FileLock.Continues, FileLock.UnlockFailed;
    now := clock.time;
    ghost var s0 := locks.state;
    var locked := FileLock.Lock(locks, p, rounds);
    ghost var s1 := locks.state;
    if locked.Unfinished? {
      return Some(Waiting), now;
    }
    if locked.LockFailed? {
      error := Some(NotLocked);
    } else {
      error, now := LoadContent(locks, p, content, cache, clock);
    }
    var _ := FileLock.Close(locks, p);
    FileLock.Chain([], [], [], s0, s1, locks.state, p);
  }

  /** The part of it that runs under the lock. */
  method LoadContent(locks: FileLock.LockDir, p: LockProtocol.Attempt,
                     content: Option<seq<byte>>, cache: Cache, clock: Clock)
    returns (error: Option<LoadError>, now: int)
    requires clock.time >= 0 && locks.Valid() && locks.At(p, LockProtocol.Holding)
    modifies cache, clock
    ensures old(clock.time) <= now <= clock.time
    ensures error != Some(Waiting) && error != Some(NotLocked)
    ensures error == Some(ReadFailed) <==> content.None?
    ensures error == Some(BadContent) <==> content.Some? && content.value != [] && Unmarshal(content.value).None?
    ensures content.Some? && content.value != [] && Broken(content.value) ==> error == Some(BadContent)
    ensures error.Some? || content.value == [] ==> cache.items == old(cache.items)
    ensures error.None? && content.value != [] && clock.time <= MAX_INT64 ==>
              Loaded(Unmarshal(content.value).value.verified, old(cache.items), cache.items, now, clock.time)
  {
    now := clock.time;
    if content.None? {
      return Some(ReadFailed), now;
    }
    if |content.value| == 0 {
      return None, now;
    }
    if Broken(content.value) {
      BrokenFails(content.value);
    }
    hide Broken;
    var loadedState := Unmarshal(content.value);
    if loadedState.None? {
      return Some(BadContent), now;
    }
    now := LoadPersistentBoolEntries(loadedState.value.verified, cache, clock);
    error := None;
  }

  // --------------------------------------------------------------------------
  // Restart transparency
  // --------------------------------------------------------------------------

  /** If there is an entry under the key, its expiration leaves room for the time that passes. */
  ghost predicate Plausible(items: map<Key, Item>, k: Key, elapsed: int) {
    k in items ==> items[k].stored.BoolValue? && 0 <= items[k].expiration <= MAX_INT64 - elapsed
  }

  /** The entries have under the key what the cache has. */
  ghost predicate SameEntry(items: map<Key, Item>, entries: map<Key, PersistentEntry>, k: Key) {
    && (k in entries <==> k in items)
    && (k in items ==> items[k].stored.BoolValue? && entries[k] == EntryOf(items[k]))
  }

  /**
   The load keeps what the original cache would still serve at that instant, but for the
   entries that expire in that very nanosecond.
   */
  lemma LoadKeepsWhatIsServed(items: map<Key, Item>, k: Key, now: int)
    requires k in items && items[k].expiration >= 0 && now > 0
    ensures Kept(items[k].expiration, now) <==> Lookup(items, k, now).Some? && items[k].expiration != now
    ensures Kept(items[k].expiration, now) <==> items[k].expiration == 0 || items[k].expiration > now
  {
  }

  /**
   After a restart every later answer for a key is the answer of the original cache, read
   earlier by a fixed delay that is no longer than the load took.
   */
  lemma RestartTransparent(items: map<Key, Item>, entries: map<Key, PersistentEntry>, after: map<Key, Item>,
                           now: int, end: int, k: Key)
    returns (delay: int)
    requires 0 <= now <= end <= MAX_INT64 && Plausible(items, k, end - now)
    requires SameEntry(items, entries, k) && LoadedKey(entries, map[], after, now, end, k)
    ensures 0 <= delay <= end - now
    ensures forall t :: t > end ==> Lookup(after, k, t) == Lookup(items, k, t - delay)
    ensures Lookup(after, k, end) == Lookup(items, k, end - delay)
            <==> !(k in items && items[k].expiration == now && now > 0 && delay == end - now)
  {
    delay := 0;
    assert k in after ==> k in items;
    if k in items {
      assert k in after <==> Kept(items[k].expiration, now);
      if k in after && items[k].expiration > 0 {
        delay := after[k].expiration - items[k].expiration;
      }
    }
  }

  /** From the cache through the bytes of the file to the next process, whatever the other keys are. */
  lemma SavedFileRestarts(order: seq<Key>, items: map<Key, Item>, after: map<Key, Item>, now: int, end: int, k: Key)
    returns (delay: int)
    requires AllBool(items) && IsIteration(order, items) && Printable(order, items)
    requires Distinguished(items, k) && (k in items ==> Valid(k))
    requires 0 <= now <= end <= MAX_INT64 && Plausible(items, k, end - now)
    requires Unmarshal(StateText(order, items)).Some? ==>
               Loaded(Unmarshal(StateText(order, items)).value.verified, map[], after, now, end)
    ensures 0 <= delay <= end - now
    ensures forall t :: t > end ==> Lookup(after, k, t) == Lookup(items, k, t - delay)
  {
    hide StateText, Unmarshal, Lookup;
    KeyReadsBack(order, items, k);
    delay := RestartTransparent(items, Unmarshal(StateText(order, items)).value.verified, after, now, end, k);
  }

  lemma VisitedNone(items: map<Key, Item>)
    ensures Visited([], items, items.Keys)
  {
  }

  /**
   The copy made for the statistics page: the same entries as the state file, and the same
   memory estimate. It panics on a value that is not a boolean.
   */
  method GetCacheEntries(items: map<Key, Item>)
    returns (entries: map<Key, CacheEntry>, memoryUsage: nat, ghost order: seq<Key>)
    requires AllBool(items)
    ensures BoolEntries(entries) == Snapshot(items) && entries.Keys == items.Keys
    ensures IsIteration(order, items) && memoryUsage == MemoryUsage(order)
  {
    entries, memoryUsage, order := map[], CACHE_ENTRY_MAP_SIZE, [];
    assert memoryUsage == MemoryUsage(order);
    hide MemoryUsage, AddEntry, Visited, Snapshot, BoolEntries, IsIteration;
    VisitedNone(items);
    var left := items.Keys;
    while left != {}
      invariant left <= items.Keys && Visited(order, items, left)
      invariant entries.Keys == items.Keys - left
      invariant forall k :: k in entries ==> entries[k] == CacheEntry(items[k].stored, items[k].expiration)
      invariant memoryUsage == MemoryUsage(order)
      decreases left
    {
      var key :| key in left;
      entries := entries[key := CacheEntry(items[key].stored, items[key].expiration)];
      memoryUsage := AddEntry(memoryUsage, key);
      MemoryAppend(order, key);
      VisitedStep(order, items, left, key);
      order := order + [key];
      left := left - {key};
    }
    VisitedAll(order, items);
    SameSnapshot(items, entries);
  }

  lemma SameSnapshot(items: map<Key, Item>, entries: map<Key, CacheEntry>)
    requires AllBool(items) && entries.Keys == items.Keys
    requires forall k :: k in entries ==> entries[k] == CacheEntry(items[k].stored, items[k].expiration)
    ensures BoolEntries(entries) == Snapshot(items)
  {
  }
}

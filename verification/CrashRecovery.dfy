/**
 The promise of the persistence core as a whole: however far a run has come and wherever a save
 is interrupted, a process that gets to load the file afterwards has every change that was
 counted as saved.
 */
module CrashRecovery {
  import opened Wrappers
  import opened Utf8
  import opened GoCache
  import opened Counters
  import opened StateFile
  import opened StateRoundTrip
  import opened Reload
  import opened StateKeeper
  import FileLock
  import LockProtocol
  import SP = SaveProtocol

  /** The snapshot on its way and the file of this process were taken no later than now. */
  ghost predicate TimesOk(s: SP.SaveState) {
    && (s.saver.SnapshotTaken? ==> s.saver.snapshot.at <= s.now)
    && (s.file.Some? ==> s.file.value.at <= s.now)
  }

  /** Every file is a snapshot of the run, taken no later than now. */
  ghost predicate FilesOk(s: SP.SaveState) {
    && TimesOk(s)
    && (s.file.Some? ==> SP.Reflects(s.file.value, s.log, s.loaded))
    && (s.saver.FileReplaced? ==> s.file.Some?)
  }

  lemma FilesStep(s: SP.SaveState, a: SP.Action)
    requires SP.Inv(s) && FilesOk(s) && SP.Enabled(s, a)
    ensures FilesOk(SP.Apply(s, a))
  {
    if a.HandlerSet? && s.file.Some? {
      SP.ReflectsGrows(s.file.value, s.log, s.loaded, (a.key, a.item));
    }
    hide SP.Reflects;
  }

  lemma {:induction false} FilesAlong(s: SP.SaveState, actions: seq<SP.Action>)
    requires SP.Inv(s) && FilesOk(s) && SP.Run(s, actions)
    ensures FilesOk(SP.After(s, actions)) && SP.Inv(SP.After(s, actions))
    ensures SP.After(s, actions).loaded == s.loaded && s.now <= SP.After(s, actions).now
    decreases |actions|
  {
    if actions != [] {
      FilesStep(s, actions[0]);
      SP.InvStep(s, actions[0]);
      FilesAlong(SP.Apply(s, actions[0]), actions[1..]);
    }
  }

  /**
   A key the file can tell from all others: valid UTF-8, and no other key the process has
   loaded or set is read back as it.
   */
  ghost predicate KeyOk(s: SP.SaveState, k: Key) {
    && Valid(k) && Distinguished(s.loaded, k)
    && forall i :: 0 <= i < |s.log| && s.log[i].0 != k ==> PrintsAs(s.log[i].0) != k
  }

  /** A valid key without U+FFFD can always be told. */
  lemma PlainKeyOk(s: SP.SaveState, k: Key)
    requires Valid(k) && 0xFFFD !in Decode(k).value
    ensures KeyOk(s, k)
  {
    hide Valid, Distinguished;
    OnlyReplacementIsConfused(s.loaded, k);
    forall i | 0 <= i < |s.log| && s.log[i].0 != k ensures PrintsAs(s.log[i].0) != k {
      var one := map[s.log[i].0 := s.log[i].1];
      OnlyReplacementIsConfused(one, k);
      NotConfused(one, s.log[i].0, k);
    }
  }

  lemma NotConfused(items: map<Key, Item>, other: Key, k: Key)
    requires Distinguished(items, k) && other in items && other != k
    ensures PrintsAs(other) != k
  {
  }

  lemma {:induction false} LastSetOrNever(log: seq<(Key, Item)>, n: nat, k: Key) returns (l: Option<nat>)
    requires n <= |log|
    ensures if l.Some? then SP.IsLast(log, n, k, l.value) else SP.NeverSet(log, n, k)
  {
    if n == 0 {
      l := None;
    } else if log[n - 1].0 == k {
      l := Some(n - 1);
    } else {
      l := LastSetOrNever(log, n - 1, k);
    }
  }

  lemma SnapshotKeysAreTold(s: SP.SaveState, snapshot: SP.Snapshot, k: Key)
    requires KeyOk(s, k) && SP.Reflects(snapshot, s.log, s.loaded)
    ensures Distinguished(snapshot.items, k)
  {
    hide PrintsAs, Valid;
    forall other | other in snapshot.items && other != k ensures PrintsAs(other) != k {
      var l := LastSetOrNever(s.log, snapshot.sets, other);
      if l.Some? {
        assert s.log[l.value].0 == other;
      } else {
        assert other in s.loaded;
      }
    }
  }

  /** The content has the item under the key, or the item has expired by this time. */
  ghost predicate Holds(content: Option<seq<byte>>, k: Key, item: Item, t: int) {
    || 0 < item.expiration <= t
    || (&& content.Some? && Unmarshal(content.value).Some? && k in Unmarshal(content.value).value.verified
        && item.stored == BoolValue(Unmarshal(content.value).value.verified[k].value)
        && Unmarshal(content.value).value.verified[k].expiration == item.expiration)
  }

  /** What a save wrote loads. */
  lemma SaveIsReadable(content: Option<seq<byte>>, items: map<Key, Item>)
    requires IsSaveOf(content, items)
    ensures content.Some? && content.value != [] && Unmarshal(content.value).Some? && AllBool(items)
  {
    hide Unmarshal, Entries, MemoryUsage, Decoded;
    var order :| IsIteration(order, items) && Printable(order, items) && content.value == StateText(order, items);
    FileDecodes(order, items);
    assert |FILE_HEAD| > 0;
    forall k | k in items ensures items[k].stored.BoolValue? {
      assert k in order;
    }
  }

  /** What a save wrote for one key. */
  lemma SaveKeepsKey(content: Option<seq<byte>>, items: map<Key, Item>, k: Key)
    requires IsSaveOf(content, items) && Distinguished(items, k) && Valid(k)
    ensures content.Some? && Unmarshal(content.value).Some? && AllBool(items)
    ensures SameEntry(items, Unmarshal(content.value).value.verified, k)
  {
    hide StateText, Unmarshal, Printable, IsIteration, Distinguished, Valid;
    SaveIsReadable(content, items);
    var order :| IsIteration(order, items) && Printable(order, items) && content.value == StateText(order, items);
    KeyReadsBack(order, items, k);
  }

  /** A snapshot of the run, once written, holds the last word on every key that can be told. */
  lemma SnapshotHolds(s: SP.SaveState, snapshot: SP.Snapshot, content: Option<seq<byte>>, k: Key, t: int)
    requires SP.Reflects(snapshot, s.log, s.loaded) && snapshot.at <= t
    requires IsSaveOf(content, snapshot.items) && KeyOk(s, k)
    ensures forall l: nat :: SP.IsLast(s.log, snapshot.sets, k, l) ==> Holds(content, k, s.log[l].1, t)
    ensures SP.NeverSet(s.log, snapshot.sets, k) && k in s.loaded ==> Holds(content, k, s.loaded[k], t)
  {
    hide Unmarshal, IsSaveOf, Valid, Distinguished;
    SnapshotKeysAreTold(s, snapshot, k);
    SaveKeepsKey(content, snapshot.items, k);
    forall l: nat | SP.IsLast(s.log, snapshot.sets, k, l) ensures Holds(content, k, s.log[l].1, t) {
      assert SP.HasOrExpired(snapshot.items, k, s.log[l].1, snapshot.at);
    }
  }

  /** The last word of a Set is back after the load, or it has expired. */
  ghost predicate Reloads(key: Key, item: Item, after: map<Key, Item>, now: int, end: int) {
    || !Kept(item.expiration, now)
    || (key in after && after[key].stored == item.stored && Shifted(item.expiration, after[key].expiration, now, end))
  }

  lemma HeldReloads(content: Option<seq<byte>>, k: Key, item: Item, t: int, after: map<Key, Item>, now: int, end: int)
    requires Holds(content, k, item, t) && t <= now && content.Some? && Unmarshal(content.value).Some?
    requires LoadedKey(Unmarshal(content.value).value.verified, map[], after, now, end, k)
    ensures Reloads(k, item, after, now, end)
  {
    hide Unmarshal;
  }

  /** A change is back after the load, or a later one for its key is, or that one had expired. */
  ghost predicate Recovered(log: seq<(Key, Item)>, i: nat, after: map<Key, Item>, now: int, end: int)
    requires i < |log|
  {
    exists l: nat :: i <= l < |log| && log[l].0 == log[i].0 && Reloads(log[l].0, log[l].1, after, now, end)
  }

  /** Every change counted as saved is recovered, if its key can be told. */
  ghost predicate AllSavedRecovered(s: SP.SaveState, after: map<Key, Item>, now: int, end: int) {
    forall i :: 0 <= i < s.stateSavedDirty ==> MarkRecovered(s, i, after, now, end)
  }

  ghost predicate MarkRecovered(s: SP.SaveState, i: nat, after: map<Key, Item>, now: int, end: int) {
    && i < |s.marks| && s.marks[i] < |s.log|
    && (KeyOk(s, s.log[s.marks[i]].0) ==> Recovered(s.log, s.marks[i], after, now, end))
  }

  /** Which snapshot of the run a content is the file of. */
  lemma WhichSnapshot(s: SP.SaveState, start: Option<seq<byte>>, content: Option<seq<byte>>)
    returns (snapshot: Option<SP.Snapshot>)
    requires SP.Inv(s) && FilesOk(s) && CrashContent(s, start, content)
    ensures snapshot.None? ==> s.file.None? && content == start
    ensures snapshot.Some? ==>
              && SP.Reflects(snapshot.value, s.log, s.loaded) && snapshot.value.at <= s.now
              && IsSaveOf(content, snapshot.value.items) && SP.Covers(snapshot.value, s.marks, s.saved)
              && snapshot.value.sets <= |s.log|
  {
    hide IsSaveOf;
    if OnDisk(s.file, start, content) {
      snapshot := s.file;
    } else {
      snapshot := Some(s.saver.snapshot);
    }
  }

  /** Every change counted as saved is held by any content a crash may leave. */
  lemma SavedIsHeld(init: SP.SaveState, actions: seq<SP.Action>, start: Option<seq<byte>>, content: Option<seq<byte>>,
                    i: nat) returns (l: nat)
    requires SP.Initial(init) && init.file.None? && SP.Run(init, actions)
    requires |SP.After(init, actions).marks| < UINT64_RANGE
    requires var s := SP.After(init, actions); CrashContent(s, start, content) && i < s.stateSavedDirty
    ensures var s := SP.After(init, actions);
            && i < |s.marks| && s.marks[i] <= l < |s.log| && s.log[l].0 == s.log[s.marks[i]].0
            && (KeyOk(s, s.log[l].0) ==> Holds(content, s.log[l].0, s.log[l].1, s.now))
    ensures content.Some? && content.value != [] && Unmarshal(content.value).Some?
  {
    hide SP.After, SP.Run, KeyOk, Holds, IsSaveOf, Unmarshal, CrashContent, SP.Reflects;
    var s := SP.After(init, actions);
    SP.NoLostUpdate(init, actions);
    SP.InitialInv(init);
    FilesAlong(init, actions);
    var snapshot := WhichSnapshot(s, start, content);
    l := SP.LastSet(s.log, snapshot.value.sets, s.marks[i]);
    SaveIsReadable(content, snapshot.value.items);
    if KeyOk(s, s.log[l].0) {
      SnapshotHolds(s, snapshot.value, content, s.log[l].0, s.now);
    }
  }

  /**
   Nothing saved is lost: stop a run anywhere, take any content the disk can have there, and let
   a new process load it. If it gets the lock, every change numbered at most the saved counter
   (under a key that can be told) is back with its value and its expiration, late by no more
   than the load took, or superseded by a later change that is, or expired. If it does not, it
   starts empty. Where nobody else acts and nothing fails, it gets the lock exactly when the
   lock path is free, or its file is old enough to go stale before the attempt gives up.
   */
  method Restart(ghost init: SP.SaveState, ghost actions: seq<SP.Action>, ghost start: Option<seq<byte>>,
                 locks: FileLock.LockDir, p: LockProtocol.Attempt, rounds: nat, content: Option<seq<byte>>,
                 cache: Cache, clock: Clock)
    returns (error: Option<LoadError>, now: int)
    requires SP.Initial(init) && init.file.None? && SP.Run(init, actions)
    requires |SP.After(init, actions).marks| < UINT64_RANGE
    requires CrashContent(SP.After(init, actions), start, content) && SP.After(init, actions).stateSavedDirty > 0
    requires SP.After(init, actions).now <= clock.time && clock.time >= 0 && cache.items == map[]
    requires locks.Valid() && locks.At(p, LockProtocol.NotStarted)
    modifies locks, cache, clock
    ensures error.None? <==> p in locks.state.held
    ensures error.Some? ==> cache.items == map[]
    ensures error.None? && clock.time <= MAX_INT64 ==>
              AllSavedRecovered(SP.After(init, actions), cache.items, now, clock.time)
    ensures old(locks.Quiet()) && rounds >= FileLock.QUIET_ROUNDS ==>
              (error.None? <==> FileLock.WillLock(old(locks.state)))
  {
    hide SP.After, SP.Run, SP.Initial, AllSavedRecovered, CrashContent, Unmarshal, Loaded, FileLock.WillLock;
    hide FileLock.OthersRest;
    var _ := SavedIsHeld(init, actions, start, content, 0);
    error, now := LoadStateFromFile(locks, p, rounds, content, cache, clock);
    if error.Some? {
      ErrorKinds(error.value);
    }
    if error.None? && clock.time <= MAX_INT64 {
      SavedAreRecovered(init, actions, start, content, cache.items, now, clock.time);
    }
  }

  lemma ErrorKinds(e: LoadError)
    ensures e.Waiting? || e.NotLocked? || e.ReadFailed? || e.BadContent?
  {
  }

  lemma SavedAreRecovered(init: SP.SaveState, actions: seq<SP.Action>, start: Option<seq<byte>>,
                          content: Option<seq<byte>>, after: map<Key, Item>, now: int, end: int)
    requires SP.Initial(init) && init.file.None? && SP.Run(init, actions)
    requires |SP.After(init, actions).marks| < UINT64_RANGE
    requires CrashContent(SP.After(init, actions), start, content) && SP.After(init, actions).now <= now
    requires content.Some? && Unmarshal(content.value).Some?
    requires Loaded(Unmarshal(content.value).value.verified, map[], after, now, end)
    ensures AllSavedRecovered(SP.After(init, actions), after, now, end)
  {
    hide SP.After, SP.Run, SP.Initial, MarkRecovered, CrashContent, Unmarshal, Loaded;
    var s := SP.After(init, actions);
    forall i | 0 <= i < s.stateSavedDirty ensures MarkRecovered(s, i, after, now, end) {
      SavedIsRecovered(init, actions, start, content, i, after, now, end);
    }
  }

  lemma SavedIsRecovered(init: SP.SaveState, actions: seq<SP.Action>, start: Option<seq<byte>>,
                         content: Option<seq<byte>>, i: nat, after: map<Key, Item>, now: int, end: int)
    requires SP.Initial(init) && init.file.None? && SP.Run(init, actions)
    requires |SP.After(init, actions).marks| < UINT64_RANGE
    requires var s := SP.After(init, actions);
             CrashContent(s, start, content) && i < s.stateSavedDirty && s.now <= now
    requires content.Some? && Unmarshal(content.value).Some?
    requires Loaded(Unmarshal(content.value).value.verified, map[], after, now, end)
    ensures MarkRecovered(SP.After(init, actions), i, after, now, end)
  {
    hide SP.After, SP.Run, SP.Initial, KeyOk, CrashContent, Unmarshal, LoadedKey, Reloads, Holds;
    var s := SP.After(init, actions);
    var l := SavedIsHeld(init, actions, start, content, i);
    if KeyOk(s, s.log[l].0) {
      HeldReloads(content, s.log[l].0, s.log[l].1, s.now, after, now, end);
    }
  }
}

/**
 Many restarts: each process loads what the one before left, runs, and is stopped anywhere. What
 one of them has counted as saved is in the cache of all that follow, superseded or expired.
 */
module Restarts {
  import opened Wrappers
  import opened Utf8
  import opened GoCache
  import opened Counters
  import opened StateFile
  import opened Reload
  import opened StateKeeper
  import opened CrashRecovery
  import SP = SaveProtocol

  /** One process: its run, what it leaves at the state path, and when it loaded. */
  datatype Process = Process(init: SP.SaveState, actions: seq<SP.Action>, content: Option<seq<byte>>,
                             loadFrom: int, loadTo: int)

  ghost predicate Lives(p: Process, start: Option<seq<byte>>) {
    && SP.Initial(p.init) && p.init.file.None? && SP.Run(p.init, p.actions)
    && |SP.After(p.init, p.actions).marks| < UINT64_RANGE
    && CrashContent(SP.After(p.init, p.actions), start, p.content)
  }

  ghost function End(p: Process): SP.SaveState
    requires SP.Run(p.init, p.actions)
  {
    SP.After(p.init, p.actions)
  }

  /** The expirations under the key leave room for the time the load takes. */
  ghost predicate RoomFor(entries: map<Key, PersistentEntry>, k: Key, now: int, end: int) {
    k in entries ==> MIN_INT64 + now <= entries[k].expiration && entries[k].expiration + (end - now) <= MAX_INT64
  }

  /** The process begins with what the load of this content gave. */
  ghost predicate Begins(p: Process, content: Option<seq<byte>>, k: Key) {
    && 0 <= p.loadFrom <= p.loadTo <= p.init.now
    && content.Some? && Unmarshal(content.value).Some?
    && LoadedKey(Unmarshal(content.value).value.verified, map[], p.init.cache, p.loadFrom, p.loadTo, k)
    && RoomFor(Unmarshal(content.value).value.verified, k, p.loadFrom, p.loadTo)
  }

  /** Each process loads, after the end of the one before, what that one left; the key can be told throughout. */
  ghost predicate Chain(ps: seq<Process>, start: Option<seq<byte>>, k: Key) {
    && (forall j :: 0 <= j < |ps| ==> Lives(ps[j], Before(ps, start, j)) && KeyOk(End(ps[j]), k))
    && (forall j :: 0 < j < |ps| ==> Begins(ps[j], ps[j - 1].content, k) && End(ps[j - 1]).now <= ps[j].loadFrom)
  }

  ghost function Before(ps: seq<Process>, start: Option<seq<byte>>, j: nat): Option<seq<byte>>
    requires j <= |ps|
  {
    if j == 0 then start else ps[j - 1].content
  }

  /** Not before the saved expiration, and never if that was never. */
  predicate NoSooner(saved: int, recorded: int) {
    if saved > 0 then recorded >= saved else recorded <= 0
  }

  /** The content has the value of the item under the key, expiring no sooner, or the item has expired. */
  ghost predicate Carries(content: Option<seq<byte>>, k: Key, item: Item, t: int) {
    || 0 < item.expiration <= t
    || (&& content.Some? && Unmarshal(content.value).Some? && k in Unmarshal(content.value).value.verified
        && item.stored == BoolValue(Unmarshal(content.value).value.verified[k].value)
        && NoSooner(item.expiration, Unmarshal(content.value).value.verified[k].expiration))
  }

  /** The same of a cache. */
  ghost predicate Serves(cache: map<Key, Item>, k: Key, item: Item, t: int) {
    || 0 < item.expiration <= t
    || (k in cache && cache[k].stored == item.stored && NoSooner(item.expiration, cache[k].expiration))
  }

  lemma LoadingServes(content: Option<seq<byte>>, k: Key, item: Item, t: int, p: Process)
    requires Carries(content, k, item, t) && Begins(p, content, k) && t <= p.loadFrom
    ensures Serves(p.init.cache, k, item, p.loadFrom)
  {
    hide Unmarshal;
  }

  /** What a process began with is carried by whatever it leaves, unless the key was Set again. */
  lemma RunningCarries(p: Process, start: Option<seq<byte>>, k: Key, item: Item, t: int)
    returns (l: Option<nat>)
    requires Lives(p, start) && KeyOk(End(p), k) && Carries(start, k, item, t) && Begins(p, start, k)
    requires t <= p.loadFrom
    ensures l.None? ==> Carries(p.content, k, item, End(p).now)
    ensures l.Some? ==> l.value < |End(p).log| && End(p).log[l.value].0 == k
    ensures l.Some? ==> Carries(p.content, k, End(p).log[l.value].1, End(p).now)
  {
    hide Unmarshal, KeyOk, SP.Run, SP.After, IsSaveOf, Begins, CrashContent, SP.Reflects;
    var s := End(p);
    SP.InitialInv(p.init);
    FilesAlong(p.init, p.actions);
    BeginsInTime(p, start, k);
    LoadingServes(start, k, item, t, p);
    var snapshot := WhichSnapshot(s, start, p.content);
    if snapshot.None? {
      l := None;
    } else {
      SetsFit(snapshot.value, s.log, s.loaded);
      l := LastSetOrNever(s.log, snapshot.value.sets, k);
      SnapshotHolds(s, snapshot.value, p.content, k, s.now);
      ServedIsCarried(s, snapshot.value, p.content, k, item, p.loadFrom);
    }
  }

  lemma BeginsInTime(p: Process, content: Option<seq<byte>>, k: Key)
    requires Begins(p, content, k)
    ensures p.loadFrom <= p.init.now
  {
  }

  lemma SetsFit(snapshot: SP.Snapshot, log: seq<(Key, Item)>, loaded: map<Key, Item>)
    requires SP.Reflects(snapshot, log, loaded)
    ensures snapshot.sets <= |log|
  {
  }

  lemma ServedIsCarried(s: SP.SaveState, snapshot: SP.Snapshot, content: Option<seq<byte>>, k: Key, item: Item, t: int)
    requires Serves(s.loaded, k, item, t) && t <= s.now
    requires SP.NeverSet(s.log, snapshot.sets, k) && k in s.loaded ==> Holds(content, k, s.loaded[k], s.now)
    ensures SP.NeverSet(s.log, snapshot.sets, k) ==> Carries(content, k, item, s.now)
  {
    hide Unmarshal, SP.NeverSet;
  }

  lemma HeldIsCarried(content: Option<seq<byte>>, k: Key, item: Item, t: int)
    requires Holds(content, k, item, t)
    ensures Carries(content, k, item, t)
  {
    hide Unmarshal;
  }

  /** Set number `l` of the process is a Set of the key, and carried by this content. */
  ghost predicate Carried(p: Process, k: Key, l: nat, content: Option<seq<byte>>, t: int)
    requires SP.Run(p.init, p.actions)
  {
    l < |End(p).log| && End(p).log[l].0 == k && Carries(content, k, End(p).log[l].1, t)
  }

  /** Number `i` of the marks of the process is saved, and of a Set of the key. */
  ghost predicate Saved(p: Process, k: Key, i: nat)
    requires SP.Run(p.init, p.actions)
  {
    var s := End(p);
    i < s.stateSavedDirty && i < |s.marks| && s.marks[i] < |s.log| && s.log[s.marks[i]].0 == k
  }

  lemma ChainLink(ps: seq<Process>, start: Option<seq<byte>>, k: Key, j: nat)
    requires Chain(ps, start, k) && j < |ps|
    ensures Lives(ps[j], Before(ps, start, j)) && SP.Run(ps[j].init, ps[j].actions) && KeyOk(End(ps[j]), k)
    ensures j > 0 ==> SP.Run(ps[j - 1].init, ps[j - 1].actions) && Begins(ps[j], ps[j - 1].content, k)
    ensures j > 0 ==> End(ps[j - 1]).now <= ps[j].loadFrom
  {
    if j > 0 {
      assert Lives(ps[j - 1], Before(ps, start, j - 1));
    }
  }

  lemma FirstCarries(p: Process, start: Option<seq<byte>>, k: Key, i: nat) returns (l: nat)
    requires Lives(p, start) && KeyOk(End(p), k) && Saved(p, k, i)
    ensures End(p).marks[i] <= l && Carried(p, k, l, p.content, End(p).now)
  {
    hide Unmarshal, KeyOk, SP.Run, SP.After, CrashContent, Carries;
    l := SavedIsHeld(p.init, p.actions, start, p.content, i);
    HeldIsCarried(p.content, k, End(p).log[l].1, End(p).now);
  }

  /** What process `j` leaves carries a word on the key that is not older than the saved change. */
  lemma {:induction false} CarriedOn(ps: seq<Process>, start: Option<seq<byte>>, k: Key, g: nat, i: nat, j: nat)
    returns (g': nat, l: nat)
    requires Chain(ps, start, k) && g <= j < |ps|
    requires SP.Run(ps[g].init, ps[g].actions) && Saved(ps[g], k, i)
    ensures g <= g' <= j && SP.Run(ps[g'].init, ps[g'].actions) && SP.Run(ps[j].init, ps[j].actions)
    ensures g' == g ==> End(ps[g]).marks[i] <= l
    ensures Carried(ps[g'], k, l, ps[j].content, End(ps[j]).now)
    decreases j
  {
    hide Unmarshal, KeyOk, SP.Run, SP.After, CrashContent, Carries, Begins, Chain, Lives;
    ChainLink(ps, start, k, j);
    if j == g {
      g' := g;
      l := FirstCarries(ps[g], Before(ps, start, g), k, i);
    } else {
      g', l := CarriedOn(ps, start, k, g, i, j - 1);
      var again := RunningCarries(ps[j], ps[j - 1].content, k, End(ps[g']).log[l].1, End(ps[j - 1]).now);
      if again.Some? {
        g', l := j, again.value;
      }
    }
  }

  /**
   Over any number of restarts that got to load: a change that some process counted as saved is
   in the cache with which every later one begins, with its value and expiring no sooner; or a
   later change for its key is; or that one had expired.
   */
  lemma SavedForGood(ps: seq<Process>, start: Option<seq<byte>>, k: Key, g: nat, i: nat, j: nat)
    returns (g': nat, l: nat)
    requires Chain(ps, start, k) && g < j < |ps|
    requires SP.Run(ps[g].init, ps[g].actions) && Saved(ps[g], k, i)
    ensures g <= g' < j && SP.Run(ps[g'].init, ps[g'].actions)
    ensures l < |End(ps[g']).log| && End(ps[g']).log[l].0 == k && (g' == g ==> End(ps[g]).marks[i] <= l)
    ensures Serves(ps[j].init.cache, k, End(ps[g']).log[l].1, ps[j].loadFrom)
  {
    hide Unmarshal, KeyOk, SP.Run, SP.After, CrashContent, Carries, Begins, Chain, Lives, Serves;
    g', l := CarriedOn(ps, start, k, g, i, j - 1);
    ChainLink(ps, start, k, j);
    LoadingServes(ps[j - 1].content, k, End(ps[g']).log[l].1, End(ps[j - 1]).now, ps[j]);
  }
}

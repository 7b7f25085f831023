/**
 The change counters and the saver: request handlers do `Set` and then mark the state dirty;
 one saver reads the counter, takes a snapshot, replaces the file and records the number it
 read. Handlers, saver, janitor and clock interleave freely, and a save may fail anywhere.
 */
module SaveProtocol {
  import opened Wrappers
  import opened Counters
  import opened GoCache

  /** What a save writes: the unexpired items, when they were read, and how many `Set`s had happened. */
  datatype Snapshot = Snapshot(items: map<Key, Item>, at: int, sets: nat)

  /** Where the saver stands; `count` is how many marks its counter reading stands for. */
  datatype Saver =
    | Idle
    | CounterRead(dirtyAtStart: uint64, count: nat)
    | SnapshotTaken(dirtyAtStart: uint64, count: nat, snapshot: Snapshot)
    | FileReplaced(dirtyAtStart: uint64, count: nat)

  datatype SaveState = SaveState(
    now: int,
    cache: map<Key, Item>,
    stateDirty: uint64,
    stateSavedDirty: uint64,
    file: Option<Snapshot>,
    saver: Saver,
    // history
    loaded: map<Key, Item>, // what the cache started with
    log: seq<(Key, Item)>,  // every Set, in order
    unmarked: set<nat>,     // Sets whose handler has not marked the state yet
    marks: seq<nat>,        // which Set each mark stands for
    saved: nat              // how many marks the saved counter stands for
  )

  datatype Action =
    | Tick(d: nat)
    | Janitor
    | HandlerSet(key: Key, item: Item)
    | HandlerMark(set_: nat)
    | ReadCounter
    | TakeSnapshot
    | ReplaceFile
    | SaveFails
    | RecordSaved

  predicate Enabled(s: SaveState, a: Action) {
    match a
    case Tick(_) => true
    case Janitor => true
    case HandlerSet(_, _) => true
    case HandlerMark(i) => i in s.unmarked
    case ReadCounter => s.saver.Idle?
    case TakeSnapshot => s.saver.CounterRead?
    case ReplaceFile => s.saver.SnapshotTaken?
    case SaveFails => s.saver.CounterRead? || s.saver.SnapshotTaken?
    case RecordSaved => s.saver.FileReplaced?
  }

  function Apply(s: SaveState, a: Action): SaveState
    requires Enabled(s, a)
  {
    match a
    case Tick(d) => s.(now := s.now + d)
    case Janitor => s.(cache := Unexpired(s.cache, s.now))
    case HandlerSet(k, item) =>
      s.(cache := s.cache[k := item], log := s.log + [(k, item)], unmarked := s.unmarked + {|s.log|})
    case HandlerMark(i) =>
      s.(stateDirty := (s.stateDirty + 1) % UINT64_RANGE, unmarked := s.unmarked - {i}, marks := s.marks + [i])
    case ReadCounter => s.(saver := CounterRead(s.stateDirty, |s.marks|))
    case TakeSnapshot =>
      s.(saver := SnapshotTaken(s.saver.dirtyAtStart, s.saver.count,
                                Snapshot(Unexpired(s.cache, s.now), s.now, |s.log|)))
    case ReplaceFile =>
      s.(saver := FileReplaced(s.saver.dirtyAtStart, s.saver.count), file := Some(s.saver.snapshot))
    case SaveFails => s.(saver := Idle)
    case RecordSaved => s.(saver := Idle, stateSavedDirty := s.saver.dirtyAtStart, saved := s.saver.count)
  }

  predicate HasUnsavedState(s: SaveState) {
    s.stateDirty != s.stateSavedDirty
  }

  function UnsavedStateChanges(s: SaveState): nat {
    if s.stateDirty < s.stateSavedDirty then 0 else s.stateDirty - s.stateSavedDirty
  }

  /** A process starts with whatever it loaded, and with whatever file there is. */
  ghost predicate Initial(s: SaveState) {
    && s.stateDirty == 0 && s.stateSavedDirty == 0 && s.saver.Idle?
    && s.loaded == s.cache && s.log == [] && s.unmarked == {} && s.marks == [] && s.saved == 0
  }

  ghost predicate Run(s: SaveState, actions: seq<Action>)
    decreases |actions|
  {
    actions == [] || (Enabled(s, actions[0]) && Run(Apply(s, actions[0]), actions[1..]))
  }

  ghost function After(s: SaveState, actions: seq<Action>): SaveState
    requires Run(s, actions)
    decreases |actions|
  {
    if actions == [] then s else After(Apply(s, actions[0]), actions[1..])
  }

  lemma {:induction false} RunSnoc(s: SaveState, actions: seq<Action>, a: Action)
    requires Run(s, actions) && Enabled(After(s, actions), a)
    ensures Run(s, actions + [a]) && After(s, actions + [a]) == Apply(After(s, actions), a)
    decreases |actions|
  {
    var longer := actions + [a];
    if actions == [] {
      assert longer[1..] == [];
    } else {
      assert longer[0] == actions[0] && longer[1..] == actions[1..] + [a];
      RunSnoc(Apply(s, actions[0]), actions[1..], a);
    }
  }

  // --------------------------------------------------------------------------
  // What the file accounts for
  // --------------------------------------------------------------------------

  /** Among the first `n` Sets, number `l` is the last one for its key `k`. */
  ghost predicate IsLast(log: seq<(Key, Item)>, n: nat, k: Key, l: nat) {
    l < n <= |log| && log[l].0 == k && forall m :: l < m < n ==> log[m].0 != k
  }

  ghost predicate NeverSet(log: seq<(Key, Item)>, n: nat, k: Key) {
    n <= |log| && forall m :: 0 <= m < n ==> log[m].0 != k
  }

  /** The items have this one under the key, or it had expired. */
  ghost predicate HasOrExpired(items: map<Key, Item>, k: Key, item: Item, at: int) {
    if k in items then items[k] == item else item.Expired(at)
  }

  /**
   For every key, the last of the Sets so far is in the snapshot, or had expired by then; a key
   never Set has what was loaded for it, or that had expired; and there is nothing else.
   */
  ghost predicate Follows(snapshot: Snapshot, log: seq<(Key, Item)>, loaded: map<Key, Item>) {
    && snapshot.sets <= |log|
    && (forall k, l: nat :: IsLast(log, snapshot.sets, k, l) ==>
          HasOrExpired(snapshot.items, k, log[l].1, snapshot.at))
    && (forall k :: NeverSet(log, snapshot.sets, k) ==>
          if k in loaded then HasOrExpired(snapshot.items, k, loaded[k], snapshot.at) else k !in snapshot.items)
  }

  /** Nothing in the snapshot had expired when it was taken. */
  ghost predicate Fresh(snapshot: Snapshot) {
    forall k :: k in snapshot.items ==> !(0 < snapshot.items[k].expiration < snapshot.at)
  }

  /** What a save may write: it follows the Sets so far, and leaves out what has expired. */
  ghost predicate Reflects(snapshot: Snapshot, log: seq<(Key, Item)>, loaded: map<Key, Item>) {
    Follows(snapshot, log, loaded) && Fresh(snapshot)
  }

  /** Set number `i` is in the snapshot, superseded in it by a later Set, or expired. */
  ghost predicate AccountedFor(snapshot: Snapshot, log: seq<(Key, Item)>, i: nat)
    requires i < |log|
  {
    exists l: nat :: i <= l && IsLast(log, snapshot.sets, log[i].0, l) &&
      HasOrExpired(snapshot.items, log[i].0, log[l].1, snapshot.at)
  }

  /** The first `count` marks belong to Sets that happened before the snapshot. */
  ghost predicate Covers(snapshot: Snapshot, marks: seq<nat>, count: nat) {
    count <= |marks| && forall i :: 0 <= i < count ==> marks[i] < snapshot.sets
  }

  /** The cache itself follows the Sets so far; it may still have what has expired. */
  ghost predicate CacheOk(s: SaveState) {
    Follows(Snapshot(s.cache, s.now, |s.log|), s.log, s.loaded)
  }

  ghost predicate HistoryOk(s: SaveState) {
    && (forall i :: 0 <= i < |s.marks| ==> s.marks[i] < |s.log|)
    && (forall i :: i in s.unmarked ==> i < |s.log|)
    && (forall i :: 0 <= i < |s.log| ==> i in s.unmarked || i in s.marks)
  }

  ghost predicate FileOk(s: SaveState) {
    && s.saved <= |s.marks|
    && (s.saved > 0 ==> s.file.Some?)
    && (s.file.Some? && (s.saved > 0 || s.saver.FileReplaced?) ==>
          Reflects(s.file.value, s.log, s.loaded) && Covers(s.file.value, s.marks, s.saved))
  }

  ghost predicate SaverOk(s: SaveState) {
    match s.saver
    case Idle => true
    case CounterRead(d, c) => s.saved <= c <= |s.marks|
    case SnapshotTaken(d, c, snapshot) =>
      s.saved <= c && Covers(snapshot, s.marks, c) && Reflects(snapshot, s.log, s.loaded)
    case FileReplaced(d, c) => s.saved <= c && s.file.Some? && Covers(s.file.value, s.marks, c)
  }

  ghost predicate CountersOk(s: SaveState) {
    && s.stateDirty == |s.marks| % UINT64_RANGE
    && s.stateSavedDirty == s.saved % UINT64_RANGE
    && (!s.saver.Idle? ==> s.saver.dirtyAtStart == s.saver.count % UINT64_RANGE)
  }

  ghost predicate Inv(s: SaveState) {
    CacheOk(s) && HistoryOk(s) && FileOk(s) && SaverOk(s) && CountersOk(s)
  }

  lemma CacheStep(s: SaveState, a: Action)
    requires CacheOk(s) && Enabled(s, a)
    ensures CacheOk(Apply(s, a))
  {
    var s' := Apply(s, a);
    if a.HandlerSet? {
      forall k, l: nat | IsLast(s'.log, |s'.log|, k, l)
        ensures HasOrExpired(s'.cache, k, s'.log[l].1, s'.now)
      {
        if l < |s.log| {
          assert s'.log[|s.log|].0 != k;
          assert forall m :: l <= m < |s.log| ==> s'.log[m] == s.log[m];
          assert IsLast(s.log, |s.log|, k, l);
        }
      }
      forall k | NeverSet(s'.log, |s'.log|, k)
        ensures if k in s.loaded then HasOrExpired(s'.cache, k, s.loaded[k], s'.now) else k !in s'.cache
      {
        assert s'.log[|s.log|].0 != k;
        assert forall m :: 0 <= m < |s.log| ==> s'.log[m] == s.log[m];
        assert NeverSet(s.log, |s.log|, k);
      }
    }
  }

  /** A snapshot keeps reflecting its prefix of the log while the log grows. */
  lemma ReflectsGrows(snapshot: Snapshot, log: seq<(Key, Item)>, loaded: map<Key, Item>, entry: (Key, Item))
    requires Reflects(snapshot, log, loaded)
    ensures Reflects(snapshot, log + [entry], loaded)
  {
    var longer := log + [entry];
    assert forall m :: 0 <= m < |log| ==> longer[m] == log[m];
    forall k, l: nat | IsLast(longer, snapshot.sets, k, l)
      ensures HasOrExpired(snapshot.items, k, longer[l].1, snapshot.at)
    {
      assert IsLast(log, snapshot.sets, k, l);
    }
    forall k | NeverSet(longer, snapshot.sets, k) ensures NeverSet(log, snapshot.sets, k) {
    }
  }

  /** The janitor takes from the cache exactly what has expired. */
  lemma JanitorDeletesExactly(s: SaveState, k: Key)
    ensures var after := Apply(s, Janitor).cache;
            && (k in after <==> k in s.cache && !(0 < s.cache[k].expiration < s.now))
            && (k in after ==> after[k] == s.cache[k])
  {
  }

  lemma SnapshotReflects(s: SaveState)
    requires CacheOk(s)
    ensures Reflects(Snapshot(Unexpired(s.cache, s.now), s.now, |s.log|), s.log, s.loaded)
  {
  }

  lemma HistoryStep(s: SaveState, a: Action)
    requires HistoryOk(s) && Enabled(s, a)
    ensures HistoryOk(Apply(s, a))
  {
    if a.HandlerMark? {
      assert forall j :: j in s.marks ==> j in s.marks + [a.set_];
    }
  }

  lemma CountersStep(s: SaveState, a: Action)
    requires CountersOk(s) && Enabled(s, a)
    ensures CountersOk(Apply(s, a))
  {
  }

  /** What a step does to the file and to the saver's snapshot. */
  lemma FileStep(s: SaveState, a: Action)
    requires CacheOk(s) && HistoryOk(s) && FileOk(s) && SaverOk(s) && Enabled(s, a)
    ensures FileOk(Apply(s, a)) && SaverOk(Apply(s, a))
  {
    hide CacheOk, Reflects;
    match a {
      case HandlerSet(k, item) =>
        if s.file.Some? && Reflects(s.file.value, s.log, s.loaded) {
          ReflectsGrows(s.file.value, s.log, s.loaded, (k, item));
        }
        if s.saver.SnapshotTaken? {
          ReflectsGrows(s.saver.snapshot, s.log, s.loaded, (k, item));
        }
      case TakeSnapshot =>
        SnapshotReflects(s);
      case _ =>
    }
  }

  lemma InvStep(s: SaveState, a: Action)
    requires Inv(s) && Enabled(s, a)
    ensures Inv(Apply(s, a))
  {
    CacheStep(s, a);
    HistoryStep(s, a);
    FileStep(s, a);
    CountersStep(s, a);
  }

  lemma {:induction false} InvAlong(s: SaveState, actions: seq<Action>)
    requires Inv(s) && Run(s, actions)
    ensures Inv(After(s, actions))
    decreases |actions|
  {
    if actions != [] {
      InvStep(s, actions[0]);
      InvAlong(Apply(s, actions[0]), actions[1..]);
    }
  }

  lemma InitialInv(s: SaveState)
    requires Initial(s)
    ensures Inv(s)
  {
  }

  /**
   No lost update: in every run with fewer than 2^64 marks, each change whose number is at
   most the saved counter is in the last completed file, superseded in it, or had expired
   when the snapshot was taken; and the saved counter never exceeds the dirty one.
   */
  lemma NoLostUpdate(init: SaveState, actions: seq<Action>)
    requires Initial(init) && Run(init, actions) && |After(init, actions).marks| < UINT64_RANGE
    ensures var s := After(init, actions);
            && s.stateSavedDirty <= s.stateDirty == |s.marks|
            && UnsavedStateChanges(s) == |s.marks| - s.saved
            && forall i :: 0 <= i < s.stateSavedDirty ==>
                 s.file.Some? && s.marks[i] < |s.log| && AccountedFor(s.file.value, s.log, s.marks[i])
  {
    InitialInv(init);
    InvAlong(init, actions);
    var s := After(init, actions);
    forall i | 0 <= i < s.stateSavedDirty
      ensures s.file.Some? && s.marks[i] < |s.log| && AccountedFor(s.file.value, s.log, s.marks[i])
    {
      Accounted(s.file.value, s.log, s.loaded, s.marks[i]);
    }
  }

  lemma Accounted(snapshot: Snapshot, log: seq<(Key, Item)>, loaded: map<Key, Item>, i: nat)
    requires Reflects(snapshot, log, loaded) && i < snapshot.sets
    ensures AccountedFor(snapshot, log, i)
  {
    var l := LastSet(log, snapshot.sets, i);
    assert IsLast(log, snapshot.sets, log[i].0, l);
  }

  /** The last Set for the key of Set `i` among the first `n`. */
  lemma {:induction false} LastSet(log: seq<(Key, Item)>, n: nat, i: nat) returns (l: nat)
    requires i < n <= |log|
    ensures i <= l && IsLast(log, n, log[i].0, l)
    decreases n
  {
    if log[n - 1].0 == log[i].0 {
      l := n - 1;
    } else {
      l := LastSet(log, n - 1, i);
    }
  }

  /**
   With something Set, nothing unsaved and no handler between its two steps, the file is as good
   as the cache: it has every key's last Set, every loaded entry that was not Set again, unless
   expired, and nothing else.
   */
  lemma CleanStateIsOnDisk(init: SaveState, actions: seq<Action>)
    requires Initial(init) && Run(init, actions)
    requires var s := After(init, actions);
             |s.marks| < UINT64_RANGE && !HasUnsavedState(s) && s.unmarked == {} && s.log != []
    ensures var s := After(init, actions);
            s.file.Some? && Reflects(s.file.value.(sets := |s.log|), s.log, s.loaded)
  {
    InitialInv(init);
    InvAlong(init, actions);
    var s := After(init, actions);
    assert s.saved == |s.marks|;
    assert 0 in s.marks;
    var file := s.file.value;
    var last := |s.log| - 1;
    assert last in s.marks;
    var i :| 0 <= i < |s.marks| && s.marks[i] == last;
    assert file.sets == |s.log|;
  }

  /**
   What is in the last completed file: for every key, the last change before the snapshot or the
   item that was loaded, exactly if it had not expired when the snapshot was taken.
   */
  lemma FileIsExact(init: SaveState, actions: seq<Action>, k: Key)
    requires Initial(init) && init.file.None? && Run(init, actions) && After(init, actions).file.Some?
    ensures var s := After(init, actions);
            var file := s.file.value;
            && file.sets <= |s.log|
            && (forall l: nat :: l < file.sets && s.log[l].0 == k && (forall m :: l < m < file.sets ==> s.log[m].0 != k)
                  ==> && (k in file.items <==> !(0 < s.log[l].1.expiration < file.at))
                      && (k in file.items ==> file.items[k] == s.log[l].1))
            && ((forall m :: 0 <= m < file.sets ==> s.log[m].0 != k) ==>
                  && (k in file.items <==> k in s.loaded && !(0 < s.loaded[k].expiration < file.at))
                  && (k in file.items ==> file.items[k] == s.loaded[k]))
  {
    InitialInv(init);
    InvAlong(init, actions);
    FileOfRun(init, actions);
    var s := After(init, actions);
    var file := s.file.value;
    forall l: nat | l < file.sets && s.log[l].0 == k && forall m :: l < m < file.sets ==> s.log[m].0 != k
      ensures IsLast(s.log, file.sets, k, l)
    {
    }
    assert (forall m :: 0 <= m < file.sets ==> s.log[m].0 != k) ==> NeverSet(s.log, file.sets, k);
  }

  /** A file that was not there at the start was written by this run. */
  lemma {:induction false} FileOfRun(s: SaveState, actions: seq<Action>)
    requires Inv(s) && Run(s, actions)
    requires s.file.Some? ==> Reflects(s.file.value, s.log, s.loaded)
    ensures var s' := After(s, actions); s'.file.Some? ==> Reflects(s'.file.value, s'.log, s'.loaded)
    decreases |actions|
  {
    hide Reflects;
    if actions != [] {
      if actions[0].HandlerSet? && s.file.Some? {
        ReflectsGrows(s.file.value, s.log, s.loaded, (actions[0].key, actions[0].item));
      }
      InvStep(s, actions[0]);
      FileOfRun(Apply(s, actions[0]), actions[1..]);
    }
  }

  /** A failed save leaves the file and both counters alone, so the change stays to be saved. */
  lemma FailedSaveKeepsDirty(init: SaveState, actions: seq<Action>)
    requires Initial(init) && Run(init, actions) && Enabled(After(init, actions), SaveFails)
    requires |After(init, actions).marks| < UINT64_RANGE
    ensures var s := After(init, actions);
            var s' := Apply(s, SaveFails);
            && s'.file == s.file && UnsavedStateChanges(s') == |s.marks| - s.saved
            && (HasUnsavedState(s') <==> s.saved < |s.marks|)
  {
    NoLostUpdate(init, actions);
    UnsavedFlagIsExact(init, actions);
  }

  /** The flag sees unsaved changes unless their number is a multiple of 2^64. */
  lemma UnsavedFlagIsExact(init: SaveState, actions: seq<Action>)
    requires Initial(init) && Run(init, actions)
    ensures var s := After(init, actions);
            s.saved <= |s.marks| && (HasUnsavedState(s) <==> (|s.marks| - s.saved) % UINT64_RANGE != 0)
  {
    InitialInv(init);
    InvAlong(init, actions);
    var s := After(init, actions);
    SameRemainder(|s.marks|, s.saved);
  }

  lemma SameRemainder(a: nat, b: nat)
    ensures a % UINT64_RANGE == b % UINT64_RANGE <==> (a - b) % UINT64_RANGE == 0
  {
  }
}

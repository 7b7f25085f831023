/**
 A concrete history in which a change that was counted as saved is lost: the process dies while
 it saves again, the new one starts at once, waits five seconds for a lock file that takes ten
 to go stale, starts empty, and later saves over the file.
 */
module CrashExample {
  import opened Wrappers
  import opened Utf8
  import opened GoCache
  import opened Counters
  import opened StateFile
  import opened StateRoundTrip
  import opened AtomicWrite
  import opened Reload
  import opened StateKeeper
  import FileLock
  import LP = LockProtocol
  import SP = SaveProtocol

  const PATH: Path := "/data/state.json"

  /** "203.0.113.7" and "203.0.113.8", each with a pass that ends in November 2023. */
  const FIRST: Key := [50, 48, 51, 46, 48, 46, 49, 49, 51, 46, 55]
  const SECOND: Key := [50, 48, 51, 46, 48, 46, 49, 49, 51, 46, 56]
  const PASS := Item(BoolValue(true), 1_700_086_400_000_000_000)
  const START := 1_700_000_000_000_000_000

  /** "1:1" and "1:2" of the first process, "2:1" and "2:2" of the second. */
  const OWNERS: LP.Owners := map[0 := [49, 58, 49], 1 := [49, 58, 50], 2 := [50, 58, 49], 3 := [50, 58, 50]]

  /** A process whose cache has this pass, and nothing else, that has not been saved. */
  method Visit(cache: Cache, disk: Disk, locks: FileLock.LockDir, key: Key, now: int) returns (keeper: Keeper)
    requires disk.Valid() && locks.Valid() && cache.items == map[]
    ensures keeper.Valid() && keeper.disk == disk && keeper.locks == locks && keeper.path == PATH
    ensures fresh(keeper) && fresh(keeper.counters)
    ensures keeper.schedule == [] && keeper.state.saver.Idle? && keeper.state.cache == map[key := PASS]
    ensures keeper.state.log == [(key, PASS)] && keeper.state.loaded == map[] && |keeper.state.marks| == 1
    ensures keeper.counters.stateDirty == 1
  {
    hide SP.Run, SP.After, SP.Initial, FileLock.LockDir.Valid;
    var counters := new ChangeCounters(true);
    keeper := new Keeper(cache.items, now, counters, disk, PATH, locks, []);
    keeper.Step(SP.HandlerSet(key, PASS));
    keeper.Step(SP.HandlerMark(0));
  }

  /** The process saves the pass. */
  method Save(keeper: Keeper, p: LP.Attempt, suffix: string, ghost key: Key) returns (r: SaveResult)
    requires keeper.Valid() && keeper.state.saver.Idle? && keeper.path == PATH && keeper.schedule == []
    requires keeper.state.cache == map[key := PASS] && keeper.state.log == [(key, PASS)]
    requires keeper.state.loaded == map[] && |keeper.state.marks| == 1
    requires keeper.locks.At(p, LP.NotStarted) && keeper.locks.Quiet() && FileLock.WillLock(keeper.locks.state)
    requires keeper.disk.sound && TempName(PATH, suffix) !in keeper.disk.files
    modifies keeper, keeper.counters, keeper.disk, keeper.locks
    ensures keeper.Valid() && r.Saved? && keeper.locks.Quiet() && keeper.locks.state.lock.None?
    ensures keeper.locks.state.guard == old(keeper.locks.state).guard
    ensures FileLock.OthersRest(old(keeper.locks.state), keeper.locks.state, p)
    ensures keeper.disk.files.Keys == old(keeper.disk.files).Keys + {PATH}
    ensures keeper.counters.stateSavedDirty == old(keeper.counters.stateDirty)
    ensures PATH in keeper.disk.files
    ensures SavedOnly(keeper.disk.files[PATH], key)
  {
    hide SP.Run, SP.After, SP.Initial, FileLock.LockDir.Valid, FileLock.WillLock, FileLock.OthersRest;
    hide OnDisk, TurnsOk, SavedOnly;
    r := keeper.SaveStateNow(p, FileLock.QUIET_ROUNDS, suffix);
    OnlyTheKey(keeper, key);
  }

  /** The content loads, and has an entry for no other key. */
  ghost predicate SavedOnly(content: seq<byte>, key: Key) {
    Unmarshal(content).Some? && forall other :: other in Unmarshal(content).value.verified ==> PrintsAs(key) == other
  }

  lemma OnlyTheKey(keeper: Keeper, key: Key)
    requires keeper.Valid() && keeper.state.file.Some? && keeper.state.saved > 0
    requires keeper.state.log == [(key, PASS)] && keeper.state.loaded == map[]
    ensures keeper.path in keeper.disk.files && SavedOnly(keeper.disk.files[keeper.path], key)
  {
    hide Unmarshal, PrintsAs;
    var s := keeper.state;
    SP.InitialInv(keeper.init);
    SP.InvAlong(keeper.init, keeper.history);
    var items := s.file.value.items;
    forall other | other != key ensures other !in items {
      NotSet(s.log, s.file.value.sets, key, other);
    }
    OnlyItsOwn(keeper.disk.files[keeper.path], items, key);
  }

  lemma NotSet(log: seq<(Key, Item)>, n: nat, key: Key, other: Key)
    requires log == [(key, PASS)] && n <= 1 && other != key
    ensures SP.NeverSet(log, n, other)
  {
  }

  lemma OnlyItsOwn(content: seq<byte>, items: map<Key, Item>, key: Key)
    requires IsSaveOf(Some(content), items) && forall other :: other in items ==> other == key
    ensures SavedOnly(content, key)
  {
    hide Unmarshal, PrintsAs, MemoryUsage, Decoded, StateText;
    var order :| IsIteration(order, items) && Printable(order, items) && content == StateText(order, items);
    FileDecodes(order, items);
    forall other | other != PrintsAs(key) ensures other !in Unmarshal(content).value.verified {
      UnprintedKeeps(order, items, map[], other);
    }
  }

  lemma SecondIsNotFirst()
    ensures PrintsAs(SECOND) != FIRST
  {
    hide Decode, PrintsAs;
    AsciiDecodes(SECOND);
    PrintsItself(SECOND);
    assert SECOND[10] != FIRST[10];
  }

  /** Die while saving: the lock is taken, and its holder is gone. */
  method DieSaving(locks: FileLock.LockDir, p: LP.Attempt)
    requires locks.Valid() && locks.At(p, LP.NotStarted) && locks.Quiet() && locks.state.lock.None?
    modifies locks
    ensures locks.Valid() && locks.Quiet() && FileLock.OthersRest(old(locks.state), locks.state, p)
    ensures locks.state.guard == old(locks.state).guard
    ensures locks.state.lock == Some(LP.LockFile(p, locks.state.now, locks.owners[p]))
    ensures locks.At(p, LP.Crashed)
  {
    hide LP.Run, LP.After, LP.Initial, FileLock.Continues;
    var r := FileLock.Lock(locks, p, FileLock.QUIET_ROUNDS);
    assert r.Locked?;
    locks.Step(LP.Crash(p));
  }

  /** The lock file of a dead attempt, and two attempts that have not begun. */
  ghost predicate LeftBehind(s: LP.State, dead: LP.Attempt, p: LP.Attempt, q: LP.Attempt) {
    && s.lock.Some? && s.lock.value.mtime == s.now && s.lock.value.content == OWNERS[1] && s.guard.None?
    && dead in s.pc && s.pc[dead].Crashed?
    && p in s.pc && s.pc[p].NotStarted? && q in s.pc && s.pc[q].NotStarted?
  }

  /** The first process: it saves a pass, and dies while it saves again. */
  method FirstProcess(locks: FileLock.LockDir, disk: Disk) returns (r: SaveResult, saved: uint64)
    requires locks.Valid() && locks.Quiet() && locks.owners == OWNERS
    requires locks.state.lock.None? && locks.state.guard.None?
    requires locks.At(0, LP.NotStarted) && locks.At(1, LP.NotStarted)
    requires locks.At(2, LP.NotStarted) && locks.At(3, LP.NotStarted)
    requires disk.Valid() && disk.sound && disk.files == map[]
    modifies locks, disk
    ensures locks.Valid() && locks.Quiet() && LeftBehind(locks.state, 1, 2, 3)
    ensures disk.Valid() && disk.files.Keys == {PATH} && r.Saved? && saved == 1
  {
    hide LP.Run, LP.After, LP.Initial, FileLock.LockDir.Valid;
    r, saved := FirstSave(locks, disk);
    DieSaving(locks, 1);
  }

  method FirstSave(locks: FileLock.LockDir, disk: Disk) returns (r: SaveResult, saved: uint64)
    requires locks.Valid() && locks.Quiet() && locks.owners == OWNERS
    requires locks.state.lock.None? && locks.state.guard.None?
    requires locks.At(0, LP.NotStarted) && locks.At(1, LP.NotStarted)
    requires locks.At(2, LP.NotStarted) && locks.At(3, LP.NotStarted)
    requires disk.Valid() && disk.sound && disk.files == map[]
    modifies locks, disk
    ensures locks.Valid() && locks.Quiet() && locks.state.lock.None? && locks.state.guard.None?
    ensures locks.At(1, LP.NotStarted) && locks.At(2, LP.NotStarted) && locks.At(3, LP.NotStarted)
    ensures disk.Valid() && disk.files.Keys == {PATH} && r.Saved? && saved == 1
  {
    hide LP.Run, LP.After, LP.Initial, Keeper.Valid, FileLock.LockDir.Valid, SavedOnly, Unmarshal;
    var empty := new Cache(0, map[]);
    var keeper := Visit(empty, disk, locks, FIRST, START);
    r := Save(keeper, 0, "a", FIRST);
    saved := keeper.counters.stateSavedDirty;
    DiskIsValid(keeper);
  }

  lemma DiskIsValid(keeper: Keeper)
    requires keeper.Valid()
    ensures keeper.disk.Valid() && keeper.locks.Valid()
  {
  }

  /** The second process: its load does not get the lock, and its first save does. */
  method SecondProcess(locks: FileLock.LockDir, disk: Disk) returns (load: Option<LoadError>, r: SaveResult)
    requires locks.Valid() && locks.Quiet() && locks.owners == OWNERS && LeftBehind(locks.state, 1, 2, 3)
    requires disk.Valid() && disk.sound && disk.files.Keys == {PATH}
    modifies locks, disk
    ensures load == Some(NotLocked) && r.Saved? && PATH in disk.files && SavedOnly(disk.files[PATH], SECOND)
  {
    hide LP.Run, LP.After, LP.Initial, Keeper.Valid, FileLock.LockDir.Valid, SavedOnly, Unmarshal;
    var cache;
    load, cache := FailedLoad(locks, disk.files[PATH]);
    var keeper := Visit(cache, disk, locks, SECOND, START);
    TimePasses(keeper, LP.STALE_LOCK_AGE);
    r := Save(keeper, 3, "b", SECOND);
  }

  method FailedLoad(locks: FileLock.LockDir, content: seq<byte>) returns (load: Option<LoadError>, cache: Cache)
    requires locks.Valid() && locks.Quiet() && locks.owners == OWNERS && LeftBehind(locks.state, 1, 2, 3)
    modifies locks
    ensures load == Some(NotLocked) && fresh(cache) && cache.items == map[]
    ensures locks.Valid() && locks.Quiet() && locks.At(3, LP.NotStarted)
    ensures locks.state.lock == old(locks.state).lock && locks.state.guard.None?
    ensures old(locks.state).now <= locks.state.now
  {
    hide LP.Run, LP.After, LP.Initial, FileLock.LockDir.Valid, Unmarshal, Loaded;
    cache := new Cache(0, map[]);
    var clock := new Clock(START, []);
    var now;
    load, now := LoadStateFromFile(locks, 2, FileLock.QUIET_ROUNDS, Some(content), cache, clock);
  }

  /**
   The first visitor's pass is counted as saved. After the crash and the restart, whose load
   fails, the second process saves its own visitor's pass, and the first one's is gone.
   */
  method SavedChangeIsLost() returns (first: SaveResult, saved: uint64, load: Option<LoadError>, second: SaveResult,
                                      content: seq<byte>)
    ensures first.Saved? && saved == 1 && load == Some(NotLocked) && second.Saved?
    ensures Unmarshal(content).Some? && FIRST !in Unmarshal(content).value.verified
  {
    hide LP.Run, LP.After, LP.Initial, FileLock.LockDir.Valid, Unmarshal, SavedOnly, LeftBehind;
    var locks := new FileLock.LockDir(OWNERS, [], true);
    var disk := new Disk(map[], true);
    first, saved := FirstProcess(locks, disk);
    load, second := SecondProcess(locks, disk);
    content := disk.files[PATH];
    FirstIsGone(content);
  }

  /** Time passes at the lock directory. */
  method TimePasses(keeper: Keeper, d: nat)
    requires keeper.Valid() && d > 0
    modifies keeper.locks`state, keeper.locks`history
    ensures keeper.Valid()
    ensures keeper.locks.state == old(keeper.locks.state).(now := old(keeper.locks.state).now + d)
  {
    hide LP.Run, LP.After, LP.Initial, TurnsOk, OnDisk;
    ghost var before := keeper.locks.history;
    keeper.locks.Step(LP.Tick(d));
    TurnsStay(keeper.locks.owners, keeper.locks.init, before, keeper.locks.history, keeper.turns);
  }

  lemma FirstIsGone(content: seq<byte>)
    requires SavedOnly(content, SECOND)
    ensures Unmarshal(content).Some? && FIRST !in Unmarshal(content).value.verified
  {
    hide Unmarshal, PrintsAs;
    SecondIsNotFirst();
  }
}

/**
 The saver of the middleware as sequential code on the real counters, lock and disk, with
 request handlers, the janitor and the clock running between any two of its steps. What it does
 is a run of the save protocol, and the file on disk is the one of the protocol.
 */
module StateKeeper {
  import opened Wrappers
  import opened Utf8
  import opened GoCache
  import opened Counters
  import opened StateFile
  import opened AtomicWrite
  import opened SaveProtocol
  import FileLock
  import LockProtocol
  import StateRoundTrip

  predicate IsSaverStep(a: Action) {
    a.ReadCounter? || a.TakeSnapshot? || a.ReplaceFile? || a.SaveFails? || a.RecordSaved?
  }

  /** Nothing was forgotten: marks and Sets were only added. */
  ghost predicate Extends(s: SaveState, s': SaveState) {
    && |s.marks| <= |s'.marks| && (forall i :: 0 <= i < |s.marks| ==> s'.marks[i] == s.marks[i])
    && |s.log| <= |s'.log| && (forall i :: 0 <= i < |s.log| ==> s'.log[i] == s.log[i])
    && s.now <= s'.now
  }

  /** What only the saver changes. */
  ghost predicate SameSaver(s: SaveState, s': SaveState) {
    s'.saver == s.saver && s'.file == s.file && s'.saved == s.saved && s'.stateSavedDirty == s.stateSavedDirty
  }

  lemma StepExtends(s: SaveState, a: Action)
    requires Enabled(s, a)
    ensures Extends(s, Apply(s, a)) && (!IsSaverStep(a) ==> SameSaver(s, Apply(s, a)))
  {
  }

  /** The content is the file a save of these items writes, for some order of visiting them. */
  ghost predicate IsSaveOf(content: Option<seq<byte>>, items: map<Key, Item>) {
    content.Some? && exists order ::
      IsIteration(order, items) && Printable(order, items) && content.value == StateText(order, items)
  }

  /** A file that was saved at this time loads, and none of its entries had expired by then. */
  ghost predicate OnlyLive(content: Option<seq<byte>>, at: int) {
    && content.Some? && Unmarshal(content.value).Some?
    && forall k :: k in Unmarshal(content.value).value.verified ==>
                     !(0 < Unmarshal(content.value).value.verified[k].expiration < at)
  }

  lemma FreshIsOnlyLive(content: Option<seq<byte>>, snapshot: Snapshot)
    requires IsSaveOf(content, snapshot.items) && Fresh(snapshot)
    ensures OnlyLive(content, snapshot.at)
  {
    hide StateText, Unmarshal, StateRoundTrip.PrintsAs;
    var order :| && IsIteration(order, snapshot.items) && Printable(order, snapshot.items)
                 && content.value == StateText(order, snapshot.items);
    StateRoundTrip.ReadBackWasPrinted(order, snapshot.items, []);
    forall k | k in Unmarshal(content.value).value.verified
      ensures !(0 < Unmarshal(content.value).value.verified[k].expiration < snapshot.at)
    {
      StateRoundTrip.ReadBackWasPrinted(order, snapshot.items, k);
    }
  }

  function ContentAt(files: Files, path: Path): Option<seq<byte>> {
    if path in files then Some(files[path]) else None
  }

  /** The content is the protocol's file, or what was there at the start if nothing was saved yet. */
  ghost predicate OnDisk(file: Option<Snapshot>, start: Option<seq<byte>>, content: Option<seq<byte>>) {
    if file.Some? then IsSaveOf(content, file.value.items) else content == start
  }

  /** What a crash may leave: the last file that was completed, or that of the save under way. */
  ghost predicate CrashContent(s: SaveState, start: Option<seq<byte>>, content: Option<seq<byte>>) {
    || OnDisk(s.file, start, content)
    || (s.saver.SnapshotTaken? && IsSaveOf(content, s.saver.snapshot.items))
  }

  lemma WrittenIsSave(content: Option<seq<byte>>, items: map<Key, Item>, order: seq<Key>)
    requires IsIteration(order, items) && Printable(order, items) && content == Some(StateText(order, items))
    ensures IsSaveOf(content, items)
  {
  }

  /** Every state of the disk while the file is replaced is one a crash may leave. */
  lemma ReplacingIsCrashContent(s: SaveState, start: Option<seq<byte>>, files: Files, before: Files, path: Path,
                                order: seq<Key>)
    requires s.saver.SnapshotTaken? && OnDisk(s.file, start, ContentAt(before, path))
    requires OldOrNew(files, before, path, s.saver.snapshot.items, order)
    ensures CrashContent(s, start, ContentAt(files, path))
  {
    if !SameAt(files, before, path) {
      WrittenIsSave(ContentAt(files, path), s.saver.snapshot.items, order);
    }
  }

  datatype SaveResult = Saved | NotSaved | Waiting

  /** A period of the lock's history in which an attempt held the lock and wrote the state file. */
  datatype Turn = Turn(p: LockProtocol.Attempt, from: nat, to: nat)

  ghost predicate TurnsOk(owners: LockProtocol.Owners, init: LockProtocol.State, history: seq<LockProtocol.Action>,
                          turns: seq<Turn>) {
    forall i :: 0 <= i < |turns| ==>
      FileLock.HoldsThroughout(owners, init, history, turns[i].p, turns[i].from, turns[i].to)
  }

  lemma TurnsStay(owners: LockProtocol.Owners, init: LockProtocol.State, before: seq<LockProtocol.Action>,
                  after: seq<LockProtocol.Action>, turns: seq<Turn>)
    requires FileLock.Continues(before, after) && TurnsOk(owners, init, before, turns)
    ensures TurnsOk(owners, init, after, turns)
  {
    forall i | 0 <= i < |turns|
      ensures FileLock.HoldsThroughout(owners, init, after, turns[i].p, turns[i].from, turns[i].to)
    {
      FileLock.PeriodStays(owners, init, before, after, turns[i].p, turns[i].from, turns[i].to);
    }
  }

  /**
   The state file has one writer at a time: in a run of the lock that meets its assumptions, two
   turns (of one process or of two) that share a point of the history are of the same attempt.
   */
  lemma OneWriterAtATime(owners: LockProtocol.Owners, init: LockProtocol.State, history: seq<LockProtocol.Action>,
                         mine: Turn, theirs: Turn, k: nat, release: nat, compare: nat)
    requires LockProtocol.Initial(owners, init) && LockProtocol.Run(owners, init, history)
    requires LockProtocol.InTime(owners, init, history, release, compare)
    requires LockProtocol.PrefixFree(owners) && compare <= release
    requires FileLock.HoldsThroughout(owners, init, history, mine.p, mine.from, mine.to)
    requires FileLock.HoldsThroughout(owners, init, history, theirs.p, theirs.from, theirs.to)
    requires mine.from <= k <= mine.to && theirs.from <= k <= theirs.to
    ensures mine.p == theirs.p
  {
    FileLock.PeriodsAreDisjoint(owners, init, history, mine.p, theirs.p, k, release, compare);
  }

  class Keeper {
    const counters: ChangeCounters
    const disk: Disk
    const path: Path
    const locks: FileLock.LockDir
    ghost const init: SaveState
    ghost const start: Option<seq<byte>>  // the content of the state file when the process started
    var state: SaveState
    ghost var history: seq<Action>
    ghost var turns: seq<Turn>
    // what the rest of the process does next; a step that is not possible is skipped
    var schedule: seq<Action>

    ghost predicate Running()
      reads this
    {
      Initial(init) && init.file.None? && Run(init, history) && After(init, history) == state
    }

    ghost predicate Valid()
      reads this, counters, disk, locks
    {
      && Running() && disk.Valid() && locks.Valid() && counters.hasStateFile
      && counters.stateDirty == state.stateDirty && counters.stateSavedDirty == state.stateSavedDirty
      && OnDisk(state.file, start, ContentAt(disk.files, path))
      && TurnsOk(locks.owners, locks.init, locks.history, turns)
    }

    /** Nobody else does anything, nothing goes wrong, and the name of the temporary file is free. */
    ghost predicate Quiet(suffix: string)
      reads this, disk, locks
    {
      schedule == [] && locks.Quiet() && disk.sound && TempName(path, suffix) !in disk.files && AllBool(state.cache)
    }

    constructor (cache: map<Key, Item>, now: int, counters: ChangeCounters, disk: Disk, path: Path,
                 locks: FileLock.LockDir, schedule: seq<Action>)
      requires disk.Valid() && locks.Valid()
      requires counters.hasStateFile && counters.stateDirty == counters.stateSavedDirty == 0
      ensures Valid() && state == SaveState(now, cache, 0, 0, None, Idle, cache, [], {}, [], 0)
      ensures this.counters == counters && this.disk == disk && this.path == path && this.locks == locks
      ensures this.schedule == schedule && start == ContentAt(disk.files, path) && turns == [] && init == state
    {
      this.counters, this.disk, this.path, this.locks := counters, disk, path, locks;
      var begun := SaveState(now, cache, 0, 0, None, Idle, cache, [], {}, [], 0);
      this.init := begun;
      this.state := begun;
      this.start := ContentAt(disk.files, path);
      this.history := [];
      this.turns := [];
      this.schedule := schedule;
    }

    /** Enter one step into the history. */
    method Record(a: Action)
      requires Running() && Enabled(state, a)
      modifies this`state, this`history
      ensures Running() && state == Apply(old(state), a) && Extends(old(state), state)
      ensures history == old(history) + [a]
    {
      RunSnoc(init, history, a);
      StepExtends(state, a);
      state := Apply(state, a);
      history := history + [a];
    }

    /** A step of somebody else. */
    method Step(a: Action)
      requires Valid() && Enabled(state, a) && !IsSaverStep(a)
      modifies this`state, this`history, counters`stateDirty
      ensures Valid() && state == Apply(old(state), a) && Extends(old(state), state) && SameSaver(old(state), state)
      ensures old(history) <= history
    {
      hide Run, After, Initial, OnDisk, TurnsOk;
      StepExtends(state, a);
      if a.HandlerMark? {
        counters.MarkStateDirty();
      }
      Record(a);
    }

    /** Everyone but the saver runs for as long as they like. */
    method Interfere()
      requires Valid()
      modifies this`state, this`history, this`schedule, counters`stateDirty
      ensures Valid() && Extends(old(state), state) && SameSaver(old(state), state) && old(history) <= history
      ensures old(schedule) == [] ==> schedule == [] && state == old(state)
    {
      hide Run, After, Initial, Apply, OnDisk, TurnsOk;
      var n: nat := *;
      var i := 0;
      while i < n && schedule != []
        invariant Valid() && Extends(old(state), state) && SameSaver(old(state), state) && old(history) <= history
        invariant old(schedule) == [] ==> schedule == [] && state == old(state)
        decreases |schedule|
      {
        var a := schedule[0];
        schedule := schedule[1..];
        if !IsSaverStep(a) && Enabled(state, a) {
          Step(a);
        }
        i := i + 1;
      }
    }

    /** The number of changes since the last save is exact as long as the counter does not wrap. */
    method UnsavedStateChanges() returns (n: nat)
      requires Valid()
      ensures |state.marks| < UINT64_RANGE ==> n == |state.marks| - state.saved
    {
      n := counters.UnsavedStateChanges();
      if |state.marks| < UINT64_RANGE {
        NoLostUpdate(init, history);
      }
    }

    /** The flag the save loop looks at. */
    method HasUnsavedState() returns (unsaved: bool)
      requires Valid()
      ensures unsaved <==> (|state.marks| - state.saved) % UINT64_RANGE != 0
    {
      unsaved := counters.HasUnsavedState();
      UnsavedFlagIsExact(init, history);
    }

    /**
     `saveStateNow`: when it succeeds, every change that was marked before the call is in the
     file, superseded in it, or expired; when it fails, file and saved counter are unchanged.
     */
    method SaveStateNow(p: LockProtocol.Attempt, rounds: nat, suffix: string) returns (r: SaveResult)
      requires Valid() && state.saver.Idle? && locks.At(p, LockProtocol.NotStarted)
      modifies this, counters, disk, locks
      ensures Valid() && Extends(old(state), state) && (r.Waiting? || state.saver.Idle?)
      ensures !r.Saved? ==> SameAt(disk.files, old(disk.files), path) && state.file == old(state.file)
      ensures !r.Saved? ==> counters.stateSavedDirty == old(counters.stateSavedDirty)
      ensures p !in locks.state.held ==> !r.Saved? && disk.seen == old(disk.seen)
      ensures r.Saved? ==> counters.stateSavedDirty == old(counters.stateDirty) && state.file.Some?
      ensures r.Saved? ==> disk.files.Keys == old(disk.files).Keys + {path}
      ensures r.Saved? ==> state.saved >= |old(state.marks)|
      ensures r.Saved? ==> old(state).now <= state.file.value.at <= state.now
      ensures r.Saved? ==> forall k :: k in state.file.value.items ==>
                !(0 < state.file.value.items[k].expiration < state.file.value.at)
      ensures r.Saved? ==> OnlyLive(ContentAt(disk.files, path), state.file.value.at)
      ensures r.Saved? ==> forall i :: 0 <= i < |old(state.marks)| ==>
                 state.marks[i] < |state.log| && AccountedFor(state.file.value, state.log, state.marks[i])
      ensures old(Quiet(suffix)) && rounds >= FileLock.QUIET_ROUNDS ==>
                && (r.Saved? <==> FileLock.WillLock(old(locks.state))) && QuietAfter(old(state), state)
                && QuietLocks(old(locks.state), locks.state, p, r.Saved?) && locks.Quiet()
    {
      hide Run, After, Initial, OnDisk, AccountedFor, TurnsOk, QuietLocks, FileLock.WillLock, FileLock.LockDir.Valid;
      hide Extends, OnlyLive;
      ghost var begun := state;
      var dirtyAtStart := counters.CurrentStateDirty();
      Record(ReadCounter);
      ghost var read := state;
      Interfere();
      ExtendsChain(begun, read, state);
      ghost var waiting := state;
      r := SaveStateToFile(p, rounds, suffix);
      ExtendsChain(begun, waiting, state);
      if r.Saved? {
        ghost var replaced := state;
        RecordSave(dirtyAtStart);
        ExtendsChain(begun, replaced, state);
        ExtendsKeepsMarks(begun, state);
        FileIsLive();
      }
    }

    lemma FileIsLive()
      requires Valid() && state.file.Some?
      ensures OnlyLive(ContentAt(disk.files, path), state.file.value.at)
      ensures forall k :: k in state.file.value.items ==>
                !(0 < state.file.value.items[k].expiration < state.file.value.at)
    {
      hide IsSaveOf;
      InitialInv(init);
      FileOfRun(init, history);
      FreshIsOnlyLive(ContentAt(disk.files, path), state.file.value);
    }

    lemma ExtendsKeepsMarks(s: SaveState, s': SaveState)
      requires Extends(s, s')
      ensures |s.marks| <= |s'.marks| && s.now <= s'.now
    {
    }

    /** `markStateSaved` with the count read at the start. */
    method RecordSave(dirty: uint64)
      requires Valid() && state.saver.FileReplaced? && state.saver.dirtyAtStart == dirty && state.file.Some?
      modifies this`state, this`history, counters`stateSavedDirty
      ensures Valid() && Extends(old(state), state) && QuietAfter(old(state), state)
      ensures state.saver.Idle? && state.file == old(state.file) && state.saved == old(state.saver.count)
      ensures counters.stateSavedDirty == dirty && state.saved <= |state.marks|
      ensures forall i :: 0 <= i < state.saved ==>
                 state.marks[i] < |state.log| && AccountedFor(state.file.value, state.log, state.marks[i])
    {
      hide Run, After, Initial, OnDisk, AccountedFor, TurnsOk, FileLock.LockDir.Valid;
      counters.MarkStateSaved(dirty);
      Record(RecordSaved);
      AllAccountedFor();
    }

    /** What a save changes in the lock directory when nobody else acts: nothing, but for a stale file. */
    static ghost predicate QuietLocks(s: LockProtocol.State, s': LockProtocol.State, p: LockProtocol.Attempt,
                                      saved: bool) {
      && FileLock.OthersRest(s, s', p) && s'.guard == s.guard && s'.now <= s.now + LockProtocol.LOCK_TIMEOUT
      && (saved ==> s'.lock.None?)
    }

    static ghost predicate QuietAfter(s: SaveState, s': SaveState) {
      s'.log == s.log && s'.loaded == s.loaded && s'.cache == s.cache && s'.now == s.now
    }

    /**
     `SaveStateToFileWithMetrics`: wait for the lock, take the snapshot, replace the file. Without
     the lock the disk is not touched. What the others do while it waits touches nothing it reads,
     and is part of what runs before.
     */
    method SaveStateToFile(p: LockProtocol.Attempt, rounds: nat, suffix: string) returns (r: SaveResult)
      requires Valid() && state.saver.CounterRead? && locks.At(p, LockProtocol.NotStarted)
      modifies this, counters`stateDirty, disk, locks
      ensures Valid() && Extends(old(state), state) && counters.stateSavedDirty == old(counters.stateSavedDirty)
      ensures !r.Saved? ==> SameAt(disk.files, old(disk.files), path) && state.file == old(state.file)
      ensures r.NotSaved? ==> state.saver.Idle?
      ensures r.Saved? ==> state.saver == FileReplaced(old(state.saver.dirtyAtStart), old(state.saver.count))
      ensures r.Saved? ==> state.file.Some? && disk.files.Keys == old(disk.files).Keys + {path}
      ensures r.Saved? ==> old(state).now <= state.file.value.at <= state.now
      ensures locks.At(p, if r.Waiting? then LockProtocol.Trying else LockProtocol.Done)
      ensures p !in locks.state.held ==> !r.Saved? && disk.seen == old(disk.seen) && turns == old(turns)
      ensures p in locks.state.held ==>
                && |turns| == |old(turns)| + 1 && turns[..|old(turns)|] == old(turns)
                && turns[|old(turns)|].p == p && |old(locks.history)| <= turns[|old(turns)|].from
      ensures old(Quiet(suffix)) && rounds >= FileLock.QUIET_ROUNDS ==>
                && (r.Saved? <==> FileLock.WillLock(old(locks.state))) && QuietAfter(old(state), state)
                && QuietLocks(old(locks.state), locks.state, p, r.Saved?) && locks.Quiet() && schedule == []
    {
      hide Run, After, Initial, OnDisk, TurnsOk, CrashContent, AllBool, FileLock.WillLock, FileLock.LockDir.Valid;
      hide FileLock.OthersRest, FileLock.UnlockFailed, FileLock.Continues, Extends;
      ghost var h0, s0, begun := locks.history, locks.state, state;
      var locked := FileLock.Lock(locks, p, rounds);
      ghost var h1, s1 := locks.history, locks.state;
      TurnsStay(locks.owners, locks.init, h0, h1, turns);
      if locked.Unfinished? {
        ExtendsChain(begun, state, state);
        return Waiting;
      }
      r := AfterLock(p, locked.Locked?, suffix);
      QuietChain(h0, h1, s0, s1, locks.state, p);
      ExtendsChain(begun, state, state);
    }

    /** The snapshot and the file, if the lock was obtained, and the deferred `Close` in any case. */
    method AfterLock(p: LockProtocol.Attempt, locked: bool, suffix: string) returns (r: SaveResult)
      requires Valid() && state.saver.CounterRead?
      requires locks.At(p, if locked then LockProtocol.Holding else LockProtocol.ReadingOwner)
      modifies this, counters`stateDirty, disk, locks
      ensures Valid() && Extends(old(state), state) && counters.stateSavedDirty == old(counters.stateSavedDirty)
      ensures !r.Waiting? && (r.Saved? ==> locked)
      ensures !r.Saved? ==> SameAt(disk.files, old(disk.files), path) && state.file == old(state.file)
      ensures r.NotSaved? ==> state.saver.Idle?
      ensures r.Saved? ==> state.saver == FileReplaced(old(state.saver.dirtyAtStart), old(state.saver.count))
      ensures r.Saved? ==> state.file.Some? && disk.files.Keys == old(disk.files).Keys + {path}
      ensures r.Saved? ==> old(state).now <= state.file.value.at <= state.now
      ensures locks.At(p, LockProtocol.Done) && FileLock.Kept(old(locks.state), locks.state, p)
      ensures !locked ==> disk.seen == old(disk.seen) && turns == old(turns)
      ensures locked ==>
                && |turns| == |old(turns)| + 1 && turns[..|old(turns)|] == old(turns)
                && turns[|old(turns)|].p == p && |old(locks.history)| <= turns[|old(turns)|].from
      ensures old(Quiet(suffix)) ==>
                && (r.Saved? <==> locked) && QuietAfter(old(state), state) && schedule == [] && locks.Quiet()
                && FileLock.OthersRest(old(locks.state), locks.state, p)
                && FileLock.SameFiles(FileLock.Released(old(locks.state), locks.owners[p]), locks.state)
    {
      hide Run, After, Initial, OnDisk, TurnsOk, CrashContent, AllBool, FileLock.LockDir.Valid;
      hide FileLock.OthersRest, FileLock.Continues, Extends;
      ghost var begun := state;
      if locked {
        ghost var point;
        r, point := SaveUnderLock(p, suffix);
      } else {
        Record(SaveFails);
        r := NotSaved;
      }
      ghost var closing := state;
      FinishSave(p);
      ExtendsChain(begun, closing, state);
      ExtendsKeepsMarks(closing, state);
    }

    lemma QuietChain(h0: seq<LockProtocol.Action>, h1: seq<LockProtocol.Action>,
                     s0: LockProtocol.State, s1: LockProtocol.State, s2: LockProtocol.State, p: LockProtocol.Attempt)
      ensures FileLock.OthersRest(s0, s1, p) && FileLock.OthersRest(s1, s2, p) ==> FileLock.OthersRest(s0, s2, p)
      ensures FileLock.Continues(h0, h1) ==> |h0| <= |h1|
    {
    }

    /** The deferred `Close`, and whatever the others do before the saver goes on. */
    method FinishSave(p: LockProtocol.Attempt)
      requires Valid() && (locks.At(p, LockProtocol.Holding) || locks.At(p, LockProtocol.ReadingOwner))
      modifies this`state, this`history, this`schedule, counters`stateDirty, locks
      ensures Valid() && Extends(old(state), state) && SameSaver(old(state), state)
      ensures locks.At(p, LockProtocol.Done) && FileLock.Kept(old(locks.state), locks.state, p)
      ensures old(schedule) == [] && old(locks.Quiet()) ==>
                && schedule == [] && state == old(state) && locks.Quiet()
                && FileLock.OthersRest(old(locks.state), locks.state, p)
                && FileLock.SameFiles(FileLock.Released(old(locks.state), locks.owners[p]), locks.state)
    {
      hide Run, After, Initial, OnDisk, TurnsOk, FileLock.LockDir.Valid, FileLock.OthersRest, FileLock.UnlockFailed;
      ghost var before := locks.history;
      var _ := FileLock.Close(locks, p);
      TurnsStay(locks.owners, locks.init, before, locks.history, turns);
      Interfere();
    }

    /**
     The part that runs under the lock, as long as the lock is held. Every state the disk goes
     through is one a crash may leave at that point of the run.
     */
    method SaveUnderLock(p: LockProtocol.Attempt, suffix: string) returns (r: SaveResult, ghost point: nat)
      requires Valid() && state.saver.CounterRead? && locks.At(p, LockProtocol.Holding)
      modifies this, counters`stateDirty, disk, locks
      ensures Valid() && Extends(old(state), state) && counters.stateSavedDirty == old(counters.stateSavedDirty)
      ensures !r.Waiting?
      ensures r.NotSaved? ==> SameAt(disk.files, old(disk.files), path) && state.file == old(state.file)
      ensures r.NotSaved? ==> state.saver.Idle?
      ensures r.Saved? ==> state.saver == FileReplaced(old(state.saver.dirtyAtStart), old(state.saver.count))
      ensures r.Saved? ==> state.file.Some? && disk.files.Keys == old(disk.files).Keys + {path}
      ensures r.Saved? ==> old(state).now <= state.file.value.at <= state.now
      ensures locks.At(p, LockProtocol.Holding) && FileLock.Continues(old(locks.history), locks.history)
      ensures FileLock.Kept(old(locks.state), locks.state, p)
      ensures turns == old(turns) + [Turn(p, |old(locks.history)|, |locks.history|)]
      ensures |old(history)| <= point <= |history| && Run(init, history[..point])
      ensures forall j :: |old(disk.seen)| <= j < |disk.seen| ==>
                CrashContent(After(init, history[..point]), start, ContentAt(disk.seen[j], path))
      ensures old(Quiet(suffix)) ==>
                && r.Saved? && QuietAfter(old(state), state) && schedule == []
                && locks.Quiet() && locks.state == old(locks.state)
    {
      hide Run, After, Initial, AllBool, OnDisk, TurnsOk, CrashContent, Apply, Enabled, IsSaveOf;
      hide FileLock.LockDir.Valid, FileLock.HoldsThroughout, FileLock.OthersRest, Extends;
      ghost var h0, begun := locks.history, state;
      UnexpiredStaysBool(state.cache, state.now);
      BeginSave(p);
      ghost var h1, during := locks.history, state;
      point := |history|;
      ghost var upToNow := history;
      assert history[..point] == history;
      r := ReplaceFile(suffix);
      ghost var h2 := locks.history;
      locks.Work(p);
      FileLock.Chain(h0, h1, locks.history, locks.state, locks.state, locks.state, p);
      FileLock.PeriodsJoin(locks.owners, locks.init, h1, locks.history, p, |h0|, |h1|, |locks.history|);
      AddTurn(h1, Turn(p, |h0|, |locks.history|));
      ExtendsChain(begun, during, state);
      assert history[..point] == upToNow;
    }

    lemma UnexpiredStaysBool(items: map<Key, Item>, now: int)
      ensures AllBool(items) ==> AllBool(Unexpired(items, now))
    {
    }

    lemma ExtendsChain(s0: SaveState, s1: SaveState, s2: SaveState)
      ensures Extends(s0, s0) && (Extends(s0, s1) && Extends(s1, s2) ==> Extends(s0, s2))
    {
    }

    /** The snapshot is taken, and everyone else goes on. */
    method BeginSave(p: LockProtocol.Attempt)
      requires Valid() && state.saver.CounterRead? && locks.At(p, LockProtocol.Holding)
      modifies this`state, this`history, this`schedule, counters`stateDirty, locks
      ensures Valid() && Extends(old(state), state) && old(history) <= history
      ensures state.saver.SnapshotTaken? && state.saver.count == old(state.saver.count)
      ensures old(state).now <= state.saver.snapshot.at <= state.now
      ensures state.saver.dirtyAtStart == old(state.saver.dirtyAtStart) && state.file == old(state.file)
      ensures locks.At(p, LockProtocol.Holding) && FileLock.Continues(old(locks.history), locks.history)
      ensures FileLock.Kept(old(locks.state), locks.state, p)
      ensures FileLock.HoldsThroughout(locks.owners, locks.init, locks.history, p,
                                       |old(locks.history)|, |locks.history|)
      ensures old(schedule) == [] && old(locks.Quiet()) ==>
                && schedule == [] && locks.Quiet() && locks.state == old(locks.state)
                && QuietAfter(old(state), state)
                && state.saver.snapshot.items == Unexpired(old(state.cache), old(state.now))
    {
      hide Run, After, Initial, OnDisk, TurnsOk, FileLock.LockDir.Valid, FileLock.HoldsThroughout;
      ghost var begun := state;
      Record(TakeSnapshot);
      ghost var taken := state;
      Interfere();
      ExtendsChain(begun, taken, state);
      ghost var h0 := locks.history;
      locks.Work(p);
      TurnsStay(locks.owners, locks.init, h0, locks.history, turns);
    }

    /** The snapshot becomes the file, or the file stays. */
    method ReplaceFile(suffix: string) returns (r: SaveResult)
      requires Valid() && state.saver.SnapshotTaken?
      modifies this`state, this`history, disk
      ensures Valid() && Extends(old(state), state) && old(history) <= history && !r.Waiting?
      ensures r.NotSaved? ==> SameAt(disk.files, old(disk.files), path) && state.file == old(state.file)
      ensures r.NotSaved? ==> state.saver.Idle?
      ensures r.Saved? ==> state.saver == FileReplaced(old(state.saver.dirtyAtStart), old(state.saver.count))
      ensures r.Saved? ==> state.file.Some? && disk.files.Keys == old(disk.files).Keys + {path}
      ensures r.Saved? ==> state.file.value == old(state.saver.snapshot)
      ensures forall j :: |old(disk.seen)| <= j < |disk.seen| ==>
                CrashContent(old(state), start, ContentAt(disk.seen[j], path))
      ensures QuietAfter(old(state), state)
      ensures disk.sound && TempName(path, suffix) !in old(disk.files) && AllBool(old(state.saver.snapshot.items)) ==>
                r.Saved?
    {
      hide Run, After, Initial, StateText, Printable, IsIteration, AllBool, OldOrNew, OnDisk, TurnsOk, CrashContent;
      hide FileLock.LockDir.Valid;
      var snapshot := state.saver.snapshot;
      ghost var files, seen, during := disk.files, disk.seen, state;
      var written, order, tmp := AtomicWriteStateFile(disk, path, snapshot.items, suffix);
      forall j | |seen| <= j < |disk.seen| ensures CrashContent(during, start, ContentAt(disk.seen[j], path)) {
        ReplacingIsCrashContent(during, start, disk.seen[j], files, path, order);
      }
      if written {
        WrittenIsSave(ContentAt(disk.files, path), snapshot.items, order);
        FileIs(snapshot);
        Record(Action.ReplaceFile);
        r := Saved;
      } else {
        SameContent(disk.files, files);
        Record(SaveFails);
        r := NotSaved;
      }
    }

    method AddTurn(ghost before: seq<LockProtocol.Action>, ghost turn: Turn)
      requires TurnsOk(locks.owners, locks.init, before, turns) && FileLock.Continues(before, locks.history)
      requires FileLock.HoldsThroughout(locks.owners, locks.init, locks.history, turn.p, turn.from, turn.to)
      modifies this`turns
      ensures turns == old(turns) + [turn] && TurnsOk(locks.owners, locks.init, locks.history, turns)
    {
      TurnsStay(locks.owners, locks.init, before, locks.history, turns);
      turns := turns + [turn];
    }

    lemma FileIs(snapshot: Snapshot)
      requires IsSaveOf(ContentAt(disk.files, path), snapshot.items)
      ensures OnDisk(Some(snapshot), start, ContentAt(disk.files, path))
    {
    }

    lemma SameContent(files: Files, before: Files)
      requires SameAt(files, before, path)
      ensures ContentAt(files, path) == ContentAt(before, path)
    {
    }

    lemma AllAccountedFor()
      requires Valid()
      ensures state.saved <= |state.marks|
      ensures forall i :: 0 <= i < state.saved ==>
                (&& state.file.Some? && state.marks[i] < |state.log|
                 && AccountedFor(state.file.value, state.log, state.marks[i]))
    {
      InitialInv(init);
      InvAlong(init, history);
      forall i | 0 <= i < state.saved
        ensures state.file.Some? && state.marks[i] < |state.log|
                && AccountedFor(state.file.value, state.log, state.marks[i])
      {
        Accounted(state.file.value, state.log, state.loaded, state.marks[i]);
      }
    }
  }
}

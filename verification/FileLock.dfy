/**
 `FileLock` as sequential code over a directory whose calls may fail, with the other attempts
 taking any number of steps between any two of its calls. The code decides by what its calls
 return; that it then stands where the lock protocol says is proved, so whatever it does is a
 run of the protocol and the protocol's theorems hold of it.
 */
module FileLock {
  import opened Wrappers
  import opened Utf8
  import opened LockProtocol

  datatype StatResult = Mtime(mtime: nat) | NotExist | StatError

  /** The ticker of `Lock`: 10 milliseconds. */
  const TICK: nat := 10_000_000

  /** The timer of attempt `p`, and whether it has held the lock, are as they were. */
  ghost predicate Kept(s: State, s': State, p: Attempt) {
    && (p in s'.held <==> p in s.held) && (p in s'.deadline <==> p in s.deadline)
    && (p in s.deadline ==> s'.deadline[p] == s.deadline[p])
  }

  /** Nobody but `p` has moved. */
  ghost predicate OthersRest(s: State, s': State, p: Attempt) {
    forall q :: q != p ==>
      && (q in s'.pc <==> q in s.pc) && (q in s.pc ==> s'.pc[q] == s.pc[q])
      && (q in s'.held <==> q in s.held)
  }

  ghost predicate SameFiles(s: State, s': State) {
    s'.lock == s.lock && s'.guard == s.guard && s'.now == s.now
  }

  /** The lock file and its guard, as the attempts of all processes share them. */
  class LockDir {
    const owners: Owners
    const sound: bool  // no call fails, and no wait is longer than a tick
    ghost const init: State
    var state: State
    ghost var history: seq<Action>
    // what the other attempts want to do next; a step that is not possible is skipped
    var schedule: seq<Action>

    ghost predicate Valid()
      reads this
    {
      Initial(owners, init) && Run(owners, init, history) && After(owners, init, history) == state
    }

    /** Nobody else does anything, and nothing goes wrong. */
    ghost predicate Quiet()
      reads this
    {
      sound && schedule == []
    }

    ghost predicate At(p: Attempt, pc: Pc)
      reads this
    {
      p in owners && p in state.pc && state.pc[p] == pc
    }

    constructor (owners: Owners, schedule: seq<Action>, sound: bool)
      ensures Valid() && this.owners == owners && this.schedule == schedule && this.sound == sound
      ensures state.lock.None? && state.guard.None? && state.now == 0
      ensures forall p :: p in owners ==> At(p, NotStarted)
    {
      this.owners := owners;
      this.schedule := schedule;
      this.sound := sound;
      var start := State(0, None, None, map p | p in owners :: NotStarted, map[], {});
      this.init := start;
      this.state := start;
      this.history := [];
    }

    /** One call, or the passing of time. */
    method Step(a: Action)
      requires Valid() && Enabled(owners, state, a)
      modifies this`state, this`history
      ensures Valid() && state == Apply(owners, old(state), a) && history == old(history) + [a]
    {
      RunSnoc(owners, init, history, a, 0, 0);
      state := Apply(owners, state, a);
      history := history + [a];
    }

    /** A call by attempt `p`, and whatever the others do before its next one. */
    method Call(a: Action)
      requires Valid() && !a.Tick? && Enabled(owners, state, a)
      modifies this
      ensures Valid() && At(a.p, NextPc(owners, old(state), a)) && old(state).now <= state.now
      ensures OnlyStep(old(history), history, a)
      ensures !a.Begin? && !(a.Write? && a.ok) ==> Kept(old(state), state, a.p)
      ensures a.Write? && a.ok ==> a.p in state.held
      ensures old(schedule) == [] ==>
                && schedule == [] && state == Apply(owners, old(state), a)
                && OthersRest(old(state), state, a.p)
    {
      Frame(owners, state, a);
      Step(a);
      Interfere(a.p);
    }

    /** The other attempts run for as long as they like. */
    method Interfere(p: Attempt)
      requires Valid() && p in state.pc
      modifies this
      ensures Valid() && p in state.pc && state.pc[p] == old(state.pc[p]) && Kept(old(state), state, p)
      ensures Continues(old(history), history) && !Acted(old(history), history, p) && old(state).now <= state.now
      ensures old(schedule) == [] ==> schedule == [] && state == old(state)
    {
      var n: nat := *;
      var i := 0;
      while i < n && schedule != []
        invariant Valid() && p in state.pc && state.pc[p] == old(state.pc[p]) && Kept(old(state), state, p)
        invariant Continues(old(history), history) && !Acted(old(history), history, p) && old(state).now <= state.now
        invariant old(schedule) == [] ==> schedule == [] && state == old(state)
        decreases |schedule|
      {
        var a := schedule[0];
        schedule := schedule[1..];
        if !IsStepOf(a, p) && Enabled(owners, state, a) {
          Frame(owners, state, a);
          Step(a);
        }
        i := i + 1;
      }
    }

    /** A call that nothing but its circumstances can make fail fails only where things go wrong. */
    method Works() returns (ok: bool)
      ensures sound ==> ok
    {
      ok := *;
      ok := ok || sound;
    }

    // the calls of the code, which may fail for other reasons than the state of the directory

    /** `Lock` is called, and its timer starts. */
    method BeginLock(p: Attempt)
      requires Valid() && At(p, NotStarted)
      modifies this
      ensures Valid() && Continues(old(history), history) && At(p, Trying)
      ensures p !in old(state).held && p !in state.held
      ensures p in state.deadline && state.deadline[p] == old(state).now + LOCK_TIMEOUT
      ensures old(Quiet()) ==> Quiet() && SameFiles(old(state), state) && OthersRest(old(state), state, p)
    {
      HeldAlong(owners, init, history);
      hide Run, After, Initial, OnlyStep;
      Step(Begin(p));
      Interfere(p);
    }

    /** Exclusive creation of the lock file: it succeeds only on a free path. */
    method CreateLock(p: Attempt) returns (ok: bool)
      requires Valid() && At(p, Trying)
      modifies this
      ensures Valid() && OnlyStep(old(history), history, Create(p, ok)) && Kept(old(state), state, p)
      ensures ok ==> old(state).lock.None?
      ensures At(p, if ok then Writing else Examining)
      ensures old(Quiet()) ==>
                && Quiet() && OthersRest(old(state), state, p) && (ok <==> old(state).lock.None?)
                && SameFiles(if ok then old(state).(lock := Some(LockFile(p, old(state).now, []))) else old(state),
                             state)
    {
      hide Run, After, Initial, OnlyStep;
      ok := Works();
      ok := ok && state.lock.None?;
      Call(Create(p, ok));
    }

    /** Writing the owner string, syncing and closing; a failure may leave a part of it. */
    method WriteOwner(p: Attempt) returns (ok: bool)
      requires Valid() && At(p, Writing)
      modifies this
      ensures Valid() && Continues(old(history), history)
      ensures At(p, if ok then Holding else Discarding)
      ensures p in state.held <==> ok || p in old(state).held
      ensures old(Quiet()) ==> Quiet() && ok && OthersRest(old(state), state, p)
      ensures old(Quiet()) && old(state).lock.Some? && old(state).lock.value.creator == p ==>
                SameFiles(old(state).(lock := Some(LockFile(p, old(state).now, owners[p]))), state)
    {
      hide Run, After, Initial, OnlyStep;
      ok := Works();
      var written := owners[p];
      if !ok {
        var n: int := *;
        if 0 <= n <= |written| {
          written := written[..n];
        }
      }
      Call(Write(p, ok, written));
    }

    /** Removing the lock path after a failed write; an error is ignored. */
    method DiscardLock(p: Attempt) returns (ok: bool)
      requires Valid() && At(p, Discarding)
      modifies this
      ensures Valid() && OnlyStep(old(history), history, Discard(p, ok)) && At(p, ReadingOwner)
      ensures Kept(old(state), state, p)
    {
      hide Run, After, Initial, OnlyStep;
      ok := Works();
      Call(Discard(p, ok));
    }

    /** The first Stat of the lock path. */
    method StatLock(p: Attempt) returns (info: StatResult)
      requires Valid() && At(p, Examining)
      modifies this
      ensures Valid() && Continues(old(history), history) && Kept(old(state), state, p)
      ensures SeesLock(info, old(state))
      ensures At(p, if info.Mtime? then Comparing(info.mtime) else Waiting)
      ensures old(Quiet()) ==>
                && Quiet() && OthersRest(old(state), state, p) && SameFiles(old(state), state)
                && (info.Mtime? <==> old(state).lock.Some?)
    {
      hide Run, After, Initial, OnlyStep;
      var ok := Works();
      info := Seen(ok, state);
      Call(Stat(p, info.Mtime?));
    }

    /** The Stat under the guard. */
    method StatAgain(p: Attempt) returns (info: StatResult)
      requires Valid() && At(p, Restating)
      modifies this
      ensures Valid() && Continues(old(history), history) && Kept(old(state), state, p)
      ensures SeesLock(info, old(state))
      ensures At(p, match info
                    case Mtime(m) => Recomparing(m, old(state).now)
                    case NotExist => ReleasingGuard(Removed)
                    case StatError => ReleasingGuard(NotRemoved))
      ensures old(Quiet()) ==>
                && Quiet() && OthersRest(old(state), state, p) && SameFiles(old(state), state)
                && (info.Mtime? <==> old(state).lock.Some?) && !info.StatError?
    {
      hide Run, After, Initial, OnlyStep;
      var ok := Works();
      info := Seen(ok, state);
      Call(Restat(p, ok));
    }

    /** The clock reading of `time.Since`; the protocol branches on the same two times. */
    method ReadClock(p: Attempt, ghost mtime: nat) returns (now: nat)
      requires Valid() && (At(p, Comparing(mtime)) || exists t :: At(p, Recomparing(mtime, t)))
      modifies this
      ensures Valid() && Continues(old(history), history) && now == old(state).now && Kept(old(state), state, p)
      ensures old(state).pc[p].Comparing? ==> At(p, if now - mtime > STALE_LOCK_AGE then MakingGuard else Waiting)
      ensures old(state).pc[p].Recomparing? ==>
                At(p, if now - mtime > STALE_LOCK_AGE then RemovingStale else ReleasingGuard(NotRemoved))
      ensures old(Quiet()) ==> Quiet() && OthersRest(old(state), state, p) && SameFiles(old(state), state)
    {
      hide Run, After, Initial, OnlyStep;
      now := state.now;
      if state.pc[p].Comparing? {
        Call(Compare(p));
      } else {
        Call(Recompare(p));
      }
    }

    /** Exclusive creation of the guard. */
    method CreateGuard(p: Attempt) returns (ok: bool)
      requires Valid() && At(p, MakingGuard)
      modifies this
      ensures Valid() && Continues(old(history), history) && Kept(old(state), state, p)
      ensures ok ==> old(state).guard.None?
      ensures At(p, if ok then WritingGuard else Waiting)
      ensures old(Quiet()) ==>
                && Quiet() && OthersRest(old(state), state, p) && (ok <==> old(state).guard.None?)
                && SameFiles(if ok then old(state).(guard := Some(p)) else old(state), state)
    {
      hide Run, After, Initial, OnlyStep;
      ok := Works();
      ok := ok && state.guard.None?;
      Call(MakeGuard(p, ok));
    }

    method WriteGuardOwner(p: Attempt) returns (ok: bool)
      requires Valid() && At(p, WritingGuard)
      modifies this
      ensures Valid() && Continues(old(history), history) && Kept(old(state), state, p)
      ensures At(p, if ok then Restating else DiscardingGuard)
      ensures old(Quiet()) ==> Quiet() && ok && OthersRest(old(state), state, p) && SameFiles(old(state), state)
    {
      hide Run, After, Initial, OnlyStep;
      ok := Works();
      Call(WriteGuard(p, ok));
    }

    method RemoveUnwrittenGuard(p: Attempt) returns (ok: bool)
      requires Valid() && At(p, DiscardingGuard)
      modifies this
      ensures Valid() && OnlyStep(old(history), history, DiscardGuard(p, ok)) && At(p, ReadingOwner)
      ensures Kept(old(state), state, p)
    {
      hide Run, After, Initial, OnlyStep;
      ok := Works();
      Call(DiscardGuard(p, ok));
    }

    /** `os.Remove` of the stale file; that it is gone already counts as success. */
    method RemoveStaleFile(p: Attempt) returns (ok: bool)
      requires Valid() && At(p, RemovingStale)
      modifies this
      ensures Valid() && Continues(old(history), history) && Kept(old(state), state, p)
      ensures At(p, ReleasingGuard(if ok then Removed else Failed))
      ensures old(Quiet()) ==>
                Quiet() && ok && OthersRest(old(state), state, p) && SameFiles(old(state).(lock := None), state)
    {
      hide Run, After, Initial, OnlyStep;
      ok := Works();
      Call(RemoveStale(p, ok));
    }

    /** The deferred `os.Remove` of the guard; an error is ignored. */
    method RemoveGuard(p: Attempt, outcome: Outcome) returns (ok: bool)
      requires Valid() && At(p, ReleasingGuard(outcome))
      modifies this
      ensures Valid() && OnlyStep(old(history), history, ReleaseGuard(p, ok)) && Kept(old(state), state, p)
      ensures At(p, match outcome case Removed => Trying case NotRemoved => Waiting case Failed => ReadingOwner)
      ensures old(Quiet()) ==>
                Quiet() && OthersRest(old(state), state, p) && SameFiles(old(state).(guard := None), state)
    {
      hide Run, After, Initial, OnlyStep;
      ok := Works();
      Call(ReleaseGuard(p, ok));
    }

    /**
     The select between the timer and the ticker: once the timer has fired, either may win. A
     sound directory is one in which a wait ends with the next tick, and the timer wins.
     */
    method AwaitTick(p: Attempt) returns (timeout: bool)
      requires Valid() && At(p, Waiting) && p in state.deadline
      modifies this
      ensures Valid() && Continues(old(history), history) && Kept(old(state), state, p)
      ensures At(p, if timeout then ReadingOwner else Trying)
      ensures timeout ==> old(state).deadline[p] <= state.now
      ensures old(Quiet()) ==>
                && Quiet() && OthersRest(old(state), state, p)
                && SameFiles(old(state).(now := old(state).now + TICK), state)
                && (timeout <==> old(state).deadline[p] <= state.now)
    {
      hide Run, After, Initial, OnlyStep;
      var nap: nat := *;
      if sound {
        nap := TICK;
      }
      if nap > 0 {
        Step(Tick(nap));
      }
      var tickerWins := Works();
      timeout := state.deadline[p] <= state.now && (sound || !tickerWins);
      Call(if timeout then Timeout(p) else Retry(p));
    }

    /** While an attempt works under the guard, the guard is the one it made. */
    lemma GuardIsOwn(p: Attempt)
      requires Valid() && p in state.pc && UnderGuard(state.pc[p])
      ensures state.guard == Some(p)
    {
      GuardAlong(owners, init, history);
    }

    /** A holder at work: others do what they like, and it keeps holding. */
    method Work(p: Attempt)
      requires Valid() && At(p, Holding)
      modifies this
      ensures Valid() && At(p, Holding) && Continues(old(history), history) && Kept(old(state), state, p)
      ensures HoldsThroughout(owners, init, history, p, |old(history)|, |history|)
      ensures old(Quiet()) ==> Quiet() && state == old(state)
    {
      ghost var before := history;
      hide Initial;
      Interfere(p);
      assert history[..|before|] == before;
      forall k | |before| <= k <= |history| ensures HoldsAt(owners, init, history, p, k) {
        RestKeepsPosition(owners, init, before, history, p, k);
      }
    }
  }

  // --------------------------------------------------------------------------
  // Who holds the lock when
  // --------------------------------------------------------------------------

  /** After the first `k` steps attempt `p` held the lock. */
  ghost predicate HoldsAt(owners: Owners, init: State, history: seq<Action>, p: Attempt, k: nat) {
    && k <= |history| && Run(owners, init, history[..k])
    && p in After(owners, init, history[..k]).pc && After(owners, init, history[..k]).pc[p].Holding?
  }

  /** Attempt `p` held the lock all the time between two points of the history. */
  ghost predicate HoldsThroughout(owners: Owners, init: State, history: seq<Action>, p: Attempt, from: nat, to: nat) {
    from <= to <= |history| && forall k :: from <= k <= to ==> HoldsAt(owners, init, history, p, k)
  }

  /** What has been held is not changed by what comes later, and periods that meet are one. */
  lemma PeriodsJoin(owners: Owners, init: State, before: seq<Action>, after: seq<Action>, p: Attempt,
                    from: nat, middle: nat, to: nat)
    requires Continues(before, after)
    requires HoldsThroughout(owners, init, before, p, from, middle)
    requires HoldsThroughout(owners, init, after, p, middle, to)
    ensures HoldsThroughout(owners, init, after, p, from, to)
  {
    PeriodStays(owners, init, before, after, p, from, middle);
  }

  lemma PeriodStays(owners: Owners, init: State, before: seq<Action>, after: seq<Action>, p: Attempt,
                    from: nat, to: nat)
    requires Continues(before, after) && HoldsThroughout(owners, init, before, p, from, to)
    ensures HoldsThroughout(owners, init, after, p, from, to)
  {
    forall k | from <= k <= to ensures HoldsAt(owners, init, after, p, k) {
      assert HoldsAt(owners, init, before, p, k);
      assert after[..k] == before[..k];
    }
  }

  /**
   In a run that meets the assumptions of mutual exclusion, two attempts never hold the lock at
   the same point of the history: periods of holding do not overlap.
   */
  lemma PeriodsAreDisjoint(owners: Owners, init: State, history: seq<Action>, p: Attempt, q: Attempt, k: nat,
                           release: nat, compare: nat)
    requires Initial(owners, init) && Run(owners, init, history) && InTime(owners, init, history, release, compare)
    requires PrefixFree(owners) && compare <= release
    requires HoldsAt(owners, init, history, p, k) && HoldsAt(owners, init, history, q, k)
    ensures p == q
  {
    RunPrefix(owners, init, history, k, release, compare);
    MutualExclusion(owners, init, history[..k], release, compare);
  }

  /** As long as an attempt does not act it stays where it is. */
  lemma {:induction false} RestKeepsPosition(owners: Owners, init: State, before: seq<Action>, after: seq<Action>,
                                             p: Attempt, k: nat)
    requires Run(owners, init, before) && Run(owners, init, after)
    requires Continues(before, after) && !Acted(before, after, p) && |before| <= k <= |after|
    requires p in After(owners, init, before).pc
    ensures Run(owners, init, after[..k]) && p in After(owners, init, after[..k]).pc
    ensures After(owners, init, after[..k]).pc[p] == After(owners, init, before).pc[p]
    decreases k
  {
    RunPrefix(owners, init, after, k, 0, 0);
    if k == |before| {
      assert after[..k] == before;
    } else {
      RestKeepsPosition(owners, init, before, after, p, k - 1);
      var shorter, a := after[..k - 1], after[k - 1];
      assert after[..k] == shorter + [a];
      LastStep(owners, init, shorter, a);
      RunSnoc(owners, init, shorter, a, 0, 0);
      Frame(owners, After(owners, init, shorter), a);
      assert !IsStepOf(after[k - 1], p);
    }
  }

  /** The last step of a run was possible where it was taken. */
  lemma {:induction false} LastStep(owners: Owners, s: State, actions: seq<Action>, a: Action)
    requires Run(owners, s, actions + [a])
    ensures Run(owners, s, actions) && Enabled(owners, After(owners, s, actions), a)
    decreases |actions|
  {
    var longer := actions + [a];
    if actions != [] {
      assert longer[0] == actions[0] && longer[1..] == actions[1..] + [a];
      LastStep(owners, Apply(owners, s, actions[0]), actions[1..], a);
    }
  }

  /** What a Stat says of the lock path, when it works and when it does not. */
  function Seen(ok: bool, s: State): (info: StatResult)
    ensures SeesLock(info, s)
  {
    if !ok then StatError else if s.lock.Some? then Mtime(s.lock.value.mtime) else NotExist
  }

  predicate SeesLock(info: StatResult, s: State) {
    match info
    case Mtime(m) => s.lock.Some? && s.lock.value.mtime == m
    case NotExist => s.lock.None?
    case StatError => true
  }

  /** Where a step leaves the attempt that takes it. */
  function NextPc(owners: Owners, s: State, a: Action): Pc
    requires Enabled(owners, s, a) && !a.Tick?
  {
    Frame(owners, s, a);
    Apply(owners, s, a).pc[a.p]
  }

  ghost predicate Continues(before: seq<Action>, after: seq<Action>) {
    |before| <= |after| && forall i :: 0 <= i < |before| ==> after[i] == before[i]
  }

  /** Attempt `p` took a step between the two histories. */
  ghost predicate Acted(before: seq<Action>, after: seq<Action>, p: Attempt) {
    exists i :: |before| <= i < |after| && IsStepOf(after[i], p)
  }

  /** The attempt of `a` took this step and no other between the two histories. */
  ghost predicate OnlyStep(before: seq<Action>, after: seq<Action>, a: Action)
    requires !a.Tick?
    ensures OnlyStep(before, after, a) ==> Continues(before, after)
  {
    && Continues(before, after) && |before| < |after| && after[|before|] == a
    && forall i :: |before| < i < |after| ==> !IsStepOf(after[i], a.p)
  }

  ghost predicate Did(before: seq<Action>, after: seq<Action>, a: Action) {
    exists i :: |before| <= i < |after| && after[i] == a
  }

  lemma DidNext(start: seq<Action>, before: seq<Action>, after: seq<Action>, a: Action, b: Action)
    requires !a.Tick? && IsStepOf(b, a.p) && Continues(start, before) && OnlyStep(before, after, a)
    ensures Continues(start, after) && (Did(start, after, b) <==> Did(start, before, b) || a == b)
  {
    if a == b {
      assert after[|before|] == b;
    }
    if i :| |start| <= i < |before| && before[i] == b {
      assert after[i] == b;
    }
    if i :| |start| <= i < |after| && after[i] == b && i < |before| {
      assert before[i] == b;
    }
  }

  datatype LockResult = Locked | LockFailed | Unfinished

  datatype UnlockError = NotOurs | IOError

  /** The lock path was removed, or its removal was tried and failed. */
  ghost predicate Discarded(before: seq<Action>, after: seq<Action>, p: Attempt) {
    Did(before, after, Discard(p, true)) || Did(before, after, Discard(p, false))
  }

  /** `writeLockPID` on the lock file: on failure the lock path is removed. */
  method WriteLockPID(disk: LockDir, p: Attempt) returns (ok: bool)
    requires disk.Valid() && disk.At(p, Writing)
    modifies disk
    ensures disk.Valid() && Continues(old(disk.history), disk.history)
    ensures disk.At(p, if ok then Holding else ReadingOwner)
    ensures p in disk.state.held <==> ok || p in old(disk.state).held
    ensures !ok ==> Discarded(old(disk.history), disk.history, p)
    ensures old(disk.Quiet()) ==> disk.Quiet() && ok && OthersRest(old(disk.state), disk.state, p)
    ensures old(disk.Quiet()) && old(disk.state).lock.Some? && old(disk.state).lock.value.creator == p ==>
              SameFiles(old(disk.state).(lock := Some(LockFile(p, old(disk.state).now, disk.owners[p]))), disk.state)
  {
    hide Run, After, Initial, OnlyStep, Did;
    ok := disk.WriteOwner(p);
    if !ok {
      ghost var before := disk.history;
      var removed := disk.DiscardLock(p);
      DidNext(old(disk.history), before, disk.history, Discard(p, removed), Discard(p, removed));
    }
  }

  /** There is a lock file, and it is older than the stale age. */
  predicate IsStale(s: State) {
    s.lock.Some? && s.now - s.lock.value.mtime > STALE_LOCK_AGE
  }

  /** The first look at the file, before the guard: is it older than the stale age? */
  method LooksStale(disk: LockDir, p: Attempt) returns (stale: bool)
    requires disk.Valid() && disk.At(p, Examining)
    modifies disk
    ensures disk.Valid() && Continues(old(disk.history), disk.history)
    ensures disk.At(p, if stale then MakingGuard else Waiting)
    ensures Kept(old(disk.state), disk.state, p)
    ensures old(disk.Quiet()) ==>
              && disk.Quiet() && OthersRest(old(disk.state), disk.state, p) && SameFiles(old(disk.state), disk.state)
              && (stale <==> IsStale(old(disk.state)))
  {
    hide Run, After, Initial;
    var info := disk.StatLock(p);
    if !info.Mtime? {
      return false;
    }
    var now := disk.ReadClock(p, info.mtime);
    if now - info.mtime <= STALE_LOCK_AGE {
      return false;
    }
    return true;
  }

  /** Create the cleanup guard and write the owner string to it; `None` is an error. */
  method TakeGuard(disk: LockDir, p: Attempt) returns (taken: Option<bool>)
    requires disk.Valid() && disk.At(p, MakingGuard)
    modifies disk
    ensures disk.Valid() && Continues(old(disk.history), disk.history)
    ensures disk.At(p, match taken case None => ReadingOwner case Some(t) => if t then Restating else Waiting)
    ensures taken == Some(true) ==> old(disk.state).guard.None? && disk.state.guard == Some(p)
    ensures Kept(old(disk.state), disk.state, p)
    ensures old(disk.Quiet()) ==>
              && disk.Quiet() && OthersRest(old(disk.state), disk.state, p)
              && taken == Some(old(disk.state).guard.None?)
              && SameFiles(if taken == Some(true) then old(disk.state).(guard := Some(p)) else old(disk.state),
                           disk.state)
  {
    hide Run, After, Initial, OnlyStep, Continues, OthersRest;
    ghost var h0, s0 := disk.history, disk.state;
    var created := disk.CreateGuard(p);
    ghost var h1, s1 := disk.history, disk.state;
    if !created {
      return Some(false);
    }
    var written := disk.WriteGuardOwner(p);
    ghost var h2, s2 := disk.history, disk.state;
    Chain(h0, h1, h2, s0, s1, s2, p);
    if !written {
      var _ := disk.RemoveUnwrittenGuard(p);
      Chain(h0, h2, disk.history, s0, s2, disk.state, p);
      return None;
    }
    disk.GuardIsOwn(p);
    taken := Some(true);
  }

  /** The second look at the file, and its removal if it is still too old. */
  method RemoveIfStillStale(disk: LockDir, p: Attempt) returns (outcome: Outcome)
    requires disk.Valid() && disk.At(p, Restating)
    modifies disk
    ensures disk.Valid() && Continues(old(disk.history), disk.history)
    ensures disk.At(p, ReleasingGuard(outcome))
    ensures Kept(old(disk.state), disk.state, p)
    ensures old(disk.Quiet()) ==> disk.Quiet() && OthersRest(old(disk.state), disk.state, p)
    ensures old(disk.Quiet()) && IsStale(old(disk.state)) ==>
              outcome.Removed? && SameFiles(old(disk.state).(lock := None), disk.state)
  {
    hide Run, After, Initial, Continues, OthersRest;
    ghost var h0, s0 := disk.history, disk.state;
    var info := disk.StatAgain(p);
    ghost var h1, s1 := disk.history, disk.state;
    match info {
      case StatError => return NotRemoved;
      case NotExist => return Removed;
      case Mtime(mtime) =>
        var now := disk.ReadClock(p, mtime);
        ghost var h2, s2 := disk.history, disk.state;
        Chain(h0, h1, h2, s0, s1, s2, p);
        if now - mtime <= STALE_LOCK_AGE {
          return NotRemoved;
        }
        var removed := disk.RemoveStaleFile(p);
        Chain(h0, h2, disk.history, s0, s2, disk.state, p);
        outcome := if removed then Removed else Failed;
    }
  }

  /** The guard was removed, or its removal was tried and failed. */
  ghost predicate GuardReleased(before: seq<Action>, after: seq<Action>, p: Attempt) {
    Did(before, after, ReleaseGuard(p, true)) || Did(before, after, ReleaseGuard(p, false))
  }

  /** The part that runs with the cleanup guard in place; removing the guard is its last call. */
  method RemoveUnderGuard(disk: LockDir, p: Attempt) returns (removed: Option<bool>)
    requires disk.Valid() && disk.At(p, Restating)
    modifies disk
    ensures disk.Valid() && Continues(old(disk.history), disk.history)
    ensures disk.At(p, match removed case None => ReadingOwner case Some(r) => if r then Trying else Waiting)
    ensures GuardReleased(old(disk.history), disk.history, p)
    ensures Kept(old(disk.state), disk.state, p)
    ensures old(disk.Quiet()) ==> disk.Quiet() && OthersRest(old(disk.state), disk.state, p)
    ensures old(disk.Quiet()) && IsStale(old(disk.state)) ==>
              removed == Some(true) && SameFiles(old(disk.state).(lock := None, guard := None), disk.state)
  {
    hide Run, After, Initial, OnlyStep, Did;
    var outcome := RemoveIfStillStale(disk, p);
    ghost var before := disk.history;
    var ok := disk.RemoveGuard(p, outcome);
    DidNext(old(disk.history), before, disk.history, ReleaseGuard(p, ok), ReleaseGuard(p, ok));
    removed := match outcome case Removed => Some(true) case NotRemoved => Some(false) case Failed => None;
  }

  /** `removeStaleLock`: `None` is an error, after which Lock fails. */
  method RemoveStaleLock(disk: LockDir, p: Attempt) returns (removed: Option<bool>)
    requires disk.Valid() && disk.At(p, Examining)
    modifies disk
    ensures disk.Valid() && Continues(old(disk.history), disk.history)
    ensures disk.At(p, match removed case None => ReadingOwner case Some(r) => if r then Trying else Waiting)
    ensures Kept(old(disk.state), disk.state, p)
    ensures old(disk.Quiet()) ==>
              && disk.Quiet() && OthersRest(old(disk.state), disk.state, p)
              && removed == Some(IsStale(old(disk.state)) && old(disk.state).guard.None?)
              && SameFiles(if removed == Some(true) then old(disk.state).(lock := None) else old(disk.state),
                           disk.state)
  {
    hide Run, After, Initial, GuardReleased, Continues, OthersRest;
    ghost var h0, s0 := disk.history, disk.state;
    var stale := LooksStale(disk, p);
    ghost var h1, s1 := disk.history, disk.state;
    if !stale {
      return Some(false);
    }
    var taken := TakeGuard(disk, p);
    ghost var h2, s2 := disk.history, disk.state;
    Chain(h0, h1, h2, s0, s1, s2, p);
    if taken != Some(true) {
      return taken;
    }
    removed := RemoveUnderGuard(disk, p);
    Chain(h0, h2, disk.history, s0, s2, disk.state, p);
  }

  /** How many rounds a Lock needs at most where every wait is one tick. */
  const QUIET_ROUNDS: nat := LOCK_TIMEOUT / TICK + 2

  /**
   Whether a Lock called now gets the lock when nobody else acts and nothing fails: the path is
   free, or its file goes stale before the last look, which comes a tick before the timer.
   */
  predicate WillLock(s: State) {
    || s.lock.None?
    || (s.guard.None? && s.now + LOCK_TIMEOUT - TICK - s.lock.value.mtime > STALE_LOCK_AGE)
  }

  datatype RoundResult = GotLock | GaveUp | Again

  /** What a round does when nobody else acts and nothing fails. */
  ghost predicate QuietRound(s: State, s': State, p: Attempt, owner: seq<byte>, r: RoundResult)
    requires p in s.deadline
  {
    if s.lock.None? then
      r.GotLock? && SameFiles(s.(lock := Some(LockFile(p, s.now, owner))), s')
    else if IsStale(s) && s.guard.None? then
      r.Again? && SameFiles(s.(lock := None), s')
    else
      && SameFiles(s.(now := s.now + TICK), s')
      && r == (if s.deadline[p] <= s.now + TICK then GaveUp else Again)
  }

  /** One round of the loop of `Lock`. */
  method Round(disk: LockDir, p: Attempt) returns (r: RoundResult)
    requires disk.Valid() && disk.At(p, Trying) && p in disk.state.deadline && p !in disk.state.held
    modifies disk
    ensures disk.Valid() && Continues(old(disk.history), disk.history)
    ensures disk.At(p, match r case GotLock => Holding case GaveUp => ReadingOwner case Again => Trying)
    ensures p in disk.state.held <==> r.GotLock?
    ensures r.Again? ==> p in disk.state.deadline && disk.state.deadline[p] == old(disk.state).deadline[p]
    ensures old(disk.Quiet()) ==>
              && disk.Quiet() && OthersRest(old(disk.state), disk.state, p)
              && QuietRound(old(disk.state), disk.state, p, disk.owners[p], r)
  {
    hide Run, After, Initial, OnlyStep, Discarded, Continues, OthersRest;
    ghost var h0, s0 := disk.history, disk.state;
    var created := disk.CreateLock(p);
    ghost var h1, s1 := disk.history, disk.state;
    if created {
      var written := WriteLockPID(disk, p);
      r := if written then GotLock else GaveUp;
    } else {
      r := AfterRefusal(disk, p);
    }
    Chain(h0, h1, disk.history, s0, s1, disk.state, p);
  }

  /** The rest of a round, once the lock file could not be created. */
  method AfterRefusal(disk: LockDir, p: Attempt) returns (r: RoundResult)
    requires disk.Valid() && disk.At(p, Examining) && p in disk.state.deadline && p !in disk.state.held
    modifies disk
    ensures disk.Valid() && Continues(old(disk.history), disk.history) && !r.GotLock?
    ensures disk.At(p, if r.GaveUp? then ReadingOwner else Trying)
    ensures Kept(old(disk.state), disk.state, p)
    ensures old(disk.Quiet()) ==> disk.Quiet() && OthersRest(old(disk.state), disk.state, p)
    ensures old(disk.Quiet()) && old(disk.state).lock.Some? ==>
              QuietRound(old(disk.state), disk.state, p, disk.owners[p], r)
  {
    hide Run, After, Initial, OnlyStep, Continues, OthersRest;
    ghost var h0, s0 := disk.history, disk.state;
    var removedStale := RemoveStaleLock(disk, p);
    ghost var h1, s1 := disk.history, disk.state;
    if removedStale.None? {
      return GaveUp;
    }
    if removedStale.value {
      return Again;
    }
    var timeout := disk.AwaitTick(p);
    Chain(h0, h1, disk.history, s0, s1, disk.state, p);
    r := if timeout then GaveUp else Again;
  }

  lemma Chain(h0: seq<Action>, h1: seq<Action>, h2: seq<Action>, s0: State, s1: State, s2: State, p: Attempt)
    ensures Continues(h0, h1) && Continues(h1, h2) ==> Continues(h0, h2)
    ensures OthersRest(s0, s1, p) && OthersRest(s1, s2, p) ==> OthersRest(s0, s2, p)
  {
  }

  /** Where a quiet Lock stands at the beginning of a round. */
  ghost predicate QuietProgress(start: State, s: State, round: nat) {
    && s.guard == start.guard
    && (if s.lock == start.lock then
          && s.now == start.now + round * TICK && s.now < start.now + LOCK_TIMEOUT
          && (round > 0 ==> s.lock.Some? && (s.guard.Some? || s.now - TICK - s.lock.value.mtime <= STALE_LOCK_AGE))
        else
          && s.lock.None? && WillLock(start) && round * TICK <= LOCK_TIMEOUT
          && start.now <= s.now <= start.now + LOCK_TIMEOUT)
  }

  lemma QuietRoundProgress(start: State, s: State, s': State, p: Attempt, owner: seq<byte>, r: RoundResult, round: nat)
    requires QuietProgress(start, s, round) && p in s.deadline && s.deadline[p] == start.now + LOCK_TIMEOUT
    requires QuietRound(s, s', p, owner, r)
    ensures r.Again? ==> QuietProgress(start, s', round + 1) && round + 1 < QUIET_ROUNDS
    ensures r.GotLock? <==> s.lock.None?
    ensures !r.Again? ==> (WillLock(start) <==> r.GotLock?) && start.now <= s'.now <= start.now + LOCK_TIMEOUT
    ensures !r.Again? ==> s'.guard == start.guard
    ensures r.GotLock? ==> s'.lock == Some(LockFile(p, s'.now, owner))
    ensures r.GaveUp? ==> s'.lock == start.lock
  {
  }

  /**
   `Lock`, run for at most the given number of rounds of its loop. The attempt has held the
   lock exactly when Lock says so.
   */
  method Lock(disk: LockDir, p: Attempt, rounds: nat) returns (r: LockResult)
    requires disk.Valid() && disk.At(p, NotStarted)
    modifies disk
    ensures disk.Valid() && Continues(old(disk.history), disk.history)
    ensures disk.At(p, match r case Locked => Holding case LockFailed => ReadingOwner case Unfinished => Trying)
    ensures p in disk.state.held <==> r.Locked?
    ensures old(disk.Quiet()) ==> disk.Quiet() && OthersRest(old(disk.state), disk.state, p)
    ensures old(disk.Quiet()) && rounds >= QUIET_ROUNDS ==>
              && r == (if WillLock(old(disk.state)) then Locked else LockFailed)
              && disk.state.guard == old(disk.state).guard
              && old(disk.state).now <= disk.state.now <= old(disk.state).now + LOCK_TIMEOUT
              && disk.state.lock == (if r.Locked? then Some(LockFile(p, disk.state.now, disk.owners[p]))
                                     else old(disk.state).lock)
  {
    hide Run, After, Initial, QuietRound, QuietProgress, WillLock;
    ghost var start := disk.state;
    disk.BeginLock(p);
    QuietBegin(start, disk.state);
    for round := 0 to rounds
      invariant disk.Valid() && disk.At(p, Trying) && Continues(old(disk.history), disk.history)
      invariant p !in disk.state.held
      invariant p in disk.state.deadline && disk.state.deadline[p] == start.now + LOCK_TIMEOUT
      invariant old(disk.Quiet()) ==>
                  && disk.Quiet() && OthersRest(start, disk.state, p)
                  && QuietProgress(start, disk.state, round) && round < QUIET_ROUNDS
    {
      ghost var before := disk.state;
      var result := Round(disk, p);
      if old(disk.Quiet()) {
        QuietRoundProgress(start, before, disk.state, p, disk.owners[p], result, round);
      }
      if result.GotLock? {
        return Locked;
      }
      if result.GaveUp? {
        return LockFailed;
      }
    }
    return Unfinished;
  }

  lemma QuietBegin(start: State, s: State)
    ensures SameFiles(start, s) ==> QuietProgress(start, s, 0)
  {
  }

  /** A call of `Unlock` by attempt `p` failed between the two histories. */
  ghost predicate UnlockFailed(before: seq<Action>, after: seq<Action>, p: Attempt) {
    Did(before, after, ReadOwner(p, false)) || Did(before, after, RemoveOwn(p, false))
  }

  /** Attempt `p` removed the lock file as its own between the two histories. */
  ghost predicate RemovedOwn(before: seq<Action>, after: seq<Action>, p: Attempt) {
    Did(before, after, RemoveOwn(p, true))
  }

  /** How one more step of attempt `p` changes both. */
  lemma UnlockNext(start: seq<Action>, before: seq<Action>, after: seq<Action>, a: Action)
    requires !a.Tick? && Continues(start, before) && OnlyStep(before, after, a)
    ensures Continues(start, after)
    ensures UnlockFailed(start, after, a.p) <==>
            UnlockFailed(start, before, a.p) || a == ReadOwner(a.p, false) || a == RemoveOwn(a.p, false)
    ensures RemovedOwn(start, after, a.p) <==> RemovedOwn(start, before, a.p) || a == RemoveOwn(a.p, true)
  {
    DidNext(start, before, after, a, ReadOwner(a.p, false));
    DidNext(start, before, after, a, RemoveOwn(a.p, false));
    DidNext(start, before, after, a, RemoveOwn(a.p, true));
  }

  /** One call of `Unlock`, with what has been done since `start`. */
  method UnlockCall(disk: LockDir, a: Action, ghost start: seq<Action>)
    requires disk.Valid() && !a.Tick? && Enabled(disk.owners, disk.state, a) && Continues(start, disk.history)
    modifies disk
    ensures disk.Valid() && disk.At(a.p, NextPc(disk.owners, old(disk.state), a)) && Continues(start, disk.history)
    ensures UnlockFailed(start, disk.history, a.p) <==>
            UnlockFailed(start, old(disk.history), a.p) || a == ReadOwner(a.p, false) || a == RemoveOwn(a.p, false)
    ensures RemovedOwn(start, disk.history, a.p) <==>
            RemovedOwn(start, old(disk.history), a.p) || a == RemoveOwn(a.p, true)
    ensures !a.Begin? && !a.Write? ==> Kept(old(disk.state), disk.state, a.p)
    ensures old(disk.Quiet()) ==>
              && disk.Quiet() && OthersRest(old(disk.state), disk.state, a.p)
              && disk.state == Apply(disk.owners, old(disk.state), a)
  {
    hide Run, After, Initial, Apply;
    ghost var before := disk.history;
    disk.Call(a);
    UnlockNext(start, before, disk.history, a);
  }

  lemma NothingYet(start: seq<Action>, p: Attempt)
    ensures Continues(start, start) && !UnlockFailed(start, start, p) && !RemovedOwn(start, start, p)
  {
  }

  /** Reading the lock file: `None` is an error, `Some(None)` that there is no file. */
  method ReadLockFile(disk: LockDir, p: Attempt, ghost start: seq<Action>) returns (content: Option<Option<seq<byte>>>)
    requires disk.Valid() && disk.At(p, ReadingOwner) && Continues(start, disk.history)
    modifies disk
    ensures disk.Valid() && Continues(start, disk.history)
    ensures disk.At(p, if content == Some(Some(disk.owners[p])) then RemovingOwn else Done)
    ensures UnlockFailed(start, disk.history, p) <==> UnlockFailed(start, old(disk.history), p) || content.None?
    ensures RemovedOwn(start, disk.history, p) <==> RemovedOwn(start, old(disk.history), p)
    ensures Kept(old(disk.state), disk.state, p)
    ensures old(disk.Quiet()) ==>
              && disk.Quiet() && OthersRest(old(disk.state), disk.state, p) && SameFiles(old(disk.state), disk.state)
              && content == Some(if old(disk.state).lock.None? then None else Some(old(disk.state).lock.value.content))
  {
    hide Run, After, Initial, UnlockFailed, RemovedOwn, Continues, OthersRest;
    var ok := disk.Works();
    var file := disk.state.lock;
    UnlockCall(disk, ReadOwner(p, ok), start);
    content := if !ok then None else if file.None? then Some(None) else Some(Some(file.value.content));
  }

  method RemoveLockFile(disk: LockDir, p: Attempt, ghost start: seq<Action>) returns (ok: bool)
    requires disk.Valid() && disk.At(p, RemovingOwn) && Continues(start, disk.history)
    modifies disk
    ensures disk.Valid() && Continues(start, disk.history) && disk.At(p, Done)
    ensures UnlockFailed(start, disk.history, p) <==> UnlockFailed(start, old(disk.history), p) || !ok
    ensures RemovedOwn(start, disk.history, p) <==> RemovedOwn(start, old(disk.history), p) || ok
    ensures Kept(old(disk.state), disk.state, p)
    ensures old(disk.Quiet()) ==>
              && disk.Quiet() && OthersRest(old(disk.state), disk.state, p)
              && SameFiles(old(disk.state).(lock := None), disk.state)
  {
    hide Run, After, Initial, UnlockFailed, RemovedOwn, Continues, OthersRest;
    ok := disk.Works();
    UnlockCall(disk, RemoveOwn(p, ok), start);
  }

  /** A holder that starts to close; after a failed Lock there is nothing to do. */
  method BeginClose(disk: LockDir, p: Attempt, ghost start: seq<Action>)
    requires disk.Valid() && (disk.At(p, Holding) || disk.At(p, ReadingOwner)) && Continues(start, disk.history)
    modifies disk
    ensures disk.Valid() && Continues(start, disk.history) && disk.At(p, ReadingOwner)
    ensures UnlockFailed(start, disk.history, p) <==> UnlockFailed(start, old(disk.history), p)
    ensures RemovedOwn(start, disk.history, p) <==> RemovedOwn(start, old(disk.history), p)
    ensures Kept(old(disk.state), disk.state, p)
    ensures old(disk.Quiet()) ==>
              && disk.Quiet() && OthersRest(old(disk.state), disk.state, p) && SameFiles(old(disk.state), disk.state)
  {
    hide Run, After, Initial, UnlockFailed, RemovedOwn, Continues;
    if disk.state.pc[p].Holding? {
      UnlockCall(disk, LockProtocol.Close(p), start);
    }
  }

  /** Without the lock file, if it holds this owner string. */
  function Released(s: State, owner: seq<byte>): State {
    if s.lock.Some? && s.lock.value.content == owner then s.(lock := None) else s
  }

  /**
   `Unlock`, from the point where the lock is held or Lock has failed. It reports an I/O error
   exactly when a call failed, and another owner only if it has removed nothing.
   */
  method Unlock(disk: LockDir, p: Attempt) returns (error: Option<UnlockError>)
    requires disk.Valid() && (disk.At(p, Holding) || disk.At(p, ReadingOwner))
    modifies disk
    ensures disk.Valid() && Continues(old(disk.history), disk.history) && disk.At(p, Done)
    ensures error == Some(IOError) <==> UnlockFailed(old(disk.history), disk.history, p)
    ensures error == Some(NotOurs) ==> !RemovedOwn(old(disk.history), disk.history, p)
    ensures Kept(old(disk.state), disk.state, p)
    ensures old(disk.Quiet()) ==>
              && disk.Quiet() && OthersRest(old(disk.state), disk.state, p)
              && SameFiles(Released(old(disk.state), disk.owners[p]), disk.state)
  {
    hide Run, After, Initial, UnlockFailed, RemovedOwn, Continues, OthersRest;
    ghost var start, s0 := disk.history, disk.state;
    NothingYet(start, p);
    BeginClose(disk, p, start);
    ghost var s1 := disk.state;
    var content := ReadLockFile(disk, p, start);
    ghost var s2 := disk.state;
    Chain(start, start, start, s0, s1, s2, p);
    if content.None? {
      return Some(IOError);
    }
    if content.value.None? {
      return None;
    }
    if content.value.value != disk.owners[p] {
      return Some(NotOurs);
    }
    var removed := RemoveLockFile(disk, p, start);
    Chain(start, start, start, s0, s2, disk.state, p);
    error := if removed then None else Some(IOError);
  }

  /** `Close` suppresses the error that says the lock is someone else's. */
  method Close(disk: LockDir, p: Attempt) returns (error: Option<UnlockError>)
    requires disk.Valid() && (disk.At(p, Holding) || disk.At(p, ReadingOwner))
    modifies disk
    ensures disk.Valid() && Continues(old(disk.history), disk.history) && disk.At(p, Done)
    ensures error == if UnlockFailed(old(disk.history), disk.history, p) then Some(IOError) else None
    ensures Kept(old(disk.state), disk.state, p)
    ensures old(disk.Quiet()) ==>
              && disk.Quiet() && OthersRest(old(disk.state), disk.state, p)
              && SameFiles(Released(old(disk.state), disk.owners[p]), disk.state)
  {
    hide Run, After, Initial, UnlockFailed, RemovedOwn, Continues, OthersRest;
    error := Unlock(disk, p);
    assert error.None? || error.value.NotOurs? || error.value.IOError?;
    if error == Some(NotOurs) {
      error := None;
    }
  }

  /** When `Lock` has succeeded in a run that meets the assumptions, nobody else holds the lock. */
  method LockExclusively(disk: LockDir, p: Attempt, rounds: nat, ghost release: nat, ghost compare: nat)
    returns (r: LockResult)
    requires disk.Valid() && disk.At(p, NotStarted)
    modifies disk
    ensures disk.Valid()
    ensures r == Locked && PrefixFree(disk.owners) && compare <= release
            && InTime(disk.owners, disk.init, disk.history, release, compare) ==>
              forall q :: q in disk.state.pc && disk.state.pc[q].Holding? ==> q == p
  {
    r := Lock(disk, p, rounds);
    if PrefixFree(disk.owners) && compare <= release
       && InTime(disk.owners, disk.init, disk.history, release, compare) {
      MutualExclusion(disk.owners, disk.init, disk.history, release, compare);
    }
  }
}

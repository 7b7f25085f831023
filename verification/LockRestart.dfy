/**
 Locking after a crash: the lock file of an attempt that died lies at the lock path. How old it
 has to be for a new attempt to get past it, given that `Lock` gives up after five seconds; and
 that a cleanup guard which was left behind as well blocks everybody for ever.
 */
module LockRestart {
  import opened Wrappers
  import opened LockProtocol

  /** Positions from which an attempt cannot remove a file it has no reason to think stale. */
  predicate Harmless(pc: Pc, mtime: nat) {
    && !pc.Writing? && !pc.Discarding? && !pc.Holding? && !pc.RemovingStale? && !pc.RemovingOwn?
    && (pc.Recomparing? ==> pc.mtime == mtime)
  }

  /** The lock path names the file of an attempt that is over, and nobody is about to remove it. */
  ghost predicate Leftover(owners: Owners, s: State, file: LockFile) {
    && s.lock == Some(file) && file.creator in s.pc && !Live(s.pc[file.creator])
    && file.creator in owners && IsPrefix(file.content, owners[file.creator])
    && forall p :: p in s.pc ==> Harmless(s.pc[p], file.mtime)
  }

  /** The file stays until somebody under the guard finds it stale. */
  lemma LeftoverStays(owners: Owners, s: State, a: Action, file: LockFile)
    requires PrefixFree(owners) && Leftover(owners, s, file) && Enabled(owners, s, a)
    requires s.now <= file.mtime + STALE_LOCK_AGE || !a.Recompare?
    ensures Leftover(owners, Apply(owners, s, a), file)
  {
    hide IsPrefix, PrefixFree;
    Frame(owners, s, a);
    if !a.Tick? {
      StepIsHarmless(owners, s, a, file);
    }
  }

  lemma StepIsHarmless(owners: Owners, s: State, a: Action, file: LockFile)
    requires PrefixFree(owners) && Leftover(owners, s, file) && Enabled(owners, s, a) && !a.Tick?
    requires s.now <= file.mtime + STALE_LOCK_AGE || !a.Recompare?
    ensures var s' := Apply(owners, s, a);
            s'.lock == s.lock && Harmless(s'.pc[a.p], file.mtime) && (!Live(s.pc[a.p]) ==> !Live(s'.pc[a.p]))
  {
    if file.content == owners[a.p] {
      ContentIsCreators(owners, file, a.p);
    }
    hide PrefixFree;
    assert Harmless(s.pc[a.p], file.mtime);
    HarmlessKeepsLock(owners, s, a, file.mtime);
    HarmlessNext(owners, s, a, file);
  }

  lemma HarmlessKeepsLock(owners: Owners, s: State, a: Action, mtime: nat)
    requires Enabled(owners, s, a) && !a.Tick? && s.lock.Some? && Harmless(s.pc[a.p], mtime)
    ensures Apply(owners, s, a).lock == s.lock
  {
    hide IsPrefix;
  }

  lemma HarmlessNext(owners: Owners, s: State, a: Action, file: LockFile)
    requires Enabled(owners, s, a) && !a.Tick? && s.lock == Some(file) && Harmless(s.pc[a.p], file.mtime)
    requires s.now <= file.mtime + STALE_LOCK_AGE || !a.Recompare?
    requires file.content == owners[a.p] ==> !Live(s.pc[a.p])
    ensures var pc := Apply(owners, s, a).pc[a.p];
            Harmless(pc, file.mtime) && (!Live(s.pc[a.p]) ==> !Live(pc))
  {
    hide IsPrefix;
  }

  /** As long as it is there nobody's Lock succeeds. */
  lemma NobodyLocks(owners: Owners, s: State, a: Action, file: LockFile)
    requires Leftover(owners, s, file) && Enabled(owners, s, a)
    ensures Apply(owners, s, a).held == s.held
  {
    hide IsPrefix;
  }

  lemma ContentIsCreators(owners: Owners, file: LockFile, p: Attempt)
    requires PrefixFree(owners) && file.creator in owners && IsPrefix(file.content, owners[file.creator])
    requires p in owners && file.content == owners[p]
    ensures p == file.creator
  {
  }

  lemma {:induction false} TimeGoesOn(owners: Owners, s: State, actions: seq<Action>)
    requires Run(owners, s, actions)
    ensures s.now <= After(owners, s, actions).now && After(owners, s, actions).pc.Keys == s.pc.Keys
    decreases |actions|
  {
    if actions != [] {
      Frame(owners, s, actions[0]);
      TimeGoesOn(owners, Apply(owners, s, actions[0]), actions[1..]);
    }
  }

  /** Until the file is stale it stays, and nobody gets the lock: in every run, whoever tries. */
  lemma {:induction false} LeftoverBlocks(owners: Owners, s: State, actions: seq<Action>, file: LockFile)
    requires PrefixFree(owners) && Leftover(owners, s, file) && Run(owners, s, actions)
    requires After(owners, s, actions).now <= file.mtime + STALE_LOCK_AGE
    ensures Leftover(owners, After(owners, s, actions), file)
    decreases |actions|
  {
    if actions != [] {
      TimeGoesOn(owners, s, actions);
      LeftoverStays(owners, s, actions[0], file);
      LeftoverBlocks(owners, Apply(owners, s, actions[0]), actions[1..], file);
    }
  }

  /** There is a cleanup guard, and nobody is at work under it: nobody is going to remove it. */
  predicate Abandoned(s: State) {
    s.guard.Some? && (s.guard.value in s.pc ==> !UnderGuard(s.pc[s.guard.value]))
  }

  lemma AbandonedStep(owners: Owners, s: State, a: Action)
    requires GuardOk(s) && Abandoned(s) && Enabled(owners, s, a)
    ensures !a.Recompare? && GuardOk(Apply(owners, s, a)) && Abandoned(Apply(owners, s, a))
  {
    GuardStep(owners, s, a);
    hide IsPrefix;
  }

  /** Behind an abandoned guard a leftover file stays for ever, and nobody ever gets the lock. */
  lemma {:induction false} AbandonedBlocks(owners: Owners, s: State, actions: seq<Action>, file: LockFile)
    requires PrefixFree(owners) && Leftover(owners, s, file) && Run(owners, s, actions)
    requires GuardOk(s) && Abandoned(s)
    ensures Leftover(owners, After(owners, s, actions), file) && After(owners, s, actions).held == s.held
    decreases |actions|
  {
    if actions != [] {
      AbandonedStep(owners, s, actions[0]);
      LeftoverStays(owners, s, actions[0], file);
      NobodyLocks(owners, s, actions[0], file);
      AbandonedBlocks(owners, Apply(owners, s, actions[0]), actions[1..], file);
    }
  }

  /** Nobody gives up by the timer before five seconds have passed since it was started. */
  lemma GivesUpInTime(owners: Owners, s: State, p: Attempt, actions: seq<Action>)
    requires Run(owners, s, [Begin(p)] + actions)
    requires Enabled(owners, After(owners, s, [Begin(p)] + actions), Timeout(p))
    ensures s.now + 5_000_000_000 <= After(owners, s, [Begin(p)] + actions).now
  {
    assert ([Begin(p)] + actions)[1..] == actions;
    TimerStays(owners, Apply(owners, s, Begin(p)), p, actions);
  }

  lemma {:induction false} TimerStays(owners: Owners, s: State, p: Attempt, actions: seq<Action>)
    requires Run(owners, s, actions) && p in s.pc && !s.pc[p].NotStarted? && p in s.deadline
    ensures p in After(owners, s, actions).deadline && After(owners, s, actions).deadline[p] == s.deadline[p]
    decreases |actions|
  {
    if actions != [] {
      TimerStep(owners, s, p, actions[0]);
      TimerStays(owners, Apply(owners, s, actions[0]), p, actions[1..]);
    }
  }

  lemma TimerStep(owners: Owners, s: State, p: Attempt, a: Action)
    requires Enabled(owners, s, a) && p in s.pc && !s.pc[p].NotStarted? && p in s.deadline
    ensures var s' := Apply(owners, s, a);
            p in s'.pc && !s'.pc[p].NotStarted? && p in s'.deadline && s'.deadline[p] == s.deadline[p]
  {
    hide IsPrefix;
    Frame(owners, s, a);
  }

  /** Inside `Lock`. */
  predicate Locking(pc: Pc) {
    && Live(pc) && !pc.NotStarted? && !pc.Holding? && !pc.ReadingOwner? && !pc.RemovingOwn?
  }

  /** The attempt is never found in `Lock` more than `delay` after its timer has fired. */
  ghost predicate Punctual(owners: Owners, s: State, actions: seq<Action>, p: Attempt, delay: nat)
    requires Run(owners, s, actions)
    decreases |actions|
  {
    && InTimeToStop(s, p, delay)
    && (actions == [] || Punctual(owners, Apply(owners, s, actions[0]), actions[1..], p, delay))
  }

  ghost predicate InTimeToStop(s: State, p: Attempt, delay: nat) {
    p in s.pc && Locking(s.pc[p]) ==> p in s.deadline && s.now <= s.deadline[p] + delay
  }

  /** In no punctual run in which the attempt starts now does it get the lock. */
  ghost predicate NeverLocks(owners: Owners, s: State, p: Attempt, delay: nat) {
    forall actions ::
      Run(owners, s, [Begin(p)] + actions) && Punctual(owners, s, [Begin(p)] + actions, p, delay) ==>
        p !in After(owners, s, [Begin(p)] + actions).held
  }

  /**
   A restart after a crash gets past the dead attempt's file exactly when no cleanup guard was
   abandoned and the file can become stale before the attempt gives up. With 5 seconds to wait
   and 10 to go stale, a file that is no older than 5 seconds (less the delay) locks the new
   process out in every run; an abandoned guard does so for ever.
   */
  lemma RestartLocksExactly(owners: Owners, s: State, file: LockFile, p: Attempt, delay: nat)
    requires PrefixFree(owners) && Leftover(owners, s, file) && GuardOk(s) && s.pc.Keys == owners.Keys
    requires p in s.pc && s.pc[p].NotStarted? && p !in s.held
    ensures NeverLocks(owners, s, p, delay) <==>
            Abandoned(s) || s.now + 5_000_000_000 + delay <= file.mtime + 10_000_000_000
  {
    hide Run, After, Punctual, Leftover, GuardOk;
    if Abandoned(s) {
      forall actions | Run(owners, s, [Begin(p)] + actions) && Punctual(owners, s, [Begin(p)] + actions, p, delay)
        ensures p !in After(owners, s, [Begin(p)] + actions).held
      {
        AbandonedBlocks(owners, s, [Begin(p)] + actions, file);
      }
    } else if s.now + LOCK_TIMEOUT + delay <= file.mtime + STALE_LOCK_AGE {
      forall actions | Run(owners, s, [Begin(p)] + actions) && Punctual(owners, s, [Begin(p)] + actions, p, delay)
        ensures p !in After(owners, s, [Begin(p)] + actions).held
      {
        LockedOut(owners, s, file, p, delay, actions);
      }
    } else {
      var actions := GetsPast(owners, s, file, p, delay);
    }
  }

  // --------------------------------------------------------------------------
  // Locked out
  // --------------------------------------------------------------------------

  /** The attempt is still in `Lock` in front of the file, or has given up. */
  ghost predicate Blocked(owners: Owners, s: State, file: LockFile, p: Attempt, deadline: nat) {
    && p in s.pc && p in s.deadline && s.deadline[p] == deadline && p !in s.held
    && (if Locking(s.pc[p]) then Leftover(owners, s, file)
        else s.pc[p].ReadingOwner? || s.pc[p].RemovingOwn? || !Live(s.pc[p]))
  }

  lemma BlockedStep(owners: Owners, s: State, a: Action, file: LockFile, p: Attempt, deadline: nat, delay: nat)
    requires PrefixFree(owners) && Blocked(owners, s, file, p, deadline) && Enabled(owners, s, a)
    requires deadline + delay <= file.mtime + STALE_LOCK_AGE && InTimeToStop(s, p, delay)
    ensures Blocked(owners, Apply(owners, s, a), file, p, deadline)
  {
    Frame(owners, s, a);
    if Locking(s.pc[p]) {
      LeftoverStays(owners, s, a, file);
    }
    if !a.Tick? && a.p == p {
      OwnBlockedStep(owners, s, a, file, p, deadline);
    }
  }

  lemma OwnBlockedStep(owners: Owners, s: State, a: Action, file: LockFile, p: Attempt, deadline: nat)
    requires Blocked(owners, s, file, p, deadline) && Enabled(owners, s, a) && !a.Tick? && a.p == p
    ensures var s' := Apply(owners, s, a);
            && p in s'.deadline && s'.deadline[p] == deadline && p !in s'.held
            && (Locking(s'.pc[p]) ==> Locking(s.pc[p]))
            && (!Locking(s'.pc[p]) ==> s'.pc[p].ReadingOwner? || s'.pc[p].RemovingOwn? || !Live(s'.pc[p]))
  {
    if Locking(s.pc[p]) {
      assert Harmless(s.pc[p], file.mtime);
    }
    hide IsPrefix;
  }

  lemma {:induction false} BlockedAlong(owners: Owners, s: State, actions: seq<Action>, file: LockFile, p: Attempt,
                                        deadline: nat, delay: nat)
    requires PrefixFree(owners) && Blocked(owners, s, file, p, deadline)
    requires Run(owners, s, actions) && Punctual(owners, s, actions, p, delay)
    requires deadline + delay <= file.mtime + STALE_LOCK_AGE
    ensures p !in After(owners, s, actions).held
    decreases |actions|
  {
    hide Blocked, PrefixFree, Leftover;
    if actions == [] {
      BlockedNotHeld(owners, s, file, p, deadline);
    } else {
      BlockedStep(owners, s, actions[0], file, p, deadline, delay);
      BlockedAlong(owners, Apply(owners, s, actions[0]), actions[1..], file, p, deadline, delay);
    }
  }

  lemma BlockedNotHeld(owners: Owners, s: State, file: LockFile, p: Attempt, deadline: nat)
    requires Blocked(owners, s, file, p, deadline)
    ensures p !in s.held
  {
  }

  lemma LockedOut(owners: Owners, s: State, file: LockFile, p: Attempt, delay: nat, actions: seq<Action>)
    requires PrefixFree(owners) && Leftover(owners, s, file)
    requires p in owners && p in s.pc && s.pc[p].NotStarted? && p !in s.held
    requires s.now + LOCK_TIMEOUT + delay <= file.mtime + STALE_LOCK_AGE
    requires Run(owners, s, [Begin(p)] + actions) && Punctual(owners, s, [Begin(p)] + actions, p, delay)
    ensures p !in After(owners, s, [Begin(p)] + actions).held
  {
    var all := [Begin(p)] + actions;
    assert all[0] == Begin(p) && all[1..] == actions;
    LeftoverStays(owners, s, Begin(p), file);
    var s1 := Apply(owners, s, Begin(p));
    BlockedAlong(owners, s1, actions, file, p, s.now + LOCK_TIMEOUT, delay);
  }

  // --------------------------------------------------------------------------
  // Getting past
  // --------------------------------------------------------------------------

  /** A punctual run from `s0` to `s`. */
  ghost predicate Trace(owners: Owners, s0: State, actions: seq<Action>, s: State, p: Attempt, delay: nat) {
    && Run(owners, s0, actions) && After(owners, s0, actions) == s && Punctual(owners, s0, actions, p, delay)
  }

  lemma {:induction false} Do(owners: Owners, s0: State, actions: seq<Action>, s: State, a: Action,
                              p: Attempt, delay: nat)
    returns (s': State)
    requires Trace(owners, s0, actions, s, p, delay) && Enabled(owners, s, a)
    requires InTimeToStop(Apply(owners, s, a), p, delay)
    ensures s' == Apply(owners, s, a) && Trace(owners, s0, actions + [a], s', p, delay)
    decreases |actions|
  {
    s' := Apply(owners, s, a);
    var longer := actions + [a];
    if actions == [] {
      assert longer[1..] == [];
    } else {
      assert longer[0] == actions[0] && longer[1..] == actions[1..] + [a];
      var _ := Do(owners, Apply(owners, s0, actions[0]), actions[1..], s, a, p, delay);
    }
  }

  /** Once the guard is free and the file is stale: look, take the guard, look again, remove, lock. */
  lemma GetsPast(owners: Owners, s: State, file: LockFile, p: Attempt, delay: nat) returns (actions: seq<Action>)
    requires Leftover(owners, s, file) && !Abandoned(s) && s.pc.Keys == owners.Keys
    requires p in s.pc && s.pc[p].NotStarted?
    requires s.now + LOCK_TIMEOUT + delay > file.mtime + STALE_LOCK_AGE
    ensures Run(owners, s, [Begin(p)] + actions) && Punctual(owners, s, [Begin(p)] + actions, p, delay)
    ensures p in After(owners, s, [Begin(p)] + actions).held
  {
    var s1 := Do(owners, s, [], s, Begin(p), p, delay);
    var all, s2 := [] + [Begin(p)], s1;
    var age := file.mtime + STALE_LOCK_AGE + 1 - s.now;
    if age > 0 {
      s2 := Do(owners, s, all, s1, Tick(age), p, delay);
      all := all + [Tick(age)];
    }
    hide Trace, Leftover, IsPrefix;
    var all', s3 := FreeGuard(owners, s, all, s2, p, delay);
    all', s3 := ToGuard(owners, s, all', s3, p, delay);
    all', s3 := ToLock(owners, s, all', s3, p, delay);
    assert all'[0] == Begin(p);
    actions := all'[1..];
    assert [Begin(p)] + actions == all';
    TraceMeans(owners, s, all', s3, p, delay);
  }

  lemma TraceMeans(owners: Owners, s0: State, actions: seq<Action>, s: State, p: Attempt, delay: nat)
    requires Trace(owners, s0, actions, s, p, delay)
    ensures Run(owners, s0, actions) && After(owners, s0, actions) == s && Punctual(owners, s0, actions, p, delay)
  {
  }

  /** Whoever is at work under the guard gives it up, and leaves the lock file where it is. */
  lemma FreeGuard(owners: Owners, s0: State, actions: seq<Action>, s: State, p: Attempt, delay: nat)
    returns (actions': seq<Action>, s': State)
    requires Trace(owners, s0, actions, s, p, delay) && actions != [] && !Abandoned(s)
    requires s.pc.Keys == owners.Keys && p in s.pc && s.pc[p].Trying?
    requires p in s.deadline && s.now <= s.deadline[p] + delay
    ensures Trace(owners, s0, actions', s', p, delay) && actions <= actions' && s'.guard.None?
    ensures s'.lock == s.lock && s'.now == s.now && s'.deadline == s.deadline
    ensures p in s'.pc && s'.pc[p] == s.pc[p]
  {
    hide Trace;
    actions', s' := actions, s;
    if s.guard.Some? {
      var q := s.guard.value;
      if s'.pc[q].WritingGuard? {
        s' := Do(owners, s0, actions', s', WriteGuard(q, false), p, delay);
        actions' := actions' + [WriteGuard(q, false)];
      }
      if s'.pc[q].Restating? {
        s' := Do(owners, s0, actions', s', Restat(q, false), p, delay);
        actions' := actions' + [Restat(q, false)];
      }
      if s'.pc[q].Recomparing? {
        s' := Do(owners, s0, actions', s', Recompare(q), p, delay);
        actions' := actions' + [Recompare(q)];
      }
      if s'.pc[q].RemovingStale? {
        s' := Do(owners, s0, actions', s', RemoveStale(q, false), p, delay);
        actions' := actions' + [RemoveStale(q, false)];
      }
      var last := if s'.pc[q].DiscardingGuard? then DiscardGuard(q, true) else ReleaseGuard(q, true);
      s' := Do(owners, s0, actions', s', last, p, delay);
      actions' := actions' + [last];
    }
  }

  lemma ToGuard(owners: Owners, s0: State, actions: seq<Action>, s: State, p: Attempt, delay: nat)
    returns (actions': seq<Action>, s': State)
    requires Trace(owners, s0, actions, s, p, delay) && actions != []
    requires p in owners && p in s.pc && s.pc[p].Trying? && p in s.deadline && s.now <= s.deadline[p] + delay
    requires s.lock.Some? && s.now - s.lock.value.mtime > STALE_LOCK_AGE && s.guard.None?
    ensures Trace(owners, s0, actions', s', p, delay) && actions <= actions'
    ensures p in s'.pc && s'.pc[p].Restating? && p in s'.deadline && s'.now <= s'.deadline[p] + delay
    ensures s'.lock == s.lock && s'.now == s.now
  {
    hide Trace;
    s' := Do(owners, s0, actions, s, Create(p, false), p, delay);
    actions' := actions + [Create(p, false)];
    s' := Do(owners, s0, actions', s', Stat(p, true), p, delay);
    actions' := actions' + [Stat(p, true)];
    s' := Do(owners, s0, actions', s', Compare(p), p, delay);
    actions' := actions' + [Compare(p)];
    s' := Do(owners, s0, actions', s', MakeGuard(p, true), p, delay);
    actions' := actions' + [MakeGuard(p, true)];
    s' := Do(owners, s0, actions', s', WriteGuard(p, true), p, delay);
    actions' := actions' + [WriteGuard(p, true)];
  }

  lemma ToLock(owners: Owners, s0: State, actions: seq<Action>, s: State, p: Attempt, delay: nat)
    returns (actions': seq<Action>, s': State)
    requires Trace(owners, s0, actions, s, p, delay) && actions != []
    requires p in owners && p in s.pc && s.pc[p].Restating? && p in s.deadline && s.now <= s.deadline[p] + delay
    requires s.lock.Some? && s.now - s.lock.value.mtime > STALE_LOCK_AGE
    ensures Trace(owners, s0, actions', s', p, delay) && actions <= actions' && p in s'.held
  {
    hide Trace;
    s' := Do(owners, s0, actions, s, Restat(p, true), p, delay);
    actions' := actions + [Restat(p, true)];
    s' := Do(owners, s0, actions', s', Recompare(p), p, delay);
    actions' := actions' + [Recompare(p)];
    s' := Do(owners, s0, actions', s', RemoveStale(p, true), p, delay);
    actions' := actions' + [RemoveStale(p, true)];
    s' := Do(owners, s0, actions', s', ReleaseGuard(p, true), p, delay);
    actions' := actions' + [ReleaseGuard(p, true)];
    s' := Do(owners, s0, actions', s', Create(p, true), p, delay);
    actions' := actions' + [Create(p, true)];
    s' := Do(owners, s0, actions', s', Write(p, true, owners[p]), p, delay);
    actions' := actions' + [Write(p, true, owners[p])];
  }
}

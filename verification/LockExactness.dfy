/**
 When the lock excludes: for any four or more attempts and any two time bounds, all runs
 within the bounds are exclusive exactly under a condition on the owner strings and the bounds.
 The other half of the proof is runs in which two live attempts end up holding the lock.
 */
module LockExactness {
  import opened Wrappers
  import opened LockProtocol

  /** The condition: no owner string begins another, and the clock read is quicker than the slack. */
  ghost predicate Sound(owners: Owners, release: int, compare: nat) {
    compare <= release && PrefixFree(owners)
  }

  /** In every run within the time bounds at most one live attempt holds the lock. */
  ghost predicate Excludes(owners: Owners, release: int, compare: nat) {
    forall init, actions ::
      Initial(owners, init) && Run(owners, init, actions) && InTime(owners, init, actions, release, compare) ==>
        Exclusive(After(owners, init, actions))
  }

  /** In every run within the time bounds nobody removes another's file as its own. */
  ghost predicate KeepsOthers(owners: Owners, release: int, compare: nat) {
    forall init, actions ::
      Initial(owners, init) && Run(owners, init, actions) && InTime(owners, init, actions, release, compare) ==>
        RemovesOnlyOwn(After(owners, init, actions))
  }

  /**
   Both kinds of safety hold exactly under the condition. (A slack above the stale age admits
   no run that creates the file at all.)
   */
  lemma SafetyExactly(owners: Owners, release: int, compare: nat)
    requires |owners| >= 4
    ensures Excludes(owners, release, compare) <==> release > STALE_LOCK_AGE || Sound(owners, release, compare)
    ensures KeepsOthers(owners, release, compare) <==> release > STALE_LOCK_AGE || Sound(owners, release, compare)
  {
    hide Run, After, Initial, InTime, PrefixFree, Exclusive, RemovesOnlyOwn;
    if release > STALE_LOCK_AGE {
      NothingWithoutTime(owners, release, compare);
    } else if Sound(owners, release, compare) {
      SoundIsSafe(owners, release, compare);
    } else if compare > release {
      LateClockRead(owners, release, compare);
    } else {
      SharedBeginning(owners, release, compare);
    }
  }

  lemma SoundIsSafe(owners: Owners, release: int, compare: nat)
    requires Sound(owners, release, compare)
    ensures Excludes(owners, release, compare) && KeepsOthers(owners, release, compare)
  {
    hide Run, After, Initial, InTime, PrefixFree, Exclusive, RemovesOnlyOwn;
    forall init, actions | Initial(owners, init) && Run(owners, init, actions)
                           && InTime(owners, init, actions, release, compare)
      ensures Exclusive(After(owners, init, actions)) && RemovesOnlyOwn(After(owners, init, actions))
    {
      MutualExclusion(owners, init, actions, release, compare);
      OwnRemoval(owners, init, actions, release, compare);
    }
  }

  // --------------------------------------------------------------------------
  // No time to hold the lock at all
  // --------------------------------------------------------------------------

  ghost predicate Unused(s: State) {
    s.lock.None? && forall p :: p in s.pc ==> !s.pc[p].Writing? && !s.pc[p].Holding?
  }

  lemma UnusedStep(owners: Owners, s: State, a: Action, release: int)
    requires Unused(s) && Enabled(owners, s, a) && release > STALE_LOCK_AGE
    requires PromptRelease(Apply(owners, s, a), release)
    ensures Unused(Apply(owners, s, a))
  {
  }

  lemma {:induction false} UnusedAlong(owners: Owners, s: State, actions: seq<Action>, release: int, compare: nat)
    requires Unused(s) && release > STALE_LOCK_AGE
    requires Run(owners, s, actions) && InTime(owners, s, actions, release, compare)
    ensures Unused(After(owners, s, actions))
    decreases |actions|
  {
    if actions != [] {
      UnusedStep(owners, s, actions[0], release);
      UnusedAlong(owners, Apply(owners, s, actions[0]), actions[1..], release, compare);
    }
  }

  lemma NothingWithoutTime(owners: Owners, release: int, compare: nat)
    requires release > STALE_LOCK_AGE
    ensures Excludes(owners, release, compare) && KeepsOthers(owners, release, compare)
  {
    hide Run, After, InTime;
    forall init, actions | Initial(owners, init) && Run(owners, init, actions)
                           && InTime(owners, init, actions, release, compare)
      ensures Exclusive(After(owners, init, actions)) && RemovesOnlyOwn(After(owners, init, actions))
    {
      UnusedAlong(owners, init, actions, release, compare);
    }
  }

  // --------------------------------------------------------------------------
  // Building runs
  // --------------------------------------------------------------------------

  datatype Bounds = Bounds(release: int, compare: nat)

  /** `s` is where a run within the bounds leads from an initial state. */
  ghost predicate Trace(owners: Owners, actions: seq<Action>, s: State, b: Bounds) {
    var init := Start(owners);
    && Initial(owners, init) && Run(owners, init, actions) && After(owners, init, actions) == s
    && InTime(owners, init, actions, b.release, b.compare) && Prompt(s, b.release, b.compare)
  }

  function Start(owners: Owners): State {
    State(0, None, None, map p | p in owners :: NotStarted, map[], {})
  }

  lemma Begin(owners: Owners, b: Bounds) returns (s: State)
    ensures s == Start(owners) && Trace(owners, [], s, b)
  {
    s := Start(owners);
  }

  /** Only time can make anything late. */
  lemma StepIsPrompt(owners: Owners, s: State, a: Action, b: Bounds)
    requires Enabled(owners, s, a) && !a.Tick? && Prompt(s, b.release, b.compare) && b.release <= STALE_LOCK_AGE
    ensures Prompt(Apply(owners, s, a), b.release, b.compare)
  {
  }

  /** Extend a run by one step. */
  lemma Do(owners: Owners, actions: seq<Action>, s: State, a: Action, b: Bounds)
    returns (actions': seq<Action>, s': State)
    requires Trace(owners, actions, s, b) && Enabled(owners, s, a) && !a.Tick? && b.release <= STALE_LOCK_AGE
    ensures s' == Apply(owners, s, a) && Trace(owners, actions', s', b)
  {
    StepIsPrompt(owners, s, a, b);
    RunSnoc(owners, Start(owners), actions, a, b.release, b.compare);
    actions', s' := actions + [a], Apply(owners, s, a);
  }

  /** Let time pass. */
  lemma Wait(owners: Owners, actions: seq<Action>, s: State, d: nat, b: Bounds)
    returns (actions': seq<Action>, s': State)
    requires Trace(owners, actions, s, b) && Prompt(s.(now := s.now + d), b.release, b.compare)
    ensures s' == s.(now := s.now + d) && Trace(owners, actions', s', b)
  {
    actions', s' := actions, s;
    if d > 0 {
      RunSnoc(owners, Start(owners), actions, Tick(d), b.release, b.compare);
      actions', s' := actions + [Tick(d)], Apply(owners, s, Tick(d));
    }
  }

  /** The same files and the same time; timers may have been started and locks held. */
  predicate Same(s: State, s': State) {
    s'.now == s.now && s'.lock == s.lock && s'.guard == s.guard
  }

  /** `Create` and `Write` by an attempt that finds the path free. */
  lemma Acquire(owners: Owners, actions: seq<Action>, s: State, p: Attempt, b: Bounds)
    returns (actions': seq<Action>, s': State)
    requires Trace(owners, actions, s, b) && b.release <= STALE_LOCK_AGE
    requires p in s.pc && p in owners && (s.pc[p].NotStarted? || s.pc[p].Trying?) && s.lock.None?
    ensures Trace(owners, actions', s', b)
    ensures Same(s.(lock := Some(LockFile(p, s.now, owners[p]))), s') && s'.pc == s.pc[p := Holding]
  {
    hide Trace;
    actions', s' := actions, s;
    if s.pc[p].NotStarted? {
      actions', s' := Do(owners, actions', s', LockProtocol.Begin(p), b);
    }
    actions', s' := Do(owners, actions', s', Create(p, true), b);
    actions', s' := Do(owners, actions', s', Write(p, true, owners[p]), b);
    assert s'.pc == s.pc[p := Holding];
  }

  /** `Close` up to the point where the owner string has been found in the file. */
  lemma BeginRelease(owners: Owners, actions: seq<Action>, s: State, p: Attempt, b: Bounds)
    returns (actions': seq<Action>, s': State)
    requires Trace(owners, actions, s, b) && b.release <= STALE_LOCK_AGE
    requires p in s.pc && p in owners && s.pc[p].Holding? && s.lock.Some? && s.lock.value.content == owners[p]
    ensures Trace(owners, actions', s', b)
    ensures Same(s, s') && s'.pc == s.pc[p := RemovingOwn]
  {
    hide Trace;
    var s1;
    actions', s1 := Do(owners, actions, s, LockProtocol.Close(p), b);
    actions', s' := Do(owners, actions', s1, ReadOwner(p, true), b);
    assert s'.pc == s.pc[p := RemovingOwn];
  }

  lemma Release(owners: Owners, actions: seq<Action>, s: State, p: Attempt, b: Bounds)
    returns (actions': seq<Action>, s': State)
    requires Trace(owners, actions, s, b) && b.release <= STALE_LOCK_AGE
    requires p in s.pc && p in owners && s.pc[p].Holding? && s.lock.Some? && s.lock.value.content == owners[p]
    ensures Trace(owners, actions', s', b)
    ensures Same(s.(lock := None), s') && s'.pc == s.pc[p := Done]
  {
    hide Trace;
    var s1;
    actions', s1 := BeginRelease(owners, actions, s, p, b);
    actions', s' := Do(owners, actions', s1, RemoveOwn(p, true), b);
    assert s'.pc == s.pc[p := Done];
  }

  /** Finding the path taken and looking at the file. */
  lemma Look(owners: Owners, actions: seq<Action>, s: State, p: Attempt, b: Bounds)
    returns (actions': seq<Action>, s': State)
    requires Trace(owners, actions, s, b) && b.release <= STALE_LOCK_AGE
    requires p in s.pc && p in owners && (s.pc[p].NotStarted? || s.pc[p].Trying?) && s.lock.Some?
    ensures Trace(owners, actions', s', b)
    ensures Same(s, s') && s'.pc == s.pc[p := Comparing(s.lock.value.mtime)]
    ensures p in s.deadline && s.pc[p].Trying? ==> p in s'.deadline && s'.deadline[p] == s.deadline[p]
  {
    hide Trace;
    actions', s' := actions, s;
    if s.pc[p].NotStarted? {
      actions', s' := Do(owners, actions', s', LockProtocol.Begin(p), b);
    }
    actions', s' := Do(owners, actions', s', Create(p, false), b);
    actions', s' := Do(owners, actions', s', Stat(p, true), b);
    assert s'.pc == s.pc[p := Comparing(s.lock.value.mtime)];
  }

  /** From the first comparison to standing in front of the guarded Stat. */
  lemma PassFirstCheck(owners: Owners, actions: seq<Action>, s: State, p: Attempt, b: Bounds)
    returns (actions': seq<Action>, s': State)
    requires Trace(owners, actions, s, b) && b.release <= STALE_LOCK_AGE
    requires p in s.pc && p in owners && s.pc[p].Comparing? && s.guard.None?
    requires s.now - s.pc[p].mtime > STALE_LOCK_AGE
    ensures Trace(owners, actions', s', b)
    ensures Same(s.(guard := Some(p)), s') && s'.pc == s.pc[p := Restating]
  {
    hide Trace;
    var s1, s2;
    actions', s1 := Do(owners, actions, s, Compare(p), b);
    actions', s2 := Do(owners, actions', s1, MakeGuard(p, true), b);
    actions', s' := Do(owners, actions', s2, WriteGuard(p, true), b);
    assert s'.pc == s.pc[p := Restating];
  }

  /** Remove the file at the path, drop the guard and acquire. */
  lemma RemoveAndAcquire(owners: Owners, actions: seq<Action>, s: State, p: Attempt, b: Bounds)
    returns (actions': seq<Action>, s': State)
    requires Trace(owners, actions, s, b) && b.release <= STALE_LOCK_AGE
    requires p in s.pc && p in owners && s.pc[p].RemovingStale?
    ensures Trace(owners, actions', s', b)
    ensures s'.pc == s.pc[p := Holding] && s'.lock == Some(LockFile(p, s.now, owners[p]))
  {
    hide Trace;
    var s1, s2;
    actions', s1 := Do(owners, actions, s, RemoveStale(p, true), b);
    actions', s2 := Do(owners, actions', s1, ReleaseGuard(p, true), b);
    assert s2.pc[p].Trying?;
    actions', s' := Acquire(owners, actions', s2, p, b);
    assert s'.pc == s.pc[p := Holding];
  }

  lemma BrokenExclusion(owners: Owners, actions: seq<Action>, s: State, b: Bounds, p: Attempt, q: Attempt)
    requires Trace(owners, actions, s, b)
    requires p in s.pc && q in s.pc && p != q && s.pc[p].Holding? && s.pc[q].Holding?
    ensures !Excludes(owners, b.release, b.compare)
  {
    hide Run, Initial, InTime;
    assert !Exclusive(After(owners, Start(owners), actions));
  }

  lemma ForeignRemoval(owners: Owners, actions: seq<Action>, s: State, b: Bounds, p: Attempt)
    requires Trace(owners, actions, s, b)
    requires p in s.pc && s.pc[p].RemovingOwn? && s.lock.Some? && s.lock.value.creator != p
    ensures !KeepsOthers(owners, b.release, b.compare)
  {
    hide Run, Initial, InTime;
    assert !RemovesOnlyOwn(After(owners, Start(owners), actions));
  }

  /** Another attempt, besides those in `used`. */
  lemma Another(owners: Owners, used: set<Attempt>) returns (p: Attempt)
    requires |used| < |owners|
    ensures p in owners && p !in used
  {
    if owners.Keys <= used {
      Fewer(owners.Keys, used);
      assert false;
    }
    p :| p in owners.Keys && p !in used;
  }

  lemma {:induction false} Fewer(a: set<Attempt>, b: set<Attempt>)
    requires a <= b
    ensures |a| <= |b|
    decreases a
  {
    if a != {} {
      var x :| x in a;
      Fewer(a - {x}, b - {x});
    }
  }

  // --------------------------------------------------------------------------
  // A clock read that is later than the slack
  // --------------------------------------------------------------------------

  /**
   An attempt `c` pauses between the guarded Stat and its clock read, the holder it saw
   releases in time, another acquires, and the pause makes the new file look old. At the end
   `c` is about to remove the file that `h` has just created.
   */
  lemma LateCleaner(owners: Owners, x: Attempt, c: Attempt, y: Attempt, h: Attempt, b: Bounds)
    returns (actions: seq<Action>, s: State)
    requires x in owners && c in owners && y in owners && h in owners
    requires x != c && x != y && x != h && c != y && c != h && y != h
    requires b.compare > b.release && b.release <= STALE_LOCK_AGE
    ensures Trace(owners, actions, s, b)
    ensures c in s.pc && h in s.pc && c != h && s.pc[c].RemovingStale? && s.pc[h].Holding?
    ensures s.lock.Some? && s.lock.value.content == owners[h]
  {
    hide Trace;
    actions, s := LateStart(owners, x, c, y, b);
    actions, s := Wait(owners, actions, s, STALE_LOCK_AGE - b.release, b);
    ghost var m, t := s.lock.value.mtime, s.now;
    actions, s := Do(owners, actions, s, Restat(c, true), b);
    actions, s := Release(owners, actions, s, y, b);
    var pause := if b.release >= 0 then b.release + 1 else 0;
    assert s.pc[c] == Recomparing(m, t);
    LatePause(owners, s, c, pause, b);
    actions, s := Wait(owners, actions, s, pause, b);
    assert s.pc[h].NotStarted?;
    actions, s := Acquire(owners, actions, s, h, b);
    assert s.pc[c] == Recomparing(m, t) && s.now - m > STALE_LOCK_AGE;
    actions, s := Do(owners, actions, s, Recompare(c), b);
  }

  /** Up to the guard of `c`, with `y` holding a new lock file. */
  lemma LateStart(owners: Owners, x: Attempt, c: Attempt, y: Attempt, b: Bounds)
    returns (actions: seq<Action>, s: State)
    requires x in owners && c in owners && y in owners && x != c && x != y && c != y
    requires b.release <= STALE_LOCK_AGE
    ensures Trace(owners, actions, s, b)
    ensures s.pc == Start(owners).pc[x := Done][y := Holding][c := Restating]
    ensures s.lock == Some(LockFile(y, s.now, owners[y]))
  {
    actions := [];
    s := Begin(owners, b);
    hide Trace;
    actions, s := Acquire(owners, actions, s, x, b);
    actions, s := Look(owners, actions, s, c, b);
    actions, s := Release(owners, actions, s, x, b);
    assert s.pc[c] == Comparing(0);
    actions, s := Wait(owners, actions, s, STALE_LOCK_AGE + 1, b);
    assert s.pc[y].NotStarted?;
    actions, s := Acquire(owners, actions, s, y, b);
    actions, s := PassFirstCheck(owners, actions, s, c, b);
    assert s.pc == Start(owners).pc[x := Done][y := Holding][c := Restating];
  }

  lemma LatePause(owners: Owners, s: State, c: Attempt, pause: nat, b: Bounds)
    requires s.lock.None? && pause <= b.compare && c in s.pc && s.pc[c].Recomparing? && s.pc[c].seenAt == s.now
    requires forall p :: p in s.pc && p != c ==> !s.pc[p].Recomparing?
    ensures Prompt(s.(now := s.now + pause), b.release, b.compare)
  {
  }

  lemma LateClockRead(owners: Owners, release: int, compare: nat)
    requires |owners| >= 4 && compare > release && release <= STALE_LOCK_AGE
    ensures !Excludes(owners, release, compare) && !KeepsOthers(owners, release, compare)
  {
    var b := Bounds(release, compare);
    var x := Another(owners, {});
    var c := Another(owners, {x});
    var y := Another(owners, {x, c});
    var h := Another(owners, {x, c, y});
    hide Trace, Excludes, KeepsOthers;
    var actions, s := LateCleaner(owners, x, c, y, h, b);
    var actions1, s1 := RemoveAndAcquire(owners, actions, s, c, b);
    BrokenExclusion(owners, actions1, s1, b, c, h);
    // the same, with the holder already past reading the owner
    var actions2, s2 := BeginRelease(owners, actions, s, h, b);
    actions2, s2 := RemoveAndAcquire(owners, actions2, s2, c, b);
    ForeignRemoval(owners, actions2, s2, b, h);
  }

  // --------------------------------------------------------------------------
  // Owner strings that begin alike
  // --------------------------------------------------------------------------

  /**
   A write by `p` that stops after the owner string of `q`, or is complete when the two are
   equal: `q` has timed out, reads its own owner string and is about to remove the file of `p`.
   */
  lemma Mistake(owners: Owners, p: Attempt, q: Attempt, b: Bounds) returns (actions: seq<Action>, s: State)
    requires p in owners && q in owners && p != q && IsPrefix(owners[q], owners[p]) && b.release <= STALE_LOCK_AGE
    ensures Trace(owners, actions, s, b)
    ensures s.lock.Some? && s.lock.value.creator == p
    ensures s.pc == Start(owners).pc[p := Discarding][q := RemovingOwn]
  {
    actions := [];
    s := Begin(owners, b);
    hide Trace, IsPrefix;
    actions, s := Do(owners, actions, s, LockProtocol.Begin(q), b);
    assert Prompt(s.(now := s.now + LOCK_TIMEOUT), b.release, b.compare);
    actions, s := Wait(owners, actions, s, LOCK_TIMEOUT, b);
    actions, s := Do(owners, actions, s, LockProtocol.Begin(p), b);
    actions, s := Do(owners, actions, s, Create(p, true), b);
    assert s.deadline[q] == LOCK_TIMEOUT == s.now;
    actions, s := Look(owners, actions, s, q, b);
    actions, s := Do(owners, actions, s, Write(p, false, owners[q]), b);
    actions, s := MistakeOf(owners, actions, s, q, b);
    assert s.pc == Start(owners).pc[p := Discarding][q := RemovingOwn];
  }

  /** Time out on a fresh file that holds one's own owner string. */
  lemma MistakeOf(owners: Owners, actions: seq<Action>, s: State, q: Attempt, b: Bounds)
    returns (actions': seq<Action>, s': State)
    requires Trace(owners, actions, s, b) && b.release <= STALE_LOCK_AGE
    requires q in s.pc && q in owners && s.pc[q].Comparing? && s.now - s.pc[q].mtime <= STALE_LOCK_AGE
    requires q in s.deadline && s.deadline[q] <= s.now
    requires s.lock.Some? && s.lock.value.content == owners[q]
    ensures Trace(owners, actions', s', b)
    ensures Same(s, s') && s'.pc == s.pc[q := RemovingOwn]
  {
    hide Trace;
    actions', s' := Do(owners, actions, s, Compare(q), b);
    actions', s' := Do(owners, actions', s', Timeout(q), b);
    actions', s' := Do(owners, actions', s', ReadOwner(q, true), b);
    assert s'.pc == s.pc[q := RemovingOwn];
  }

  lemma SharedBeginning(owners: Owners, release: int, compare: nat)
    requires |owners| >= 4 && !PrefixFree(owners) && release <= STALE_LOCK_AGE
    ensures !Excludes(owners, release, compare) && !KeepsOthers(owners, release, compare)
  {
    var b := Bounds(release, compare);
    var p, q :| p in owners && q in owners && p != q && IsPrefix(owners[q], owners[p]);
    var x := Another(owners, {p, q});
    var y := Another(owners, {p, q, x});
    hide Trace, Excludes, KeepsOthers, IsPrefix, PrefixFree;
    var actions, s := Mistake(owners, p, q, b);
    ForeignRemoval(owners, actions, s, b, q);
    actions, s := Do(owners, actions, s, Discard(p, true), b);
    actions, s := Acquire(owners, actions, s, x, b);
    actions, s := Do(owners, actions, s, RemoveOwn(q, true), b);
    actions, s := Acquire(owners, actions, s, y, b);
    assert s.pc[x].Holding? && s.pc[y].Holding?;
    BrokenExclusion(owners, actions, s, b, x, y);
  }

  // --------------------------------------------------------------------------
  // Fewer than four attempts
  // --------------------------------------------------------------------------

  /** Owner strings that nobody can take for another's while a holder is at work. */
  ghost predicate Told(owners: Owners) {
    forall p, q :: p in owners && q in owners && p != q ==> owners[p] != owners[q] && owners[q] != []
  }

  /**
   Bounds for any number of attempts: the condition is enough however many there are; with two,
   keeping others' files needs prefix-free strings, and any safety needs holders that release
   before their file is stale; with three, exclusion needs distinct strings that are not empty.
   */
  lemma FewerAttempts(owners: Owners, release: int, compare: nat)
    requires release <= STALE_LOCK_AGE
    ensures Sound(owners, release, compare) ==>
              Excludes(owners, release, compare) && KeepsOthers(owners, release, compare)
    ensures |owners| >= 2 && Excludes(owners, release, compare) ==> release >= 0
    ensures |owners| >= 2 && KeepsOthers(owners, release, compare) ==> release >= 0 && PrefixFree(owners)
    ensures |owners| >= 3 && Excludes(owners, release, compare) ==> Told(owners)
  {
    hide Excludes, KeepsOthers, PrefixFree, Told;
    if Sound(owners, release, compare) {
      SoundIsSafe(owners, release, compare);
    }
    if |owners| >= 2 && release < 0 {
      SlowHolder(owners, release, compare);
    }
    if |owners| >= 2 && !PrefixFree(owners) {
      TwoShareABeginning(owners, release, compare);
    }
    if |owners| >= 3 && !Told(owners) {
      ThreeShareOwner(owners, release, compare);
    }
  }

  lemma TwoShareABeginning(owners: Owners, release: int, compare: nat)
    requires !PrefixFree(owners) && release <= STALE_LOCK_AGE
    ensures !KeepsOthers(owners, release, compare)
  {
    var b := Bounds(release, compare);
    var p, q :| p in owners && q in owners && p != q && IsPrefix(owners[q], owners[p]);
    hide Trace, KeepsOthers, IsPrefix, PrefixFree;
    var actions, s := Mistake(owners, p, q, b);
    ForeignRemoval(owners, actions, s, b, q);
  }

  /** A holder still at work when its file goes stale. */
  lemma SlowHolder(owners: Owners, release: int, compare: nat)
    requires |owners| >= 2 && release < 0
    ensures !Excludes(owners, release, compare) && !KeepsOthers(owners, release, compare)
  {
    var b := Bounds(release, compare);
    var h := Another(owners, {});
    var c := Another(owners, {h});
    hide Trace, Excludes, KeepsOthers;
    var actions, s := SlowStart(owners, h, c, b);
    var actions1, s1 := RemoveAndAcquire(owners, actions, s, c, b);
    BrokenExclusion(owners, actions1, s1, b, c, h);
    var actions2, s2 := BeginRelease(owners, actions, s, h, b);
    actions2, s2 := RemoveAndAcquire(owners, actions2, s2, c, b);
    ForeignRemoval(owners, actions2, s2, b, h);
  }

  lemma SlowStart(owners: Owners, h: Attempt, c: Attempt, b: Bounds) returns (actions: seq<Action>, s: State)
    requires h in owners && c in owners && h != c && b.release < 0
    ensures Trace(owners, actions, s, b)
    ensures s.pc == Start(owners).pc[h := Holding][c := RemovingStale]
    ensures s.lock.Some? && s.lock.value.content == owners[h]
  {
    actions := [];
    s := Begin(owners, b);
    hide Trace;
    actions, s := Acquire(owners, actions, s, h, b);
    actions, s := Wait(owners, actions, s, STALE_LOCK_AGE + 1, b);
    actions, s := Look(owners, actions, s, c, b);
    actions, s := PassFirstCheck(owners, actions, s, c, b);
    assert s.pc[c] == Restating;
    actions, s := Do(owners, actions, s, Restat(c, true), b);
    actions, s := Do(owners, actions, s, Recompare(c), b);
    assert s.pc == Start(owners).pc[h := Holding][c := RemovingStale];
  }

  /** A holder whose file another takes for its own, and a third that acquires meanwhile. */
  lemma ThreeShareOwner(owners: Owners, release: int, compare: nat)
    requires |owners| >= 3 && !Told(owners) && release <= STALE_LOCK_AGE
    ensures !Excludes(owners, release, compare)
  {
    var b := Bounds(release, compare);
    var p, q :| p in owners && q in owners && p != q && (owners[p] == owners[q] || owners[q] == []);
    var x := Another(owners, {p, q});
    hide Trace, Excludes, IsPrefix, Told;
    var actions, s := TakenFile(owners, p, q, b);
    actions, s := Acquire(owners, actions, s, x, b);
    assert s.pc[p].Holding? && s.pc[x].Holding?;
    BrokenExclusion(owners, actions, s, b, p, x);
  }

  /** `p` holds the lock, and `q` has removed its file. */
  lemma TakenFile(owners: Owners, p: Attempt, q: Attempt, b: Bounds) returns (actions: seq<Action>, s: State)
    requires p in owners && q in owners && p != q && b.release <= STALE_LOCK_AGE
    requires owners[p] == owners[q] || owners[q] == []
    ensures Trace(owners, actions, s, b)
    ensures s.lock.None? && s.pc == Start(owners).pc[p := Holding][q := Done]
  {
    actions := [];
    s := Begin(owners, b);
    hide Trace;
    actions, s := Do(owners, actions, s, LockProtocol.Begin(q), b);
    assert Prompt(s.(now := s.now + LOCK_TIMEOUT), b.release, b.compare);
    actions, s := Wait(owners, actions, s, LOCK_TIMEOUT, b);
    actions, s := Do(owners, actions, s, LockProtocol.Begin(p), b);
    actions, s := Do(owners, actions, s, Create(p, true), b);
    assert s.deadline[q] == LOCK_TIMEOUT == s.now;
    if owners[q] != [] {
      actions, s := Do(owners, actions, s, Write(p, true, owners[p]), b);
    }
    actions, s := Look(owners, actions, s, q, b);
    actions, s := MistakeOf(owners, actions, s, q, b);
    actions, s := Do(owners, actions, s, RemoveOwn(q, true), b);
    if owners[q] == [] {
      actions, s := Do(owners, actions, s, Write(p, true, owners[p]), b);
    }
    assert s.pc == Start(owners).pc[p := Holding][q := Done];
  }
}

/**
 The lock file protocol as a timed transition system. An attempt is one `FileLock` used once,
 as a save or a load uses it: lock, work, close. Every file system call and every clock read
 is a step of its own, and steps of different attempts interleave freely. An attempt may
 crash between any two of its steps, and any call may fail.
 */
module LockProtocol {
  import opened Wrappers
  import opened Utf8

  type Attempt = nat

  /** 10 seconds, in nanoseconds. */
  const STALE_LOCK_AGE: nat := 10_000_000_000

  /** 5 seconds: the timer of `Lock`. */
  const LOCK_TIMEOUT: nat := 5_000_000_000

  datatype LockFile = LockFile(creator: Attempt, mtime: nat, content: seq<byte>)

  /** How `removeStaleLock` ends once it holds the guard. */
  datatype Outcome = Removed | NotRemoved | Failed

  /** Where an attempt stands: the call it makes next. */
  datatype Pc =
    | NotStarted             // Lock has not been called
    | Trying
    | Writing                // the lock file is created, the owner string not yet written
    | Discarding             // writing failed: remove the lock path
    | Holding                // Lock returned nil
    | Examining              // first Stat of removeStaleLock
    | Comparing(mtime: nat)  // time.Since of what it saw
    | MakingGuard
    | WritingGuard
    | DiscardingGuard
    | Restating              // second Stat, under the guard
    | Recomparing(mtime: nat, seenAt: nat)
    | RemovingStale
    | ReleasingGuard(outcome: Outcome)
    | Waiting
    | ReadingOwner           // Close, which is also deferred when Lock fails
    | RemovingOwn
    | Done
    | Crashed

  datatype State = State(
    now: nat,
    lock: Option<LockFile>,
    guard: Option<Attempt>,
    pc: map<Attempt, Pc>,
    deadline: map<Attempt, nat>,  // when the timer of each Lock fires
    held: set<Attempt>            // history: whose Lock has returned nil
  )

  /** `ok` says whether the call of this step succeeds. */
  datatype Action =
    | Tick(d: nat)
    | Begin(p: Attempt)
    | Create(p: Attempt, ok: bool)
    | Write(p: Attempt, ok: bool, written: seq<byte>)
    | Discard(p: Attempt, ok: bool)
    | Stat(p: Attempt, ok: bool)
    | Compare(p: Attempt)
    | MakeGuard(p: Attempt, ok: bool)
    | WriteGuard(p: Attempt, ok: bool)
    | DiscardGuard(p: Attempt, ok: bool)
    | Restat(p: Attempt, ok: bool)
    | Recompare(p: Attempt)
    | RemoveStale(p: Attempt, ok: bool)
    | ReleaseGuard(p: Attempt, ok: bool)
    | Retry(p: Attempt)
    | Timeout(p: Attempt)
    | Close(p: Attempt)
    | ReadOwner(p: Attempt, ok: bool)
    | RemoveOwn(p: Attempt, ok: bool)
    | Crash(p: Attempt)

  /** The owner string of each attempt. */
  type Owners = map<Attempt, seq<byte>>

  predicate IsPrefix(a: seq<byte>, b: seq<byte>) {
    |a| <= |b| && b[..|a|] == a
  }

  /** Whether the attempt stands at the call, and the call can have this result. */
  predicate Enabled(owners: Owners, s: State, a: Action) {
    if a.Tick? then a.d > 0
    else
      && a.p in s.pc && a.p in owners
      && var pc := s.pc[a.p];
         match a
         case Begin(_) => pc.NotStarted?
         case Create(_, ok) => pc.Trying? && (ok ==> s.lock.None?)
         case Write(p, ok, written) =>
           pc.Writing? && IsPrefix(written, owners[p]) && (ok ==> written == owners[p])
         case Discard(_, _) => pc.Discarding?
         case Stat(_, ok) => pc.Examining? && (ok ==> s.lock.Some?)
         case Compare(_) => pc.Comparing?
         case MakeGuard(_, ok) => pc.MakingGuard? && (ok ==> s.guard.None?)
         case WriteGuard(_, _) => pc.WritingGuard?
         case DiscardGuard(_, _) => pc.DiscardingGuard?
         case Restat(_, _) => pc.Restating?
         case Recompare(_) => pc.Recomparing?
         case RemoveStale(_, _) => pc.RemovingStale?
         case ReleaseGuard(_, _) => pc.ReleasingGuard?
         case Retry(_) => pc.Waiting?
         case Timeout(p) => pc.Waiting? && p in s.deadline && s.deadline[p] <= s.now
         case Close(_) => pc.Holding?
         case ReadOwner(_, _) => pc.ReadingOwner?
         case RemoveOwn(_, _) => pc.RemovingOwn?
         case Crash(_) => !pc.Done? && !pc.Crashed?
  }

  function Goto(s: State, p: Attempt, pc: Pc): State {
    s.(pc := s.pc[p := pc])
  }

  /** The effect of a step. Removal is by name: it takes whatever file is there. */
  function Apply(owners: Owners, s: State, a: Action): State
    requires Enabled(owners, s, a)
  {
    match a
    case Tick(d) => s.(now := s.now + d)
    case Begin(p) => Goto(s.(deadline := s.deadline[p := s.now + LOCK_TIMEOUT]), p, Trying)
    case Create(p, ok) =>
      if ok then Goto(s.(lock := Some(LockFile(p, s.now, []))), p, Writing) else Goto(s, p, Examining)
    case Write(p, ok, written) =>
      // the open file may have lost its name meanwhile, and then nobody sees the content
      var s' := if s.lock.Some? && s.lock.value.creator == p
                then s.(lock := Some(LockFile(p, s.now, written))) else s;
      if ok then Goto(s'.(held := s'.held + {p}), p, Holding) else Goto(s', p, Discarding)
    case Discard(p, ok) => Goto(if ok then s.(lock := None) else s, p, ReadingOwner)
    case Stat(p, ok) => Goto(s, p, if ok then Comparing(s.lock.value.mtime) else Waiting)
    case Compare(p) => Goto(s, p, if s.now - s.pc[p].mtime <= STALE_LOCK_AGE then Waiting else MakingGuard)
    case MakeGuard(p, ok) => if ok then Goto(s.(guard := Some(p)), p, WritingGuard) else Goto(s, p, Waiting)
    case WriteGuard(p, ok) => Goto(s, p, if ok then Restating else DiscardingGuard)
    case DiscardGuard(p, ok) => Goto(if ok then s.(guard := None) else s, p, ReadingOwner)
    case Restat(p, ok) =>
      if !ok then Goto(s, p, ReleasingGuard(NotRemoved))
      else if s.lock.None? then Goto(s, p, ReleasingGuard(Removed))
      else Goto(s, p, Recomparing(s.lock.value.mtime, s.now))
    case Recompare(p) =>
      Goto(s, p, if s.now - s.pc[p].mtime <= STALE_LOCK_AGE then ReleasingGuard(NotRemoved) else RemovingStale)
    case RemoveStale(p, ok) =>
      if ok then Goto(s.(lock := None), p, ReleasingGuard(Removed)) else Goto(s, p, ReleasingGuard(Failed))
    case ReleaseGuard(p, ok) =>
      var next := match s.pc[p].outcome case Removed => Trying case NotRemoved => Waiting case Failed => ReadingOwner;
      Goto(if ok then s.(guard := None) else s, p, next)
    case Retry(p) => Goto(s, p, Trying)
    case Timeout(p) => Goto(s, p, ReadingOwner)
    case Close(p) => Goto(s, p, ReadingOwner)
    case ReadOwner(p, ok) =>
      Goto(s, p, if ok && s.lock.Some? && s.lock.value.content == owners[p] then RemovingOwn else Done)
    case RemoveOwn(p, ok) => Goto(if ok then s.(lock := None) else s, p, Done)
    case Crash(p) => Goto(s, p, Crashed)
  }

  // --------------------------------------------------------------------------
  // Runs
  // --------------------------------------------------------------------------

  ghost predicate Initial(owners: Owners, s: State) {
    && s.lock.None? && s.guard.None? && s.deadline == map[] && s.held == {}
    && s.pc.Keys == owners.Keys && forall p :: p in s.pc ==> s.pc[p].NotStarted?
  }

  ghost predicate Run(owners: Owners, s: State, actions: seq<Action>)
    decreases |actions|
  {
    actions == [] || (Enabled(owners, s, actions[0]) && Run(owners, Apply(owners, s, actions[0]), actions[1..]))
  }

  ghost function After(owners: Owners, s: State, actions: seq<Action>): State
    requires Run(owners, s, actions)
    decreases |actions|
  {
    if actions == [] then s else After(owners, Apply(owners, s, actions[0]), actions[1..])
  }

  predicate Live(pc: Pc) {
    !pc.Done? && !pc.Crashed?
  }

  /** Two live attempts never both hold the lock. */
  ghost predicate Exclusive(s: State) {
    forall p, q :: p in s.pc && q in s.pc && s.pc[p].Holding? && s.pc[q].Holding? ==> p == q
  }

  /** The lock file of a live attempt is gone before it is older than `STALE_LOCK_AGE - release`. */
  ghost predicate PromptRelease(s: State, release: int) {
    s.lock.Some? && s.lock.value.creator in s.pc && Live(s.pc[s.lock.value.creator]) ==>
      s.now - s.lock.value.mtime + release <= STALE_LOCK_AGE
  }

  /** The clock is read at most `compare` after the guarded Stat it belongs to. */
  ghost predicate PromptCompare(s: State, compare: nat) {
    forall p :: p in s.pc && s.pc[p].Recomparing? ==> s.now <= s.pc[p].seenAt + compare
  }

  ghost predicate Prompt(s: State, release: int, compare: nat) {
    PromptRelease(s, release) && PromptCompare(s, compare)
  }

  /** Every state the run goes through meets both timing assumptions. */
  ghost predicate InTime(owners: Owners, s: State, actions: seq<Action>, release: int, compare: nat)
    requires Run(owners, s, actions)
    decreases |actions|
  {
    && Prompt(s, release, compare)
    && (actions == [] || InTime(owners, Apply(owners, s, actions[0]), actions[1..], release, compare))
  }

  /** No attempt's owner string begins with, or equals, the owner string of another. */
  ghost predicate PrefixFree(owners: Owners) {
    forall p, q :: p in owners && q in owners && p != q ==> !IsPrefix(owners[q], owners[p])
  }

  /** A run extended by one more step. */
  lemma {:induction false} RunSnoc(owners: Owners, s: State, actions: seq<Action>, a: Action,
                                   release: int, compare: nat)
    requires Run(owners, s, actions) && Enabled(owners, After(owners, s, actions), a)
    ensures var longer := actions + [a];
            && Run(owners, s, longer)
            && After(owners, s, longer) == Apply(owners, After(owners, s, actions), a)
            && (InTime(owners, s, actions, release, compare) && Prompt(After(owners, s, longer), release, compare) ==>
                  InTime(owners, s, longer, release, compare))
    decreases |actions|
  {
    var longer := actions + [a];
    if actions == [] {
      assert longer[1..] == [];
    } else {
      assert longer[0] == actions[0] && longer[1..] == actions[1..] + [a];
      RunSnoc(owners, Apply(owners, s, actions[0]), actions[1..], a, release, compare);
    }
  }

  /** The beginning of a run is a run, within the same bounds. */
  lemma {:induction false} RunPrefix(owners: Owners, s: State, actions: seq<Action>, k: nat, release: int, compare: nat)
    requires Run(owners, s, actions) && k <= |actions|
    ensures Run(owners, s, actions[..k])
    ensures InTime(owners, s, actions, release, compare) ==> InTime(owners, s, actions[..k], release, compare)
    decreases |actions|
  {
    if k > 0 {
      RunPrefix(owners, Apply(owners, s, actions[0]), actions[1..], k - 1, release, compare);
      assert actions[..k][1..] == actions[1..][..k - 1];
    }
  }

  // --------------------------------------------------------------------------
  // Mutual exclusion
  // --------------------------------------------------------------------------

  /** The attempt has created the file that the lock path names. */
  ghost predicate Owns(s: State, p: Attempt) {
    s.lock.Some? && s.lock.value.creator == p
  }

  /** The lock path names the file of an attempt that is over. */
  ghost predicate Orphaned(s: State) {
    s.lock.Some? && s.lock.value.creator in s.pc && !Live(s.pc[s.lock.value.creator])
  }

  predicate UnderGuard(pc: Pc) {
    pc.WritingGuard? || pc.DiscardingGuard? || pc.Restating? || pc.Recomparing? || pc.RemovingStale?
    || pc.ReleasingGuard?
  }

  /** The file is no younger than the clock, and holds a beginning of its creator's owner string. */
  ghost predicate FileOk(owners: Owners, s: State) {
    s.lock.Some? ==>
      && s.lock.value.creator in s.pc && s.lock.value.mtime <= s.now
      && s.lock.value.creator in owners && IsPrefix(s.lock.value.content, owners[s.lock.value.creator])
  }

  ghost predicate GuardOk(s: State) {
    forall p :: p in s.pc && UnderGuard(s.pc[p]) ==> s.guard == Some(p)
  }

  /** What each position of an attempt knows about the lock path. */
  ghost predicate PositionOk(s: State, p: Attempt, slack: nat)
    requires p in s.pc
  {
    match s.pc[p]
    case Writing => Owns(s, p)
    case Discarding => Owns(s, p)
    case Holding => Owns(s, p)
    case RemovingOwn => Owns(s, p)
    case RemovingStale => Orphaned(s)
    case Recomparing(mtime, seenAt) =>
      mtime <= seenAt <= s.now && (seenAt - mtime + slack > STALE_LOCK_AGE ==> Orphaned(s))
    case _ => true
  }

  ghost predicate Inv(owners: Owners, s: State, slack: nat) {
    && s.pc.Keys == owners.Keys
    && FileOk(owners, s)
    && GuardOk(s)
    && forall p :: p in s.pc ==> PositionOk(s, p, slack)
  }

  /** Who can change what the lock path names, and when. */
  lemma LockChange(owners: Owners, s: State, a: Action, slack: nat)
    requires Inv(owners, s, slack) && Enabled(owners, s, a)
    ensures var s' := Apply(owners, s, a);
            || s'.lock == s.lock
            || (a.Create? && s.lock.None?)
            || (a.Write? && Owns(s, a.p) && Owns(s', a.p))
            || (Owns(s, a.p) && Live(s.pc[a.p]))
            || (a.RemoveStale? && Orphaned(s) && UnderGuard(s.pc[a.p]))
  {
    if !a.Tick? {
      assert PositionOk(s, a.p, slack);
    }
  }

  lemma FileStep(owners: Owners, s: State, a: Action, slack: nat)
    requires Inv(owners, s, slack) && Enabled(owners, s, a)
    ensures FileOk(owners, Apply(owners, s, a))
  {
  }

  lemma GuardStep(owners: Owners, s: State, a: Action)
    requires GuardOk(s) && Enabled(owners, s, a)
    ensures GuardOk(Apply(owners, s, a))
  {
  }

  lemma OwnPositionStep(owners: Owners, s: State, a: Action, slack: nat)
    requires PrefixFree(owners) && Inv(owners, s, slack) && Enabled(owners, s, a) && !a.Tick?
    requires PromptRelease(s, slack) && PromptCompare(s, slack)
    ensures PositionOk(Apply(owners, s, a), a.p, slack)
  {
    assert PositionOk(s, a.p, slack);
    SeenOldIsOrphaned(s, slack);
    if s.lock.Some? && s.lock.value.content == owners[a.p] {
      OwnContentIsOwnFile(owners, s, a.p);
    }
    MoveKeepsPosition(owners, s, a, slack);
  }

  lemma MoveKeepsPosition(owners: Owners, s: State, a: Action, slack: nat)
    requires Enabled(owners, s, a) && !a.Tick? && PositionOk(s, a.p, slack)
    requires s.lock.Some? && s.lock.value.content == owners[a.p] ==> Owns(s, a.p)
    requires s.lock.Some? && s.now - s.lock.value.mtime + slack > STALE_LOCK_AGE ==> Orphaned(s)
    requires s.lock.Some? ==> s.lock.value.mtime <= s.now
    requires s.pc[a.p].Recomparing? ==> s.now <= s.pc[a.p].seenAt + slack
    ensures PositionOk(Apply(owners, s, a), a.p, slack)
  {
    hide IsPrefix;
  }

  /** A file too old to belong to a live attempt belongs to one that is over. */
  lemma SeenOldIsOrphaned(s: State, slack: nat)
    requires s.lock.Some? ==> s.lock.value.creator in s.pc && s.lock.value.mtime <= s.now
    requires PromptRelease(s, slack)
    ensures s.lock.Some? && s.now - s.lock.value.mtime + slack > STALE_LOCK_AGE ==> Orphaned(s)
    ensures s.lock.Some? ==> s.lock.value.mtime <= s.now
  {
  }

  /** Whoever finds its own owner string in the file has created the file. */
  lemma OwnContentIsOwnFile(owners: Owners, s: State, p: Attempt)
    requires PrefixFree(owners) && FileOk(owners, s)
    requires p in owners && s.lock.Some? && s.lock.value.content == owners[p]
    ensures Owns(s, p)
  {
  }

  /** A step moves its own attempt only, and time never goes back. */
  lemma Frame(owners: Owners, s: State, a: Action)
    requires Enabled(owners, s, a)
    ensures var s' := Apply(owners, s, a);
            && s'.now >= s.now && s'.pc.Keys == s.pc.Keys
            && (forall q :: q in s.pc && (a.Tick? || q != a.p) ==> s'.pc[q] == s.pc[q])
            && (forall q :: a.Tick? || q != a.p ==>
                  && (q in s'.held <==> q in s.held) && (q in s'.deadline <==> q in s.deadline)
                  && (q in s.deadline ==> s'.deadline[q] == s.deadline[q]))
  {
  }

  lemma OtherPositionStep(owners: Owners, s: State, a: Action, p: Attempt, slack: nat)
    requires Inv(owners, s, slack) && Enabled(owners, s, a)
    requires p in s.pc && (a.Tick? || a.p != p)
    ensures var s' := Apply(owners, s, a);
            p in s'.pc && s'.pc[p] == s.pc[p] && PositionOk(s', p, slack)
  {
    assert PositionOk(s, p, slack);
    LockChange(owners, s, a, slack);
    Frame(owners, s, a);
    if !a.Tick? && !Live(s.pc[a.p]) {
      OverTakesNoStep(owners, s, a);
    }
    hide Apply, Enabled, FileOk;
  }

  lemma OverTakesNoStep(owners: Owners, s: State, a: Action)
    requires Enabled(owners, s, a)
    ensures !a.Tick? ==> Live(s.pc[a.p])
  {
  }

  lemma InvStep(owners: Owners, s: State, a: Action, slack: nat)
    requires PrefixFree(owners) && Inv(owners, s, slack) && Enabled(owners, s, a)
    requires PromptRelease(s, slack) && PromptCompare(s, slack)
    ensures Inv(owners, Apply(owners, s, a), slack)
  {
    FileStep(owners, s, a, slack);
    GuardStep(owners, s, a);
    Frame(owners, s, a);
    hide Apply, PositionOk, FileOk, GuardOk;
    forall p | p in s.pc ensures PositionOk(Apply(owners, s, a), p, slack) {
      if !a.Tick? && a.p == p {
        OwnPositionStep(owners, s, a, slack);
      } else {
        OtherPositionStep(owners, s, a, p, slack);
      }
    }
  }

  lemma InvExcludes(owners: Owners, s: State, slack: nat)
    requires Inv(owners, s, slack)
    ensures Exclusive(s)
  {
    forall p, q | p in s.pc && q in s.pc && s.pc[p].Holding? && s.pc[q].Holding? ensures p == q {
      assert PositionOk(s, p, slack) && PositionOk(s, q, slack);
    }
  }

  lemma {:induction false} InvAlong(owners: Owners, s: State, actions: seq<Action>, release: nat, compare: nat)
    requires PrefixFree(owners) && compare <= release
    requires Inv(owners, s, release) && Run(owners, s, actions) && InTime(owners, s, actions, release, compare)
    ensures Inv(owners, After(owners, s, actions), release)
    decreases |actions|
  {
    if actions != [] {
      InvStep(owners, s, actions[0], release);
      InvAlong(owners, Apply(owners, s, actions[0]), actions[1..], release, compare);
    }
  }

  /**
   Mutual exclusion, over every run, every interleaving and every pattern of crashes: if no
   owner string begins another, live attempts release in time, and the clock is read after
   the guarded Stat within the slack that leaves, then at most one live attempt holds the lock.
   */
  lemma MutualExclusion(owners: Owners, init: State, actions: seq<Action>, release: nat, compare: nat)
    requires PrefixFree(owners) && compare <= release
    requires Initial(owners, init) && Run(owners, init, actions) && InTime(owners, init, actions, release, compare)
    ensures Exclusive(After(owners, init, actions))
  {
    InvAlong(owners, init, actions, release, compare);
    InvExcludes(owners, After(owners, init, actions), release);
  }

  /** An attempt about to remove the lock file as its own does not face another's. */
  ghost predicate RemovesOnlyOwn(s: State) {
    forall p :: p in s.pc && s.pc[p].RemovingOwn? && s.lock.Some? ==> Owns(s, p)
  }

  /** Under the same assumptions nothing changes between reading the owner and removing the file. */
  lemma OwnRemoval(owners: Owners, init: State, actions: seq<Action>, release: nat, compare: nat)
    requires PrefixFree(owners) && compare <= release
    requires Initial(owners, init) && Run(owners, init, actions) && InTime(owners, init, actions, release, compare)
    ensures RemovesOnlyOwn(After(owners, init, actions))
  {
    InvAlong(owners, init, actions, release, compare);
    var s := After(owners, init, actions);
    forall p | p in s.pc && s.pc[p].RemovingOwn? && s.lock.Some? ensures Owns(s, p) {
      assert PositionOk(s, p, release);
    }
  }

  // --------------------------------------------------------------------------
  // Ownership, with no assumption on time or on owner strings
  // --------------------------------------------------------------------------

  predicate IsStepOf(a: Action, p: Attempt) {
    !a.Tick? && a.p == p
  }

  lemma {:induction false} GuardAlong(owners: Owners, s: State, actions: seq<Action>)
    requires GuardOk(s) && Run(owners, s, actions)
    ensures GuardOk(After(owners, s, actions))
    decreases |actions|
  {
    if actions != [] {
      GuardStep(owners, s, actions[0]);
      GuardAlong(owners, Apply(owners, s, actions[0]), actions[1..]);
    }
  }

  /** In every run the cleanup guard disappears only by a step of the attempt that created it. */
  lemma GuardRemovedByCreator(owners: Owners, init: State, actions: seq<Action>, a: Action, q: Attempt)
    requires Initial(owners, init) && Run(owners, init, actions)
    requires var s := After(owners, init, actions);
             Enabled(owners, s, a) && s.guard == Some(q) && Apply(owners, s, a).guard != Some(q)
    ensures IsStepOf(a, q) && (a.ReleaseGuard? || a.DiscardGuard?)
  {
    GuardAlong(owners, init, actions);
    GuardChange(owners, After(owners, init, actions), a, q);
  }

  lemma GuardChange(owners: Owners, s: State, a: Action, q: Attempt)
    requires GuardOk(s) && Enabled(owners, s, a)
    requires s.guard == Some(q) && Apply(owners, s, a).guard != Some(q)
    ensures IsStepOf(a, q) && (a.ReleaseGuard? || a.DiscardGuard?)
  {
  }

  lemma {:induction false} OverIsForever(owners: Owners, s: State, actions: seq<Action>, p: Attempt)
    requires Run(owners, s, actions) && p in s.pc && !Live(s.pc[p])
    ensures forall i :: 0 <= i < |actions| ==> !IsStepOf(actions[i], p)
    decreases |actions|
  {
    if actions != [] {
      var s' := Apply(owners, s, actions[0]);
      assert p in s'.pc && s'.pc[p] == s.pc[p];
      OverIsForever(owners, s', actions[1..], p);
    }
  }

  /**
   Closing a lock whose file holds another content removes nothing: the file stays, and the
   attempt takes no further step in the rest of the run. This covers the deferred Close of a
   Lock that timed out or failed.
   */
  lemma ForeignFileSurvivesClose(owners: Owners, s: State, actions: seq<Action>, p: Attempt)
    requires Run(owners, s, actions) && actions != [] && actions[0].ReadOwner? && actions[0].p == p
    requires s.lock.Some? && s.lock.value.content != owners[p]
    ensures Apply(owners, s, actions[0]).lock == s.lock
    ensures forall i :: 0 < i < |actions| ==> !IsStepOf(actions[i], p)
  {
    var s' := Apply(owners, s, actions[0]);
    OverIsForever(owners, s', actions[1..], p);
    forall i | 0 < i < |actions| ensures !IsStepOf(actions[i], p) {
      assert actions[i] == actions[1..][i - 1];
    }
  }

  /** Only an attempt whose `Lock` has been called and left can have held the lock. */
  ghost predicate HeldOk(s: State) {
    forall p :: p in s.held ==>
      && p in s.pc
      && (s.pc[p].Holding? || s.pc[p].ReadingOwner? || s.pc[p].RemovingOwn? || !Live(s.pc[p]))
  }

  lemma {:induction false} HeldAlong(owners: Owners, s: State, actions: seq<Action>)
    requires HeldOk(s) && Run(owners, s, actions)
    ensures HeldOk(After(owners, s, actions))
    decreases |actions|
  {
    if actions != [] {
      HeldStep(owners, s, actions[0]);
      HeldAlong(owners, Apply(owners, s, actions[0]), actions[1..]);
    }
  }

  lemma HeldStep(owners: Owners, s: State, a: Action)
    requires HeldOk(s) && Enabled(owners, s, a)
    ensures HeldOk(Apply(owners, s, a))
  {
    Frame(owners, s, a);
  }

  /** Until its creator has written to it, the file is empty. */
  ghost predicate UnwrittenIsEmpty(s: State) {
    s.lock.Some? && s.lock.value.creator in s.pc && s.pc[s.lock.value.creator].Writing? ==>
      s.lock.value.content == []
  }

  lemma {:induction false} UnwrittenAlong(owners: Owners, s: State, actions: seq<Action>)
    requires UnwrittenIsEmpty(s) && Run(owners, s, actions)
    ensures UnwrittenIsEmpty(After(owners, s, actions))
    decreases |actions|
  {
    if actions != [] {
      UnwrittenAlong(owners, Apply(owners, s, actions[0]), actions[1..]);
    }
  }

  /** Closing while the creator has not yet written leaves the creator's file in place. */
  lemma UnwrittenFileSurvivesClose(owners: Owners, init: State, actions: seq<Action>, p: Attempt, ok: bool)
    requires Initial(owners, init) && Run(owners, init, actions)
    requires var s := After(owners, init, actions);
             && Enabled(owners, s, ReadOwner(p, ok)) && owners[p] != []
             && s.lock.Some? && s.lock.value.creator in s.pc && s.pc[s.lock.value.creator].Writing?
    ensures var s' := Apply(owners, After(owners, init, actions), ReadOwner(p, ok));
            s'.lock == After(owners, init, actions).lock && s'.pc[p].Done?
  {
    UnwrittenAlong(owners, init, actions);
  }
}

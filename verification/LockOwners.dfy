/** `newLockOwner`: the owner string "pid:counter", with a counter shared by the whole process. */
module LockOwners {
  import opened Utf8
  import opened Json
  import opened Decimal
  import opened LockProtocol
  import opened LockExactness

  const COUNTER_RANGE: nat := 0x1_0000_0000_0000_0000

  function Owner(pid: nat, counter: nat): seq<byte> {
    FormatNat(pid) + [COLON] + FormatNat(counter)
  }

  class OwnerSource {
    const pid: nat
    var lockOwnerCounter: nat
    ghost var issued: nat  // how many owner strings were handed out

    ghost predicate Valid()
      reads this
    {
      lockOwnerCounter == issued % COUNTER_RANGE
    }

    constructor (pid: nat)
      ensures Valid() && this.pid == pid && issued == 0
    {
      this.pid := pid;
      lockOwnerCounter, issued := 0, 0;
    }

    /** The n-th string a process hands out carries the number n, up to wrap-around. */
    method NewLockOwner() returns (owner: seq<byte>)
      requires Valid()
      modifies this
      ensures Valid() && issued == old(issued) + 1
      ensures owner == Owner(pid, issued % COUNTER_RANGE)
      ensures owner == FormatNat(pid) + Ascii(":") + FormatNat(issued % 0x1_0000_0000_0000_0000)
    {
      lockOwnerCounter := (lockOwnerCounter + 1) % COUNTER_RANGE;
      issued := issued + 1;
      owner := Owner(pid, lockOwnerCounter);
    }
  }

  lemma FormatNatInjective(m: nat, n: nat)
    ensures FormatNat(m) == FormatNat(n) <==> m == n
  {
    FormatNatDigits(m);
    FormatNatDigits(n);
  }

  /** The colon can be found again: digits do not contain one. */
  lemma SameSplit(a: seq<byte>, b: seq<byte>, c: seq<byte>, d: seq<byte>)
    requires AllDigits(a) && AllDigits(c) && a + [COLON] + b == c + [COLON] + d
    ensures a == c && b == d
  {
    var s := a + [COLON] + b;
    assert s[|a|] == COLON && s[|c|] == COLON;
    assert forall i :: 0 <= i < |a| ==> s[i] == a[i];
    assert forall i :: 0 <= i < |c| ==> s[i] == c[i];
    assert a == s[..|a|] && c == s[..|c|];
    assert b == s[|a| + 1..] && d == s[|c| + 1..];
  }

  /** Owner strings are equal only for the same process number and the same counter. */
  lemma OwnerIsInjective(pid1: nat, counter1: nat, pid2: nat, counter2: nat)
    ensures Owner(pid1, counter1) == Owner(pid2, counter2) <==> pid1 == pid2 && counter1 == counter2
  {
    if Owner(pid1, counter1) == Owner(pid2, counter2) {
      FormatNatDigits(pid1);
      FormatNatDigits(pid2);
      SameSplit(FormatNat(pid1), FormatNat(counter1), FormatNat(pid2), FormatNat(counter2));
      FormatNatInjective(pid1, pid2);
      FormatNatInjective(counter1, counter2);
    }
  }

  /**
   Two strings of one process differ exactly when their serial numbers differ modulo 2^64,
   and two processes with the same number (as in separate containers) do collide.
   */
  lemma OwnersDistinct(pid1: nat, serial1: nat, pid2: nat, serial2: nat)
    ensures Owner(pid1, serial1 % COUNTER_RANGE) != Owner(pid2, serial2 % COUNTER_RANGE) <==>
            pid1 != pid2 || (serial1 - serial2) % COUNTER_RANGE != 0
  {
    hide Owner;
    OwnerIsInjective(pid1, serial1 % COUNTER_RANGE, pid2, serial2 % COUNTER_RANGE);
  }

  // --------------------------------------------------------------------------
  // Owner strings that begin alike
  // --------------------------------------------------------------------------

  /** The decimal digits of `m` are the first digits of `n`: dropping last digits leads to `m`. */
  predicate BeginsDigits(m: nat, n: nat) {
    m == n || (n >= 10 && BeginsDigits(m, n / 10))
  }

  lemma {:induction false} PrefixIsBeginsDigits(m: nat, n: nat)
    ensures IsPrefix(FormatNat(m), FormatNat(n)) <==> BeginsDigits(m, n)
  {
    var a, b := FormatNat(m), FormatNat(n);
    FormatNatInjective(m, n);
    if n >= 10 {
      var shorter := FormatNat(n / 10);
      PrefixIsBeginsDigits(m, n / 10);
      assert b[..|b| - 1] == shorter;
      if |a| < |b| {
        assert b[..|a|] == shorter[..|a|];
      } else {
        assert IsPrefix(a, b) ==> a == b;
      }
    } else {
      assert IsPrefix(a, b) ==> a == b;
    }
  }

  /** One owner string begins another exactly for one process and serials whose digits do. */
  lemma OwnerBegins(pid1: nat, counter1: nat, pid2: nat, counter2: nat)
    ensures IsPrefix(Owner(pid1, counter1), Owner(pid2, counter2)) <==>
            pid1 == pid2 && BeginsDigits(counter1, counter2)
  {
    hide FormatNat, BeginsDigits;
    var a, b, c, d := FormatNat(pid1), FormatNat(counter1), FormatNat(pid2), FormatNat(counter2);
    var whole := a + [COLON] + b;
    PrefixIsBeginsDigits(counter1, counter2);
    if IsPrefix(whole, c + [COLON] + d) {
      var rest := (c + [COLON] + d)[|whole|..];
      assert a + [COLON] + (b + rest) == c + [COLON] + d;
      FormatNatDigits(pid1);
      FormatNatDigits(pid2);
      SameSplit(a, b + rest, c, d);
      FormatNatInjective(pid1, pid2);
      assert d[..|b|] == b;
    }
    if pid1 == pid2 && IsPrefix(b, d) {
      assert d == b + d[|b|..];
      assert c + [COLON] + d == whole + d[|b|..];
    }
  }

  /** The process of an attempt, and the how-manieth owner string of the process it got. */
  datatype Id = Id(pid: nat, serial: nat)

  function OwnersOf(ids: map<Attempt, Id>): Owners {
    map p | p in ids :: Owner(ids[p].pid, ids[p].serial % COUNTER_RANGE)
  }

  /** The same process, and the digits of the counter of `a` are the first of those of `b`. */
  predicate Begins(a: Id, b: Id) {
    a.pid == b.pid && BeginsDigits(a.serial % COUNTER_RANGE, b.serial % COUNTER_RANGE)
  }

  ghost predicate SomeBeginsAnother(ids: map<Attempt, Id>) {
    exists p, q :: p in ids && q in ids && p != q && Begins(ids[q], ids[p])
  }

  lemma PrefixFreeExactly(ids: map<Attempt, Id>)
    ensures PrefixFree(OwnersOf(ids)) <==> !SomeBeginsAnother(ids)
  {
    hide Owner, IsPrefix, BeginsDigits;
    forall p, q | p in ids && q in ids
      ensures IsPrefix(OwnersOf(ids)[q], OwnersOf(ids)[p]) <==> Begins(ids[q], ids[p])
    {
      OwnerBegins(ids[q].pid, ids[q].serial % COUNTER_RANGE, ids[p].pid, ids[p].serial % COUNTER_RANGE);
    }
  }

  /**
   The lock with the code's own owner strings: all runs within the time bounds are exclusive
   exactly when the clock read is quicker than the slack and no counter begins another of the
   same process.
   */
  lemma CodeExcludesExactly(ids: map<Attempt, Id>, release: int, compare: nat)
    requires |ids| >= 4
    ensures Excludes(OwnersOf(ids), release, compare) <==>
            release > STALE_LOCK_AGE || (compare <= release && !SomeBeginsAnother(ids))
    ensures KeepsOthers(OwnersOf(ids), release, compare) <==>
            release > STALE_LOCK_AGE || (compare <= release && !SomeBeginsAnother(ids))
  {
    hide Excludes, KeepsOthers, PrefixFree, SomeBeginsAnother;
    assert OwnersOf(ids).Keys == ids.Keys;
    assert |OwnersOf(ids)| == |OwnersOf(ids).Keys| && |ids| == |ids.Keys|;
    SafetyExactly(OwnersOf(ids), release, compare);
    PrefixFreeExactly(ids);
  }

  /** Counters with the same number of digits never begin one another; 1 begins 12. */
  lemma SameLengthNeverBegins(m: nat, n: nat)
    ensures |FormatNat(m)| == |FormatNat(n)| ==> (BeginsDigits(m, n) <==> m == n)
    ensures BeginsDigits(1, 12)
  {
    PrefixIsBeginsDigits(m, n);
    FormatNatInjective(m, n);
  }
}

/**
 `ReduceCIDRs`: mask the valid prefixes, sort them broadest first, and keep in one pass
 those that no kept prefix covers. The result is the sorted sequence of the maximal input
 prefixes, which spans the same addresses with the fewest possible ranges.
 */
module ReduceCidrs {
  import opened Cidr

  /** A published range: text that `netip.ParsePrefix` rejects, or the prefix it parses to. */
  datatype CIDRText = Malformed | Text(prefix: CIDR)

  /** The set the input denotes once invalid text is skipped and host bits are cleared. */
  ghost function MaskedInputs(cidrs: seq<CIDRText>): set<CIDR> {
    set i | 0 <= i < |cidrs| && cidrs[i].Text? :: Mask(cidrs[i].prefix)
  }

  /** IPv4 before IPv6, then broader first, then by address. */
  predicate Less(a: CIDR, b: CIDR) {
    if a.family != b.family then a.family.V4?
    else if a.bits != b.bits then a.bits < b.bits
    else a.addr < b.addr
  }

  predicate Sorted(s: seq<CIDR>) {
    forall i, j :: 0 <= i < j < |s| ==> !Less(s[j], s[i])
  }

  predicate StrictlySorted(s: seq<CIDR>) {
    forall i, j :: 0 <= i < j < |s| ==> Less(s[i], s[j])
  }

  ghost predicate AllMasked(s: set<CIDR>) {
    forall p :: p in s ==> IsMasked(p)
  }

  /** No other member of `s` includes every address of `p`. */
  ghost predicate Maximal(s: set<CIDR>, p: CIDR) {
    p in s && forall q :: q in s && Includes(q, p) ==> q == p
  }

  ghost predicate InUnion(s: set<CIDR>, a: IP) {
    exists p :: p in s && p.Contains(a)
  }

  ghost predicate SameUnion(s: set<CIDR>, t: set<CIDR>) {
    forall a: IP :: InUnion(s, a) <==> InUnion(t, a)
  }

  ghost function Elements(r: seq<CIDR>): set<CIDR> {
    set p | p in r
  }

  /** `r` lists exactly the maximal members of `s`, in the comparator's order. */
  ghost predicate IsReduction(r: seq<CIDR>, s: set<CIDR>) {
    StrictlySorted(r) && forall p :: p in r <==> Maximal(s, p)
  }

  ghost predicate AllText(cidrs: seq<CIDRText>) {
    forall i :: 0 <= i < |cidrs| ==> cidrs[i].Text?
  }

  ghost function Ranges(cidrs: seq<CIDRText>): (r: seq<CIDR>)
    requires AllText(cidrs)
    ensures |r| == |cidrs|
  {
    seq(|cidrs|, i requires 0 <= i < |cidrs| => cidrs[i].prefix)
  }

  // --------------------------------------------------------------------------
  // The algorithm
  // --------------------------------------------------------------------------

  method SortPrefixes(a: array<CIDR>)
    modifies a
    ensures Sorted(a[..])
    ensures multiset(a[..]) == multiset(old(a[..]))
    ensures forall i, j :: 0 <= i < j < a.Length && a[i].family.V6? ==> a[j].family.V6?
    ensures forall i, j :: 0 <= i < j < a.Length && a[i].family == a[j].family ==>
              a[i].bits <= a[j].bits && (a[i].bits == a[j].bits ==> a[i].addr <= a[j].addr)
  {
    hide Less;
    for i := 0 to a.Length
      invariant SortedBut(a[..i], i)
      invariant multiset(a[..]) == multiset(old(a[..]))
    {
      var j := i;
      while j > 0 && Less(a[j], a[j - 1])
        invariant 0 <= j <= i
        invariant SortedBut(a[..i + 1], j)
        invariant multiset(a[..]) == multiset(old(a[..]))
      {
        SwapKeepsOrder(a[..i + 1], j);
        a[j], a[j - 1] := a[j - 1], a[j];
        j := j - 1;
      }
      SettledIsSorted(a[..i + 1], j);
    }
    assert a[..a.Length] == a[..];
    forall i, j | 0 <= i < j < a.Length
      ensures a[i].family.V6? ==> a[j].family.V6?
      ensures a[i].family == a[j].family ==>
                a[i].bits <= a[j].bits && (a[i].bits == a[j].bits ==> a[i].addr <= a[j].addr)
    {
      assert !Less(a[..][j], a[..][i]);
      LessMeans(a[j], a[i]);
    }
  }

  /** The comparator in terms of the fields. */
  lemma LessMeans(a: CIDR, b: CIDR)
    ensures Less(a, b) <==>
            || (a.family.V4? && b.family.V6?)
            || (a.family == b.family && a.bits < b.bits)
            || (a.family == b.family && a.bits == b.bits && a.addr < b.addr)
  {
  }

  /** Sorted, except that the element at `j` may still be too small for its place. */
  predicate SortedBut(s: seq<CIDR>, j: nat) {
    forall x, y :: 0 <= x < y < |s| && y != j ==> !Less(s[y], s[x])
  }

  lemma SwapKeepsOrder(s: seq<CIDR>, j: nat)
    requires 0 < j < |s| && SortedBut(s, j) && Less(s[j], s[j - 1])
    ensures SortedBut(s[j := s[j - 1]][j - 1 := s[j]], j - 1)
  {
  }

  lemma SettledIsSorted(s: seq<CIDR>, j: nat)
    requires j < |s| && SortedBut(s, j) && (j > 0 ==> !Less(s[j], s[j - 1]))
    ensures SortedBut(s, |s|)
  {
    assert forall x :: 0 <= x < j - 1 ==> !Less(s[j - 1], s[x]);
  }

  method ReduceCIDRs(cidrs: seq<CIDRText>) returns (result: seq<CIDRText>)
    ensures AllText(result)
    ensures IsReduction(Ranges(result), MaskedInputs(cidrs))
    ensures forall i, j :: 0 <= i < j < |result| && result[i].prefix.family.V6? ==> result[j].prefix.family.V6?
    ensures forall i, j :: 0 <= i < j < |result| && result[i].prefix.family == result[j].prefix.family ==>
              || result[i].prefix.bits < result[j].prefix.bits
              || (result[i].prefix.bits == result[j].prefix.bits && result[i].prefix.addr < result[j].prefix.addr)
  {
    var prefixes: seq<CIDR> := [];
    for i := 0 to |cidrs|
      invariant Elements(prefixes) == MaskedInputs(cidrs[..i])
    {
      if cidrs[i].Text? {
        prefixes := prefixes + [Mask(cidrs[i].prefix)];
      }
      MaskedInputsGrow(cidrs, i);
    }
    assert cidrs[..|cidrs|] == cidrs;

    var sorted := new CIDR[|prefixes|](i requires 0 <= i < |prefixes| => prefixes[i]);
    assert sorted[..] == prefixes;
    SortPrefixes(sorted);
    SameElements(prefixes, sorted[..]);
    var reduced := KeepUncovered(sorted[..]);

    result := [];
    for i := 0 to |reduced|
      invariant |result| == i && AllText(result)
      invariant Ranges(result) == reduced[..i]
    {
      result := result + [Text(reduced[i])];
    }
    assert reduced[..|reduced|] == reduced;
    forall i, j | 0 <= i < j < |result|
      ensures result[i].prefix.family.V6? ==> result[j].prefix.family.V6?
      ensures result[i].prefix.family == result[j].prefix.family ==>
              || result[i].prefix.bits < result[j].prefix.bits
              || (result[i].prefix.bits == result[j].prefix.bits && result[i].prefix.addr < result[j].prefix.addr)
    {
      assert Less(Ranges(result)[i], Ranges(result)[j]);
      LessMeans(result[i].prefix, result[j].prefix);
    }
  }

  /** The greedy pass over the sorted prefixes. */
  method KeepUncovered(prefixes: seq<CIDR>) returns (reduced: seq<CIDR>)
    requires Sorted(prefixes) && AllMasked(Elements(prefixes))
    ensures IsReduction(reduced, Elements(prefixes))
  {
    ghost var all := Elements(prefixes);
    reduced := [];
    for i := 0 to |prefixes|
      invariant StrictlySorted(reduced)
      invariant forall p :: p in reduced <==> p in prefixes[..i] && Maximal(all, p)
    {
      var candidate := prefixes[i];
      assert candidate in all;
      var covered := false;
      ghost var cover := candidate;
      for j := 0 to |reduced|
        invariant !covered
        invariant forall e :: e in reduced[..j] ==> !Covers(e, candidate)
      {
        if reduced[j].bits <= candidate.bits && reduced[j].Contains(Base(candidate)) {
          covered, cover := true, reduced[j];
          break;
        }
      }
      if covered {
        assert cover in reduced && Covers(cover, candidate);
        CoversIsInclusion(cover, candidate);
        assert Maximal(all, candidate) ==> cover == candidate;
      } else {
        assert reduced[..|reduced|] == reduced;
        ghost var m := MaximalAbove(all, candidate);
        EarlierIfAbove(prefixes, i, m);
        assert m !in reduced;
        assert m == candidate;
        forall e | e in reduced ensures Less(e, candidate) {
          assert e in prefixes[..i] && e in all;
          var k :| 0 <= k < i && prefixes[k] == e;
          LessTotal(e, candidate);
        }
        reduced := reduced + [candidate];
      }
      assert prefixes[..i + 1] == prefixes[..i] + [candidate];
    }
    assert prefixes[..|prefixes|] == prefixes;
  }

  lemma MaskedInputsGrow(cidrs: seq<CIDRText>, i: nat)
    requires i < |cidrs|
    ensures MaskedInputs(cidrs[..i + 1]) ==
            MaskedInputs(cidrs[..i]) + if cidrs[i].Text? then {Mask(cidrs[i].prefix)} else {}
  {
    var before, after := cidrs[..i], cidrs[..i + 1];
    forall k | 0 <= k < i ensures before[k] == after[k] {}
    forall p | p in MaskedInputs(after)
      ensures p in MaskedInputs(before) || (cidrs[i].Text? && p == Mask(cidrs[i].prefix))
    {
      var k :| 0 <= k < |after| && after[k].Text? && Mask(after[k].prefix) == p;
      if k < i {
        assert before[k].Text? && Mask(before[k].prefix) == p;
      }
    }
    forall p | p in MaskedInputs(before) ensures p in MaskedInputs(after) {
      var k :| 0 <= k < |before| && before[k].Text? && Mask(before[k].prefix) == p;
      assert after[k].Text? && Mask(after[k].prefix) == p;
    }
    if cidrs[i].Text? {
      assert after[i].Text? && Mask(after[i].prefix) in MaskedInputs(after);
    }
  }

  lemma SameElements(a: seq<CIDR>, b: seq<CIDR>)
    requires multiset(a) == multiset(b)
    ensures Elements(a) == Elements(b)
  {
    forall p ensures p in a <==> p in b {
      assert p in a <==> p in multiset(a);
      assert p in b <==> p in multiset(b);
    }
  }

  // --------------------------------------------------------------------------
  // The comparator
  // --------------------------------------------------------------------------

  lemma LessTotal(a: CIDR, b: CIDR)
    ensures !Less(a, a)
    ensures a == b || Less(a, b) || Less(b, a)
    ensures !(Less(a, b) && Less(b, a))
  {
  }

  lemma LessTransitive(a: CIDR, b: CIDR, c: CIDR)
    requires Less(a, b) && Less(b, c)
    ensures Less(a, c)
  {
  }

  /** A prefix that covers another comes before it, so the pass never has to evict. */
  lemma CoversIsEarlier(p: CIDR, q: CIDR)
    requires IsMasked(p) && IsMasked(q) && Covers(p, q) && p != q
    ensures Less(p, q)
  {
    if p.bits == q.bits {
      CoversAntisymmetric(p, q);
    }
  }

  lemma EarlierIfAbove(prefixes: seq<CIDR>, i: nat, m: CIDR)
    requires i < |prefixes| && Sorted(prefixes) && AllMasked(Elements(prefixes))
    requires m in prefixes && Covers(m, prefixes[i])
    ensures m in prefixes[..i + 1]
  {
    assert m in Elements(prefixes) && prefixes[i] in Elements(prefixes);
    if m == prefixes[i] {
      assert prefixes[..i + 1][i] == m;
    } else {
      CoversIsEarlier(m, prefixes[i]);
      var k :| 0 <= k < |prefixes| && prefixes[k] == m;
      assert prefixes[..i + 1][k] == m;
    }
  }

  /** Every prefix lies below a maximal one. */
  lemma {:induction false} MaximalAbove(s: set<CIDR>, p: CIDR) returns (m: CIDR)
    requires AllMasked(s) && p in s
    ensures Maximal(s, m) && Covers(m, p)
    decreases p.bits
  {
    if Maximal(s, p) {
      m := p;
    } else {
      var q := BroaderThan(s, p);
      m := MaximalAbove(s, q);
      CoversTransitive(m, q, p);
    }
  }

  lemma BroaderThan(s: set<CIDR>, p: CIDR) returns (q: CIDR)
    requires AllMasked(s) && p in s && !Maximal(s, p)
    ensures q in s && Covers(q, p) && q.bits < p.bits
  {
    q :| q in s && Includes(q, p) && q != p;
    CoversIsInclusion(q, p);
    if q.bits == p.bits {
      CoversAntisymmetric(q, p);
    }
  }

  // --------------------------------------------------------------------------
  // What the reduction means
  // --------------------------------------------------------------------------

  lemma MaskedInputsMasked(cidrs: seq<CIDRText>)
    ensures AllMasked(MaskedInputs(cidrs))
  {
  }

  /** Dropping covered ranges loses no address and adds none. */
  lemma ReductionKeepsUnion(r: seq<CIDR>, s: set<CIDR>)
    requires AllMasked(s) && IsReduction(r, s)
    ensures SameUnion(Elements(r), s)
  {
    forall a: IP | InUnion(s, a) ensures InUnion(Elements(r), a) {
      var p :| p in s && p.Contains(a);
      var m := MaximalAbove(s, p);
      CoversIsInclusion(m, p);
      assert m in Elements(r);
    }
    forall a: IP | InUnion(Elements(r), a) ensures InUnion(s, a) {
      var p :| p in Elements(r) && p.Contains(a);
      assert Maximal(s, p);
    }
  }

  /** No two of the kept ranges share an address. */
  lemma ReductionIsDisjoint(r: seq<CIDR>, s: set<CIDR>, i: nat, j: nat, a: IP)
    requires AllMasked(s) && IsReduction(r, s)
    requires i < |r| && j < |r| && r[i].Contains(a) && r[j].Contains(a)
    ensures i == j
  {
    assert r[i] in r && r[j] in r;
    Laminar(r[i], r[j], a);
    CoversIsInclusion(r[i], r[j]);
    CoversIsInclusion(r[j], r[i]);
    assert r[i] == r[j];
    LessTotal(r[i], r[j]);
  }

  /** The result does not depend on the order of the input or on repetitions in it. */
  lemma ReductionIsCanonical(in1: seq<CIDRText>, in2: seq<CIDRText>, out1: seq<CIDRText>, out2: seq<CIDRText>)
    requires AllText(out1) && IsReduction(Ranges(out1), MaskedInputs(in1))
    requires AllText(out2) && IsReduction(Ranges(out2), MaskedInputs(in2))
    requires forall c :: c in in1 <==> c in in2
    ensures out1 == out2
  {
    forall p ensures p in MaskedInputs(in1) <==> p in MaskedInputs(in2) {
      SameMaskedInput(in1, in2, p);
      SameMaskedInput(in2, in1, p);
    }
    SortedUnique(Ranges(out1), Ranges(out2));
    forall i | 0 <= i < |out1| ensures out1[i] == out2[i] {
      assert Ranges(out1)[i] == Ranges(out2)[i];
    }
  }

  lemma SameMaskedInput(in1: seq<CIDRText>, in2: seq<CIDRText>, p: CIDR)
    requires forall c :: c in in1 ==> c in in2
    ensures p in MaskedInputs(in1) ==> p in MaskedInputs(in2)
  {
    if p in MaskedInputs(in1) {
      var i :| 0 <= i < |in1| && in1[i].Text? && Mask(in1[i].prefix) == p;
      assert in1[i] in in1;
      var j :| 0 <= j < |in2| && in2[j] == in1[i];
    }
  }

  lemma {:induction false} SortedUnique(r1: seq<CIDR>, r2: seq<CIDR>)
    requires StrictlySorted(r1) && StrictlySorted(r2)
    requires forall p :: p in r1 <==> p in r2
    ensures r1 == r2
  {
    if r1 == [] {
      HasMember(r2);
    } else {
      assert r1[0] in r2 && r2 != [];
      assert r2[0] in r1;
      var i :| 0 <= i < |r2| && r2[i] == r1[0];
      var j :| 0 <= j < |r1| && r1[j] == r2[0];
      assert r1[0] == r2[0] by {
        if i > 0 && j > 0 { LessTotal(r1[0], r2[0]); }
      }
      forall p ensures p in r1[1..] <==> p in r2[1..] {
        HeadNotInTail(r1, p);
        HeadNotInTail(r2, p);
      }
      SortedUnique(r1[1..], r2[1..]);
      assert r1 == [r1[0]] + r1[1..] && r2 == [r2[0]] + r2[1..];
    }
  }

  lemma HasMember(r: seq<CIDR>)
    ensures r != [] ==> exists p :: p in r
  {
    if r != [] {
      assert r[0] in r;
    }
  }

  lemma HeadNotInTail(r: seq<CIDR>, p: CIDR)
    requires StrictlySorted(r) && r != []
    ensures p in r[1..] <==> p in r && p != r[0]
  {
    if p in r && p != r[0] {
      var k :| 0 <= k < |r| && r[k] == p;
      assert r[1..][k - 1] == p;
    }
    if p in r[1..] {
      var k :| 0 <= k < |r[1..]| && r[1..][k] == p;
      assert r[k + 1] == p;
      LessTotal(r[0], p);
    }
  }

  /** Reducing a reduced list changes nothing. */
  lemma ReductionIsIdempotent(cidrs: seq<CIDRText>, out: seq<CIDRText>, again: seq<CIDRText>)
    requires AllText(out) && IsReduction(Ranges(out), MaskedInputs(cidrs))
    requires AllText(again) && IsReduction(Ranges(again), MaskedInputs(out))
    ensures again == out
  {
    var r := Ranges(out);
    MaskedInputsMasked(cidrs);
    OutputsAreMasked(out, MaskedInputs(cidrs));
    MaximalOfMaximal(r, MaskedInputs(cidrs));
    SortedUnique(Ranges(again), r);
    assert |again| == |out|;
    forall i | 0 <= i < |out| ensures again[i] == out[i] {
      assert Ranges(again)[i] == r[i];
    }
  }

  /** Masking a kept range changes nothing, so the next call starts from the kept ranges. */
  lemma OutputsAreMasked(out: seq<CIDRText>, s: set<CIDR>)
    requires AllText(out) && AllMasked(s) && IsReduction(Ranges(out), s)
    ensures MaskedInputs(out) == Elements(Ranges(out))
  {
    hide Less, Mask, RawPrefix.Contains;
    var r := Ranges(out);
    forall i | 0 <= i < |out| ensures Mask(out[i].prefix) == r[i] {
      assert r[i] in r && Maximal(s, r[i]);
      MaskFixed(r[i]);
    }
    forall p | p in r ensures p in MaskedInputs(out) {
      var i :| 0 <= i < |r| && r[i] == p;
      assert out[i].Text? && Mask(out[i].prefix) == p;
    }
    forall p | p in MaskedInputs(out) ensures p in r {
      var i :| 0 <= i < |out| && out[i].Text? && Mask(out[i].prefix) == p;
      assert r[i] == p;
    }
  }

  /** The maximal members are their own maximal members. */
  lemma MaximalOfMaximal(r: seq<CIDR>, s: set<CIDR>)
    requires IsReduction(r, s)
    ensures IsReduction(r, Elements(r))
  {
    forall p ensures p in r <==> Maximal(Elements(r), p) {
      if p in r {
        forall q | q in Elements(r) && Includes(q, p) ensures q == p {
          assert Maximal(s, q) && Maximal(s, p);
        }
      }
    }
  }

  /**
   Optimality: a collection of input prefixes that spans the same addresses has at least as
   many members as the result, and the result is the only one that small.
   */
  lemma ReductionIsOptimal(r: seq<CIDR>, s: set<CIDR>, t: set<CIDR>)
    requires AllMasked(s) && IsReduction(r, s)
    requires t <= s && SameUnion(t, s)
    ensures |r| <= |t|
    ensures |t| == |r| ==> t == Elements(r)
  {
    var w := Witnesses(r, s, t, |r|);
    DistinctWithin(w, t);
    if |t| == |r| {
      forall i | 0 <= i < |r| ensures r[i] in t {
        if r[i] !in t {
          TwoBeneath(r, s, t, i);
        }
      }
      DistinctWithin(r, t);
    }
  }

  lemma {:induction false} DistinctWithin(w: seq<CIDR>, t: set<CIDR>)
    requires forall i, j :: 0 <= i < j < |w| ==> w[i] != w[j]
    requires forall i :: 0 <= i < |w| ==> w[i] in t
    ensures |w| <= |t|
    ensures |w| == |t| ==> t == Elements(w)
  {
    if w != [] {
      DistinctWithin(w[1..], t - {w[0]});
      assert w == [w[0]] + w[1..];
      assert Elements(w) == Elements(w[1..]) + {w[0]};
    }
  }

  /** An address of a kept range is spanned by some member of `t` that lies within the range. */
  lemma Beneath(r: seq<CIDR>, s: set<CIDR>, t: set<CIDR>, i: nat, a: IP) returns (q: CIDR)
    requires AllMasked(s) && IsReduction(r, s) && t <= s && SameUnion(t, s)
    requires i < |r| && r[i].Contains(a)
    ensures q in t && q.Contains(a) && Covers(r[i], q)
  {
    assert r[i] in r && Maximal(s, r[i]);
    assert InUnion(s, a) && InUnion(t, a);
    q :| q in t && q.Contains(a);
    Laminar(r[i], q, a);
    CoversIsInclusion(q, r[i]);
  }

  /** Distinct kept ranges have distinct members of `t` beneath them. */
  lemma {:induction false} Witnesses(r: seq<CIDR>, s: set<CIDR>, t: set<CIDR>, n: nat) returns (w: seq<CIDR>)
    requires AllMasked(s) && IsReduction(r, s) && t <= s && SameUnion(t, s) && n <= |r|
    ensures |w| == n
    ensures forall i :: 0 <= i < n ==> w[i] in t && Covers(r[i], w[i])
    ensures forall i, j :: 0 <= i < j < n ==> w[i] != w[j]
  {
    if n == 0 {
      w := [];
    } else {
      var w' := Witnesses(r, s, t, n - 1);
      var q := Beneath(r, s, t, n - 1, Base(r[n - 1]));
      forall i | 0 <= i < n - 1 ensures w'[i] != q {
        if w'[i] == q {
          OneRangeAbove(r, s, i, n - 1, q);
        }
      }
      w := w' + [q];
    }
  }

  lemma OneRangeAbove(r: seq<CIDR>, s: set<CIDR>, i: nat, j: nat, q: CIDR)
    requires AllMasked(s) && IsReduction(r, s)
    requires i < |r| && j < |r| && Covers(r[i], q) && Covers(r[j], q)
    ensures i == j
  {
    ReductionIsDisjoint(r, s, i, j, Base(q));
  }

  /** A kept range that is not itself in `t` needs two members of `t`, one for either end. */
  lemma TwoBeneath(r: seq<CIDR>, s: set<CIDR>, t: set<CIDR>, i: nat)
    requires AllMasked(s) && IsReduction(r, s) && t <= s && SameUnion(t, s)
    requires i < |r| && r[i] !in t
    ensures |r| < |t|
  {
    var p := r[i];
    assert p in r && Maximal(s, p);
    var q1 := Beneath(r, s, t, i, Base(p));
    var q2 := Beneath(r, s, t, i, Last(p));
    if q1 == q2 {
      BothEnds(p, q1);
    }
    var w := Witnesses(r, s, t, |r|);
    forall j | 0 <= j < |r| && j != i ensures w[j] != q1 && w[j] != q2 {
      if w[j] == q1 {
        OneRangeAbove(r, s, i, j, q1);
      } else if w[j] == q2 {
        OneRangeAbove(r, s, i, j, q2);
      }
    }
    DistinctWithin(w[i := q1] + [q2], t);
  }

  lemma BothEnds(p: CIDR, q: CIDR)
    requires IsMasked(p) && IsMasked(q) && q.Contains(Base(p)) && q.Contains(Last(p)) && Covers(p, q)
    ensures p == q
  {
    forall a: IP | p.Contains(a) ensures q.Contains(a) {
      BlockInterval(p, a.value);
      BlockInterval(q, Base(p).value);
      BlockInterval(q, Last(p).value);
      BlockInterval(q, a.value);
    }
    CoversIsInclusion(q, p);
    CoversAntisymmetric(p, q);
  }
}

/**
 Common Crawl ranges: a published IPv6 range is kept, a published IPv4 range is expanded
 into the addresses that forward-confirmed reverse DNS verifies one by one.
 */
module CommonCrawl {
  import opened Cidr
  import opened ReduceCidrs
  import opened CrawlerRanges
  import opened Wrappers
  import GoodBot

  /** A prefix field of the published list; an empty string counts as absent. */
  type Field = Option<CIDRText>

  datatype Item = Item(ipv4Prefix: Field, ipv6Prefix: Field)

  datatype FetchError = NoRanges | InvalidCIDR | Canceled

  const COMMON_CRAWL_DOMAIN := "commoncrawl.org"

  /** The resolver and the context of one fetch: `canceled(n)` is the n-th look at `ctx.Err()`. */
  datatype Env = Env(dns: GoodBot.DNS, lower: GoodBot.Fold, canceled: nat -> bool) {
    ghost predicate Verified(ip: IP) {
      GoodBot.ForwardConfirmed(dns, ip, [COMMON_CRAWL_DOMAIN], lower)
    }

    ghost predicate Accepts(ip: IP) {
      ip.family.V4? ==> Verified(ip)
    }
  }

  function FieldText(f: Field): seq<CIDRText> {
    if f.Some? then [f.value] else []
  }

  function Texts(payload: seq<Item>): seq<CIDRText> {
    if payload == [] then []
    else
      var item := payload[|payload| - 1];
      Texts(payload[..|payload| - 1]) + FieldText(item.ipv4Prefix) + FieldText(item.ipv6Prefix)
  }

  /** The texts are those of both fields of every item. */
  lemma {:induction false} TextsHas(payload: seq<Item>, t: CIDRText)
    ensures t in Texts(payload) <==>
            exists i :: 0 <= i < |payload| && (payload[i].ipv4Prefix == Some(t) || payload[i].ipv6Prefix == Some(t))
  {
    if payload != [] {
      var n := |payload| - 1;
      var shorter := payload[..n];
      TextsHas(shorter, t);
      if i :| 0 <= i < n && (payload[i].ipv4Prefix == Some(t) || payload[i].ipv6Prefix == Some(t)) {
        assert shorter[i].ipv4Prefix == Some(t) || shorter[i].ipv6Prefix == Some(t);
      }
      if i :| 0 <= i < n && (shorter[i].ipv4Prefix == Some(t) || shorter[i].ipv6Prefix == Some(t)) {
        assert payload[i].ipv4Prefix == Some(t) || payload[i].ipv6Prefix == Some(t);
      }
      FieldTextHas(payload[n].ipv4Prefix, t);
      FieldTextHas(payload[n].ipv6Prefix, t);
    }
  }

  lemma FieldTextHas(f: Field, t: CIDRText)
    ensures t in FieldText(f) <==> f == Some(t)
  {
  }

  /** The field holds a range with this address. */
  predicate FieldHas(f: Field, ip: IP) {
    f.Some? && f.value.Text? && f.value.prefix.Contains(ip)
  }

  /** Some field of some item has the address. */
  lemma TextsPublish(payload: seq<Item>, ip: IP)
    ensures Published(Texts(payload), ip) <==>
            exists i :: 0 <= i < |payload|
              && (FieldHas(payload[i].ipv4Prefix, ip) || FieldHas(payload[i].ipv6Prefix, ip))
  {
    var texts := Texts(payload);
    if k :| 0 <= k < |texts| && texts[k].Text? && texts[k].prefix.Contains(ip) {
      TextsHas(payload, texts[k]);
      var i :| && 0 <= i < |payload|
               && (payload[i].ipv4Prefix == Some(texts[k]) || payload[i].ipv6Prefix == Some(texts[k]));
      assert FieldHas(payload[i].ipv4Prefix, ip) || FieldHas(payload[i].ipv6Prefix, ip);
    }
    if i :| 0 <= i < |payload| && (FieldHas(payload[i].ipv4Prefix, ip) || FieldHas(payload[i].ipv6Prefix, ip)) {
      var f := if FieldHas(payload[i].ipv4Prefix, ip) then payload[i].ipv4Prefix else payload[i].ipv6Prefix;
      TextsHas(payload, f.value);
      var k :| 0 <= k < |texts| && texts[k] == f.value;
    }
  }

  /** All fields parse exactly when none is malformed. */
  lemma TextsParse(payload: seq<Item>)
    ensures AllText(Texts(payload)) <==>
            forall i :: 0 <= i < |payload| ==>
              payload[i].ipv4Prefix != Some(Malformed) && payload[i].ipv6Prefix != Some(Malformed)
  {
    var texts := Texts(payload);
    TextsHas(payload, Malformed);
    assert AllText(texts) <==> Malformed !in texts;
  }

  /** `netip.Addr.Next`: there is no address after the last one of the family. */
  function Next(ip: IP): Option<IP> {
    if ip.value + 1 < Pow2(ip.family.Width()) then Some(Address(ip.family, ip.value + 1)) else None
  }

  function Single(ip: IP): CIDRText {
    Text(Prefix(ip.family, ip.value, ip.family.Width()))
  }

  lemma SingleContains(ip: IP, a: IP)
    ensures Single(ip).prefix.Contains(a) <==> a == ip
  {
    assert Single(ip).prefix.Size() == 1;
  }

  /** The verified list spans exactly the verified ones among the addresses looked at. */
  ghost predicate Spans(env: Env, verified: seq<CIDRText>, visited: seq<IP>) {
    forall ip: IP :: Published(verified, ip) <==> ip in visited && env.Verified(ip)
  }

  /** None of these looks at the context found it canceled. */
  ghost predicate Uncanceled(env: Env, from: nat, to: nat) {
    forall n: nat :: from <= n < to ==> !env.canceled(n)
  }

  ghost predicate InOrder(prefix: CIDR, visited: seq<IP>) {
    forall i :: 0 <= i < |visited| ==> visited[i] == Address(prefix.family, prefix.addr + i)
  }

  function AddressAt(family: Family, value: nat): Option<IP> {
    if value < Pow2(family.Width()) then Some(Address(family, value)) else None
  }

  /** The address loop: every address of the prefix is looked at once, in ascending order. */
  method VerifyAddresses(env: Env, prefix: CIDR, checks: nat)
    returns (verified: seq<CIDRText>, checks': nat, ok: bool, ghost visited: seq<IP>)
    requires IsMasked(prefix)
    ensures AllText(verified)
    ensures forall i :: 0 <= i < |visited| ==> visited[i] == Address(prefix.family, prefix.addr + i)
    ensures checks' == checks + |visited| && Uncanceled(env, checks, checks')
    ensures ok ==> |visited| == prefix.Size()
    ensures ok ==> forall ip: IP :: Published(verified, ip) <==> prefix.Contains(ip) && env.Verified(ip)
    ensures !ok ==> env.canceled(checks')
  {
    hide GoodBot.ForwardConfirmed;
    SizeFits(prefix);
    var cur: Option<IP> := Some(Base(prefix));
    verified, checks', visited := [], checks, [];
    while cur.Some? && prefix.Contains(cur.value)
      invariant |visited| <= prefix.Size() && InOrder(prefix, visited)
      invariant cur == AddressAt(prefix.family, prefix.addr + |visited|)
      invariant AllText(verified) && Spans(env, verified, visited)
      invariant checks' == checks + |visited| && Uncanceled(env, checks, checks')
      decreases prefix.Size() - |visited|
    {
      var ip := cur.value;
      BlockInterval(prefix, ip.value);
      if env.canceled(checks') {
        ok := false;
        return;
      }
      checks' := checks' + 1;
      var good := GoodBot.IsIpGoodBot(env.dns, Some(ip), [COMMON_CRAWL_DOMAIN], env.lower);
      SpansExtended(env, verified, visited, ip);
      if good {
        verified := verified + [Single(ip)];
      }
      visited := visited + [ip];
      cur := Next(ip);
    }
    ok := true;
    BlockInterval(prefix, prefix.addr + |visited|);
    forall a: IP ensures a in visited <==> prefix.Contains(a) {
      BlockInterval(prefix, a.value);
      if prefix.Contains(a) {
        assert visited[a.value - prefix.addr] == a;
      }
    }
  }

  lemma SpansExtended(env: Env, verified: seq<CIDRText>, visited: seq<IP>, ip: IP)
    requires Spans(env, verified, visited)
    ensures env.Verified(ip) ==> Spans(env, verified + [Single(ip)], visited + [ip])
    ensures !env.Verified(ip) ==> Spans(env, verified, visited + [ip])
  {
    hide Env.Verified;
    var one := [Single(ip)];
    forall a: IP ensures Published(one, a) <==> a == ip {
      assert one[0].Text?;
      SingleContains(ip, a);
    }
    forall a: IP ensures Published(verified + one, a) <==> Published(verified, a) || a == ip {
      PublishedAppended(verified, one, a);
    }
  }

  lemma PublishedAppended(a: seq<CIDRText>, b: seq<CIDRText>, ip: IP)
    ensures Published(a + b, ip) <==> Published(a, ip) || Published(b, ip)
  {
    var c := a + b;
    if i :| 0 <= i < |a| && a[i].Text? && a[i].prefix.Contains(ip) {
      assert c[i].Text? && c[i].prefix.Contains(ip);
    }
    if i :| 0 <= i < |b| && b[i].Text? && b[i].prefix.Contains(ip) {
      assert c[|a| + i].Text? && c[|a| + i].prefix.Contains(ip);
    }
    if i :| 0 <= i < |c| && c[i].Text? && c[i].prefix.Contains(ip) {
      assert if i < |a| then c[i] == a[i] else c[i] == b[i - |a|];
    }
  }

  /** What one field of an item contributes. */
  method ExpandField(env: Env, cidr: CIDRText, checks: nat)
    returns (found: Result<seq<CIDRText>, FetchError>, checks': nat)
    ensures checks <= checks' && Uncanceled(env, checks, checks')
    ensures found.Success? ==> cidr.Text? && AllText(found.value)
    ensures found.Success? ==> forall ip: IP ::
                Published(found.value, ip) <==> Published([cidr], ip) && env.Accepts(ip)
    ensures found.Failure? ==> match found.error
                               case InvalidCIDR => cidr.Malformed?
                               case Canceled => env.canceled(checks')
                               case NoRanges => false
  {
    checks' := checks;
    if cidr.Malformed? {
      return Failure(InvalidCIDR), checks';
    }
    var prefix := Mask(cidr.prefix);
    ghost var one := [cidr];
    assert forall ip: IP :: Published(one, ip) <==> one[0].prefix.Contains(ip);
    if prefix.family.V6? {
      var kept := [Text(prefix)];
      assert forall ip: IP :: Published(kept, ip) <==> kept[0].prefix.Contains(ip);
      return Success(kept), checks';
    }
    var verified, n, ok, _ := VerifyAddresses(env, prefix, checks');
    checks' := n;
    if !ok {
      return Failure(Canceled), checks';
    }
    found := Success(verified);
  }

  /** `checks` counts the looks at the context; a canceled fetch is one whose next look found it so. */
  method FetchCommonCrawlIPs(env: Env, payload: seq<Item>)
    returns (result: Result<seq<CIDRText>, FetchError>, checks: nat)
    ensures forall n: nat :: n < checks ==> !env.canceled(n)
    ensures result.Success? ==> payload != [] && AllText(result.value)
    ensures result.Success? ==> forall ip: IP ::
              Published(result.value, ip) <==>
                && (ip.family.V4? ==> GoodBot.ForwardConfirmed(env.dns, ip, ["commoncrawl.org"], env.lower))
                && exists i :: 0 <= i < |payload|
                     && (FieldHas(payload[i].ipv4Prefix, ip) || FieldHas(payload[i].ipv6Prefix, ip))
    ensures result.Success? || (result.error.Canceled? && env.canceled(checks)) || result.error.NoRanges? ||
            exists i :: 0 <= i < |payload|
              && (payload[i].ipv4Prefix == Some(Malformed) || payload[i].ipv6Prefix == Some(Malformed))
    ensures result.Success? ==> forall i :: 0 <= i < |payload| ==>
              payload[i].ipv4Prefix != Some(Malformed) && payload[i].ipv6Prefix != Some(Malformed)
    ensures result == Failure(NoRanges) <==> payload == []
    ensures result == Failure(Canceled) ==> env.canceled(checks)
  {
    var expanded;
    expanded, checks := ExpandAll(env, payload);
    TextsParse(payload);
    if expanded.Failure? {
      return expanded, checks;
    }
    var reduced := ReduceCIDRs(expanded.value);
    forall ip: IP
      ensures Published(reduced, ip) <==>
                && (ip.family.V4? ==> GoodBot.ForwardConfirmed(env.dns, ip, ["commoncrawl.org"], env.lower))
                && exists i :: 0 <= i < |payload|
                     && (FieldHas(payload[i].ipv4Prefix, ip) || FieldHas(payload[i].ipv6Prefix, ip))
    {
      hide GoodBot.ForwardConfirmed;
      ReducedIsPublished(expanded.value, reduced, ip);
      TextsPublish(payload, ip);
    }
    result := Success(reduced);
  }

  /** The loop over the items: what all their fields contribute. */
  method ExpandAll(env: Env, payload: seq<Item>)
    returns (result: Result<seq<CIDRText>, FetchError>, checks: nat)
    ensures Uncanceled(env, 0, checks)
    ensures result.Success? ==> payload != [] && AllText(Texts(payload)) && AllText(result.value)
    ensures result.Success? ==> forall ip: IP ::
                Published(result.value, ip) <==> Published(Texts(payload), ip) && env.Accepts(ip)
    ensures result == Failure(NoRanges) <==> payload == []
    ensures result == Failure(InvalidCIDR) ==> !AllText(Texts(payload))
    ensures result == Failure(Canceled) ==> env.canceled(checks)
  {
    hide Env.Accepts;
    checks := 0;
    if |payload| == 0 {
      return Failure(NoRanges), checks;
    }
    var verifiedCIDRs: seq<CIDRText> := [];
    for i := 0 to |payload|
      invariant AllText(verifiedCIDRs) && AllText(Texts(payload[..i])) && Uncanceled(env, 0, checks)
      invariant forall ip: IP ::
                  Published(verifiedCIDRs, ip) <==> Published(Texts(payload[..i]), ip) && env.Accepts(ip)
    {
      var item := payload[i];
      assert payload[..i + 1][..i] == payload[..i];
      TextsPrefix(payload, i + 1);
      var fields := [item.ipv4Prefix, item.ipv6Prefix];
      ghost var seen := Texts(payload[..i]);
      for j := 0 to 2
        invariant AllText(verifiedCIDRs) && AllText(seen) && Uncanceled(env, 0, checks)
        invariant seen == Texts(payload[..i]) + (if j > 0 then FieldText(item.ipv4Prefix) else [])
                        + (if j > 1 then FieldText(item.ipv6Prefix) else [])
        invariant forall ip: IP :: Published(verifiedCIDRs, ip) <==> Published(seen, ip) && env.Accepts(ip)
      {
        if fields[j].None? {
          continue;
        }
        var found, checks' := ExpandField(env, fields[j].value, checks);
        checks := checks';
        if found.Failure? {
          if found.error.InvalidCIDR? {
            assert fields[j].value in Texts(payload[..i + 1]);
          }
          return Failure(found.error), checks;
        }
        forall ip: IP
          ensures Published(verifiedCIDRs + found.value, ip) <==>
                  Published(seen + [fields[j].value], ip) && env.Accepts(ip)
        {
          PublishedAppended(verifiedCIDRs, found.value, ip);
          PublishedAppended(seen, [fields[j].value], ip);
        }
        verifiedCIDRs := verifiedCIDRs + found.value;
        seen := seen + [fields[j].value];
      }
    }
    assert payload[..|payload|] == payload;
    result := Success(verifiedCIDRs);
  }

  lemma {:induction false} TextsPrefix(payload: seq<Item>, n: nat)
    requires n <= |payload|
    ensures forall t :: t in Texts(payload[..n]) ==> t in Texts(payload)
    decreases |payload| - n
  {
    if n < |payload| {
      TextsPrefix(payload, n + 1);
      assert payload[..n + 1][..n] == payload[..n];
    } else {
      assert payload[..n] == payload;
    }
  }

  class CommonCrawlIPs {
    const ranges: GooglebotIPs

    constructor ()
      ensures fresh(ranges)
    {
      ranges := new GooglebotIPs();
    }

    /** `RefreshCommonCrawlIPs` replaces the active ranges only after a successful fetch. */
    method Refresh(env: Env, payload: seq<Item>) returns (count: Option<nat>)
      modifies ranges
      ensures count.Some? ==> payload != [] && count.value == |ranges.cidrs|
      ensures count.Some? ==> forall ip: IP ::
                ranges.Has(ip) <==>
                  && (ip.family.V4? ==> GoodBot.ForwardConfirmed(env.dns, ip, ["commoncrawl.org"], env.lower))
                  && exists i :: 0 <= i < |payload|
                       && (FieldHas(payload[i].ipv4Prefix, ip) || FieldHas(payload[i].ipv6Prefix, ip))
      ensures count.None? ==> ranges.cidrs == old(ranges.cidrs)
      ensures && payload != [] && (forall n: nat :: !env.canceled(n))
              && (forall i :: 0 <= i < |payload| ==>
                    payload[i].ipv4Prefix != Some(Malformed) && payload[i].ipv6Prefix != Some(Malformed))
              ==> count.Some?
    {
      var fetched, _ := FetchCommonCrawlIPs(env, payload);
      if fetched.Failure? {
        return None;
      }
      ranges.Update(fetched.value);
      count := Some(|fetched.value|);
    }
  }
}

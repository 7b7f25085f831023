/**
 The crawler range set: `Update` replaces the stored networks, `Contains` scans them, and a
 refresh fetches every endpoint, reduces what it got and replaces the set only on success.
 */
module CrawlerRanges {
  import opened Cidr
  import opened ReduceCidrs
  import opened Wrappers

  /** Some valid published range contains the address. */
  ghost predicate Published(cidrs: seq<CIDRText>, ip: IP) {
    exists i :: 0 <= i < |cidrs| && cidrs[i].Text? && cidrs[i].prefix.Contains(ip)
  }

  /** What the endpoints returned, one after the other. */
  ghost function AllFetched(responses: seq<Option<seq<CIDRText>>>): seq<CIDRText>
    requires forall i :: 0 <= i < |responses| ==> responses[i].Some?
  {
    if responses == [] then [] else AllFetched(responses[..|responses| - 1]) + responses[|responses| - 1].value
  }

  lemma {:induction false} AllFetchedHas(responses: seq<Option<seq<CIDRText>>>, c: CIDRText)
    requires forall i :: 0 <= i < |responses| ==> responses[i].Some?
    ensures c in AllFetched(responses) <==> exists i :: 0 <= i < |responses| && c in responses[i].value
  {
    if responses != [] {
      var n := |responses| - 1;
      AllFetchedHas(responses[..n], c);
      if i :| 0 <= i < |responses| && c in responses[i].value {
        assert i < n ==> c in responses[..n][i].value;
      }
      if i :| 0 <= i < n && c in responses[..n][i].value {
        assert c in responses[i].value;
      }
      assert c in responses[n].value ==> exists i :: 0 <= i < |responses| && c in responses[i].value;
    }
  }

  /** An address is published if some endpoint publishes a range that contains it. */
  lemma PublishedBySome(responses: seq<Option<seq<CIDRText>>>, ip: IP)
    requires forall i :: 0 <= i < |responses| ==> responses[i].Some?
    ensures Published(AllFetched(responses), ip) <==>
            exists i :: 0 <= i < |responses| && Published(responses[i].value, ip)
  {
    var all := AllFetched(responses);
    if k :| 0 <= k < |all| && all[k].Text? && all[k].prefix.Contains(ip) {
      AllFetchedHas(responses, all[k]);
      var i :| 0 <= i < |responses| && all[k] in responses[i].value;
      assert Published(responses[i].value, ip);
    }
    if i :| 0 <= i < |responses| && Published(responses[i].value, ip) {
      var cidrs := responses[i].value;
      var k :| 0 <= k < |cidrs| && cidrs[k].Text? && cidrs[k].prefix.Contains(ip);
      AllFetchedHas(responses, cidrs[k]);
      var m :| 0 <= m < |all| && all[m] == cidrs[k];
      assert Published(all, ip);
    }
  }

  /** `FetchGoogleCrawlerIPsContext`; a response is `None` when fetching or decoding failed. */
  method FetchGoogleCrawlerIPs(responses: seq<Option<seq<CIDRText>>>) returns (result: Option<seq<CIDRText>>)
    ensures result.Some? <==> forall i :: 0 <= i < |responses| ==> responses[i].Some?
    ensures result.Some? ==> AllText(result.value)
    ensures result.Some? ==> IsReduction(Ranges(result.value), MaskedInputs(AllFetched(responses)))
    ensures result.Some? ==> forall ip: IP ::
              Published(result.value, ip) <==> exists i :: 0 <= i < |responses| && Published(responses[i].value, ip)
  {
    if |responses| == 0 {
      EmptyReduction();
      return Some([]);
    }
    var allCIDRs := [];
    for i := 0 to |responses|
      invariant forall k :: 0 <= k < i ==> responses[k].Some?
      invariant allCIDRs == AllFetched(responses[..i])
    {
      if responses[i].None? {
        return None;
      }
      allCIDRs := allCIDRs + responses[i].value;
      assert responses[..i + 1][..i] == responses[..i];
    }
    assert responses[..|responses|] == responses;
    var reduced := ReduceCIDRs(allCIDRs);
    forall ip: IP
      ensures Published(reduced, ip) <==> exists i :: 0 <= i < |responses| && Published(responses[i].value, ip)
    {
      ReducedIsPublished(allCIDRs, reduced, ip);
      PublishedBySome(responses, ip);
    }
    result := Some(reduced);
  }

  lemma EmptyReduction()
    ensures IsReduction(Ranges([]), MaskedInputs([]))
  {
  }

  lemma InputsSpanPublished(cidrs: seq<CIDRText>, ip: IP)
    ensures InUnion(MaskedInputs(cidrs), ip) <==> Published(cidrs, ip)
  {
    if Published(cidrs, ip) {
      var i :| 0 <= i < |cidrs| && cidrs[i].Text? && cidrs[i].prefix.Contains(ip);
      assert Mask(cidrs[i].prefix) in MaskedInputs(cidrs);
    }
  }

  /** Membership in the reduced list is membership in the published one. */
  lemma ReducedIsPublished(fetched: seq<CIDRText>, reduced: seq<CIDRText>, ip: IP)
    requires AllText(reduced) && IsReduction(Ranges(reduced), MaskedInputs(fetched))
    ensures Published(reduced, ip) <==> Published(fetched, ip)
  {
    ReductionKeepsUnion(Ranges(reduced), MaskedInputs(fetched));
    InputsSpanPublished(fetched, ip);
    assert Published(reduced, ip) <==> InUnion(Elements(Ranges(reduced)), ip) by {
      if Published(reduced, ip) {
        var i :| 0 <= i < |reduced| && reduced[i].Text? && reduced[i].prefix.Contains(ip);
        assert Ranges(reduced)[i] in Elements(Ranges(reduced));
      }
    }
  }

  class GooglebotIPs {
    var cidrs: seq<CIDR>

    ghost predicate Has(ip: IP)
      reads this
    {
      exists i :: 0 <= i < |cidrs| && cidrs[i].Contains(ip)
    }

    constructor ()
      ensures cidrs == []
    {
      cidrs := [];
    }

    /** `net.ParseCIDR` yields the masked network; text that does not parse is skipped. */
    method Update(texts: seq<CIDRText>)
      modifies this
      ensures forall ip: IP :: Has(ip) <==> Published(texts, ip)
      ensures AllText(texts) ==> |cidrs| == |texts|
    {
      cidrs := [];
      for i := 0 to |texts|
        invariant forall ip: IP :: Has(ip) <==> Published(texts[..i], ip)
        invariant AllText(texts) ==> |cidrs| == i
      {
        var before := cidrs;
        if texts[i].Text? {
          cidrs := cidrs + [Mask(texts[i].prefix)];
        }
        assert texts[..i + 1] == texts[..i] + [texts[i]];
        forall ip: IP ensures Has(ip) <==> Published(texts[..i + 1], ip) {
          HasAppended(before, cidrs, texts[..i], texts[i], ip);
        }
      }
      assert texts[..|texts|] == texts;
    }

    static lemma HasAppended(before: seq<CIDR>, after: seq<CIDR>, texts: seq<CIDRText>, t: CIDRText, ip: IP)
      requires after == if t.Text? then before + [Mask(t.prefix)] else before
      requires (exists i :: 0 <= i < |before| && before[i].Contains(ip)) <==> Published(texts, ip)
      ensures (exists i :: 0 <= i < |after| && after[i].Contains(ip)) <==> Published(texts + [t], ip)
    {
      var ts := texts + [t];
      if i :| 0 <= i < |after| && after[i].Contains(ip) {
        if i < |before| {
          assert before[i].Contains(ip);
          var k :| 0 <= k < |texts| && texts[k].Text? && texts[k].prefix.Contains(ip);
          assert ts[k].Text? && ts[k].prefix.Contains(ip);
        } else {
          assert ts[|texts|].Text? && ts[|texts|].prefix.Contains(ip);
        }
      }
      if Published(ts, ip) {
        var k :| 0 <= k < |ts| && ts[k].Text? && ts[k].prefix.Contains(ip);
        if k < |texts| {
          assert texts[k].Text? && texts[k].prefix.Contains(ip);
          var i :| 0 <= i < |before| && before[i].Contains(ip);
          assert after[i].Contains(ip);
        } else {
          assert after[|before|].Contains(ip);
        }
      }
    }

    method Contains(ip: IP) returns (found: bool)
      ensures found <==> Has(ip)
    {
      for i := 0 to |cidrs|
        invariant forall k :: 0 <= k < i ==> !cidrs[k].Contains(ip)
      {
        if cidrs[i].Contains(ip) {
          return true;
        }
      }
      return false;
    }

    /** `RefreshGoogleCrawlerIPsContext`: replace on success, keep the last good set on failure. */
    method Refresh(responses: seq<Option<seq<CIDRText>>>) returns (count: Option<nat>)
      modifies this
      ensures count.Some? <==> forall i :: 0 <= i < |responses| ==> responses[i].Some?
      ensures count.Some? ==> forall ip: IP ::
                Has(ip) <==> exists i :: 0 <= i < |responses| && Published(responses[i].value, ip)
      ensures count.Some? ==> count.value == |cidrs|
      ensures count.None? ==> cidrs == old(cidrs)
    {
      var fetched := FetchGoogleCrawlerIPs(responses);
      if fetched.None? {
        return None;
      }
      Update(fetched.value);
      count := Some(|fetched.value|);
    }
  }
}

/**
 The client address: walk the forwarded header from the right, skip exempt proxies, and
 take the entry at the configured depth; fall back to the peer address.
 */
module ClientIP {
  import opened Cidr
  import opened Text
  import opened Wrappers

  /** `net.ParseIP` and the host part of `net.SplitHostPort`; `None` is a parse failure. */
  datatype Net = Net(parseIP: string -> Option<IP>, splitHost: string -> Option<string>)

  datatype Config = Config(ipForwardedHeader: string, ipDepth: int, exemptIps: seq<CIDR>)

  /** The value of the configured header (empty when there is none) and the peer address. */
  datatype Request = Request(forwarded: string, remoteAddr: string)

  ghost predicate Exempt(net: Net, clientIP: string, exemptIps: seq<CIDR>) {
    && net.parseIP(clientIP).Some?
    && exists i :: 0 <= i < |exemptIps| && exemptIps[i].Contains(net.parseIP(clientIP).value)
  }

  method IsIpExcluded(net: Net, clientIP: string, exemptIps: seq<CIDR>) returns (excluded: bool)
    ensures excluded <==> Exempt(net, clientIP, exemptIps)
    ensures excluded ==> net.parseIP(clientIP).Some?
    ensures net.parseIP(clientIP).Some? ==>
              (excluded <==>
                 exists i :: 0 <= i < |exemptIps| && exemptIps[i].Contains(net.parseIP(clientIP).value))
  {
    var ip := net.parseIP(clientIP);
    for i := 0 to |exemptIps|
      invariant ip.Some? ==> forall k :: 0 <= k < i ==> !exemptIps[k].Contains(ip.value)
    {
      if ip.Some? && exemptIps[i].Contains(ip.value) {
        return true;
      }
    }
    return false;
  }

  /** The trimmed entries that are not exempt, the nearest hop first. */
  ghost function Hops(net: Net, parts: seq<string>, exemptIps: seq<CIDR>): seq<string> {
    if parts == [] then []
    else
      var entry := TrimSpace(parts[|parts| - 1]);
      (if Exempt(net, entry, exemptIps) then [] else [entry])
      + Hops(net, parts[..|parts| - 1], exemptIps)
  }

  /** An entry that is not exempt is the hop whose number is how many to its right are not exempt. */
  lemma {:induction false} HopAt(net: Net, parts: seq<string>, exemptIps: seq<CIDR>, i: nat)
    requires i < |parts| && !Exempt(net, TrimSpace(parts[i]), exemptIps)
    ensures var depth := |set k | i < k < |parts| && !Exempt(net, TrimSpace(parts[k]), exemptIps)|;
            var hops := Hops(net, parts, exemptIps);
            depth < |hops| && hops[depth] == TrimSpace(parts[i])
  {
    hide Exempt, TrimSpace;
    var n := |parts| - 1;
    var right := set k | i < k < |parts| && !Exempt(net, TrimSpace(parts[k]), exemptIps);
    if i == n {
      assert right == {};
    } else {
      HopAt(net, parts[..n], exemptIps, i);
      LastCounts(net, parts, exemptIps, i);
    }
  }

  lemma NoneAfterLast(net: Net, parts: seq<string>, exemptIps: seq<CIDR>, i: nat)
    requires i < |parts|
    ensures var right := set k | i < k < |parts| && !Exempt(net, TrimSpace(parts[k]), exemptIps);
            i == |parts| - 1 ==> right == {}
  {
  }

  lemma LastCounts(net: Net, parts: seq<string>, exemptIps: seq<CIDR>, i: nat)
    requires i < |parts| - 1
    ensures var n := |parts| - 1;
            |set k | i < k < |parts| && !Exempt(net, TrimSpace(parts[k]), exemptIps)| ==
            |set k | i < k < |parts[..n]| && !Exempt(net, TrimSpace(parts[..n][k]), exemptIps)|
            + if Exempt(net, TrimSpace(parts[n]), exemptIps) then 0 else 1
  {
    hide Exempt, TrimSpace;
    var n := |parts| - 1;
    var rest := parts[..n];
    var right := set k | i < k < |parts| && !Exempt(net, TrimSpace(parts[k]), exemptIps);
    var fewer := set k | i < k < |rest| && !Exempt(net, TrimSpace(rest[k]), exemptIps);
    assert right == if Exempt(net, TrimSpace(parts[n]), exemptIps) then fewer else fewer + {n};
  }

  /** And every hop is such an entry. */
  lemma {:induction false} HopIsEntry(net: Net, parts: seq<string>, exemptIps: seq<CIDR>, depth: nat)
    returns (i: nat)
    requires depth < |Hops(net, parts, exemptIps)|
    ensures i < |parts| && !Exempt(net, TrimSpace(parts[i]), exemptIps)
    ensures Hops(net, parts, exemptIps)[depth] == TrimSpace(parts[i])
    ensures |set k | i < k < |parts| && !Exempt(net, TrimSpace(parts[k]), exemptIps)| == depth
  {
    hide Exempt, TrimSpace;
    var n := |parts| - 1;
    var exempt := Exempt(net, TrimSpace(parts[n]), exemptIps);
    if !exempt && depth == 0 {
      i := n;
      NoneAfterLast(net, parts, exemptIps, i);
    } else {
      i := HopIsEntry(net, parts[..n], exemptIps, if exempt then depth else depth - 1);
      LastCounts(net, parts, exemptIps, i);
    }
  }

  ghost function HeaderHops(net: Net, cfg: Config, header: string): seq<string> {
    Hops(net, Split(header, ','), cfg.exemptIps)
  }

  ghost function Selected(net: Net, cfg: Config, req: Request): string {
    var hops := HeaderHops(net, cfg, req.forwarded);
    if cfg.ipForwardedHeader == "" || req.forwarded == "" then req.remoteAddr
    else if 0 <= cfg.ipDepth < |hops| && hops[cfg.ipDepth] != "" then hops[cfg.ipDepth]
    else req.remoteAddr
  }

  function WithoutPort(net: Net, ip: string): string {
    if ':' in ip && net.splitHost(ip).Some? then net.splitHost(ip).value else ip
  }

  /** The right-to-left walk with its depth counter. */
  method Walk(net: Net, components: seq<string>, ipDepth: int, exemptIps: seq<CIDR>) returns (ip: string)
    ensures var hops := Hops(net, components, exemptIps);
            ip == if 0 <= ipDepth < |hops| then hops[ipDepth] else ""
  {
    hide Hops, Exempt, TrimSpace, RawPrefix.Contains;
    NoHops(net, components[..0], exemptIps);
    ghost var hops := Hops(net, components, exemptIps);
    var depth := ipDepth;
    ip := "";
    var i := |components|;
    assert components[..i] == components;
    while i > 0
      invariant 0 <= i <= |components|
      invariant 0 <= ipDepth - depth <= |hops|
      invariant hops[ipDepth - depth..] == Hops(net, components[..i], exemptIps)
      invariant ipDepth >= 0 ==> depth >= 0
      invariant ip == ""
    {
      i := i - 1;
      var entry := TrimSpace(components[i]);
      HopsStep(net, components, i, exemptIps);
      var excluded := IsIpExcluded(net, entry, exemptIps);
      if excluded {
        continue;
      }
      if depth == 0 {
        ip := entry;
        break;
      }
      depth := depth - 1;
    }
  }

  lemma NoHops(net: Net, parts: seq<string>, exemptIps: seq<CIDR>)
    requires parts == []
    ensures Hops(net, parts, exemptIps) == []
  {
  }

  lemma HopsStep(net: Net, parts: seq<string>, i: nat, exemptIps: seq<CIDR>)
    requires i < |parts|
    ensures var entry := TrimSpace(parts[i]);
            Hops(net, parts[..i + 1], exemptIps) ==
            (if Exempt(net, entry, exemptIps) then [] else [entry]) + Hops(net, parts[..i], exemptIps)
  {
    assert parts[..i + 1][..i] == parts[..i];
  }

  method GetClientIP(net: Net, cfg: Config, req: Request) returns (ip: string)
    ensures ip == WithoutPort(net, Selected(net, cfg, req))
    ensures var hops := Hops(net, Split(req.forwarded, ','), cfg.exemptIps);
            var hop := if && cfg.ipForwardedHeader != "" && req.forwarded != ""
                          && 0 <= cfg.ipDepth < |hops| && hops[cfg.ipDepth] != ""
                       then hops[cfg.ipDepth] else req.remoteAddr;
            ip == if ':' in hop && net.splitHost(hop).Some? then net.splitHost(hop).value else hop
  {
    hide Hops;
    ip := req.forwarded;
    if cfg.ipForwardedHeader != "" && ip != "" {
      ip := Walk(net, Split(ip, ','), cfg.ipDepth, cfg.exemptIps);
      if ip == "" {
        ip := req.remoteAddr;
      }
    } else {
      ip := req.remoteAddr;
    }
    if ':' in ip {
      var host := net.splitHost(ip);
      if host.Some? {
        ip := host.value;
      }
    }
  }

  lemma {:induction false} HopsConcat(net: Net, a: seq<string>, b: seq<string>, exemptIps: seq<CIDR>)
    ensures Hops(net, a + b, exemptIps) == Hops(net, b, exemptIps) + Hops(net, a, exemptIps)
  {
    if b == [] {
      assert a + b == a;
    } else {
      assert (a + b)[..|a + b| - 1] == a + b[..|b| - 1];
      HopsConcat(net, a, b[..|b| - 1], exemptIps);
    }
  }

  /** Entries a client puts in front of the header never change which hop is selected. */
  lemma PrependedEntriesIgnored(net: Net, cfg: Config, req: Request, front: string)
    requires req.forwarded != "" && cfg.ipDepth < |HeaderHops(net, cfg, req.forwarded)|
    ensures Selected(net, cfg, req.(forwarded := front + "," + req.forwarded)) == Selected(net, cfg, req)
  {
    SplitConcat(front, req.forwarded, ',');
    HopsConcat(net, Split(front, ','), Split(req.forwarded, ','), cfg.exemptIps);
    assert front + "," + req.forwarded == front + [','] + req.forwarded;
  }
}

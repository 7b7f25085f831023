/**
 Forward-confirmed reverse DNS: a client is a good bot when a PTR name of its address lies
 in an allowed domain and resolves back to the address.
 */
module GoodBot {
  import opened Cidr
  import opened Text
  import opened Wrappers

  /** Answers of the resolver during one call; `None` is a failed lookup. */
  datatype DNS = DNS(ptr: IP -> Option<seq<string>>, forward: string -> Option<seq<IP>>)

  /** Case folding, character by character, stands for `strings.ToLower`. */
  type Fold = char -> char

  function ToLower(s: string, lower: Fold): string {
    seq(|s|, i requires 0 <= i < |s| => lower(s[i]))
  }

  predicate IsDot(c: char) {
    c == '.'
  }

  function NormalizeBot(bot: string, lower: Fold): string {
    ToLower(Trim(TrimSpace(bot), IsDot), lower)
  }

  /** `strings.TrimSuffix(hostname, ".")` removes one dot only. */
  function NormalizeHost(hostname: string, lower: Fold): string {
    ToLower(if HasSuffix(hostname, ".") then hostname[..|hostname| - 1] else hostname, lower)
  }

  /** At most one trailing dot goes, and what is left is folded. */
  lemma NormalizeHostIsExact(hostname: string, lower: Fold)
    ensures var r := NormalizeHost(hostname, lower);
            && |r| == (if hostname != "" && hostname[|hostname| - 1] == '.' then |hostname| - 1 else |hostname|)
            && forall k :: 0 <= k < |r| ==> r[k] == lower(hostname[k])
  {
  }

  /** Outer spaces go first, then all outer dots, and what is left is folded. */
  lemma NormalizeBotIsExact(bot: string, lower: Fold)
    returns (spaces: string, dots: string, core: string, dots': string, spaces': string)
    ensures bot == spaces + (dots + core + dots') + spaces'
    ensures (forall c :: c in spaces + spaces' ==> IsSpace(c)) && (forall c :: c in dots + dots' ==> c == '.')
    ensures var rest := dots + core + dots'; rest != "" ==> !IsSpace(rest[0]) && !IsSpace(rest[|rest| - 1])
    ensures core != "" ==> core[0] != '.' && core[|core| - 1] != '.'
    ensures var r := NormalizeBot(bot, lower); |r| == |core| && forall k :: 0 <= k < |r| ==> r[k] == lower(core[k])
  {
    hide Trim;
    spaces, spaces' := TrimIsExact(bot, IsSpace);
    dots, dots' := TrimIsExact(TrimSpace(bot), IsDot);
    core := Trim(TrimSpace(bot), IsDot);
  }

  /** The labels of `hostname` end with the labels of `domain`. */
  ghost predicate InDomain(hostname: string, domain: string) {
    EndsWith(Split(hostname, '.'), Split(domain, '.'))
  }

  /** The test of the matching loop. */
  predicate Matches(hostname: string, domain: string)
    ensures Matches(hostname, domain) <==> domain != "" && InDomain(hostname, domain)
  {
    SuffixOnBoundary(hostname, domain, '.');
    domain != "" && (hostname == domain || HasSuffix(hostname, ['.'] + domain))
  }

  ghost predicate InBotDomain(hostname: string, bot: string, lower: Fold) {
    var domain := NormalizeBot(bot, lower);
    domain != "" && InDomain(hostname, domain)
  }

  ghost predicate InSomeDomain(hostname: string, goodBots: seq<string>, lower: Fold) {
    exists i :: 0 <= i < |goodBots| && InBotDomain(hostname, goodBots[i], lower)
  }

  ghost predicate Confirms(dns: DNS, hostname: string, ip: IP, goodBots: seq<string>, lower: Fold) {
    var name := NormalizeHost(hostname, lower);
    && InSomeDomain(name, goodBots, lower)
    && dns.forward(name).Some?
    && ip in dns.forward(name).value
  }

  ghost predicate ForwardConfirmed(dns: DNS, ip: IP, goodBots: seq<string>, lower: Fold) {
    && dns.ptr(ip).Some?
    && exists i :: 0 <= i < |dns.ptr(ip).value| && Confirms(dns, dns.ptr(ip).value[i], ip, goodBots, lower)
  }

  /** Some domain of the list is the name, or the name ends with a dot and the domain. */
  lemma InSomeDomainExactly(hostname: string, goodBots: seq<string>, lower: Fold)
    ensures InSomeDomain(hostname, goodBots, lower) <==>
            exists i :: 0 <= i < |goodBots| && NormalizeBot(goodBots[i], lower) != ""
              && (|| hostname == NormalizeBot(goodBots[i], lower)
                  || HasSuffix(hostname, ['.'] + NormalizeBot(goodBots[i], lower)))
  {
    hide NormalizeBot;
    forall i | 0 <= i < |goodBots|
      ensures InBotDomain(hostname, goodBots[i], lower) <==>
              && NormalizeBot(goodBots[i], lower) != ""
              && (|| hostname == NormalizeBot(goodBots[i], lower)
                  || HasSuffix(hostname, ['.'] + NormalizeBot(goodBots[i], lower)))
    {
      SuffixOnBoundary(hostname, NormalizeBot(goodBots[i], lower), '.');
    }
  }

  /** The whole check: a name of the address lies in a domain of the list, and leads back to the address. */
  lemma ForwardConfirmedExactly(dns: DNS, ip: IP, goodBots: seq<string>, lower: Fold)
    ensures ForwardConfirmed(dns, ip, goodBots, lower) <==>
            && dns.ptr(ip).Some?
            && exists i :: 0 <= i < |dns.ptr(ip).value|
                 && var name := NormalizeHost(dns.ptr(ip).value[i], lower);
                    && dns.forward(name).Some? && ip in dns.forward(name).value
                    && exists b :: 0 <= b < |goodBots| && NormalizeBot(goodBots[b], lower) != ""
                         && EndsWith(Split(name, '.'), Split(NormalizeBot(goodBots[b], lower), '.'))
  {
    hide NormalizeBot, NormalizeHost, EndsWith, Split;
    if dns.ptr(ip).Some? {
      var names := dns.ptr(ip).value;
      forall i | 0 <= i < |names|
        ensures Confirms(dns, names[i], ip, goodBots, lower) <==>
                var name := NormalizeHost(names[i], lower);
                && dns.forward(name).Some? && ip in dns.forward(name).value
                && exists b :: 0 <= b < |goodBots| && NormalizeBot(goodBots[b], lower) != ""
                     && EndsWith(Split(name, '.'), Split(NormalizeBot(goodBots[b], lower), '.'))
      {
        var name := NormalizeHost(names[i], lower);
        forall b | 0 <= b < |goodBots|
          ensures InBotDomain(name, goodBots[b], lower) <==>
                  && NormalizeBot(goodBots[b], lower) != ""
                  && EndsWith(Split(name, '.'), Split(NormalizeBot(goodBots[b], lower), '.'))
        {
        }
      }
    }
  }

  method MatchesGoodBotDomain(hostname: string, goodBots: seq<string>, lower: Fold) returns (found: bool)
    ensures found <==> InSomeDomain(hostname, goodBots, lower)
  {
    hide Trim, InDomain;
    for i := 0 to |goodBots|
      invariant forall k :: 0 <= k < i ==> !InBotDomain(hostname, goodBots[k], lower)
    {
      var bot := NormalizeBot(goodBots[i], lower);
      if Matches(hostname, bot) {
        assert InBotDomain(hostname, goodBots[i], lower);
        return true;
      }
    }
    return false;
  }

  /** `clientIP` is `None` when the client address does not parse. */
  method IsIpGoodBot(dns: DNS, clientIP: Option<IP>, goodBots: seq<string>, lower: Fold) returns (good: bool)
    ensures good <==> clientIP.Some? && ForwardConfirmed(dns, clientIP.value, goodBots, lower)
  {
    hide Confirms, InSomeDomain, NormalizeHost;
    if |goodBots| == 0 {
      NoBotsNoMatch(dns, lower);
      return false;
    }
    if clientIP.None? {
      return false;
    }
    var ip := clientIP.value;
    var answer := dns.ptr(ip);
    if answer.None? || |answer.value| == 0 {
      return false;
    }
    var hostnames := answer.value;
    for i := 0 to |hostnames|
      invariant forall k :: 0 <= k < i ==> !Confirms(dns, hostnames[k], ip, goodBots, lower)
    {
      var hostname := NormalizeHost(hostnames[i], lower);
      var matched := MatchesGoodBotDomain(hostname, goodBots, lower);
      ConfirmsWhen(dns, hostnames[i], ip, goodBots, lower);
      if !matched {
        continue;
      }
      var resolved := dns.forward(hostname);
      if resolved.None? {
        continue;
      }
      for j := 0 to |resolved.value|
        invariant ip !in resolved.value[..j]
      {
        if resolved.value[j] == ip {
          return true;
        }
      }
      assert resolved.value[..|resolved.value|] == resolved.value;
    }
    return false;
  }

  lemma NoBotsNoMatch(dns: DNS, lower: Fold)
    ensures forall hostname, ip :: !Confirms(dns, hostname, ip, [], lower)
  {
  }

  lemma ConfirmsWhen(dns: DNS, hostname: string, ip: IP, goodBots: seq<string>, lower: Fold)
    ensures var name := NormalizeHost(hostname, lower);
            Confirms(dns, hostname, ip, goodBots, lower) <==>
            InSomeDomain(name, goodBots, lower) && dns.forward(name).Some? && ip in dns.forward(name).value
  {
  }
}

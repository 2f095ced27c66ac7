/** Turning a control-plane configuration into a WireGuard plan: which configurations are accepted,
    what the plan holds, and what it may route. */
module TunnelPlans {
  import opened Wrappers
  import opened Prefixes
  import opened Protocol
  import opened Sequences
  import opened Sorting
  import Firewall

  const INTERFACE_NAME := "soha0"

  datatype TunnelPeer = TunnelPeer(publicKey: string, endpoint: string, allowedIPs: seq<string>, keepaliveSeconds: int)

  datatype TunnelPlan = TunnelPlan(
    publicKey: string, addresses: seq<string>, mtu: int, peer: TunnelPeer,
    routes: seq<string>, dnsServers: seq<string>)

  /** The endpoint's own key pair: the public key as text and as a key. */
  datatype Identity = Identity(publicKey: string, key: nat)

  function Text(s: string): string {
    s
  }

  lemma TextInjective()
    ensures Injective(Text)
  {
  }

  // --- split routes ---

  /** Canonical text of a masked, global-unicast, non-default prefix; of one host where asked. */
  predicate SplitPrefix(f: Formats, s: string, host: bool)
    requires f.Lawful()
  {
    && f.IsPrefix(s)
    && var p := f.ToPrefix(s);
    && !Is4In6(p.address) && IsGlobalUnicast(p.address) && Masked(p) && p.bits != 0
    && (host ==> p.bits == Width(p.address.family))
    && f.showPrefix(p) == s
  }

  ghost predicate AllPrefixes(f: Formats, texts: seq<string>) {
    forall s :: s in texts ==> f.IsPrefix(s)
  }

  /** No address lies in two of the listed blocks. */
  ghost predicate PairwiseDisjoint(f: Formats, texts: seq<string>)
    requires f.Lawful() && AllPrefixes(f, texts)
  {
    forall r, s :: r in texts && s in texts && r != s ==> Disjoint(f.ToPrefix(r), f.ToPrefix(s))
  }

  ghost predicate NoRepeats(texts: seq<string>) {
    forall i, j :: 0 <= i < j < |texts| ==> texts[i] != texts[j]
  }

  ghost predicate SplitRoutes(f: Formats, raw: seq<string>, host: bool)
    requires f.Lawful()
  {
    && (forall s :: s in raw ==> SplitPrefix(f, s, host))
    && NoRepeats(raw)
    && PairwiseDisjoint(f, raw)
  }

  lemma SameElements(xs: seq<string>, ys: seq<string>)
    requires multiset(xs) == multiset(ys)
    ensures forall s :: s in xs <==> s in ys
    ensures |xs| == |ys|
    ensures NoRepeats(xs) ==> NoRepeats(ys)
  {
    assert forall s :: s in xs <==> s in multiset(xs);
    assert forall s :: s in ys <==> s in multiset(ys);
    SameLength(xs, ys);
    if NoRepeats(xs) {
      forall i, j | 0 <= i < j < |ys|
        ensures ys[i] != ys[j]
      {
        if ys[i] == ys[j] {
          TwiceInMultiset(ys, i, j);
          OnceInMultiset(xs, ys[i]);
        }
      }
    }
  }

  lemma TwiceInMultiset(xs: seq<string>, i: nat, j: nat)
    requires i < j < |xs| && xs[i] == xs[j]
    ensures multiset(xs)[xs[i]] >= 2
  {
    assert xs == xs[..j] + [xs[j]] + xs[j + 1..];
    assert xs[i] in xs[..j];
  }

  lemma {:induction false} OnceInMultiset(xs: seq<string>, s: string)
    requires NoRepeats(xs)
    ensures multiset(xs)[s] <= 1
  {
    if xs != [] {
      assert xs == [xs[0]] + xs[1..];
      OnceInMultiset(xs[1..], s);
      assert forall k :: 0 <= k < |xs| - 1 ==> xs[1..][k] == xs[k + 1] != xs[0];
      assert xs[0] !in multiset(xs[1..]);
    }
  }

  method ReadPrefixes(f: Formats, raw: seq<string>, host: bool) returns (ok: bool)
    requires f.Lawful()
    ensures ok <==> (forall s :: s in raw ==> SplitPrefix(f, s, host)) && NoRepeats(raw)
  {
    var seen: set<string> := {};
    for i := 0 to |raw|
      invariant seen == set k | 0 <= k < i :: raw[k]
      invariant forall k :: 0 <= k < i ==> SplitPrefix(f, raw[k], host)
      invariant NoRepeats(raw[..i])
    {
      if !SplitPrefix(f, raw[i], host) {
        assert raw[i] in raw;
        return false;
      }
      if raw[i] in seen {
        assert !NoRepeats(raw);
        return false;
      }
      seen := seen + {raw[i]};
    }
    assert raw[..|raw|] == raw;
    ok := true;
  }

  /** Compares each block with every later one. */
  method NoOverlap(f: Formats, texts: seq<string>) returns (ok: bool)
    requires f.Lawful() && AllPrefixes(f, texts) && NoRepeats(texts)
    ensures ok <==> PairwiseDisjoint(f, texts)
  {
    for i := 0 to |texts|
      invariant forall j, k :: 0 <= j < i && j < k < |texts| ==> Disjoint(f.ToPrefix(texts[j]), f.ToPrefix(texts[k]))
    {
      var left := f.ToPrefix(texts[i]);
      for k := i + 1 to |texts|
        invariant forall j :: i < j < k ==> Disjoint(left, f.ToPrefix(texts[j]))
      {
        var right := f.ToPrefix(texts[k]);
        OverlapTest(left, right);
        if Contains(left, right.address) || Contains(right, left.address) {
          assert texts[i] in texts && texts[k] in texts;
          return false;
        }
      }
    }
    forall r, s | r in texts && s in texts && r != s
      ensures Disjoint(f.ToPrefix(r), f.ToPrefix(s))
    {
      var j :| 0 <= j < |texts| && texts[j] == r;
      var k :| 0 <= k < |texts| && texts[k] == s;
      if j < k {
        assert Disjoint(f.ToPrefix(texts[j]), f.ToPrefix(texts[k]));
      } else {
        assert Disjoint(f.ToPrefix(texts[k]), f.ToPrefix(texts[j]));
      }
    }
    ok := true;
  }

  /** Accepts exactly the lists of distinct, pairwise disjoint split prefixes, and sorts them. */
  method CanonicalPrefixes(f: Formats, raw: seq<string>, host: bool) returns (result: Option<seq<string>>)
    requires f.Lawful()
    ensures result.Some? <==> SplitRoutes(f, raw, host)
    ensures result.Some? ==> result.value == Sort(Text, raw)
  {
    var readable := ReadPrefixes(f, raw, host);
    if !readable {
      return None;
    }
    var sorted := Sort(Text, raw);
    SameElements(raw, sorted);
    var separate := NoOverlap(f, sorted);
    assert separate <==> PairwiseDisjoint(f, raw);
    result := if separate then Some(sorted) else None;
  }

  // --- routes and leases ---

  /** Some CIDR of this live network lease includes the whole route. */
  ghost predicate NetworkLeaseCovers(f: Formats, lease: NetworkLease, route: Prefix, now: Time)
    requires f.Lawful() && ValidPrefix(route)
  {
    && ValidIdentifier(lease.id) && lease.expiresAt > now
    && exists c :: c in lease.cidrs && f.IsPrefix(c) && UsableCidr(f.ToPrefix(c)) && Within(route, f.ToPrefix(c))
  }

  predicate UsableCidr(p: Prefix)
    requires ValidPrefix(p)
  {
    !Is4In6(p.address) && Masked(p)
  }

  predicate ResourceLeaseLive(leases: seq<ResourceLease>, id: string, now: Time) {
    exists l :: l in leases && l.id == id && ValidIdentifier(l.id) && l.expiresAt > now
  }

  /** An allow rule with a live resource lease whose destination includes the whole route. */
  ghost predicate ResourceRuleCovers(
    f: Formats, rule: FirewallRule, resource: seq<ResourceLease>, route: Prefix, now: Time)
    requires f.Lawful() && ValidPrefix(route)
  {
    && rule.effect == "allow" && ResourceLeaseLive(resource, rule.leaseId, now)
    && f.IsPrefix(rule.destination) && Within(route, f.ToPrefix(rule.destination))
  }

  ghost predicate RouteCovered(
    f: Formats, route: Prefix, network: seq<NetworkLease>, resource: seq<ResourceLease>,
    rules: seq<FirewallRule>, now: Time)
    requires f.Lawful() && ValidPrefix(route)
  {
    || (exists l :: l in network && NetworkLeaseCovers(f, l, route, now))
    || (exists r :: r in rules && ResourceRuleCovers(f, r, resource, route, now))
  }

  method NetworkLeaseCoversRoute(f: Formats, lease: NetworkLease, route: Prefix, now: Time) returns (covered: bool)
    requires f.Lawful() && ValidPrefix(route)
    ensures covered <==> NetworkLeaseCovers(f, lease, route, now)
  {
    covered := false;
    if !ValidIdentifier(lease.id) || lease.expiresAt <= now {
      return;
    }
    for i := 0 to |lease.cidrs|
      invariant covered <==> exists k :: 0 <= k < i && f.IsPrefix(lease.cidrs[k])
                               && UsableCidr(f.ToPrefix(lease.cidrs[k])) && Within(route, f.ToPrefix(lease.cidrs[k]))
    {
      var cidr := lease.cidrs[i];
      if f.IsPrefix(cidr) {
        CoversIsInclusion(f.ToPrefix(cidr), route);
        if UsableCidr(f.ToPrefix(cidr)) && Covers(f.ToPrefix(cidr), route) {
          covered := true;
        }
      }
    }
  }

  method RouteCoveredByLeases(
    f: Formats, route: Prefix, network: seq<NetworkLease>, resource: seq<ResourceLease>,
    rules: seq<FirewallRule>, now: Time) returns (covered: bool)
    requires f.Lawful() && ValidPrefix(route)
    requires forall r :: r in rules ==> f.IsPrefix(r.destination)
    ensures covered <==> RouteCovered(f, route, network, resource, rules, now)
  {
    covered := false;
    for i := 0 to |network|
      invariant covered <==> exists k :: 0 <= k < i && NetworkLeaseCovers(f, network[k], route, now)
    {
      var one := NetworkLeaseCoversRoute(f, network[i], route, now);
      covered := covered || one;
    }
    assert covered <==> exists l :: l in network && NetworkLeaseCovers(f, l, route, now);
    ghost var byNetwork := covered;
    for i := 0 to |rules|
      invariant covered <==> byNetwork
                             || exists k :: 0 <= k < i && ResourceRuleCovers(f, rules[k], resource, route, now)
    {
      var rule := rules[i];
      if rule.effect == "allow" && ResourceLeaseLive(resource, rule.leaseId, now) {
        CoversIsInclusion(f.ToPrefix(rule.destination), route);
        if Covers(f.ToPrefix(rule.destination), route) {
          covered := true;
        }
      }
    }
  }

  /** Every route lies inside what some live lease authorizes, and there is a lease at all. */
  method RoutesCoveredByLeases(
    f: Formats, routes: seq<string>, network: seq<NetworkLease>, resource: seq<ResourceLease>,
    rules: seq<FirewallRule>, now: Time) returns (ok: bool)
    requires f.Lawful() && AllPrefixes(f, routes)
    requires forall r :: r in rules ==> f.IsPrefix(r.destination)
    ensures ok <==> && |network| + |resource| > 0
                    && forall r :: r in routes ==> RouteCovered(f, f.ToPrefix(r), network, resource, rules, now)
  {
    for i := 0 to |routes|
      invariant forall k :: 0 <= k < i ==> RouteCovered(f, f.ToPrefix(routes[k]), network, resource, rules, now)
    {
      var covered := RouteCoveredByLeases(f, f.ToPrefix(routes[i]), network, resource, rules, now);
      if !covered {
        assert routes[i] in routes;
        return false;
      }
    }
    ok := |network| + |resource| > 0;
  }

  // --- the plan ---

  ghost predicate DnsServerUsable(f: Formats, server: string, routes: seq<string>)
    requires f.Lawful() && AllPrefixes(f, routes)
  {
    && f.parseAddress(server).Some?
    && var scoped := f.parseAddress(server).value;
    && var a := scoped.address;
    && !Is4In6(a) && IsGlobalUnicast(a) && f.showAddress(scoped) == server
    && exists r :: r in routes && Contains(f.ToPrefix(r), a)
  }

  predicate HeaderUsable(desired: Desired, wg: WireGuard, own: Identity, now: Time) {
    && desired.configurationVersion >= 1 && desired.policyVersion >= 1 && desired.validUntil > now
    && wg.role == "endpoint" && wg.interfaceName == INTERFACE_NAME && wg.publicKey == own.publicKey
    && wg.firewallDefault == "deny" && wg.routingMode in ["routed", "snat"]
    && 1280 <= wg.mtu <= 1500 && |wg.peers| == 1
  }

  predicate PeerUsable(f: Formats, peer: Peer, own: Identity) {
    && f.parseKey(peer.publicKey).Some? && f.parseKey(peer.publicKey).value != own.key
    && ValidIdentifier(peer.runtimeId) && 1 <= peer.endpointPort <= 65535
    && 0 <= peer.keepaliveSeconds <= 300 && f.validHost(peer.endpointHost)
  }

  /** Addresses are one to eight hosts; routes are 1 to 256 split prefixes; the peer's are the same. */
  ghost predicate ListsUsable(f: Formats, wg: WireGuard, peer: Peer)
    requires f.Lawful()
  {
    && SplitRoutes(f, wg.addresses, true) && 1 <= |wg.addresses| <= 8
    && SplitRoutes(f, wg.routes, false) && 1 <= |wg.routes| <= 256
    && multiset(peer.allowedIPs) == multiset(wg.routes)
  }

  /** Name servers, rules and routes stay inside what the leases authorize. */
  ghost predicate ScopeUsable(
    f: Formats, desired: Desired, wg: WireGuard, addresses: seq<string>, routes: seq<string>, now: Time)
    requires f.Lawful() && AllPrefixes(f, routes)
  {
    && (forall s :: s in wg.dnsServers ==> DnsServerUsable(f, s, routes))
    && NoRepeats(wg.dnsServers) && |wg.dnsServers| <= 8
    && Firewall.RulesAcceptable(
         f, wg.firewallRules, addresses, desired.networkLeases, desired.resourceLeases, routes, now)
    && |desired.networkLeases| + |desired.resourceLeases| > 0
    && forall r :: r in routes ==>
         RouteCovered(f, f.ToPrefix(r), desired.networkLeases, desired.resourceLeases, wg.firewallRules, now)
  }

  /** The configurations the endpoint turns into a plan. */
  ghost predicate Acceptable(f: Formats, desired: Desired, own: Identity, now: Time)
    requires f.Lawful()
  {
    && desired.wireGuard.Some?
    && var wg := desired.wireGuard.value;
    && HeaderUsable(desired, wg, own, now)
    && PeerUsable(f, wg.peers[0], own)
    && ListsUsable(f, wg, wg.peers[0])
    && ScopeUsable(f, desired, wg, wg.addresses, wg.routes, now)
  }

  /** The plan of an accepted configuration: its lists, each sorted. */
  function PlanOf(f: Formats, desired: Desired, own: Identity): TunnelPlan
    requires desired.wireGuard.Some? && |desired.wireGuard.value.peers| == 1
  {
    var wg := desired.wireGuard.value;
    var peer := wg.peers[0];
    var routes := Sort(Text, wg.routes);
    TunnelPlan(
      own.publicKey, Sort(Text, wg.addresses), wg.mtu,
      TunnelPeer(peer.publicKey, f.joinHostPort(peer.endpointHost, peer.endpointPort), routes, peer.keepaliveSeconds),
      routes, Sort(Text, wg.dnsServers))
  }

  method IsDnsServerUsable(f: Formats, raw: string, routes: seq<string>) returns (ok: bool)
    requires f.Lawful() && AllPrefixes(f, routes)
    ensures ok <==> DnsServerUsable(f, raw, routes)
  {
    var parsed := f.parseAddress(raw);
    if parsed.None? {
      return false;
    }
    var a := parsed.value.address;
    HostCovered(f, routes, a);
    ok := && !Is4In6(a) && IsGlobalUnicast(a) && f.showAddress(parsed.value) == raw
          && exists r :: r in routes && Covers(f.ToPrefix(r), HostPrefix(a));
  }

  method ReadDnsServers(f: Formats, raw: seq<string>, routes: seq<string>) returns (ok: bool)
    requires f.Lawful() && AllPrefixes(f, routes)
    ensures ok <==> (forall s :: s in raw ==> DnsServerUsable(f, s, routes)) && NoRepeats(raw)
  {
    var seen: set<string> := {};
    for i := 0 to |raw|
      invariant seen == set k | 0 <= k < i :: raw[k]
      invariant forall k :: 0 <= k < i ==> DnsServerUsable(f, raw[k], routes)
      invariant NoRepeats(raw[..i])
    {
      ok := IsDnsServerUsable(f, raw[i], routes);
      if !ok {
        assert raw[i] in raw;
        return;
      }
      if raw[i] in seen {
        assert !NoRepeats(raw);
        return false;
      }
      seen := seen + {raw[i]};
    }
    assert raw[..|raw|] == raw;
    ok := true;
  }

  /** The one-address block; a prefix has no zone. */
  function HostPrefix(a: Address): (p: Prefix)
    requires ValidAddress(a)
    ensures ValidPrefix(p)
  {
    Prefix(a, Width(a.family))
  }

  lemma HostCovered(f: Formats, routes: seq<string>, a: Address)
    requires f.Lawful() && AllPrefixes(f, routes) && ValidAddress(a)
    ensures (exists r :: r in routes && Covers(f.ToPrefix(r), HostPrefix(a)))
            <==> (exists r :: r in routes && Contains(f.ToPrefix(r), a))
  {
  }

  method ReadLists(f: Formats, wg: WireGuard, peer: Peer) returns (lists: Option<(seq<string>, seq<string>)>)
    requires f.Lawful()
    ensures lists.Some? <==> ListsUsable(f, wg, peer)
    ensures lists.Some? ==> lists.value == (Sort(Text, wg.addresses), Sort(Text, wg.routes))
  {
    var addresses := CanonicalPrefixes(f, wg.addresses, true);
    if addresses.None? || |addresses.value| == 0 || |addresses.value| > 8 {
      return None;
    }
    var routes := CanonicalPrefixes(f, wg.routes, false);
    if routes.None? || |routes.value| == 0 || |routes.value| > 256 {
      return None;
    }
    var allowed := CanonicalPrefixes(f, peer.allowedIPs, false);
    AllowedIPsAreRoutes(f, wg.routes, peer.allowedIPs);
    if allowed.None? || routes.value != allowed.value {
      return None;
    }
    lists := Some((addresses.value, routes.value));
  }

  /** The plan is the endpoint's side of the configuration: its own key, and as the only peer the gateway, whose key is
      another one; and the configuration's lists, sorted. */
  ghost predicate Follows(f: Formats, plan: TunnelPlan, desired: Desired, own: Identity) {
    && desired.wireGuard.Some? && |desired.wireGuard.value.peers| == 1
    && var wg := desired.wireGuard.value;
    && var peer := wg.peers[0];
    && plan.publicKey == wg.publicKey == own.publicKey && 1280 <= plan.mtu == wg.mtu <= 1500
    && plan.peer.publicKey == peer.publicKey
    && f.parseKey(plan.peer.publicKey).Some? && f.parseKey(plan.peer.publicKey).value != own.key
    && plan.peer.endpoint == f.joinHostPort(peer.endpointHost, peer.endpointPort)
    && f.validHost(peer.endpointHost) && 1 <= peer.endpointPort <= 65535
    && 0 <= plan.peer.keepaliveSeconds == peer.keepaliveSeconds <= 300
    && SortedFrom(plan.addresses, wg.addresses) && SortedFrom(plan.dnsServers, wg.dnsServers)
    && SortedFrom(plan.routes, wg.routes) && SortedFrom(plan.peer.allowedIPs, peer.allowedIPs)
  }

  /** The same texts, in byte order. */
  ghost predicate SortedFrom(sorted: seq<string>, raw: seq<string>) {
    multiset(sorted) == multiset(raw) && forall i, j :: 0 <= i < j < |sorted| ==> AtMost(sorted[i], sorted[j])
  }

  lemma PlanFollows(f: Formats, desired: Desired, own: Identity, now: Time)
    requires f.Lawful() && Acceptable(f, desired, own, now)
    ensures Follows(f, PlanOf(f, desired, own), desired, own)
  {
    hide ScopeUsable, SplitRoutes;
    var wg := desired.wireGuard.value;
    SortedFromSort(wg.addresses);
    SortedFromSort(wg.dnsServers);
    SortedFromSort(wg.routes);
  }

  lemma SortedFromSort(raw: seq<string>)
    ensures SortedFrom(Sort(Text, raw), raw)
  {
    SortSorted(Text, raw);
    assert forall i :: 0 <= i < |raw| ==> Text(Sort(Text, raw)[i]) == Sort(Text, raw)[i];
  }

  /** Accepts exactly the acceptable configurations and returns their plan. */
  method BuildTunnelPlan(f: Formats, desired: Desired, own: Identity, now: Time) returns (plan: Option<TunnelPlan>)
    requires f.Lawful()
    requires desired.wireGuard.Some?
    ensures plan.Some? <==> Acceptable(f, desired, own, now)
    ensures plan.Some? ==> plan.value == PlanOf(f, desired, own) && Follows(f, plan.value, desired, own)
  {
    var wg := desired.wireGuard.value;
    if !HeaderUsable(desired, wg, own, now) || !PeerUsable(f, wg.peers[0], own) {
      return None;
    }
    var lists := ReadLists(f, wg, wg.peers[0]);
    if lists.None? {
      return None;
    }
    var (addresses, routes) := lists.value;
    SameElements(wg.addresses, addresses);
    SameElements(wg.routes, routes);
    ScopeIgnoresOrder(f, desired, wg, addresses, routes, now);
    var authorized := AuthorizedScope(f, desired, wg, addresses, routes, now);
    plan := if authorized then Some(PlanOf(f, desired, own)) else None;
    if authorized {
      PlanFollows(f, desired, own, now);
    }
  }

  lemma AllowedIPsAreRoutes(f: Formats, routes: seq<string>, allowed: seq<string>)
    requires f.Lawful() && SplitRoutes(f, routes, false)
    ensures SplitRoutes(f, allowed, false) && Sort(Text, routes) == Sort(Text, allowed)
            <==> multiset(allowed) == multiset(routes)
  {
    TextInjective();
    SortIgnoresOrder(Text, routes, allowed);
    if multiset(allowed) == multiset(routes) {
      SameElements(routes, allowed);
    }
  }

  method AuthorizedScope(
    f: Formats, desired: Desired, wg: WireGuard, addresses: seq<string>, routes: seq<string>, now: Time)
    returns (ok: bool)
    requires f.Lawful() && AllPrefixes(f, routes)
    ensures ok <==> ScopeUsable(f, desired, wg, addresses, routes, now)
  {
    ok := ReadDnsServers(f, wg.dnsServers, routes);
    if !ok || |wg.dnsServers| > 8 {
      return false;
    }
    ok := Firewall.ValidFirewallRules(
      f, wg.firewallRules, addresses, desired.networkLeases, desired.resourceLeases, routes, now);
    if !ok {
      return false;
    }
    forall r | r in wg.firewallRules
      ensures f.IsPrefix(r.destination)
    {
      var i :| 0 <= i < |wg.firewallRules| && wg.firewallRules[i] == r;
      assert Firewall.RuleShape(f, wg.firewallRules[i], addresses, routes);
    }
    ok := RoutesCoveredByLeases(f, routes, desired.networkLeases, desired.resourceLeases, wg.firewallRules, now);
  }

  /** The scope checks see only which addresses and routes there are. */
  lemma ScopeIgnoresOrder(
    f: Formats, desired: Desired, wg: WireGuard, addresses: seq<string>, routes: seq<string>, now: Time)
    requires f.Lawful() && AllPrefixes(f, routes) && AllPrefixes(f, wg.routes)
    requires forall s :: s in addresses <==> s in wg.addresses
    requires forall s :: s in routes <==> s in wg.routes
    ensures ScopeUsable(f, desired, wg, addresses, routes, now)
            <==> ScopeUsable(f, desired, wg, wg.addresses, wg.routes, now)
  {
  }

  // --- what an accepted plan may route ---

  /** A route covered by a resource rule is exactly the rule's destination block. */
  lemma ResourceRouteIsDestination(
    f: Formats, desired: Desired, own: Identity, now: Time, route: string, rule: FirewallRule)
    requires f.Lawful() && Acceptable(f, desired, own, now)
    requires route in desired.wireGuard.value.routes && rule in desired.wireGuard.value.firewallRules
    requires ResourceRuleCovers(f, rule, desired.resourceLeases, f.ToPrefix(route), now)
    ensures f.ToPrefix(route) == f.ToPrefix(rule.destination)
  {
    var wg := desired.wireGuard.value;
    var i :| 0 <= i < |wg.firewallRules| && wg.firewallRules[i] == rule;
    assert Firewall.RuleShape(f, wg.firewallRules[i], wg.addresses, wg.routes);
    assert Firewall.DestinationInRoutes(f, rule, wg.routes);
    var p, d := f.ToPrefix(route), f.ToPrefix(rule.destination);
    var outer :| outer in wg.routes && Covers(f.ToPrefix(outer), d);
    CoversIsInclusion(f.ToPrefix(outer), d);
    assert SplitPrefix(f, route, false);
    assert outer == route || Disjoint(f.ToPrefix(outer), p);
    Sandwich(p, d, f.ToPrefix(outer));
  }

  /** The configuration, its leases and its allow rules outlive this moment. */
  predicate StillLive(desired: Desired, now: Time)
    requires desired.wireGuard.Some?
  {
    && desired.validUntil > now
    && (forall l :: l in desired.networkLeases ==> l.expiresAt > now)
    && (forall l :: l in desired.resourceLeases ==> l.expiresAt > now)
    && forall r :: r in desired.wireGuard.value.firewallRules && r.effect == "allow" && r.expiresAt.Some? ==>
      r.expiresAt.value > now
  }

  /** A configuration once acceptable is acceptable at another moment exactly if it is still live then. */
  lemma StillAcceptableExactly(f: Formats, desired: Desired, own: Identity, granted: Time, now: Time)
    requires f.Lawful() && Acceptable(f, desired, own, granted)
    ensures Acceptable(f, desired, own, now) <==> StillLive(desired, now)
  {
    var wg := desired.wireGuard.value;
    Firewall.StillAcceptableExactly(
      f, wg.firewallRules, wg.addresses, desired.networkLeases, desired.resourceLeases, wg.routes, granted, now);
    if StillLive(desired, now) {
      forall r | r in wg.routes
        ensures RouteCovered(f, f.ToPrefix(r), desired.networkLeases, desired.resourceLeases, wg.firewallRules, now)
      {
        StillCovered(f, f.ToPrefix(r), desired, granted, now);
      }
    }
  }

  lemma StillCovered(f: Formats, route: Prefix, desired: Desired, granted: Time, now: Time)
    requires f.Lawful() && ValidPrefix(route) && desired.wireGuard.Some? && StillLive(desired, now)
    requires RouteCovered(f, route, desired.networkLeases, desired.resourceLeases,
               desired.wireGuard.value.firewallRules, granted)
    ensures RouteCovered(f, route, desired.networkLeases, desired.resourceLeases,
              desired.wireGuard.value.firewallRules, now)
  {
    if l :| l in desired.networkLeases && NetworkLeaseCovers(f, l, route, granted) {
      assert NetworkLeaseCovers(f, l, route, now);
    } else {
      var rule :| rule in desired.wireGuard.value.firewallRules
        && ResourceRuleCovers(f, rule, desired.resourceLeases, route, granted);
      assert ResourceRuleCovers(f, rule, desired.resourceLeases, route, now);
    }
  }

  /** A live network lease authorizes the block: it lies wholly in a masked CIDR of the lease. */
  ghost predicate UnderNetworkLease(f: Formats, desired: Desired, route: Prefix, now: Time)
    requires f.Lawful() && ValidPrefix(route)
  {
    exists l, c :: && l in desired.networkLeases && l.expiresAt > now && c in l.cidrs && f.IsPrefix(c)
                   && Masked(f.ToPrefix(c)) && !Is4In6(f.ToPrefix(c).address) && Within(route, f.ToPrefix(c))
  }

  /** The block is the destination of an allow rule with a live resource lease. */
  ghost predicate UnderResourceRule(f: Formats, desired: Desired, route: Prefix, now: Time)
    requires f.Lawful() && desired.wireGuard.Some?
  {
    exists rule, l :: && rule in desired.wireGuard.value.firewallRules && rule.effect == "allow"
                      && l in desired.resourceLeases && l.id == rule.leaseId && l.expiresAt > now
                      && f.IsPrefix(rule.destination) && f.ToPrefix(rule.destination) == route
  }

  /** In every accepted plan the routes are canonical, never the default route, and pairwise disjoint; each lies wholly
      inside a CIDR of a live network lease or is exactly the destination of an allow rule with a live resource lease.
      The own addresses are single hosts. */
  lemma AcceptedRoutes(f: Formats, desired: Desired, own: Identity, now: Time)
    requires f.Lawful() && Acceptable(f, desired, own, now)
    ensures var plan := PlanOf(f, desired, own);
            && plan.routes == plan.peer.allowedIPs && NoRepeats(plan.routes)
            && AllPrefixes(f, plan.routes) && PairwiseDisjoint(f, plan.routes)
            && (forall r :: r in plan.routes ==>
                  && f.showPrefix(f.ToPrefix(r)) == r && Masked(f.ToPrefix(r)) && f.ToPrefix(r).bits > 0
                  && !Is4In6(f.ToPrefix(r).address) && IsGlobalUnicast(f.ToPrefix(r).address)
                  && (UnderNetworkLease(f, desired, f.ToPrefix(r), now)
                    || UnderResourceRule(f, desired, f.ToPrefix(r), now)))
            && forall a :: a in plan.addresses ==>
                 f.IsPrefix(a) && f.ToPrefix(a).bits == if f.ToPrefix(a).address.family.V4? then 32 else 128
  {
    var wg := desired.wireGuard.value;
    var plan := PlanOf(f, desired, own);
    SameElements(wg.routes, plan.routes);
    SameElements(wg.addresses, plan.addresses);
    forall r | r in plan.routes
      ensures SplitPrefix(f, r, false)
      ensures UnderNetworkLease(f, desired, f.ToPrefix(r), now) || UnderResourceRule(f, desired, f.ToPrefix(r), now)
    {
      RouteIsAuthorized(f, desired, own, now, r);
    }
    assert forall a :: a in plan.addresses ==> SplitPrefix(f, a, true);
  }

  lemma RouteIsAuthorized(f: Formats, desired: Desired, own: Identity, now: Time, r: string)
    requires f.Lawful() && Acceptable(f, desired, own, now) && r in desired.wireGuard.value.routes
    ensures SplitPrefix(f, r, false)
    ensures UnderNetworkLease(f, desired, f.ToPrefix(r), now) || UnderResourceRule(f, desired, f.ToPrefix(r), now)
  {
    var wg := desired.wireGuard.value;
    var route := f.ToPrefix(r);
    assert RouteCovered(f, route, desired.networkLeases, desired.resourceLeases, wg.firewallRules, now);
    if rule :| rule in wg.firewallRules && ResourceRuleCovers(f, rule, desired.resourceLeases, route, now) {
      ResourceRouteIsDestination(f, desired, own, now, r, rule);
      var l :| l in desired.resourceLeases && l.id == rule.leaseId && l.expiresAt > now;
    } else {
      var l :| l in desired.networkLeases && NetworkLeaseCovers(f, l, route, now);
      var c :| c in l.cidrs && f.IsPrefix(c) && UsableCidr(f.ToPrefix(c)) && Within(route, f.ToPrefix(c));
    }
  }

  /** An address in no authorized block is reached by no route: neither tunnelled, nor allowed by any
      rule, nor used as a name server. */
  lemma UnauthorizedAddressUnreachable(
    f: Formats, desired: Desired, own: Identity, now: Time, a: Address)
    requires f.Lawful() && Acceptable(f, desired, own, now)
    requires forall l, c :: l in desired.networkLeases && c in l.cidrs && f.IsPrefix(c)
               && l.expiresAt > now && Masked(f.ToPrefix(c)) && !Is4In6(f.ToPrefix(c).address)
               ==> !Contains(f.ToPrefix(c), a)
    requires forall r, l :: r in desired.wireGuard.value.firewallRules && r.effect == "allow"
               && l in desired.resourceLeases && l.id == r.leaseId && l.expiresAt > now && f.IsPrefix(r.destination)
               ==> !Contains(f.ToPrefix(r.destination), a)
    ensures forall r :: r in PlanOf(f, desired, own).routes ==> f.IsPrefix(r) && !Contains(f.ToPrefix(r), a)
    ensures forall s :: s in PlanOf(f, desired, own).dnsServers ==>
              f.parseAddress(s).Some? && f.parseAddress(s).value.address != a
    ensures forall packet: Firewall.Packet, t :: packet.destination == a
              ==> !Firewall.FirstMatchAllows(f, desired.wireGuard.value.firewallRules, packet, t)
  {
    var wg := desired.wireGuard.value;
    var plan := PlanOf(f, desired, own);
    AcceptedRoutes(f, desired, own, now);
    SameElements(wg.routes, plan.routes);
    SameElements(wg.dnsServers, plan.dnsServers);
    assert forall r :: r in wg.routes ==> !Contains(f.ToPrefix(r), a);
    forall packet: Firewall.Packet, t | packet.destination == a
      ensures !Firewall.FirstMatchAllows(f, wg.firewallRules, packet, t)
    {
      if Firewall.FirstMatchAllows(f, wg.firewallRules, packet, t) {
        var rule, expiry := Firewall.AllowRestsOnLease(
          f, wg.firewallRules, wg.addresses, desired.networkLeases, desired.resourceLeases, wg.routes, now, packet, t);
      }
    }
    forall s | s in plan.dnsServers
      ensures f.parseAddress(s).Some? && f.parseAddress(s).value.address != a
    {
      assert DnsServerUsable(f, s, wg.routes);
    }
  }
}

/** The endpoint's firewall rules: what is accepted, and what an accepted list means. */
module Firewall {
  import opened Wrappers
  import opened Prefixes
  import opened Protocol

  datatype LeaseKind = Network | Resource

  datatype Lease = Lease(kind: LeaseKind, expiresAt: Time)

  /** Every lease by its ID. A later network lease replaces an earlier one with the same ID. */
  function NetworkTable(leases: seq<NetworkLease>): map<string, Lease> {
    if leases == [] then map[]
    else
      var last := leases[|leases| - 1];
      NetworkTable(leases[..|leases| - 1])[last.id := Lease(Network, last.expiresAt)]
  }

  function LeaseTable(network: seq<NetworkLease>, resource: seq<ResourceLease>): map<string, Lease> {
    if resource == [] then NetworkTable(network)
    else
      var last := resource[|resource| - 1];
      LeaseTable(network, resource[..|resource| - 1])[last.id := Lease(Resource, last.expiresAt)]
  }

  predicate NetworkLeaseUsable(lease: NetworkLease, now: Time) {
    ValidIdentifier(lease.id) && lease.expiresAt > now
  }

  predicate ResourceLeaseUsable(lease: ResourceLease, now: Time) {
    ValidIdentifier(lease.id) && lease.expiresAt > now
  }

  /** All leases are live; a resource lease shares its ID with no other lease. */
  ghost predicate LeasesUsable(network: seq<NetworkLease>, resource: seq<ResourceLease>, now: Time) {
    && (forall l :: l in network ==> NetworkLeaseUsable(l, now))
    && (forall l :: l in resource ==> ResourceLeaseUsable(l, now))
    && (forall i, j :: 0 <= i < j < |resource| ==> resource[i].id != resource[j].id)
    && (forall n, r :: n in network && r in resource ==> n.id != r.id)
  }

  /** The destination is a masked, non-default prefix inside some route. */
  predicate DestinationInRoutes(f: Formats, rule: FirewallRule, routes: seq<string>)
    requires f.Lawful()
    requires forall r :: r in routes ==> f.IsPrefix(r)
  {
    && f.IsPrefix(rule.destination)
    && var destination := f.ToPrefix(rule.destination);
    && Masked(destination) && destination.bits != 0 && !Is4In6(destination.address)
    && exists r :: r in routes && Covers(f.ToPrefix(r), destination)
  }

  predicate PortsDistinctAndInRange(ports: seq<int>) {
    && |ports| <= 64
    && (forall i :: 0 <= i < |ports| ==> 1 <= ports[i] <= 65535)
    && (forall i, j :: 0 <= i < j < |ports| ==> ports[i] != ports[j])
  }

  predicate RuleShape(f: Formats, rule: FirewallRule, addresses: seq<string>, routes: seq<string>)
    requires f.Lawful()
    requires forall r :: r in routes ==> f.IsPrefix(r)
  {
    && ValidIdentifier(rule.id)
    && rule.source in addresses
    && rule.effect in ["allow", "deny"]
    && rule.protocol in ["any", "tcp", "udp", "icmp"]
    && (rule.protocol in ["any", "icmp"] ==> rule.ports == [])
    && DestinationInRoutes(f, rule, routes)
    && PortsDistinctAndInRange(rule.ports)
  }

  /** A deny rule is a bare block; an allow rule rests on a lease that outlives it. */
  predicate RuleAuthority(rule: FirewallRule, leases: map<string, Lease>, now: Time) {
    if rule.effect == "deny" then
      rule.leaseId == "" && rule.expiresAt == None && rule.protocol == "any" && rule.ports == []
    else
      && rule.leaseId in leases
      && rule.expiresAt.Some?
      && now < rule.expiresAt.value <= leases[rule.leaseId].expiresAt
      && match leases[rule.leaseId].kind
         case Resource => rule.protocol != "icmp" && (rule.protocol == "any" || rule.ports != [])
         case Network => rule.protocol == "any" && rule.ports == []
  }

  predicate IsDeny(rule: FirewallRule) {
    rule.effect == "deny"
  }

  predicate IsResourceAllow(rule: FirewallRule, leases: map<string, Lease>) {
    rule.effect == "allow" && rule.leaseId in leases && leases[rule.leaseId].kind == Resource
  }

  predicate IsNetworkAllow(rule: FirewallRule, leases: map<string, Lease>) {
    rule.effect == "allow" && rule.leaseId in leases && leases[rule.leaseId].kind == Network
  }

  /** Resource allows first, then protected denies, then broad network allows. */
  function Rank(rule: FirewallRule, leases: map<string, Lease>): int {
    if IsResourceAllow(rule, leases) then 0 else if IsDeny(rule) then 1 else 2
  }

  ghost predicate AllShaped(f: Formats, rules: seq<FirewallRule>, addresses: seq<string>, routes: seq<string>)
    requires f.Lawful()
    requires forall r :: r in routes ==> f.IsPrefix(r)
  {
    forall i :: 0 <= i < |rules| ==> RuleShape(f, rules[i], addresses, routes)
  }

  ghost predicate AllAuthorized(rules: seq<FirewallRule>, leases: map<string, Lease>, now: Time) {
    forall i :: 0 <= i < |rules| ==> RuleAuthority(rules[i], leases, now)
  }

  ghost predicate DistinctIds(rules: seq<FirewallRule>) {
    forall i, j :: 0 <= i < j < |rules| ==> rules[i].id != rules[j].id
  }

  ghost predicate InLayers(rules: seq<FirewallRule>, leases: map<string, Lease>) {
    forall i, j :: 0 <= i < j < |rules| ==> Rank(rules[i], leases) <= Rank(rules[j], leases)
  }

  /** The rule lists the endpoint accepts. */
  ghost predicate RulesAcceptable(
    f: Formats, rules: seq<FirewallRule>, addresses: seq<string>, network: seq<NetworkLease>,
    resource: seq<ResourceLease>, routes: seq<string>, now: Time)
    requires f.Lawful()
    requires forall r :: r in routes ==> f.IsPrefix(r)
  {
    && |rules| <= 4096
    && LeasesUsable(network, resource, now)
    && ScanPassed(f, rules, addresses, routes, LeaseTable(network, resource), now)
  }

  // --- the lease table ---

  lemma {:induction false} NetworkTableSound(network: seq<NetworkLease>, id: string)
    requires id in NetworkTable(network)
    ensures exists l :: l in network && l.id == id && NetworkTable(network)[id] == Lease(Network, l.expiresAt)
  {
    var last := network[|network| - 1];
    if id != last.id {
      NetworkTableSound(network[..|network| - 1], id);
      var l :| l in network[..|network| - 1] && l.id == id
               && NetworkTable(network[..|network| - 1])[id] == Lease(Network, l.expiresAt);
      assert l in network;
    } else {
      assert last in network;
    }
  }

  lemma {:induction false} NetworkTableKeys(network: seq<NetworkLease>)
    ensures forall id :: id in NetworkTable(network) <==> exists l :: l in network && l.id == id
  {
    if network != [] {
      var front, last := network[..|network| - 1], network[|network| - 1];
      NetworkTableKeys(front);
      forall id
        ensures id in NetworkTable(network) <==> exists l :: l in network && l.id == id
      {
        if l :| l in network && l.id == id {
          assert l in front || l == last;
        }
        if id in NetworkTable(network) {
          if id == last.id {
            assert last in network;
          } else {
            assert id in NetworkTable(front);
            var l :| l in front && l.id == id;
            assert l in network;
          }
        }
      }
    }
  }

  /** What each table entry stands for. */
  lemma {:induction false} LeaseTableSound(network: seq<NetworkLease>, resource: seq<ResourceLease>, id: string)
    requires id in LeaseTable(network, resource)
    ensures match LeaseTable(network, resource)[id]
            case Lease(Network, e) => exists l :: l in network && l.id == id && l.expiresAt == e
            case Lease(Resource, e) => exists l :: l in resource && l.id == id && l.expiresAt == e
  {
    if resource == [] {
      NetworkTableSound(network, id);
    } else {
      var front, last := resource[..|resource| - 1], resource[|resource| - 1];
      assert last in resource;
      if id != last.id {
        LeaseTableSound(network, front, id);
        assert forall l :: l in front ==> l in resource;
      }
    }
  }

  lemma {:induction false} LeaseTableKeys(network: seq<NetworkLease>, resource: seq<ResourceLease>)
    ensures forall id :: id in LeaseTable(network, resource) <==>
              (exists l :: l in network && l.id == id) || (exists l :: l in resource && l.id == id)
  {
    if resource == [] {
      NetworkTableKeys(network);
    } else {
      var front, last := resource[..|resource| - 1], resource[|resource| - 1];
      LeaseTableKeys(network, front);
      assert last in resource;
      assert forall l :: l in resource <==> l in front || l == last;
    }
  }

  // --- the validation loops ---

  method ReadNetworkLeases(network: seq<NetworkLease>, now: Time) returns (leases: Option<map<string, Lease>>)
    ensures leases.Some? <==> forall l :: l in network ==> NetworkLeaseUsable(l, now)
    ensures leases.Some? ==> leases.value == NetworkTable(network)
  {
    var table: map<string, Lease> := map[];
    for i := 0 to |network|
      invariant table == NetworkTable(network[..i])
      invariant forall k :: 0 <= k < i ==> NetworkLeaseUsable(network[k], now)
    {
      if !ValidIdentifier(network[i].id) || network[i].expiresAt <= now {
        assert network[i] in network && !NetworkLeaseUsable(network[i], now);
        return None;
      }
      assert network[..i + 1][..i] == network[..i];
      table := table[network[i].id := Lease(Network, network[i].expiresAt)];
    }
    assert network[..|network|] == network;
    leases := Some(table);
  }

  method ReadLeases(network: seq<NetworkLease>, resource: seq<ResourceLease>, now: Time)
    returns (leases: Option<map<string, Lease>>)
    ensures leases.Some? <==> LeasesUsable(network, resource, now)
    ensures leases.Some? ==> leases.value == LeaseTable(network, resource)
  {
    leases := ReadNetworkLeases(network, now);
    if leases.None? {
      return;
    }
    var table := leases.value;
    for i := 0 to |resource|
      invariant table == LeaseTable(network, resource[..i])
      invariant forall k :: 0 <= k < i ==> ResourceLeaseUsable(resource[k], now)
      invariant NewIds(network, resource, i)
    {
      var lease := resource[i];
      if !ValidIdentifier(lease.id) || lease.expiresAt <= now {
        assert lease in resource && !ResourceLeaseUsable(lease, now);
        return None;
      }
      if lease.id in table {
        IdTaken(network, resource, now, i);
        return None;
      }
      IdFree(network, resource, i);
      assert resource[..i + 1][..i] == resource[..i];
      table := table[lease.id := Lease(Resource, lease.expiresAt)];
    }
    assert resource[..|resource|] == resource;
    leases := Some(table);
  }

  ghost predicate NewIds(network: seq<NetworkLease>, resource: seq<ResourceLease>, n: nat)
    requires n <= |resource|
  {
    && (forall j, k :: 0 <= j < k < n ==> resource[j].id != resource[k].id)
    && (forall l, k :: l in network && 0 <= k < n ==> l.id != resource[k].id)
  }

  lemma IdFree(network: seq<NetworkLease>, resource: seq<ResourceLease>, i: nat)
    requires i < |resource| && NewIds(network, resource, i)
    requires resource[i].id !in LeaseTable(network, resource[..i])
    ensures NewIds(network, resource, i + 1)
  {
    LeaseTableKeys(network, resource[..i]);
    assert forall k :: 0 <= k < i ==> resource[k] in resource[..i];
  }

  lemma IdTaken(network: seq<NetworkLease>, resource: seq<ResourceLease>, now: Time, i: nat)
    requires i < |resource| && resource[i].id in LeaseTable(network, resource[..i])
    ensures !LeasesUsable(network, resource, now)
  {
    LeaseTableKeys(network, resource[..i]);
    assert resource[i] in resource;
    if l :| l in resource[..i] && l.id == resource[i].id {
      var k :| 0 <= k < i && resource[k] == l;
    }
  }

  method ValidPorts(ports: seq<int>) returns (ok: bool)
    ensures ok <==> PortsDistinctAndInRange(ports)
  {
    if |ports| > 64 {
      return false;
    }
    var seen: set<int> := {};
    for i := 0 to |ports|
      invariant seen == set k | 0 <= k < i :: ports[k]
      invariant forall k :: 0 <= k < i ==> 1 <= ports[k] <= 65535
      invariant forall j, k :: 0 <= j < k < i ==> ports[j] != ports[k]
    {
      if ports[i] < 1 || ports[i] > 65535 || ports[i] in seen {
        return false;
      }
      seen := seen + {ports[i]};
    }
    ok := true;
  }

  method ValidRuleShape(f: Formats, rule: FirewallRule, addresses: seq<string>, routes: seq<string>)
    returns (ok: bool)
    requires f.Lawful()
    requires forall r :: r in routes ==> f.IsPrefix(r)
    ensures ok <==> RuleShape(f, rule, addresses, routes)
  {
    if !ValidIdentifier(rule.id) || rule.source !in addresses || rule.effect !in ["allow", "deny"]
       || rule.protocol !in ["any", "tcp", "udp", "icmp"] {
      return false;
    }
    if !DestinationInRoutes(f, rule, routes) {
      return false;
    }
    if rule.protocol in ["any", "icmp"] && |rule.ports| != 0 {
      return false;
    }
    ok := ValidPorts(rule.ports);
  }

  /** One step of the three-phase scan: the phase after an authorized rule, or nothing. */
  method NextPhase(rule: FirewallRule, leases: map<string, Lease>, now: Time, phase: int)
    returns (next: Option<int>)
    requires rule.effect in ["allow", "deny"] && rule.protocol in ["any", "tcp", "udp", "icmp"]
    requires 0 <= phase <= 2
    ensures next.Some? <==> RuleAuthority(rule, leases, now) && phase <= Rank(rule, leases)
    ensures next.Some? ==> next.value == Rank(rule, leases)
  {
    if rule.effect == "deny" {
      if phase == 2 || rule.leaseId != "" || rule.expiresAt.Some? || rule.protocol != "any" || |rule.ports| != 0 {
        return None;
      }
      return Some(1);
    }
    if rule.leaseId !in leases || rule.expiresAt.None? || rule.expiresAt.value <= now
       || rule.expiresAt.value > leases[rule.leaseId].expiresAt {
      return None;
    }
    if leases[rule.leaseId].kind == Resource {
      if phase != 0 || rule.protocol !in ["any", "tcp", "udp"]
         || (rule.protocol in ["tcp", "udp"] && |rule.ports| == 0) {
        return None;
      }
      return Some(phase);
    }
    if rule.protocol != "any" || |rule.ports| != 0 {
      return None;
    }
    next := Some(2);
  }

  ghost predicate ScanPassed(
    f: Formats, rules: seq<FirewallRule>, addresses: seq<string>, routes: seq<string>,
    leases: map<string, Lease>, now: Time)
    requires f.Lawful()
    requires forall r :: r in routes ==> f.IsPrefix(r)
  {
    && AllShaped(f, rules, addresses, routes)
    && AllAuthorized(rules, leases, now)
    && DistinctIds(rules)
    && InLayers(rules, leases)
  }

  lemma ShapedStep(f: Formats, rules: seq<FirewallRule>, addresses: seq<string>, routes: seq<string>, n: nat)
    requires f.Lawful() && n < |rules|
    requires forall r :: r in routes ==> f.IsPrefix(r)
    ensures AllShaped(f, rules[..n + 1], addresses, routes)
            <==> AllShaped(f, rules[..n], addresses, routes) && RuleShape(f, rules[n], addresses, routes)
  {
    hide RuleShape;
  }

  lemma AuthorizedStep(rules: seq<FirewallRule>, leases: map<string, Lease>, now: Time, n: nat)
    requires n < |rules|
    ensures AllAuthorized(rules[..n + 1], leases, now)
            <==> AllAuthorized(rules[..n], leases, now) && RuleAuthority(rules[n], leases, now)
  {
  }

  lemma DistinctStep(rules: seq<FirewallRule>, n: nat)
    requires n < |rules|
    ensures DistinctIds(rules[..n + 1])
            <==> DistinctIds(rules[..n]) && forall k :: 0 <= k < n ==> rules[k].id != rules[n].id
  {
  }

  lemma LayersStep(rules: seq<FirewallRule>, leases: map<string, Lease>, n: nat)
    requires n < |rules|
    ensures InLayers(rules[..n + 1], leases)
            <==> InLayers(rules[..n], leases) && (n > 0 ==> Rank(rules[n - 1], leases) <= Rank(rules[n], leases))
  {
  }

  /** One more rule passes exactly if it is well formed, authorized, new, and not above the last layer. */
  lemma ScanStep(
    f: Formats, rules: seq<FirewallRule>, addresses: seq<string>, routes: seq<string>,
    leases: map<string, Lease>, now: Time, n: nat)
    requires f.Lawful() && n < |rules|
    requires forall r :: r in routes ==> f.IsPrefix(r)
    ensures ScanPassed(f, rules[..n + 1], addresses, routes, leases, now)
            <==> && ScanPassed(f, rules[..n], addresses, routes, leases, now)
                 && RuleShape(f, rules[n], addresses, routes) && RuleAuthority(rules[n], leases, now)
                 && (forall k :: 0 <= k < n ==> rules[k].id != rules[n].id)
                 && (n > 0 ==> Rank(rules[n - 1], leases) <= Rank(rules[n], leases))
  {
    ShapedStep(f, rules, addresses, routes, n);
    AuthorizedStep(rules, leases, now, n);
    DistinctStep(rules, n);
    LayersStep(rules, leases, n);
  }

  lemma {:induction false} ScanPrefix(
    f: Formats, rules: seq<FirewallRule>, addresses: seq<string>, routes: seq<string>,
    leases: map<string, Lease>, now: Time, n: nat)
    requires f.Lawful() && n <= |rules|
    requires forall r :: r in routes ==> f.IsPrefix(r)
    requires !ScanPassed(f, rules[..n], addresses, routes, leases, now)
    ensures !ScanPassed(f, rules, addresses, routes, leases, now)
    decreases |rules| - n
  {
  }

  /** Accepts exactly the acceptable lists. */
  method ValidFirewallRules(
    f: Formats, rules: seq<FirewallRule>, addresses: seq<string>, network: seq<NetworkLease>,
    resource: seq<ResourceLease>, routes: seq<string>, now: Time) returns (ok: bool)
    requires f.Lawful()
    requires forall r :: r in routes ==> f.IsPrefix(r)
    ensures ok <==> RulesAcceptable(f, rules, addresses, network, resource, routes, now)
  {
    if |rules| > 4096 {
      return false;
    }
    var table := ReadLeases(network, resource, now);
    if table.None? {
      return false;
    }
    ok := ScanRules(f, rules, addresses, routes, table.value, now);
  }

  method ScanRules(
    f: Formats, rules: seq<FirewallRule>, addresses: seq<string>, routes: seq<string>,
    leases: map<string, Lease>, now: Time) returns (ok: bool)
    requires f.Lawful()
    requires forall r :: r in routes ==> f.IsPrefix(r)
    ensures ok <==> ScanPassed(f, rules, addresses, routes, leases, now)
  {
    hide DestinationInRoutes, RuleAuthority, PortsDistinctAndInRange;
    var seen: set<string> := {};
    var phase := 0; // resource allow, protected deny, broad network allow
    for i := 0 to |rules|
      invariant seen == set k | 0 <= k < i :: rules[k].id
      invariant 0 <= phase <= 2
      invariant phase == if i == 0 then 0 else Rank(rules[i - 1], leases)
      invariant ScanPassed(f, rules[..i], addresses, routes, leases, now)
    {
      ScanStep(f, rules, addresses, routes, leases, now, i);
      var next := None;
      var shape := ValidRuleShape(f, rules[i], addresses, routes);
      if shape && rules[i].id !in seen {
        seen := seen + {rules[i].id};
        next := NextPhase(rules[i], leases, now, phase);
      }
      if next.None? {
        ScanPrefix(f, rules, addresses, routes, leases, now, i + 1);
        return false;
      }
      phase := next.value;
    }
    assert rules[..|rules|] == rules;
    ok := true;
  }

  /** Rules once acceptable are acceptable at another moment exactly if all leases and allow rules live then. */
  lemma StillAcceptableExactly(
    f: Formats, rules: seq<FirewallRule>, addresses: seq<string>, network: seq<NetworkLease>,
    resource: seq<ResourceLease>, routes: seq<string>, granted: Time, now: Time)
    requires f.Lawful() && forall r :: r in routes ==> f.IsPrefix(r)
    requires RulesAcceptable(f, rules, addresses, network, resource, routes, granted)
    ensures RulesAcceptable(f, rules, addresses, network, resource, routes, now)
            <==> && (forall l :: l in network ==> l.expiresAt > now)
                 && (forall l :: l in resource ==> l.expiresAt > now)
                 && forall r :: r in rules && r.effect == "allow" && r.expiresAt.Some? ==> r.expiresAt.value > now
  {
    var leases := LeaseTable(network, resource);
    forall i | 0 <= i < |rules|
      ensures RuleAuthority(rules[i], leases, now)
              <==> (rules[i].effect == "allow" && rules[i].expiresAt.Some? ==> rules[i].expiresAt.value > now)
    {
      assert RuleShape(f, rules[i], addresses, routes) && RuleAuthority(rules[i], leases, granted);
    }
    forall r | r in rules && AllAuthorized(rules, leases, now)
      ensures r.effect == "allow" && r.expiresAt.Some? ==> r.expiresAt.value > now
    {
      var i :| 0 <= i < |rules| && rules[i] == r;
    }
  }

  // --- the meaning of an accepted list ---

  datatype Packet = Packet(source: Address, destination: Address, protocol: string, port: int)

  /** The rule applies to the packet at time t: an allow rule applies only until it expires. */
  predicate Matches(f: Formats, rule: FirewallRule, packet: Packet, t: Time)
    requires f.Lawful()
  {
    && f.IsPrefix(rule.source) && Contains(f.ToPrefix(rule.source), packet.source)
    && f.IsPrefix(rule.destination) && Contains(f.ToPrefix(rule.destination), packet.destination)
    && (rule.protocol == "any" || rule.protocol == packet.protocol)
    && (rule.ports == [] || packet.port in rule.ports)
    && (rule.expiresAt.Some? ==> t < rule.expiresAt.value)
  }

  /** The packet evaluator: the first matching rule decides, and nothing matching is denied. */
  predicate FirstMatchAllows(f: Formats, rules: seq<FirewallRule>, packet: Packet, t: Time)
    requires f.Lawful()
  {
    if rules == [] then false
    else if Matches(f, rules[0], packet, t) then rules[0].effect == "allow"
    else FirstMatchAllows(f, rules[1..], packet, t)
  }

  /** The order-free reading of a rule list. */
  ghost predicate Allowed(f: Formats, rules: seq<FirewallRule>, leases: map<string, Lease>, packet: Packet, t: Time)
    requires f.Lawful()
  {
    || (exists r :: r in rules && IsResourceAllow(r, leases) && Matches(f, r, packet, t))
    || (&& !(exists r :: r in rules && IsDeny(r) && Matches(f, r, packet, t))
        && (exists r :: r in rules && IsNetworkAllow(r, leases) && Matches(f, r, packet, t)))
  }

  /** Every rule is of one of the three kinds, and the kinds come in order. */
  ghost predicate Layered(rules: seq<FirewallRule>, leases: map<string, Lease>) {
    && (forall r :: r in rules ==> IsDeny(r) || IsResourceAllow(r, leases) || IsNetworkAllow(r, leases))
    && InLayers(rules, leases)
  }

  lemma {:induction false} LayeredMeaning(
    f: Formats, rules: seq<FirewallRule>, leases: map<string, Lease>, packet: Packet, t: Time)
    requires f.Lawful() && Layered(rules, leases)
    ensures FirstMatchAllows(f, rules, packet, t) <==> Allowed(f, rules, leases, packet, t)
  {
    if rules != [] {
      var first, rest := rules[0], rules[1..];
      assert first in rules;
      assert forall r :: r in rules <==> r == first || r in rest;
      if Matches(f, first, packet, t) {
        if IsDeny(first) {
          forall r | r in rest
            ensures !IsResourceAllow(r, leases)
          {
            var k :| 0 <= k < |rest| && rest[k] == r;
            assert Rank(rules[0], leases) <= Rank(rules[k + 1], leases);
          }
        } else if IsNetworkAllow(first, leases) {
          forall r | r in rest
            ensures !IsDeny(r)
          {
            var k :| 0 <= k < |rest| && rest[k] == r;
            assert Rank(rules[0], leases) <= Rank(rules[k + 1], leases);
          }
        }
      } else {
        LayeredMeaning(f, rest, leases, packet, t);
      }
    }
  }

  lemma AcceptableIsLayered(
    f: Formats, rules: seq<FirewallRule>, addresses: seq<string>, network: seq<NetworkLease>,
    resource: seq<ResourceLease>, routes: seq<string>, now: Time)
    requires f.Lawful() && forall r :: r in routes ==> f.IsPrefix(r)
    requires RulesAcceptable(f, rules, addresses, network, resource, routes, now)
    ensures Layered(rules, LeaseTable(network, resource))
  {
  }

  /** For every accepted list, packet and time: first match with default deny is the order-free meaning. */
  lemma FirstMatchIsOrderFree(
    f: Formats, rules: seq<FirewallRule>, addresses: seq<string>, network: seq<NetworkLease>,
    resource: seq<ResourceLease>, routes: seq<string>, now: Time, packet: Packet, t: Time)
    requires f.Lawful() && forall r :: r in routes ==> f.IsPrefix(r)
    requires RulesAcceptable(f, rules, addresses, network, resource, routes, now)
    ensures FirstMatchAllows(f, rules, packet, t)
            <==> Allowed(f, rules, LeaseTable(network, resource), packet, t)
  {
    AcceptableIsLayered(f, rules, addresses, network, resource, routes, now);
    LayeredMeaning(f, rules, LeaseTable(network, resource), packet, t);
  }

  /** A packet that a deny rule covers passes only through a live resource lease. */
  lemma ProtectedDenyHolds(
    f: Formats, rules: seq<FirewallRule>, addresses: seq<string>, network: seq<NetworkLease>,
    resource: seq<ResourceLease>, routes: seq<string>, now: Time, packet: Packet, t: Time, deny: FirewallRule)
    requires f.Lawful() && forall r :: r in routes ==> f.IsPrefix(r)
    requires RulesAcceptable(f, rules, addresses, network, resource, routes, now)
    requires deny in rules && IsDeny(deny) && Matches(f, deny, packet, t)
    requires FirstMatchAllows(f, rules, packet, t)
    ensures exists r, l :: r in rules && Matches(f, r, packet, t) && r.effect == "allow"
                           && l in resource && l.id == r.leaseId && t < l.expiresAt
  {
    FirstMatchIsOrderFree(f, rules, addresses, network, resource, routes, now, packet, t);
    var leases := LeaseTable(network, resource);
    var r :| r in rules && IsResourceAllow(r, leases) && Matches(f, r, packet, t);
    var i :| 0 <= i < |rules| && rules[i] == r;
    assert RuleAuthority(rules[i], leases, now);
    LeaseTableSound(network, resource, r.leaseId);
    var l :| l in resource && l.id == r.leaseId && l.expiresAt == leases[r.leaseId].expiresAt;
  }

  /** Every allowed packet comes from one of the endpoint's own addresses and goes to an address inside a route, under
      an allow rule that is unexpired at that moment and rests on a lease that lives at least as long as the rule; under
      a resource lease with a protocol, to a listed port. */
  lemma AllowRestsOnLease(
    f: Formats, rules: seq<FirewallRule>, addresses: seq<string>, network: seq<NetworkLease>,
    resource: seq<ResourceLease>, routes: seq<string>, now: Time, packet: Packet, t: Time)
    returns (rule: FirewallRule, expiry: Time)
    requires f.Lawful() && forall r :: r in routes ==> f.IsPrefix(r)
    requires RulesAcceptable(f, rules, addresses, network, resource, routes, now)
    requires FirstMatchAllows(f, rules, packet, t)
    ensures rule in rules && rule.effect == "allow" && Matches(f, rule, packet, t)
    ensures rule.expiresAt.Some? && t < rule.expiresAt.value <= expiry
    ensures (exists l :: l in network && l.id == rule.leaseId && l.expiresAt == expiry)
            || (exists l :: l in resource && l.id == rule.leaseId && l.expiresAt == expiry)
    ensures exists r :: r in routes && Contains(f.ToPrefix(r), packet.destination)
    ensures exists s :: s in addresses && f.IsPrefix(s) && Contains(f.ToPrefix(s), packet.source)
    ensures (exists l :: l in resource && l.id == rule.leaseId) ==>
              rule.protocol == "any" || (rule.protocol == packet.protocol != "icmp" && packet.port in rule.ports)
  {
    FirstMatchIsOrderFree(f, rules, addresses, network, resource, routes, now, packet, t);
    var leases := LeaseTable(network, resource);
    rule :| rule in rules && rule.effect == "allow" && Matches(f, rule, packet, t);
    var i :| 0 <= i < |rules| && rules[i] == rule;
    assert RuleAuthority(rules[i], leases, now) && RuleShape(f, rules[i], addresses, routes);
    expiry := leases[rule.leaseId].expiresAt;
    LeaseTableSound(network, resource, rule.leaseId);
    if exists l :: l in resource && l.id == rule.leaseId {
      ResourceLeaseIsResource(network, resource, rule.leaseId);
    }
    DestinationReached(f, rule, addresses, routes, packet, t);
  }

  lemma {:induction false} ResourceLeaseIsResource(network: seq<NetworkLease>, resource: seq<ResourceLease>, id: string)
    requires exists l :: l in resource && l.id == id
    ensures id in LeaseTable(network, resource) && LeaseTable(network, resource)[id].kind == Resource
  {
    var front, last := resource[..|resource| - 1], resource[|resource| - 1];
    if last.id != id {
      assert forall l :: l in resource <==> l in front || l == last;
      ResourceLeaseIsResource(network, front, id);
    }
  }

  lemma DestinationReached(
    f: Formats, rule: FirewallRule, addresses: seq<string>, routes: seq<string>, packet: Packet, t: Time)
    requires f.Lawful() && forall r :: r in routes ==> f.IsPrefix(r)
    requires RuleShape(f, rule, addresses, routes) && Matches(f, rule, packet, t)
    ensures exists r :: r in routes && Contains(f.ToPrefix(r), packet.destination)
  {
    var r :| r in routes && Covers(f.ToPrefix(r), f.ToPrefix(rule.destination));
    CoversIsInclusion(f.ToPrefix(r), f.ToPrefix(rule.destination));
    assert Contains(f.ToPrefix(r), packet.destination);
  }
}

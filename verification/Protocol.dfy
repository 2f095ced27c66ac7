/** The control-plane configuration an endpoint receives, and the text formats it is written in.
    Address, key and host syntax is a parameter: the laws in Lawful are all the model needs. */
module Protocol {
  import opened Wrappers
  import opened Prefixes

  /** Points in time, in any fixed unit. */
  type Time = int

  datatype NetworkLease = NetworkLease(id: string, cidrs: seq<string>, expiresAt: Time)

  datatype ResourceLease = ResourceLease(id: string, expiresAt: Time)

  datatype FirewallRule = FirewallRule(
    id: string, effect: string, leaseId: string, source: string, destination: string,
    protocol: string, ports: seq<int>, expiresAt: Option<Time>)

  datatype Peer = Peer(
    runtimeId: string, publicKey: string, endpointHost: string, endpointPort: int,
    allowedIPs: seq<string>, keepaliveSeconds: int)

  datatype WireGuard = WireGuard(
    role: string, interfaceName: string, publicKey: string, firewallDefault: string,
    routingMode: string, mtu: int, addresses: seq<string>, routes: seq<string>,
    dnsServers: seq<string>, peers: seq<Peer>, firewallRules: seq<FirewallRule>)

  datatype Desired = Desired(
    configurationVersion: int, policyVersion: int, validUntil: Time, wireGuard: Option<WireGuard>,
    networkLeases: seq<NetworkLease>, resourceLeases: seq<ResourceLease>)

  /** An address as written; an IPv6 address may name a zone (section 11 of RFC 4007). */
  datatype ScopedAddress = ScopedAddress(address: Address, zone: string)

  /** Text formats: prefix and address syntax, key syntax and endpoint host syntax. */
  datatype Formats = Formats(
    parsePrefix: string -> Option<Prefix>, showPrefix: Prefix -> string,
    parseAddress: string -> Option<ScopedAddress>, showAddress: ScopedAddress -> string,
    parseKey: string -> Option<nat>, validHost: string -> bool,
    joinHostPort: (string, int) -> string)
  {
    ghost predicate Lawful() {
      && (forall s :: parsePrefix(s).Some? ==> ValidPrefix(parsePrefix(s).value))
      && (forall p :: ValidPrefix(p) ==> parsePrefix(showPrefix(p)) == Some(p))
      && (forall s :: parseAddress(s).Some? ==> ValidAddress(parseAddress(s).value.address))
    }

    predicate IsPrefix(s: string) {
      parsePrefix(s).Some?
    }

    function ToPrefix(s: string): (p: Prefix)
      requires Lawful() && IsPrefix(s)
      ensures ValidPrefix(p)
    {
      parsePrefix(s).value
    }
  }

  predicate LetterOrDigit(c: char) {
    'A' <= c <= 'Z' || 'a' <= c <= 'z' || '0' <= c <= '9'
  }

  /** One to 128 letters, digits or . _ : - , starting with a letter or digit. */
  predicate ValidIdentifier(s: string) {
    && 1 <= |s| <= 128
    && LetterOrDigit(s[0])
    && forall i :: 0 <= i < |s| ==> LetterOrDigit(s[i]) || s[i] in "._:-"
  }
}

/** makeResponse of dhcp/dhcpd.go: when an answer is built, and all that is in it. */
module Dhcpd {
  import opened Basics
  import opened ClasslessRoutes

  /** An address that `To4` turns into four octets, or an IPv6 address. */
  datatype Ip = V4(octets: seq<Octet>) | V6

  type Address = ip: Ip | ip.V4? ==> |ip.octets| == 4 witness V6

  /** An address field of the lease: empty, not an address, or an address. */
  datatype Field = Absent | Malformed | Parsed(ip: Address)

  /** A network field: not a CIDR, or one with this mask. */
  datatype NetworkField = BadCidr | Mask(octets: seq<Octet>)

  datatype Lease = Lease(ip: Field, network: NetworkField, dns: Field, metadata: Field, gateway: Field)

  datatype MessageType = Discover | Offer | Request | Ack | OtherType | NoType

  datatype Query = Query(kind: MessageType, id: nat, broadcast: bool, hardware: seq<Octet>, relay: Option<Address>)

  datatype Packet = Packet(kind: MessageType, id: nat, broadcast: bool, hardware: seq<Octet>, relay: Option<Address>,
                           yourAddr: Address, serverAddr: seq<Octet>, options: map<nat, seq<Octet>>)

  /** `Crashed`: indexing the missing four-octet form of an IPv6 address. */
  datatype Response = Response(packet: Packet) | Failed | Crashed

  const SUBNET_MASK := 1
  const ROUTERS := 3
  const DNS_SERVERS := 6
  const LEASE_TIME := 51
  const SERVER_IDENTIFIER := 54
  const CLASSLESS_ROUTES := 121

  const METADATA_ADDRESS: seq<Octet> := [169, 254, 169, 254]

  /** The last readable IPv4 address of an interface; in the list, `None` stands for
      an address that is not readable. */
  function ServerAddress(addrs: seq<Option<Address>>): (r: Option<seq<Octet>>)
    ensures r.Some? ==> |r.value| == 4
    ensures r.Some? ==> exists k :: 0 <= k < |addrs| && addrs[k] == Some(V4(r.value))
                                    && forall j :: k < j < |addrs| && addrs[j].Some? ==> addrs[j].value.V6?
    ensures r.None? ==> forall a :: a in addrs && a.Some? ==> a.value.V6?
  {
    if addrs == [] then None
    else
      var last := addrs[|addrs| - 1];
      assert addrs == addrs[..|addrs| - 1] + [last];
      if last.Some? && last.value.V4? then Some(last.value.octets) else ServerAddress(addrs[..|addrs| - 1])
  }

  function BigEndian(n: nat): seq<Octet>
    requires n < 0x1_0000_0000
  {
    [n / 0x100_0000, n / 0x1_0000 % 256, n / 256 % 256, n % 256]
  }

  predicate HasV4(f: Field) { f.Parsed? && f.ip.V4? }

  /** The routes a lease stands for: the metadata host route, then the default route. */
  function RoutesOf(lease: Lease): (r: seq<Route>)
    ensures AllCanonical(r)
  {
    (if HasV4(lease.metadata) then [Route(32, METADATA_ADDRESS, lease.metadata.ip.octets)] else []) +
    (if HasV4(lease.gateway) then [Route(0, [0, 0, 0, 0], lease.gateway.ip.octets)] else [])
  }

  /** An address field that is used as IPv4 without a check. */
  predicate Usable(f: Field) { f.Absent? || HasV4(f) }

  function ReplyKind(kind: MessageType): MessageType {
    match kind
    case Discover => Offer
    case Request => Ack
    case _ => NoType
  }

  /** The loop over the interface addresses keeps the last readable IPv4 one. */
  method PickServerAddress(addrs: seq<Option<Address>>) returns (sAddr: Option<seq<Octet>>)
    ensures sAddr == ServerAddress(addrs)
    ensures sAddr.Some? ==> exists k :: 0 <= k < |addrs| && addrs[k] == Some(V4(sAddr.value))
                                        && forall j :: k < j < |addrs| && addrs[j].Some? ==> addrs[j].value.V6?
    ensures sAddr.None? ==> forall j :: 0 <= j < |addrs| && addrs[j].Some? ==> addrs[j].value.V6?
  {
    sAddr := None;
    for i := 0 to |addrs|
      invariant sAddr == ServerAddress(addrs[..i])
    {
      assert addrs[..i + 1][..i] == addrs[..i];
      if addrs[i].None? || addrs[i].value.V6? { continue; }
      sAddr := Some(addrs[i].value.octets);
    }
    assert addrs[..|addrs|] == addrs;
  }

  /** What an answer says of the DNS server: its four octets, or none for an IPv6 address. */
  function DnsOctets(dns: Address): seq<Octet> { if dns.V4? then dns.octets else [] }

  /** The options other than those that depend on the metadata server and the gateway. */
  method StartOptions(server: seq<Octet>, lease: Lease) returns (ok: bool, options: map<nat, seq<Octet>>)
    requires lease.network.Mask?
    ensures ok <==> !lease.dns.Malformed?
    ensures ok ==>
              && options.Keys == {1, 54, 51} + (if lease.dns.Absent? then {} else {6})
              && options[1] == lease.network.octets && options[54] == server && options[51] == [255, 255, 255, 255]
              && (lease.dns.Parsed? ==> options[6] == DnsOctets(lease.dns.ip))
  {
    options := map[SUBNET_MASK := lease.network.octets, SERVER_IDENTIFIER := server];
    options := options[LEASE_TIME := BigEndian(4294967295)];
    if !lease.dns.Absent? {
      if lease.dns.Malformed? { return false, options; }
      options := options[DNS_SERVERS := DnsOctets(lease.dns.ip)];
    }
    ok := true;
  }

  datatype Outcome = Built | Refused | OutOfRange

  /** The router option and the bytes of option 121, appended descriptor by descriptor. */
  method RouteOptions(lease: Lease, basic: map<nat, seq<Octet>>) returns (outcome: Outcome, options: map<nat, seq<Octet>>)
    ensures outcome.Built? <==> Usable(lease.metadata) && Usable(lease.gateway)
    ensures outcome.OutOfRange? <==> !lease.metadata.Malformed? &&
                                     (Usable(lease.metadata) ==> lease.gateway.Parsed? && lease.gateway.ip.V6?)
    ensures outcome.Built? ==>
              options == basic[CLASSLESS_ROUTES := Encode(RoutesOf(lease))]
                         + if lease.gateway.Absent? then map[] else map[ROUTERS := lease.gateway.ip.octets]
  {
    options := basic[CLASSLESS_ROUTES := []];
    if !lease.metadata.Absent? {
      if lease.metadata.Malformed? { return Refused, options; }
      if lease.metadata.ip.V6? { return OutOfRange, options; }
      var md := lease.metadata.ip.octets;
      options := options[CLASSLESS_ROUTES :=
        options[CLASSLESS_ROUTES] + [32, 169, 254, 169, 254, md[0], md[1], md[2], md[3]]];
      assert options[CLASSLESS_ROUTES] == [32, 169, 254, 169, 254] + md;
    }
    EncodedRoutes(lease);
    ghost var prefix := options[CLASSLESS_ROUTES];
    if !lease.gateway.Absent? {
      if lease.gateway.Malformed? { return Refused, options; }
      if lease.gateway.ip.V6? { return OutOfRange, options; }
      var gw := lease.gateway.ip.octets;
      options := options[ROUTERS := gw];
      options := options[CLASSLESS_ROUTES := options[CLASSLESS_ROUTES] + [0, gw[0], gw[1], gw[2], gw[3]]];
      assert options[CLASSLESS_ROUTES] == prefix + ([0] + gw);
    }
    assert options[CLASSLESS_ROUTES] == Encode(RoutesOf(lease));
    assert options == basic[CLASSLESS_ROUTES := Encode(RoutesOf(lease))]
                      + if lease.gateway.Absent? then map[] else map[ROUTERS := lease.gateway.ip.octets];
    outcome := Built;
  }

  predicate HasAddress(addrs: seq<Option<Address>>) { exists a | a in addrs :: a.Some? && a.value.V4? }

  /** An answer is built exactly if the interface has a readable IPv4 address and the
      lease an address, a network, and no field that cannot be used; and it holds the
      options 1, 51, 54 and 121, with 6 and 3 for a DNS server and a gateway. */
  method MakeResponse(addrs: seq<Option<Address>>, req: Query, lease: Lease) returns (r: Response)
    ensures r.Response? <==>
              && HasAddress(addrs)
              && lease.ip.Parsed? && lease.network.Mask? && !lease.dns.Malformed?
              && (lease.metadata.Absent? || (lease.metadata.Parsed? && lease.metadata.ip.V4?))
              && (lease.gateway.Absent? || (lease.gateway.Parsed? && lease.gateway.ip.V4?))
    ensures r.Crashed? <==>
              && HasAddress(addrs)
              && lease.ip.Parsed? && lease.network.Mask? && !lease.dns.Malformed?
              && (|| (lease.metadata.Parsed? && lease.metadata.ip.V6?)
                  || (!lease.metadata.Malformed? && lease.gateway.Parsed? && lease.gateway.ip.V6?))
    ensures r.Response? ==>
              && r.packet.id == req.id && r.packet.broadcast == req.broadcast
              && r.packet.hardware == req.hardware && r.packet.relay == req.relay
              && r.packet.yourAddr == lease.ip.ip
              && ServerAddress(addrs) == Some(r.packet.serverAddr)
              && r.packet.kind == (if req.kind.Discover? then Offer else if req.kind.Request? then Ack else NoType)
    ensures r.Response? ==>
              var options := r.packet.options;
              && options.Keys == {1, 51, 54, 121} + (if lease.dns.Absent? then {} else {6})
                                                  + (if lease.gateway.Absent? then {} else {3})
              && options[1] == lease.network.octets
              && options[54] == r.packet.serverAddr
              && options[51] == [255, 255, 255, 255]
              && (lease.dns.Parsed? ==> options[6] == if lease.dns.ip.V4? then lease.dns.ip.octets else [])
              && (lease.gateway.Parsed? ==> options[3] == lease.gateway.ip.octets)
              && options[121] == Encode(RoutesOf(lease))
              && options[121] == (if lease.metadata.Absent? then [] else [32, 169, 254, 169, 254] + lease.metadata.ip.octets)
                                 + (if lease.gateway.Absent? then [] else [0] + lease.gateway.ip.octets)
  {
    EncodedRoutes(lease);
    var sAddr := PickServerAddress(addrs);
    if sAddr.None? { return Failed; }
    var serverAddr := sAddr.value;
    if !lease.ip.Parsed? { return Failed; }
    if lease.network.BadCidr? { return Failed; }

    var ok, basic := StartOptions(serverAddr, lease);
    if !ok { return Failed; }
    var outcome, options := RouteOptions(lease, basic);
    match outcome
    case Refused => return Failed;
    case OutOfRange => return Crashed;
    case Built =>
      r := Response(Packet(ReplyKind(req.kind), req.id, req.broadcast, req.hardware, req.relay,
                           lease.ip.ip, serverAddr, options));
  }

  /** The two descriptors that makeResponse can append, as the codec writes them. */
  lemma EncodedRoutes(lease: Lease)
    ensures Encode(RoutesOf(lease)) ==
            (if HasV4(lease.metadata) then [32, 169, 254, 169, 254] + lease.metadata.ip.octets else []) +
            (if HasV4(lease.gateway) then [0] + lease.gateway.ip.octets else [])
  {
    var routes := RoutesOf(lease);
    if HasV4(lease.metadata) && HasV4(lease.gateway) {
      assert Encode(routes[1..]) == EncodeRoute(routes[1]) + Encode(routes[1..][1..]);
    }
  }

  /** For every lease and every destination, a client that installs the routes of
      option 121 sends to the metadata server for the metadata address, and
      otherwise just where a client that reads the router option sends. */
  lemma ClientsAgree(lease: Lease, addr: seq<Octet>)
    requires |addr| == 4
    ensures var routes := Decode(Encode(RoutesOf(lease)));
            && routes.Some?
            && NextHop(routes.value, addr) ==
               if addr == METADATA_ADDRESS && HasV4(lease.metadata) then Some(lease.metadata.ip.octets)
               else if HasV4(lease.gateway) then Some(lease.gateway.ip.octets)
               else None
  {
    var routes := RoutesOf(lease);
    DecodeEncode(routes);
    forall r | r in routes {
      CoversAtTheEnds(r, addr);
    }
    if |routes| == 2 {
      assert routes[1..] == [routes[1]];
      BestOfOne(routes[1], addr);
      assert routes[0] in routes && routes[1] in routes;
    } else if |routes| == 1 {
      assert routes == [routes[0]];
      BestOfOne(routes[0], addr);
      assert routes[0] in routes;
    }
  }

  lemma BestOfOne(r: Route, addr: seq<Octet>)
    requires Canonical(r) && |addr| == 4
    ensures BestRoute([r], addr) == if Covers(r, addr) then Some(r) else None
  {
    assert [r][1..] == [];
  }
}

/** The link table of the kernel and the network table of libvirt, with the
    operations the agent uses on them. */
module Netlink {
  import Decimal

  datatype Address = Address(v4: bool, ip: nat, prefix: nat)

  datatype Kind = Bridge | Veth(peer: nat) | Vlan(parent: nat, id: nat) | OtherKind

  /** `master` is 0 for a link that is in no bridge; veth peers, VLAN parents and
      masters are named by index. */
  datatype Link = Link(index: nat, kind: Kind, master: nat, addrs: seq<Address>, up: bool)

  type Links = map<string, Link>

  /** The links by name, the libvirt networks by name with their activity, and
      the next index the kernel hands out. */
  datatype Net = Net(links: Links, networks: map<string, bool>, next: nat)

  datatype Outcome = Outcome(net: Net, ok: bool)

  /** The changing call of an operation that the environment refuses, if any; the
      operation stops there, or never makes that call. */
  datatype Refusal =
    | Nothing
    | NetworkDefine | NetworkCreate | NetworkDestroy | NetworkUndefine
    | LinkAdd | LinkSetMaster | LinkSetNoMaster | LinkDel | AddrAdd | AddrList
    | FirstLinkSetUp | SecondLinkSetUp | FirstLinkSetDown | SecondLinkSetDown

  /** What a call does, unless it is refused. */
  function Unless(refused: bool, net: Net, o: Outcome): Outcome {
    if refused then Outcome(net, false) else o
  }

  predicate At(links: Links, index: nat, name: string) {
    name in links && links[name].index == index
  }

  ghost predicate IsBridgeIndex(links: Links, index: nat) {
    exists b :: At(links, index, b) && links[b].kind.Bridge?
  }

  ghost predicate HasPeer(links: Links, name: string)
    requires name in links && links[name].kind.Veth?
  {
    && links[name].kind.peer != links[name].index
    && exists p :: At(links, links[name].kind.peer, p) && links[p].kind == Veth(links[name].index)
  }

  /** What the kernel keeps: indices are positive, unique and below the next one;
      masters are bridges of the table; veth links come in pairs. */
  ghost predicate Valid(net: Net) {
    && 0 < net.next
    && (forall n :: n in net.links ==> 0 < net.links[n].index < net.next)
    && (forall i, m, n :: At(net.links, i, m) && At(net.links, i, n) ==> m == n)
    && (forall n :: n in net.links && net.links[n].master != 0 ==> IsBridgeIndex(net.links, net.links[n].master))
    && (forall n :: n in net.links && net.links[n].kind.Veth? ==> HasPeer(net.links, n))
  }

  // ---------- links ----------

  function AddVeth(net: Net, name: string, peer: string): Outcome {
    if name in net.links || peer in net.links || name == peer then Outcome(net, false)
    else
      Outcome(net.(links := net.links[peer := Link(net.next, Veth(net.next + 1), 0, [], false)]
                                     [name := Link(net.next + 1, Veth(net.next), 0, [], false)],
                   next := net.next + 2), true)
  }

  function AddVlan(net: Net, name: string, parent: nat, id: nat): Outcome {
    if name in net.links || exists n | n in net.links :: net.links[n].kind == Vlan(parent, id)
    then Outcome(net, false)
    else
      Outcome(net.(links := net.links[name := Link(net.next, Vlan(parent, id), 0, [], false)],
                   next := net.next + 1), true)
  }

  /** A bridge cannot be a port, and only a bridge takes ports. */
  function SetMaster(net: Net, name: string, bridge: string): Outcome
    requires name in net.links && bridge in net.links
  {
    if !net.links[bridge].kind.Bridge? || net.links[name].kind.Bridge? then Outcome(net, false)
    else Outcome(net.(links := net.links[name := net.links[name].(master := net.links[bridge].index)]), true)
  }

  function ClearMaster(net: Net, name: string): Net
    requires name in net.links
  {
    net.(links := net.links[name := net.links[name].(master := 0)])
  }

  function SetUp(net: Net, name: string, up: bool): Net
    requires name in net.links
  {
    net.(links := net.links[name := net.links[name].(up := up)])
  }

  function AddAddress(net: Net, name: string, addr: Address): Outcome
    requires name in net.links
  {
    if addr in net.links[name].addrs then Outcome(net, false)
    else Outcome(net.(links := net.links[name := net.links[name].(addrs := net.links[name].addrs + [addr])]), true)
  }

  function Without(addrs: seq<Address>, addr: Address): seq<Address> {
    if addrs == [] then []
    else if addrs[0] == addr then addrs[1..]
    else [addrs[0]] + Without(addrs[1..], addr)
  }

  function OnlyV4(addrs: seq<Address>): (r: seq<Address>)
    ensures forall a :: a in r ==> a in addrs && a.v4
  {
    if addrs == [] then []
    else (if addrs[0].v4 then [addrs[0]] else []) + OnlyV4(addrs[1..])
  }

  function NotV4(addrs: seq<Address>): (r: seq<Address>)
    ensures forall a :: a in r ==> a in addrs && !a.v4
  {
    if addrs == [] then []
    else (if addrs[0].v4 then [] else [addrs[0]]) + NotV4(addrs[1..])
  }

  /** Removing the first IPv4 address leaves the other IPv4 addresses and all the rest. */
  lemma {:induction false} WithoutFirstV4(addrs: seq<Address>)
    requires OnlyV4(addrs) != []
    ensures OnlyV4(Without(addrs, OnlyV4(addrs)[0])) == OnlyV4(addrs)[1..]
    ensures NotV4(Without(addrs, OnlyV4(addrs)[0])) == NotV4(addrs)
  {
    var first, others := addrs[0], addrs[1..];
    if first.v4 {
      assert OnlyV4(addrs) == [first] + OnlyV4(others);
      assert Without(addrs, first) == others;
    } else {
      var v4 := OnlyV4(others);
      assert OnlyV4(addrs) == v4 by { assert [] + v4 == v4; }
      assert first != v4[0];
      WithoutFirstV4(others);
      assert Without(addrs, v4[0]) == [first] + Without(others, v4[0]);
      NotFirst(first, Without(others, v4[0]));
    }
  }

  /** An address that is not IPv4 in front of a list. */
  lemma NotFirst(first: Address, others: seq<Address>)
    requires !first.v4
    ensures OnlyV4([first] + others) == OnlyV4(others) && NotV4([first] + others) == [first] + NotV4(others)
  {
    assert ([first] + others)[0] == first && ([first] + others)[1..] == others;
  }

  lemma {:induction false} NoV4Left(addrs: seq<Address>)
    requires OnlyV4(addrs) == []
    ensures NotV4(addrs) == addrs
  {
    if addrs != [] {
      NoV4Left(addrs[1..]);
    }
  }

  function DeleteAddress(net: Net, name: string, addr: Address): Net
    requires name in net.links
  {
    net.(links := net.links[name := net.links[name].(addrs := Without(net.links[name].addrs, addr))])
  }

  /** Ports of a vanished bridge are in no bridge. */
  function Released(links: Links, index: nat): Links {
    map n | n in links :: if links[n].master == index then links[n].(master := 0) else links[n]
  }

  /** Deleting a veth link deletes its peer; deleting a bridge releases its ports. */
  function Delete(net: Net, name: string): Net
    requires name in net.links
  {
    var link := net.links[name];
    var gone := if link.kind.Veth? then set p | p in net.links && net.links[p].index == link.kind.peer else {};
    net.(links := Released(net.links - gone - {name}, link.index))
  }

  // ---------- libvirt networks ----------

  function DefineNetwork(net: Net, name: string): Net {
    net.(networks := net.networks[name := false])
  }

  /** Starting a network makes its bridge, up; it fails if a link has that name. */
  function CreateNetwork(net: Net, name: string): Outcome {
    if name in net.links then Outcome(net, false)
    else
      Outcome(Net(net.links[name := Link(net.next, Bridge, 0, [], true)], net.networks[name := true], net.next + 1), true)
  }

  /** Stopping a network deletes its bridge; it fails for an inactive network. */
  function DestroyNetwork(net: Net, name: string): Outcome
    requires name in net.networks
  {
    if !net.networks[name] then Outcome(net, false)
    else
      var stopped := net.(networks := net.networks[name := false]);
      Outcome(if name in net.links then Delete(stopped, name) else stopped, true)
  }

  function UndefineNetwork(net: Net, name: string): Net {
    net.(networks := net.networks - {name})
  }

  // ---------- names ----------

  function VethName(bridge: string): string { bridge + "-dhcp" }
  function VethPeerName(bridge: string): string { "dhcp-" + bridge }
  function VlanName(parent: string, id: nat): string { parent + "." + Decimal.Print(id) }

  /** A VLAN name tells the parent and the id apart, whatever characters the parent has. */
  lemma VlanNamesCoincide(p: string, i: nat, q: string, j: nat)
    ensures VlanName(p, i) == VlanName(q, j) <==> p == q && i == j
  {
    var s, t := VlanName(p, i), VlanName(q, j);
    assert s[|p|] == '.' && t[|q|] == '.';
    assert forall k | |p| < k < |s| :: Decimal.IsDigit(s[k]);
    assert forall k | |q| < k < |t| :: Decimal.IsDigit(t[k]);
    if s == t && |p| == |q| {
      assert s[..|p|] == p && t[..|p|] == q;
      assert s[|p| + 1..] == Decimal.Print(i) && t[|p| + 1..] == Decimal.Print(j);
      Decimal.ValueOfPrint(i);
      Decimal.ValueOfPrint(j);
    }
  }
}

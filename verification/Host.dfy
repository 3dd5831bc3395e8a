/** The functions of bridge.go, vlan.go and setup.go on a host whose tables they
    change in place.

    The host stands for the kernel, reached through netlink, and for libvirt, both
    outside the repository.  What they are taken to do is said by the functions of
    `Netlink.dfy`:

    - A veth pair needs two free different names; a VLAN needs a free name, and an
      id that its parent does not carry yet.  New links are down and in no bridge.
    - Only a bridge takes ports, and a bridge is no port.  Deleting a bridge releases
      its ports; deleting one end of a veth pair deletes the other end.
    - An address can be added to a link once.
    - Starting a network makes its bridge, up, and fails if a link has its name;
      stopping one deletes the bridge, and fails for a network that is not active.
    - Indices are handed out in increasing order and never again.

    The environment may refuse one changing call of each operation; `no` says which
    one (`Refusal`).  A refused call changes nothing, and the operation stops there.
    Each method is proved against the function of the same name in `Bridges.dfy`,
    and the bring-up loop against `RunSteps` in `BringUp.dfy`. */
module Host {
  import opened Netlink
  import opened Bridges
  import opened BridgePairs
  import opened BringUp

  class Host {
    var links: Links
    var networks: map<string, bool>
    var next: nat

    constructor (net: Net)
      ensures State() == net
    {
      links, networks, next := net.links, net.networks, net.next;
    }

    function State(): Net
      reads this
    {
      Net(links, networks, next)
    }

    // ---------- netlink and libvirt ----------

    method Become(net: Net)
      modifies this
      ensures State() == net
    {
      links, networks, next := net.links, net.networks, net.next;
    }

    method LinkAddVeth(name: string, peer: string, refused: bool) returns (ok: bool)
      modifies this
      ensures Outcome(State(), ok) == Unless(refused, old(State()), AddVeth(old(State()), name, peer))
    {
      if refused { return false; }
      var o := AddVeth(State(), name, peer);
      Become(o.net);
      ok := o.ok;
    }

    method LinkAddVlan(name: string, parent: nat, id: nat, refused: bool) returns (ok: bool)
      modifies this
      ensures Outcome(State(), ok) == Unless(refused, old(State()), AddVlan(old(State()), name, parent, id))
    {
      if refused { return false; }
      var o := AddVlan(State(), name, parent, id);
      Become(o.net);
      ok := o.ok;
    }

    method LinkSetMaster(name: string, bridge: string, refused: bool) returns (ok: bool)
      requires name in links && bridge in links
      modifies this
      ensures Outcome(State(), ok) == Unless(refused, old(State()), SetMaster(old(State()), name, bridge))
    {
      if refused { return false; }
      var o := SetMaster(State(), name, bridge);
      Become(o.net);
      ok := o.ok;
    }

    method AddrAdd(name: string, addr: Address, refused: bool) returns (ok: bool)
      requires name in links
      modifies this
      ensures Outcome(State(), ok) == Unless(refused, old(State()), AddAddress(old(State()), name, addr))
    {
      if refused { return false; }
      var o := AddAddress(State(), name, addr);
      Become(o.net);
      ok := o.ok;
    }

    method LinkSetState(name: string, up: bool, refused: bool) returns (ok: bool)
      requires name in links
      modifies this`links
      ensures Outcome(State(), ok) == Unless(refused, old(State()), Outcome(SetUp(old(State()), name, up), true))
    {
      if refused { return false; }
      links := SetUp(State(), name, up).links;
      return true;
    }

    method LinkSetNoMaster(name: string, refused: bool) returns (ok: bool)
      requires name in links
      modifies this`links
      ensures Outcome(State(), ok) == Unless(refused, old(State()), Outcome(ClearMaster(old(State()), name), true))
    {
      if refused { return false; }
      links := ClearMaster(State(), name).links;
      return true;
    }

    method LinkDel(name: string, refused: bool) returns (ok: bool)
      requires name in links
      modifies this
      ensures Outcome(State(), ok) == Unless(refused, old(State()), Outcome(Delete(old(State()), name), true))
    {
      if refused { return false; }
      Become(Delete(State(), name));
      return true;
    }

    method NetworkCreate(name: string, refused: bool) returns (ok: bool)
      modifies this
      ensures Outcome(State(), ok) == Unless(refused, old(State()), CreateNetwork(old(State()), name))
    {
      if refused { return false; }
      var o := CreateNetwork(State(), name);
      Become(o.net);
      ok := o.ok;
    }

    method NetworkDestroy(name: string, refused: bool) returns (ok: bool)
      requires name in networks
      modifies this
      ensures Outcome(State(), ok) == Unless(refused, old(State()), DestroyNetwork(old(State()), name))
    {
      if refused { return false; }
      var o := DestroyNetwork(State(), name);
      Become(o.net);
      ok := o.ok;
    }

    method AddrDel(name: string, addr: Address)
      requires name in links
      modifies this`links
      ensures links == WithAddrs(old(links), name, Without(old(links)[name].addrs, addr))
    {
      links := DeleteAddress(State(), name, addr).links;
    }

    // ---------- bridge.go ----------

    method CreateVethPeer(name: string, no: Refusal) returns (ok: bool, peer: string)
      requires Valid(State())
      modifies this
      ensures var c := CreateVethPeerIfNotExists(old(State()), name, no);
              State() == c.net && (ok <==> c.Pair?) && (ok ==> peer == c.peer)
      ensures Valid(State())
      ensures ok <==> PairAvailable(old(links), name, no)
      ensures ok ==> links == WithPair(old(State()), name) && PairEnds(links, VethName(name), peer)
      ensures ok && VethName(name) !in old(links) ==> peer == VethPeerName(name)
      ensures !ok ==> State() == old(State())
    {
      ghost var c := CreateVethPeerIfNotExists(State(), name, no);
      PairFound(State(), name, no, c);
      var veth := VethName(name);
      ok, peer := true, "";
      if veth !in links {
        ok := LinkAddVeth(veth, VethPeerName(name), no.LinkAdd?);
      }
      if ok && links[veth].kind.Veth? {
        ok, peer := LinkByIndex(links[veth].kind.peer);
      } else {
        ok := false;
      }
    }

    /** In a valid table at most one link has an index. */
    method LinkByIndex(index: nat) returns (ok: bool, name: string)
      ensures ok <==> exists n :: At(links, index, n)
      ensures ok ==> At(links, index, name)
    {
      name := "";
      ok := exists n | n in links :: At(links, index, n);
      if ok {
        name :| name in links && At(links, index, name);
      }
    }

    method AddTeleskopInterface(name: string, addr: Address, no: Refusal) returns (ok: bool)
      requires Valid(State())
      modifies this
      ensures Outcome(State(), ok) == Bridges.AddTeleskopInterface(old(State()), name, addr, no)
      ensures exists peer :: PairServed(old(State()), name, addr, no, Outcome(State(), ok), peer)
    {
      var _ := TeleskopLeaves(State(), name, addr, no, Bridges.AddTeleskopInterface(State(), name, addr, no));
      var peer;
      ok, peer := CreateVethPeer(name, no);
      if !ok { return; }
      ok := name in links;
      if !ok { return; }
      ok := ConnectPair(name, VethName(name), peer, addr, no);
    }

    /** The veth into the bridge, the address on its peer, both up. */
    method ConnectPair(bridge: string, veth: string, peer: string, addr: Address, no: Refusal) returns (ok: bool)
      requires bridge in links && veth in links && peer in links
      modifies this
      ensures Outcome(State(), ok) == Connect(old(State()), bridge, veth, peer, addr, no)
    {
      ok := LinkSetMaster(veth, bridge, no.LinkSetMaster?);
      if !ok { return; }
      ok := AddrAdd(peer, addr, no.AddrAdd?);
      if !ok { return; }
      ok := LinkSetState(veth, true, no.FirstLinkSetUp?);
      if !ok { return; }
      ok := LinkSetState(peer, true, no.SecondLinkSetUp?);
    }

    /** Deletes the IPv4 addresses of a link one by one; the others stay. */
    method FlushAddresses(name: string)
      requires name in links
      modifies this`links
      ensures links == WithAddrs(old(links), name, NotV4(old(links)[name].addrs))
    {
      var addrs := OnlyV4(links[name].addrs);
      ghost var start := links;
      ghost var left := links[name].addrs;
      WithAddresses(start, name, left);
      for i := 0 to |addrs|
        invariant links == WithAddrs(start, name, left)
        invariant OnlyV4(left) == addrs[i..] && NotV4(left) == NotV4(start[name].addrs)
      {
        WithoutFirstV4(left);
        AddrDel(name, addrs[i]);
        WithAddresses(start, name, left);
        left := Without(left, addrs[i]);
      }
      NoV4Left(left);
    }

    /** Both ends down, the IPv4 addresses of the peer off, the pair out of its bridge. */
    method TakeDown(veth: string, peer: string, no: Refusal) returns (ok: bool)
      requires veth in links && peer in links
      modifies this`links
      ensures State() == PartlyDown(old(State()), veth, peer, no)
      ensures ok <==> no !in {FirstLinkSetDown, SecondLinkSetDown, AddrList, Refusal.LinkSetNoMaster}
    {
      ok := LinkSetState(veth, false, no.FirstLinkSetDown?);
      if !ok { return; }
      ok := LinkSetState(peer, false, no.SecondLinkSetDown?);
      if !ok { return; }
      ok := !no.AddrList?;
      if !ok { return; }
      FlushAddresses(peer);
      ok := LinkSetNoMaster(veth, no.LinkSetNoMaster?);
    }

    method DeleteTeleskopInterface(name: string, no: Refusal) returns (ok: bool)
      requires Valid(State())
      modifies this
      ensures Outcome(State(), ok) == DeleteTeleskopInterfaceIfExists(old(State()), name, no)
      ensures exists peer :: PairDeleted(old(State()), name, no, Outcome(State(), ok), peer)
    {
      var _ := DeletePairLeaves(State(), name, no, DeleteTeleskopInterfaceIfExists(State(), name, no));
      var found, peer := CreateVethPeer(name, no);
      if !found { return true; }
      ghost var made := State();
      var veth := VethName(name);
      PeerIsAnother(State(), veth, peer);
      ok := TakeDown(veth, peer, no);
      if !ok { return; }
      DownDiffersOnPair(made, veth, peer, no);
      DeleteForgetsPair(made, State(), veth, peer);
      ok := LinkDel(veth, no.LinkDel?);
    }

    method AddBridge(req: BridgeRequest, no: Refusal) returns (ok: bool)
      requires Valid(State())
      modifies this
      ensures Outcome(State(), ok) == Bridges.AddBridge(old(State()), req, no)
      ensures Valid(State())
      ensures ok && req.name !in old(networks) && !req.internalOnly ==>
                req.cidr.ValidCidr? && exists peer :: Equipped(old(State()), links, req.name, req.cidr.addr, peer)
      ensures ok ==> networks == if req.name in old(networks) then old(networks) else old(networks)[req.name := true]
    {
      AddBridgeWithoutPair(State(), req, no);
      if Bridges.AddBridge(State(), req, no).ok && req.name !in networks && !req.internalOnly {
        var _ := AddBridgeEquips(State(), req, no);
      }
      AddBridgeKeepsValid(State(), req, no);
      if !req.internalOnly && req.cidr.InvalidCidr? { return false; }
      if req.name in networks { return true; }
      if no.NetworkDefine? { return false; }
      StartKeepsValid(State(), req.name);
      Become(DefineNetwork(State(), req.name));
      ok := NetworkCreate(req.name, no.NetworkCreate?);
      if !ok { return; }
      if !req.internalOnly {
        ok := AddTeleskopInterface(req.name, req.cidr.addr, no);
      }
    }

    method DeleteBridge(name: string, no: Refusal) returns (ok: bool)
      requires Valid(State())
      modifies this
      ensures Outcome(State(), ok) == Bridges.DeleteBridge(old(State()), name, no)
      ensures Valid(State())
      ensures ok ==> networks == old(networks) - {name}
    {
      DeleteBridgeKeepsValid(State(), name, no);
      if Bridges.DeleteBridge(State(), name, no).ok {
        DeletedNetworkIsGone(State(), name, no);
      }
      if name !in networks { return true; }
      DestroyKeepsValid(State(), name);
      ok := NetworkDestroy(name, no.NetworkDestroy?);
      if !ok { return; }
      if no.NetworkUndefine? { return false; }
      Become(UndefineNetwork(State(), name));
      ok := DeleteTeleskopInterface(name, no);
    }

    /** No other link changes; success means that the link is in a bridge, in the
        given one if it was in none; failure changes nothing. */
    method AddInterfaceToBridge(bridge: string, intf: string, no: Refusal) returns (ok: bool)
      modifies this
      ensures Outcome(State(), ok) == Bridges.AddInterfaceToBridge(old(State()), bridge, intf, no)
      ensures forall n :: n in old(links) && n != intf ==> n in links && links[n] == old(links)[n]
      ensures ok <==> && bridge in old(links) && intf in old(links)
                      && (|| old(links)[intf].master != 0
                          || (!no.LinkSetMaster? && old(links)[bridge].kind.Bridge? && !old(links)[intf].kind.Bridge?))
      ensures ok ==> bridge in links && intf in links
      ensures ok ==> if old(links)[intf].master != 0 then State() == old(State())
                     else links[bridge].kind.Bridge? && links[intf].master == links[bridge].index
      ensures !ok ==> State() == old(State())
    {
      if bridge !in links { return false; }
      if intf !in links { return false; }
      if links[intf].master != 0 { return true; }
      ok := LinkSetMaster(intf, bridge, no.LinkSetMaster?);
    }

    /** No other link changes; success means that the link is in no bridge; failure changes nothing. */
    method DeleteInterfaceFromBridge(intf: string, no: Refusal) returns (ok: bool)
      modifies this
      ensures Outcome(State(), ok) == Bridges.DeleteInterfaceFromBridge(old(State()), intf, no)
      ensures forall n :: n in old(links) && n != intf ==> n in links && links[n] == old(links)[n]
      ensures ok <==> intf in old(links) && !no.LinkSetNoMaster?
      ensures ok ==> links == old(links)[intf := old(links)[intf].(master := 0)] && networks == old(networks)
      ensures !ok ==> State() == old(State())
    {
      if intf !in links { return false; }
      ok := LinkSetNoMaster(intf, no.LinkSetNoMaster?);
    }

    // ---------- vlan.go ----------

    /** No old link changes; a new one is the VLAN of the parent, in no bridge, and
        up exactly when the call succeeded. */
    method AddVLANInterface(parent: string, id: nat, no: Refusal) returns (ok: bool)
      modifies this
      ensures Outcome(State(), ok) == Bridges.AddVLANInterface(old(State()), parent, id, no)
      ensures forall n :: n in old(links) ==> n in links && links[n] == old(links)[n]
      ensures forall n :: n in links && n !in old(links) ==>
                && n == VlanName(parent, id) && parent in old(links)
                && links[n].kind == Vlan(old(links)[parent].index, id) && links[n].master == 0 && links[n].up == ok
      ensures ok <==> || VlanName(parent, id) in old(links)
                      || (&& parent in old(links) && !no.LinkAdd? && !no.FirstLinkSetUp?
                          && forall n :: n in old(links) ==> old(links)[n].kind != Vlan(old(links)[parent].index, id))
      ensures ok ==> VlanName(parent, id) in links
    {
      var name := VlanName(parent, id);
      if name in links { return true; }
      if parent !in links { return false; }
      ok := LinkAddVlan(name, links[parent].index, id, no.LinkAdd?);
      if !ok { return; }
      ok := LinkSetState(name, true, no.FirstLinkSetUp?);
    }

    /** Success means that the link is gone, and nothing else if it is a VLAN;
        failure can only have taken it down. */
    method DeleteVLANInterface(parent: string, id: nat, no: Refusal) returns (ok: bool)
      requires Valid(State())
      modifies this
      ensures Outcome(State(), ok) == Bridges.DeleteVLANInterface(old(State()), parent, id, no)
      ensures ok <==> VlanName(parent, id) in old(links) && !no.FirstLinkSetDown? && !no.LinkDel?
      ensures ok ==> VlanName(parent, id) !in links
      ensures ok && old(links)[VlanName(parent, id)].kind.Vlan? ==> links == old(links) - {VlanName(parent, id)}
      ensures !ok ==> if VlanName(parent, id) !in old(links) || no.FirstLinkSetDown? then State() == old(State())
                      else State() == SetUp(old(State()), VlanName(parent, id), false)
    {
      var name := VlanName(parent, id);
      if name !in links { return false; }
      ok := LinkSetState(name, false, no.FirstLinkSetDown?);
      if !ok { return; }
      if links[name].kind.Vlan? {
        VlanGone(old(State()), name);
      }
      ok := LinkDel(name, no.LinkDel?);
    }

    // ---------- setup.go ----------

    /** One round of the bring-up loop; internal-only bridges get no VLAN and no port. */
    method SetupBridge(b: BridgeEntry, parent: string, no: seq<Refusal>) returns (ok: bool)
      requires Valid(State())
      modifies this
      ensures Outcome(State(), ok) == RunSteps(old(State()), StepsOf(b, parent), no)
      ensures Valid(State())
    {
      RunStepsOfBridge(State(), b, parent, no);
      ok := AddBridge(BridgeRequest(b.name, b.cidr, b.internalOnly), FirstOf(no));
      if !ok || b.internalOnly { return; }
      ok := PlugIn(b, parent, Skip(no, 1));
    }

    /** The VLAN interface of a bridge, and its place in the bridge. */
    method PlugIn(b: BridgeEntry, parent: string, no: seq<Refusal>) returns (ok: bool)
      requires Valid(State())
      modifies this
      ensures Outcome(State(), ok) == RunSteps(old(State()), PlugInSteps(b, parent), no)
      ensures Valid(State())
    {
      RunPlugIn(State(), b, parent, no);
      ApplyKeepsValid(State(), OpAddVlan(parent, b.vlanId), FirstOf(no));
      ok := AddVLANInterface(parent, b.vlanId, FirstOf(no));
      if !ok { return; }
      ApplyKeepsValid(State(), OpAddInterface(b.name, VlanName(parent, b.vlanId)), FirstOf(Skip(no, 1)));
      ok := AddInterfaceToBridge(b.name, VlanName(parent, b.vlanId), FirstOf(Skip(no, 1)));
    }

    /** The bring-up loop; the k-th of `no` is the call refused in its k-th step. */
    method Setup(bridges: seq<BridgeEntry>, parent: string, no: seq<Refusal>) returns (ok: bool)
      requires Valid(State())
      modifies this
      ensures Outcome(State(), ok) == RunSteps(old(State()), Steps(bridges, parent), no)
    {
      ghost var start := State();
      var left := no;
      assert bridges[0..] == bridges;
      for i := 0 to |bridges|
        invariant Valid(State())
        invariant RunSteps(State(), Steps(bridges[i..], parent), left) == RunSteps(start, Steps(bridges, parent), no)
      {
        assert bridges[i..][0] == bridges[i] && bridges[i..][1..] == bridges[i + 1..];
        RunStepsConcat(State(), StepsOf(bridges[i], parent), Steps(bridges[i + 1..], parent), left);
        ok := SetupBridge(bridges[i], parent, left);
        if !ok { return; }
        left := Skip(left, |StepsOf(bridges[i], parent)|);
      }
      return true;
    }
  }

  function WithAddrs(links: Links, name: string, addrs: seq<Address>): Links
    requires name in links
  {
    links[name := links[name].(addrs := addrs)]
  }

  lemma WithAddresses(links: Links, name: string, addrs: seq<Address>)
    requires name in links
    ensures var l := WithAddrs(links, name, addrs);
            && name in l && l[name].addrs == addrs
            && (addrs == links[name].addrs ==> l == links)
            && forall more :: WithAddrs(l, name, more) == WithAddrs(links, name, more)
  {
  }

  /** In a valid table a veth link is not its own peer. */
  lemma PeerIsAnother(net: Net, veth: string, peer: string)
    requires Valid(net) && veth in net.links && net.links[veth].kind.Veth?
    requires At(net.links, net.links[veth].kind.peer, peer)
    ensures peer != veth
  {
    assert HasPeer(net.links, veth);
  }

  /** The tables agree but for the state, addresses and master of the two ends of a pair. */
  ghost predicate DiffersOnPair(a: Net, b: Net, veth: string, peer: string) {
    && a.networks == b.networks && a.next == b.next && a.links.Keys == b.links.Keys
    && veth in a.links && peer in a.links
    && (forall n :: n in a.links ==> b.links[n].index == a.links[n].index && b.links[n].kind == a.links[n].kind)
    && (forall n :: n in a.links && n != veth && n != peer ==> b.links[n] == a.links[n])
  }

  /** Deleting the pair forgets everything in which the tables differed. */
  lemma DeleteForgetsPair(a: Net, b: Net, veth: string, peer: string)
    requires DiffersOnPair(a, b, veth, peer)
    requires a.links[veth].kind.Veth? && a.links[peer].index == a.links[veth].kind.peer
    ensures Delete(a, veth) == Delete(b, veth)
  {
    assert Delete(a, veth).links == Delete(b, veth).links;
  }

  lemma DownDiffersOnPair(net: Net, veth: string, peer: string, no: Refusal)
    requires veth in net.links && peer in net.links
    ensures DiffersOnPair(net, PartlyDown(net, veth, peer, no), veth, peer)
  {
  }

  lemma VlanIsNoMaster(net: Net, name: string, n: string)
    requires Valid(net) && name in net.links && net.links[name].kind.Vlan? && n in net.links
    ensures net.links[n].master != net.links[name].index
  {
    if net.links[n].master != 0 {
      assert IsBridgeIndex(net.links, net.links[n].master);
      assert At(net.links, net.links[name].index, name);
    }
  }

  /** Taking a VLAN down and deleting it takes that link away and changes no other. */
  lemma VlanGone(net: Net, name: string)
    requires Valid(net) && name in net.links && net.links[name].kind.Vlan?
    ensures Delete(SetUp(net, name, false), name).links == net.links - {name}
  {
    var links := Delete(SetUp(net, name, false), name).links;
    forall n | n in net.links && n != name ensures n in links && links[n] == net.links[n] {
      VlanIsNoMaster(net, name, n);
    }
    assert links.Keys == net.links.Keys - {name};
  }
}

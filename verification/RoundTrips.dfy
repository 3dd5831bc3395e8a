/** Adding and then deleting restores the tables. */
module RoundTrips {
  import opened Netlink
  import opened Bridges

  /** The names that AddBridge may make are all free. */
  predicate Free(net: Net, name: string) {
    && name !in net.networks && name !in net.links
    && VethName(name) !in net.links && VethPeerName(name) !in net.links
  }

  /** They are free, and the two ends of the pair have different names. */
  predicate Unused(net: Net, name: string) {
    Free(net, name) && VethName(name) != VethPeerName(name)
  }

  /** The links of a freshly added bridge. */
  function WithBridge(net: Net, req: BridgeRequest): Links
    requires req.internalOnly || req.cidr.ValidCidr?
  {
    var i := net.next;
    var links := net.links[req.name := Link(i, Bridge, 0, [], true)];
    if req.internalOnly then links
    else links[VethPeerName(req.name) := Link(i + 1, Veth(i + 2), 0, [req.cidr.addr], true)]
              [VethName(req.name) := Link(i + 2, Veth(i + 1), i, [], true)]
  }

  lemma BridgeNamesDiffer(name: string)
    ensures name != VethName(name) && name != VethPeerName(name)
  {
    assert |VethName(name)| > |name| && |VethPeerName(name)| > |name|;
  }

  /** A new veth pair is found by name and by index. */
  lemma FreshPair(net: Net, name: string)
    requires Valid(net) && VethName(name) !in net.links && VethPeerName(name) !in net.links
    requires VethName(name) != VethPeerName(name)
    ensures var c := CreateVethPeerIfNotExists(net, name);
            && c == Pair(AddVeth(net, VethName(name), VethPeerName(name)).net, VethPeerName(name))
            && Valid(c.net)
  {
    var o := AddVeth(net, VethName(name), VethPeerName(name));
    AddVethKeepsValid(net, VethName(name), VethPeerName(name));
    assert At(o.net.links, net.next, VethPeerName(name));
  }

  lemma FreshInterface(net: Net, name: string, addr: Address)
    requires Valid(net) && VethName(name) !in net.links && VethPeerName(name) !in net.links
    requires VethName(name) != VethPeerName(name)
    requires name in net.links && net.links[name].kind.Bridge?
    ensures AddTeleskopInterface(net, name, addr) ==
            Outcome(net.(links := net.links[VethPeerName(name) := Link(net.next, Veth(net.next + 1), 0, [addr], true)]
                                           [VethName(name) := Link(net.next + 1, Veth(net.next), net.links[name].index, [], true)],
                         next := net.next + 2), true)
  {
    BridgeNamesDiffer(name);
    FreshPair(net, name);
    var veth, peer := VethName(name), VethPeerName(name);
    var c := CreateVethPeerIfNotExists(net, name);
    var m := SetMaster(c.net, veth, name);
    var a := AddAddress(m.net, peer, addr);
    assert [] + [addr] == [addr];
    assert a.net.links[peer] == Link(net.next, Veth(net.next + 1), 0, [addr], false);
    assert a.net.links[veth] == Link(net.next + 1, Veth(net.next), net.links[name].index, [], false);
    var u := SetUp(SetUp(a.net, veth, true), peer, true);
    assert u.links == net.links[peer := Link(net.next, Veth(net.next + 1), 0, [addr], true)]
                               [veth := Link(net.next + 1, Veth(net.next), net.links[name].index, [], true)];
  }

  /** AddBridge on an unused name succeeds, with the bridge and, unless it is
      internal-only, a veth pair whose ends name each other by index, one a port
      of the bridge and the other with the metadata address. */
  lemma AddBridgeResult(net: Net, req: BridgeRequest)
    requires Valid(net) && Unused(net, req.name)
    requires req.internalOnly || req.cidr.ValidCidr?
    ensures AddBridge(net, req) ==
            Outcome(Net(WithBridge(net, req), net.networks[req.name := true],
                        net.next + if req.internalOnly then 1 else 3), true)
  {
    BridgeNamesDiffer(req.name);
    var o := CreateNetwork(DefineNetwork(net, req.name), req.name);
    assert o == Outcome(Net(net.links[req.name := Link(net.next, Bridge, 0, [], true)],
                            net.networks[req.name := true], net.next + 1), true) by {
      assert net.networks[req.name := false][req.name := true] == net.networks[req.name := true];
    }
    if !req.internalOnly {
      StartKeepsValid(net, req.name);
      FreshInterface(o.net, req.name, req.cidr.addr);
    }
  }

  // ---------- a bridge that was added, whole or in part, and its ports ----------

  /** The old links, some free ones of them now ports of the link with index `i`;
      and nothing else but the links `made`, the ends of a pair. */
  ghost predicate OldLinksAnd(net: Net, links: Links, i: nat, made: set<string>, name: string) {
    && links.Keys == net.links.Keys + made
    && (forall n :: n in net.links ==>
          links[n] == net.links[n] || (net.links[n].master == 0 && links[n] == net.links[n].(master := i)))
    && (made == {} || IsNewPair(net, links, VethName(name), VethPeerName(name), made))
  }

  predicate IsNewPair(net: Net, links: Links, veth: string, peer: string, made: set<string>) {
    && made == {veth, peer} && veth != peer && veth in links && peer in links
    && links[veth].kind == Veth(links[peer].index) && net.next < links[veth].index && net.next < links[peer].index
  }

  /** The same with the bridge itself, which has the next index. */
  ghost predicate BridgeAnd(net: Net, links: Links, made: set<string>, name: string) {
    && name in links && links[name] == Link(net.next, Bridge, 0, [], true)
    && OldLinksAnd(net, links - {name}, net.next, made, name)
  }

  /** Only the two ends differ, and neither in their indices nor in their kinds. */
  ghost predicate Touches(a: Net, b: Net, veth: string, peer: string) {
    && b.links.Keys == a.links.Keys && b.networks == a.networks && b.next == a.next
    && (forall n :: n in a.links && n != veth && n != peer ==> b.links[n] == a.links[n])
    && (forall n :: n in a.links ==> b.links[n].index == a.links[n].index && b.links[n].kind == a.links[n].kind)
  }

  lemma TouchesInSteps(a: Net, b: Net, c: Net, veth: string, peer: string)
    requires Touches(a, b, veth, peer) && Touches(b, c, veth, peer)
    ensures Touches(a, c, veth, peer)
  {
  }

  lemma UpdateTouches(net: Net, name: string, link: Link, veth: string, peer: string)
    requires name in net.links && name in {veth, peer}
    requires link.index == net.links[name].index && link.kind == net.links[name].kind
    ensures Touches(net, net.(links := net.links[name := link]), veth, peer)
  {
  }

  lemma RaisingTouches(net: Net, veth: string, peer: string, no: Refusal)
    requires veth in net.links && peer in net.links
    ensures Touches(net, RaisePair(net, veth, peer, no).net, veth, peer)
  {
    var u := SetUp(net, veth, true);
    UpdateTouches(net, veth, u.links[veth], veth, peer);
    UpdateTouches(u, peer, SetUp(u, peer, true).links[peer], veth, peer);
    TouchesInSteps(net, u, SetUp(u, peer, true), veth, peer);
  }

  /** Connecting a pair touches its two ends only. */
  lemma ConnectTouchesPair(net: Net, bridge: string, veth: string, peer: string, addr: Address, no: Refusal)
    requires bridge in net.links && veth in net.links && peer in net.links
    ensures Touches(net, Connect(net, bridge, veth, peer, addr, no).net, veth, peer)
  {
    var m := Unless(no.LinkSetMaster?, net, SetMaster(net, veth, bridge));
    if m.ok {
      UpdateTouches(net, veth, m.net.links[veth], veth, peer);
      var a := Unless(no.AddrAdd?, m.net, AddAddress(m.net, peer, addr));
      if a.ok {
        UpdateTouches(m.net, peer, a.net.links[peer], veth, peer);
        TouchesInSteps(net, m.net, a.net, veth, peer);
        RaisingTouches(a.net, veth, peer, no);
        TouchesInSteps(net, a.net, RaisePair(a.net, veth, peer, no).net, veth, peer);
      }
    }
  }

  /** The links as they were, and possibly a new pair. */
  ghost predicate LinksAndPair(net: Net, links: Links, made: set<string>, name: string) {
    && links.Keys == net.links.Keys + made
    && (forall n :: n in net.links ==> links[n] == net.links[n])
    && (made == {} || (made == {VethName(name), VethPeerName(name)} && VethName(name) != VethPeerName(name)
          && links[VethName(name)].kind == Veth(links[VethPeerName(name)].index)
          && net.next <= links[VethName(name)].index && net.next <= links[VethPeerName(name)].index))
  }

  lemma NewPairBeside(net: Net, name: string)
    requires VethName(name) !in net.links && VethPeerName(name) !in net.links && VethName(name) != VethPeerName(name)
    ensures var c := AddVeth(net, VethName(name), VethPeerName(name)).net;
            && LinksAndPair(net, c.links, {VethName(name), VethPeerName(name)}, name)
            && c.networks == net.networks && c.next == net.next + 2
  {
  }

  lemma ConnectKeepsPair(net: Net, c: Net, name: string, addr: Address, no: Refusal)
    requires name in net.links && VethName(name) !in net.links && VethPeerName(name) !in net.links
    requires LinksAndPair(net, c.links, {VethName(name), VethPeerName(name)}, name)
    ensures var s := Connect(c, name, VethName(name), VethPeerName(name), addr, no).net;
            LinksAndPair(net, s.links, {VethName(name), VethPeerName(name)}, name) && s.networks == c.networks && s.next == c.next
  {
    ConnectTouchesPair(c, name, VethName(name), VethPeerName(name), addr, no);
  }

  lemma {:induction false} EquippedBridge(net: Net, name: string, addr: Address, no: Refusal) returns (made: set<string>)
    requires Valid(net) && name in net.links && net.links[name].kind.Bridge?
    requires VethName(name) !in net.links && VethPeerName(name) !in net.links
    ensures var s := AddTeleskopInterface(net, name, addr, no).net;
            LinksAndPair(net, s.links, made, name) && s.networks == net.networks && net.next <= s.next
  {
    var veth, peer := VethName(name), VethPeerName(name);
    if no.LinkAdd? || veth == peer {
      made := {};
    } else {
      made := {veth, peer};
      var c := AddVeth(net, veth, peer).net;
      NewPairBeside(net, name);
      assert AddTeleskopInterface(net, name, addr, no) == Connect(c, name, veth, peer, addr, no) by {
        FreshPair(net, name);
      }
      ConnectKeepsPair(net, c, name, addr, no);
    }
  }

  lemma EquipSucceedsIff(net: Net, name: string, addr: Address)
    requires Valid(net) && name in net.links && net.links[name].kind.Bridge?
    requires VethName(name) !in net.links && VethPeerName(name) !in net.links
    ensures AddTeleskopInterface(net, name, addr).ok <==> VethName(name) != VethPeerName(name)
  {
    if VethName(name) != VethPeerName(name) {
      FreshInterface(net, name, addr);
    }
  }

  /** What AddBridge leaves on free names, when both libvirt calls are granted. */
  lemma {:induction false} StartedBridge(net: Net, req: BridgeRequest, no: Refusal) returns (made: set<string>)
    requires Valid(net) && Free(net, req.name) && (req.internalOnly || req.cidr.ValidCidr?)
    requires !no.NetworkDefine? && !no.NetworkCreate?
    ensures var a := AddBridge(net, req, no);
            && BridgeAnd(net, a.net.links, made, req.name)
            && (forall n :: n in net.links ==> a.net.links[n] == net.links[n])
            && a.net.networks == net.networks[req.name := true] && net.next < a.net.next
  {
    BridgeNamesDiffer(req.name);
    var o := CreateNetwork(DefineNetwork(net, req.name), req.name);
    assert net.networks[req.name := false][req.name := true] == net.networks[req.name := true];
    StartKeepsValid(net, req.name);
    made := {};
    if !req.internalOnly {
      made := EquippedBridge(o.net, req.name, req.cidr.addr, no);
    }
  }

  /** When AddBridge succeeds on free names, with a readable address. */
  lemma {:induction false} StartedSucceedsIff(net: Net, req: BridgeRequest)
    requires Valid(net) && Free(net, req.name) && (req.internalOnly || req.cidr.ValidCidr?)
    ensures AddBridge(net, req).ok <==> req.internalOnly || VethName(req.name) != VethPeerName(req.name)
  {
    BridgeNamesDiffer(req.name);
    if !req.internalOnly {
      StartKeepsValid(net, req.name);
      EquipSucceedsIff(CreateNetwork(DefineNetwork(net, req.name), req.name).net, req.name, req.cidr.addr);
    }
  }

  ghost function AttachAll(net: Net, bridge: string, ports: seq<string>): Net
    decreases |ports|
  {
    if ports == [] then net else AttachAll(AddInterfaceToBridge(net, bridge, ports[0]).net, bridge, ports[1..])
  }

  lemma AttachKeepsBridge(net: Net, cur: Net, made: set<string>, name: string, port: string)
    requires Valid(net) && BridgeAnd(net, cur.links, made, name)
    ensures var s := AddInterfaceToBridge(cur, name, port).net;
            BridgeAnd(net, s.links, made, name) && s.networks == cur.networks && s.next == cur.next
  {
    var s := AddInterfaceToBridge(cur, name, port);
    if s.net != cur {
      assert port != name && port in cur.links - {name};
      assert s.net.links - {name} == (cur.links - {name})[port := cur.links[port].(master := net.next)];
    }
  }

  lemma {:induction false} PortsKeepBridge(net: Net, cur: Net, made: set<string>, name: string, ports: seq<string>)
    requires Valid(net) && Valid(cur) && BridgeAnd(net, cur.links, made, name)
    ensures var r := AttachAll(cur, name, ports);
            Valid(r) && BridgeAnd(net, r.links, made, name) && r.networks == cur.networks && r.next == cur.next
    decreases |ports|
  {
    if ports != [] {
      ApplyKeepsValid(cur, OpAddInterface(name, ports[0]));
      AttachKeepsBridge(net, cur, made, name, ports[0]);
      PortsKeepBridge(net, AddInterfaceToBridge(cur, name, ports[0]).net, made, name, ports[1..]);
    }
  }

  lemma {:induction false} NoBridgeNoPorts(net: Net, bridge: string, ports: seq<string>)
    requires bridge !in net.links
    ensures AttachAll(net, bridge, ports) == net
    decreases |ports|
  {
    if ports != [] {
      NoBridgeNoPorts(net, bridge, ports[1..]);
    }
  }

  // ---------- deletion ----------

  /** Stopping the network takes the bridge away and frees its ports. */
  lemma BridgeGone(net: Net, links: Links, made: set<string>, name: string)
    requires Valid(net) && BridgeAnd(net, links, made, name)
    ensures var rest := Released(links - {name}, net.next);
            && rest.Keys == net.links.Keys + made && (forall n :: n in net.links ==> rest[n] == net.links[n])
            && (made == {} || IsNewPair(net, rest, VethName(name), VethPeerName(name), made))
  {
    var rest := Released(links - {name}, net.next);
    forall n | n in net.links ensures n in rest && rest[n] == net.links[n] {
      if net.links[n].master != 0 {
        assert IsBridgeIndex(net.links, net.links[n].master);
      }
    }
  }

  /** Deleting the two ends of a veth pair that no old link refers to. */
  lemma PairGone(net: Net, with: Net, veth: string, peer: string)
    requires Valid(net) && veth !in net.links && peer !in net.links && veth != peer
    requires with.links.Keys == net.links.Keys + {veth, peer}
    requires forall n :: n in net.links ==> with.links[n] == net.links[n]
    requires with.links[veth].kind == Veth(with.links[peer].index)
    requires net.next <= with.links[veth].index && net.next <= with.links[peer].index
    ensures Delete(with, veth).links == net.links
  {
    var links := Delete(with, veth).links;
    assert links.Keys == net.links.Keys;
    forall n | n in net.links ensures links[n] == net.links[n] {
      if net.links[n].master != 0 {
        assert IsBridgeIndex(net.links, net.links[n].master);
      }
    }
  }

  /** What is left of a pair goes; a pair that is missing is made and goes, or cannot be made. */
  lemma {:induction false} TeleskopGone(net: Net, u: Net, name: string, made: set<string>)
    requires Valid(net) && Valid(u) && Free(net, name) && net.next <= u.next
    requires u.links.Keys == net.links.Keys + made && (forall n :: n in net.links ==> u.links[n] == net.links[n])
    requires made == {} || IsNewPair(net, u.links, VethName(name), VethPeerName(name), made)
    ensures var d := DeleteTeleskopInterfaceIfExists(u, name); d.ok && d.net.links == net.links && d.net.networks == u.networks
  {
    var veth, peer := VethName(name), VethPeerName(name);
    if made != {} {
      assert At(u.links, u.links[peer].index, peer);
      PairGone(net, u, veth, peer);
    } else if veth == peer {
      assert u.links == net.links;
    } else {
      FreshPair(u, name);
      PairGone(net, CreateVethPeerIfNotExists(u, name).net, veth, peer);
    }
  }

  lemma {:induction false} StartedBridgeGoes(net: Net, cur: Net, made: set<string>, name: string)
    requires Valid(net) && Valid(cur) && Free(net, name) && net.next <= cur.next
    requires BridgeAnd(net, cur.links, made, name) && cur.networks == net.networks[name := true]
    ensures var d := DeleteBridge(cur, name); d.ok && d.net.links == net.links && d.net.networks == net.networks
  {
    var u := UndefineNetwork(DestroyNetwork(cur, name).net, name);
    assert cur.links - {} - {name} == cur.links - {name};
    assert net.networks[name := true][name := false] - {name} == net.networks;
    assert u == Net(Released(cur.links - {name}, net.next), net.networks, cur.next);
    BridgeGone(net, cur.links, made, name);
    DeleteKeepsValid(cur.(networks := cur.networks[name := false]), name);
    TeleskopGone(net, u, name, made);
  }

  /** Bridge round trip, on free names and with any call of AddBridge refused:
      after adding a bridge and attaching any ports, deleting the bridge restores
      the links and the networks, if and only if the start of the network was not
      refused.  The names of the two veth ends may coincide; then AddBridge fails,
      unless the bridge is internal-only, and the deletion restores the tables all the same. */
  lemma {:induction false} BridgeRoundTrip(net: Net, req: BridgeRequest, ports: seq<string>, no: Refusal)
    requires Valid(net) && Free(net, req.name)
    ensures var a := AddBridge(net, req, no);
            var d := DeleteBridge(AttachAll(a.net, req.name, ports), req.name);
            var readable := req.internalOnly || req.cidr.ValidCidr?;
            && (no.Nothing? ==> (a.ok <==> readable && (req.internalOnly || VethName(req.name) != VethPeerName(req.name))))
            && (d.ok && d.net.links == net.links && d.net.networks == net.networks <==> !(readable && no.NetworkCreate?))
  {
    var a := AddBridge(net, req, no);
    if (!req.internalOnly && req.cidr.InvalidCidr?) || no.NetworkDefine? || no.NetworkCreate? {
      NoBridgeNoPorts(a.net, req.name, ports);
    } else {
      var made := StartedBridge(net, req, no);
      StartedSucceedsIff(net, req);
      AddBridgeKeepsValid(net, req, no);
      PortsKeepBridge(net, a.net, made, req.name, ports);
      StartedBridgeGoes(net, AttachAll(a.net, req.name, ports), made, req.name);
    }
  }

  /** A network that was defined and not started stays: it cannot be deleted, and a
      further AddBridge answers with success. */
  lemma InactiveNetworkStays(net: Net, req: BridgeRequest, no: Refusal)
    requires req.name in net.networks && !net.networks[req.name] && (req.internalOnly || req.cidr.ValidCidr?)
    ensures DeleteBridge(net, req.name, no) == Outcome(net, false) && AddBridge(net, req, no) == Outcome(net, true)
  {
  }

  /** VLAN round trip, on a name that is unused and an id that its parent does not carry. */
  lemma VlanRoundTrip(net: Net, parent: string, id: nat)
    requires Valid(net) && parent in net.links && VlanName(parent, id) !in net.links
    requires !exists n :: n in net.links && net.links[n].kind == Vlan(net.links[parent].index, id)
    ensures var a := AddVLANInterface(net, parent, id);
            var d := DeleteVLANInterface(a.net, parent, id);
            a.ok && a.net.links[VlanName(parent, id)].up && d.ok && d.net.links == net.links && d.net.networks == net.networks
  {
    var name := VlanName(parent, id);
    var a := AddVLANInterface(net, parent, id);
    assert a.net.links == net.links[name := Link(net.next, Vlan(net.links[parent].index, id), 0, [], true)];
    var d := DeleteVLANInterface(a.net, parent, id);
    forall n | n in net.links ensures n in d.net.links && d.net.links[n] == net.links[n] {
      if net.links[n].master != 0 {
        assert IsBridgeIndex(net.links, net.links[n].master);
      }
    }
  }
}

/** Which bridge a VLAN interface ends up in when the list of bridges repeats VLAN ids:
    the name of the interface does not mention the bridge, so the first listed bridge
    with the id makes the interface and takes it, and the step of a later one finds it
    in a bridge and reports success. */
module VlanPorts {
  import opened Netlink
  import opened Bridges
  import opened RoundTrips
  import opened BringUp

  predicate PortOf(net: Net, name: string, bridge: string) {
    && name in net.links && bridge in net.links
    && net.links[bridge].kind.Bridge? && net.links[name].master == net.links[bridge].index
  }

  predicate UsesVlan(b: BridgeEntry, id: nat) { !b.internalOnly && b.vlanId == id }

  /** The first listed bridge with this VLAN id. */
  function FirstWith(bridges: seq<BridgeEntry>, id: nat): BridgeEntry
    requires exists b | b in bridges :: UsesVlan(b, id)
  {
    if UsesVlan(bridges[0], id) then bridges[0] else FirstWith(bridges[1..], id)
  }

  /** No bridge of the list makes a link of this name. */
  predicate NotMade(bridges: seq<BridgeEntry>, name: string) {
    forall b | b in bridges :: name !in {b.name, VethName(b.name), VethPeerName(b.name)}
  }

  // ---------- what an operation leaves alone ----------

  /** Old links keep their index and kind, and all but `veth` their master; only `made` are new. */
  ghost predicate Keeps(net: Net, net': Net, veth: string, made: set<string>) {
    && net'.links.Keys <= net.links.Keys + made
    && forall n :: n in net.links ==>
         && n in net'.links
         && net'.links[n].index == net.links[n].index && net'.links[n].kind == net.links[n].kind
         && (n != veth ==> net'.links[n].master == net.links[n].master)
  }

  lemma KeepsInSteps(a: Net, b: Net, c: Net, veth: string, made: set<string>)
    requires Keeps(a, b, veth, made) && Keeps(b, c, veth, made)
    ensures Keeps(a, c, veth, made)
  {
  }

  lemma UpdateKeeps(net: Net, name: string, link: Link, veth: string)
    requires name in net.links && link.index == net.links[name].index && link.kind == net.links[name].kind
    requires name == veth || link.master == net.links[name].master
    ensures Keeps(net, net.(links := net.links[name := link]), veth, {})
  {
  }

  lemma RaisingKeeps(net: Net, veth: string, peer: string)
    requires veth in net.links && peer in net.links
    ensures Keeps(net, RaisePair(net, veth, peer, Nothing).net, veth, {})
  {
    var u := SetUp(net, veth, true);
    UpdateKeeps(net, veth, u.links[veth], veth);
    UpdateKeeps(u, peer, SetUp(u, peer, true).links[peer], veth);
    KeepsInSteps(net, u, SetUp(u, peer, true), veth, {});
  }

  lemma ConnectKeeps(net: Net, bridge: string, veth: string, peer: string, addr: Address)
    requires bridge in net.links && veth in net.links && peer in net.links
    ensures Keeps(net, Connect(net, bridge, veth, peer, addr, Nothing).net, veth, {})
  {
    var m := SetMaster(net, veth, bridge);
    if m.ok {
      UpdateKeeps(net, veth, m.net.links[veth], veth);
      var a := AddAddress(m.net, peer, addr);
      if a.ok {
        UpdateKeeps(m.net, peer, a.net.links[peer], veth);
        KeepsInSteps(net, m.net, a.net, veth, {});
        RaisingKeeps(a.net, veth, peer);
        KeepsInSteps(net, a.net, RaisePair(a.net, veth, peer, Nothing).net, veth, {});
      }
    }
  }

  lemma {:induction false} AddTeleskopKeeps(net: Net, name: string, addr: Address)
    requires Valid(net)
    ensures Keeps(net, AddTeleskopInterface(net, name, addr).net, VethName(name), {VethName(name), VethPeerName(name)})
  {
    var c := CreateVethPeerIfNotExists(net, name);
    if c.Pair? && name in c.net.links {
      ConnectKeeps(c.net, name, VethName(name), c.peer, addr);
    }
  }

  lemma {:induction false} AddBridgeKeeps(net: Net, req: BridgeRequest)
    requires Valid(net)
    ensures Keeps(net, AddBridge(net, req).net, VethName(req.name), {req.name, VethName(req.name), VethPeerName(req.name)})
  {
    var o := CreateNetwork(DefineNetwork(net, req.name), req.name);
    assert Keeps(net, o.net, VethName(req.name), {req.name});
    if o.ok && !req.internalOnly && req.cidr.ValidCidr? {
      StartKeepsValid(net, req.name);
      AddTeleskopKeeps(o.net, req.name, req.cidr.addr);
    }
  }

  /** An interface in a bridge stays in it, whatever bring-up does next. */
  lemma {:induction false} StepKeepsPort(net: Net, op: Operation, name: string, bridge: string)
    requires Valid(net) && IsAdd(op) && PortOf(net, name, bridge)
    requires op.OpAddBridge? ==> name != VethName(op.req.name)
    ensures PortOf(Apply(net, op).net, name, bridge)
  {
    if op.OpAddBridge? {
      AddBridgeKeeps(net, op.req);
    }
  }

  lemma {:induction false} StepsKeepPort(net: Net, ops: seq<Operation>, name: string, bridge: string)
    requires Valid(net) && AllAdds(ops) && PortOf(net, name, bridge)
    requires forall op :: op in ops && op.OpAddBridge? ==> name != VethName(op.req.name)
    ensures PortOf(RunSteps(net, ops).net, name, bridge)
    decreases |ops|
  {
    if ops != [] {
      StepKeepsPort(net, ops[0], name, bridge);
      ApplyKeepsValid(net, ops[0]);
      if Apply(net, ops[0]).ok {
        StepsKeepPort(Apply(net, ops[0]).net, ops[1..], name, bridge);
      }
    }
  }

  lemma {:induction false} StepsAvoid(bridges: seq<BridgeEntry>, parent: string, name: string)
    requires NotMade(bridges, name)
    ensures forall op :: op in Steps(bridges, parent) && op.OpAddBridge? ==> name != VethName(op.req.name)
  {
    if bridges != [] {
      assert bridges == [bridges[0]] + bridges[1..];
      StepsAvoid(bridges[1..], parent, name);
    }
  }

  // ---------- one bridge of the list ----------

  lemma {:induction false} PlugInMakesPort(net: Net, b: BridgeEntry, parent: string)
    requires VlanName(parent, b.vlanId) !in net.links && RunSteps(net, PlugInSteps(b, parent)).ok
    ensures PortOf(RunSteps(net, PlugInSteps(b, parent)).net, VlanName(parent, b.vlanId), b.name)
  {
    RunPlugIn(net, b, parent);
  }

  lemma {:induction false} PlugInLeavesUnused(net: Net, b: BridgeEntry, parent: string, name: string)
    requires name !in net.links && name != VlanName(parent, b.vlanId)
    ensures name !in RunSteps(net, PlugInSteps(b, parent)).net.links
  {
    RunPlugIn(net, b, parent);
  }

  lemma AddBridgeLeavesUnused(net: Net, req: BridgeRequest, name: string)
    requires Valid(net) && name !in net.links
    requires name !in {req.name, VethName(req.name), VethPeerName(req.name)}
    ensures name !in AddBridge(net, req).net.links
  {
    AddBridgeKeeps(net, req);
  }

  /** The first bridge with an unused VLAN id gets its interface. */
  lemma {:induction false} StepsPlugIn(net: Net, b: BridgeEntry, parent: string)
    requires Valid(net) && !b.internalOnly && RunSteps(net, StepsOf(b, parent)).ok
    requires VlanName(parent, b.vlanId) !in net.links
    requires VlanName(parent, b.vlanId) !in {b.name, VethName(b.name), VethPeerName(b.name)}
    ensures PortOf(RunSteps(net, StepsOf(b, parent)).net, VlanName(parent, b.vlanId), b.name)
  {
    var req := BridgeRequest(b.name, b.cidr, b.internalOnly);
    RunStepsOfBridge(net, b, parent);
    AddBridgeLeavesUnused(net, req, VlanName(parent, b.vlanId));
    PlugInMakesPort(AddBridge(net, req).net, b, parent);
  }

  /** The steps of another bridge leave the name unused. */
  lemma {:induction false} StepsLeaveUnused(net: Net, b: BridgeEntry, parent: string, id: nat)
    requires Valid(net) && !UsesVlan(b, id)
    requires VlanName(parent, id) !in net.links
    requires VlanName(parent, id) !in {b.name, VethName(b.name), VethPeerName(b.name)}
    ensures VlanName(parent, id) !in RunSteps(net, StepsOf(b, parent)).net.links
  {
    var req := BridgeRequest(b.name, b.cidr, b.internalOnly);
    RunStepsOfBridge(net, b, parent);
    AddBridgeLeavesUnused(net, req, VlanName(parent, id));
    if AddBridge(net, req).ok && !b.internalOnly {
      if VlanName(parent, id) == VlanName(parent, b.vlanId) {
        VlanNamesCoincide(parent, id, parent, b.vlanId);
      }
      PlugInLeavesUnused(AddBridge(net, req).net, b, parent, VlanName(parent, id));
    }
  }

  // ---------- the whole list ----------

  /** After a successful setup the interface of an unused VLAN id is a port of the
      first listed bridge with that id. */
  lemma {:induction false} FirstBridgeTakesVlan(net: Net, bridges: seq<BridgeEntry>, parent: string, id: nat)
    requires Valid(net) && RunSteps(net, Steps(bridges, parent)).ok
    requires exists b | b in bridges :: UsesVlan(b, id)
    requires VlanName(parent, id) !in net.links && NotMade(bridges, VlanName(parent, id))
    ensures PortOf(RunSteps(net, Steps(bridges, parent)).net, VlanName(parent, id), FirstWith(bridges, id).name)
    decreases |bridges|
  {
    var b, rest := bridges[0], bridges[1..];
    assert bridges == [b] + rest;
    RunStepsConcat(net, StepsOf(b, parent), Steps(rest, parent));
    var s := RunSteps(net, StepsOf(b, parent)).net;
    StepsAreAdds([b], parent);
    assert Steps([b], parent) == StepsOf(b, parent);
    StepsGrow(net, StepsOf(b, parent));
    if UsesVlan(b, id) {
      StepsPlugIn(net, b, parent);
      StepsAreAdds(rest, parent);
      StepsAvoid(rest, parent, VlanName(parent, id));
      StepsKeepPort(s, Steps(rest, parent), VlanName(parent, id), b.name);
    } else {
      StepsLeaveUnused(net, b, parent, id);
      FirstBridgeTakesVlan(s, rest, parent, id);
    }
  }

  /** Every VLAN interface of the list is still to be made, under a name of its own. */
  predicate VlansAreNew(net: Net, bridges: seq<BridgeEntry>, parent: string) {
    forall b | b in bridges && !b.internalOnly ::
      VlanName(parent, b.vlanId) !in net.links && NotMade(bridges, VlanName(parent, b.vlanId))
  }

  /** Bridges with the same VLAN id are the same bridge. */
  predicate IdsAreOwn(bridges: seq<BridgeEntry>) {
    forall b, c | b in bridges && c in bridges && !b.internalOnly && !c.internalOnly ::
      b.vlanId == c.vlanId ==> b.name == c.name
  }

  ghost predicate AllHaveTheirVlan(net: Net, bridges: seq<BridgeEntry>, parent: string) {
    forall b | b in bridges && !b.internalOnly :: PortOf(net, VlanName(parent, b.vlanId), b.name)
  }

  /** On new VLAN names, a successful setup gives every bridge its VLAN interface
      as a port if and only if no two listed bridges share a VLAN id. */
  lemma {:induction false} SetupGivesVlansIff(net: Net, bridges: seq<BridgeEntry>, parent: string)
    requires Valid(net) && RunSteps(net, Steps(bridges, parent)).ok && VlansAreNew(net, bridges, parent)
    ensures AllHaveTheirVlan(RunSteps(net, Steps(bridges, parent)).net, bridges, parent) <==> IdsAreOwn(bridges)
  {
    var s := RunSteps(net, Steps(bridges, parent)).net;
    StepsAreAdds(bridges, parent);
    StepsGrow(net, Steps(bridges, parent));
    forall b | b in bridges && !b.internalOnly
      ensures FirstWithIs(bridges, b) && PortOf(s, VlanName(parent, b.vlanId), FirstWith(bridges, b.vlanId).name)
    {
      assert UsesVlan(b, b.vlanId);
      FirstWithUses(bridges, b.vlanId);
      FirstBridgeTakesVlan(net, bridges, parent, b.vlanId);
    }
    if AllHaveTheirVlan(s, bridges, parent) {
      forall b, c | b in bridges && c in bridges && !b.internalOnly && !c.internalOnly && b.vlanId == c.vlanId
        ensures b.name == c.name
      {
        assert PortOf(s, VlanName(parent, b.vlanId), b.name) && PortOf(s, VlanName(parent, c.vlanId), c.name);
        assert At(s.links, s.links[b.name].index, b.name) && At(s.links, s.links[b.name].index, c.name);
      }
    }
  }

  ghost predicate FirstWithIs(bridges: seq<BridgeEntry>, b: BridgeEntry) {
    && (exists c | c in bridges :: UsesVlan(c, b.vlanId))
    && FirstWith(bridges, b.vlanId) in bridges && UsesVlan(FirstWith(bridges, b.vlanId), b.vlanId)
  }

  lemma {:induction false} FirstWithUses(bridges: seq<BridgeEntry>, id: nat)
    requires exists b | b in bridges :: UsesVlan(b, id)
    ensures FirstWith(bridges, id) in bridges && UsesVlan(FirstWith(bridges, id), id)
  {
    if !UsesVlan(bridges[0], id) {
      assert bridges == [bridges[0]] + bridges[1..];
      FirstWithUses(bridges[1..], id);
    }
  }
}

/** What bridge.go and vlan.go do to the link and network tables, on values, with one
    changing call of each operation refused or none: `no` names that call.  The tables
    stay valid under all six operations.  `Host.dfy` proves the methods against these
    functions, and `BridgePairs.dfy` says what they mean for the links. */
module Bridges {
  import opened Netlink

  datatype CidrField = InvalidCidr | ValidCidr(addr: Address)

  datatype BridgeRequest = BridgeRequest(name: string, cidr: CidrField, internalOnly: bool)

  datatype VethPair = NoPair(net: Net) | Pair(net: Net, peer: string)

  /** The name `LinkByIndex` finds; indices are unique in a valid table. */
  ghost function NameAt(links: Links, index: nat): (n: string)
    requires exists n :: At(links, index, n)
    ensures At(links, index, n)
  {
    var n :| At(links, index, n); n
  }

  ghost function CreateVethPeerIfNotExists(net: Net, name: string, no: Refusal := Nothing): (r: VethPair)
    ensures r.Pair? ==> VethName(name) in r.net.links && r.peer in r.net.links
  {
    var veth := VethName(name);
    var o := if veth in net.links then Outcome(net, true)
             else Unless(no.LinkAdd?, net, AddVeth(net, veth, VethPeerName(name)));
    if !o.ok || !o.net.links[veth].kind.Veth? then NoPair(o.net)
    else
      var index := o.net.links[veth].kind.peer;
      if exists p :: At(o.net.links, index, p) then Pair(o.net, NameAt(o.net.links, index)) else NoPair(o.net)
  }

  /** One end up, then the other. */
  function RaisePair(net: Net, veth: string, peer: string, no: Refusal): Outcome
    requires veth in net.links && peer in net.links
  {
    if no.FirstLinkSetUp? then Outcome(net, false)
    else if no.SecondLinkSetUp? then Outcome(SetUp(net, veth, true), false)
    else Outcome(SetUp(SetUp(net, veth, true), peer, true), true)
  }

  /** One end into the bridge, the address on the other, both up. */
  function Connect(net: Net, bridge: string, veth: string, peer: string, addr: Address, no: Refusal): Outcome
    requires bridge in net.links && veth in net.links && peer in net.links
  {
    var m := Unless(no.LinkSetMaster?, net, SetMaster(net, veth, bridge));
    if !m.ok then m
    else
      var a := Unless(no.AddrAdd?, m.net, AddAddress(m.net, peer, addr));
      if !a.ok then a else RaisePair(a.net, veth, peer, no)
  }

  ghost function AddTeleskopInterface(net: Net, name: string, addr: Address, no: Refusal := Nothing): Outcome {
    var c := CreateVethPeerIfNotExists(net, name, no);
    if c.NoPair? || name !in c.net.links then Outcome(c.net, false)
    else Connect(c.net, name, VethName(name), c.peer, addr, no)
  }

  /** The IPv4 addresses of a link taken off it. */
  function Flush(net: Net, name: string): Net
    requires name in net.links
  {
    net.(links := net.links[name := net.links[name].(addrs := NotV4(net.links[name].addrs))])
  }

  /** How far the pair is taken down when the given call is refused. */
  function PartlyDown(net: Net, veth: string, peer: string, no: Refusal): Net
    requires veth in net.links && peer in net.links
  {
    if no.FirstLinkSetDown? then net
    else
      var d := SetUp(net, veth, false);
      if no.SecondLinkSetDown? then d
      else if no.AddrList? then SetUp(d, peer, false)
      else if no.LinkSetNoMaster? then Flush(SetUp(d, peer, false), peer)
      else ClearMaster(Flush(SetUp(d, peer, false), peer), veth)
  }

  /** A refusal of any of these calls stops the deletion of a pair. */
  predicate StopsDeletion(no: Refusal) {
    no in {FirstLinkSetDown, SecondLinkSetDown, AddrList, LinkSetNoMaster, LinkDel}
  }

  /** Taking the pair down, flushing its addresses and releasing it touches only
      links that are deleted next, unless a call is refused.  A pair that cannot
      be found or made counts as deleted. */
  ghost function DeleteTeleskopInterfaceIfExists(net: Net, name: string, no: Refusal := Nothing): Outcome {
    var c := CreateVethPeerIfNotExists(net, name, no);
    if c.NoPair? then Outcome(c.net, true)
    else Unless(StopsDeletion(no), PartlyDown(c.net, VethName(name), c.peer, no), Outcome(Delete(c.net, VethName(name)), true))
  }

  ghost function AddBridge(net: Net, req: BridgeRequest, no: Refusal := Nothing): Outcome {
    if !req.internalOnly && req.cidr.InvalidCidr? then Outcome(net, false)
    else if req.name in net.networks then Outcome(net, true)
    else if no.NetworkDefine? then Outcome(net, false)
    else
      var d := DefineNetwork(net, req.name);
      var o := Unless(no.NetworkCreate?, d, CreateNetwork(d, req.name));
      if !o.ok || req.internalOnly then o else AddTeleskopInterface(o.net, req.name, req.cidr.addr, no)
  }

  ghost function DeleteBridge(net: Net, name: string, no: Refusal := Nothing): Outcome {
    if name !in net.networks then Outcome(net, true)
    else
      var o := Unless(no.NetworkDestroy?, net, DestroyNetwork(net, name));
      if !o.ok || no.NetworkUndefine? then Outcome(o.net, false)
      else DeleteTeleskopInterfaceIfExists(UndefineNetwork(o.net, name), name, no)
  }

  function AddInterfaceToBridge(net: Net, bridge: string, intf: string, no: Refusal := Nothing): Outcome {
    if bridge !in net.links || intf !in net.links then Outcome(net, false)
    else if net.links[intf].master != 0 then Outcome(net, true)
    else Unless(no.LinkSetMaster?, net, SetMaster(net, intf, bridge))
  }

  function DeleteInterfaceFromBridge(net: Net, intf: string, no: Refusal := Nothing): Outcome {
    if intf !in net.links then Outcome(net, false)
    else Unless(no.LinkSetNoMaster?, net, Outcome(ClearMaster(net, intf), true))
  }

  function AddVLANInterface(net: Net, parent: string, id: nat, no: Refusal := Nothing): Outcome {
    var name := VlanName(parent, id);
    if name in net.links then Outcome(net, true)
    else if parent !in net.links then Outcome(net, false)
    else
      var o := Unless(no.LinkAdd?, net, AddVlan(net, name, net.links[parent].index, id));
      if !o.ok then o else Unless(no.FirstLinkSetUp?, o.net, Outcome(SetUp(o.net, name, true), true))
  }

  function DeleteVLANInterface(net: Net, parent: string, id: nat, no: Refusal := Nothing): Outcome {
    var name := VlanName(parent, id);
    if name !in net.links || no.FirstLinkSetDown? then Outcome(net, false)
    else
      var d := SetUp(net, name, false);
      Unless(no.LinkDel?, d, Outcome(Delete(d, name), true))
  }

  // ---------- every operation keeps the tables valid ----------

  /** Changing a link in place, without its index and kind, into a bridge or none. */
  lemma UpdateKeepsValid(net: Net, name: string, link: Link)
    requires Valid(net) && name in net.links
    requires link.index == net.links[name].index && link.kind == net.links[name].kind
    requires link.master == 0 || IsBridgeIndex(net.links, link.master)
    ensures Valid(net.(links := net.links[name := link]))
  {
    var links, links' := net.links, net.links[name := link];
    assert forall i, n :: At(links', i, n) <==> At(links, i, n);
    forall i | IsBridgeIndex(links, i) ensures IsBridgeIndex(links', i) {
      var b :| At(links, i, b) && links[b].kind.Bridge?;
      assert At(links', i, b);
    }
    forall n | n in links' && links'[n].kind.Veth? ensures HasPeer(links', n) {
      assert HasPeer(links, n);
      var p :| At(links, links[n].kind.peer, p) && links[p].kind == Veth(links[n].index);
      assert At(links', links'[n].kind.peer, p);
    }
  }

  /** Adding links under new names with new indices. */
  lemma ExtendKeepsValid(net: Net, net': Net)
    requires Valid(net) && net.next <= net'.next
    requires forall n :: n in net.links ==> n in net'.links && net'.links[n] == net.links[n]
    requires forall n :: n in net'.links && n !in net.links ==>
               && net.next <= net'.links[n].index < net'.next
               && net'.links[n].master == 0
               && (net'.links[n].kind.Veth? ==> HasPeer(net'.links, n))
    requires forall m, n :: m in net'.links && n in net'.links && m !in net.links && n !in net.links && m != n ==>
               net'.links[m].index != net'.links[n].index
    ensures Valid(net')
  {
    var links, links' := net.links, net'.links;
    forall i, m, n | At(links', i, m) && At(links', i, n) ensures m == n {
      if m in links && n in links {
        assert At(links, i, m) && At(links, i, n);
      }
    }
    forall n | n in links' && links'[n].master != 0 ensures IsBridgeIndex(links', links'[n].master) {
      assert IsBridgeIndex(links, links[n].master);
      var b :| At(links, links[n].master, b) && links[b].kind.Bridge?;
      assert At(links', links[n].master, b);
    }
    forall n | n in links' && links'[n].kind.Veth? ensures HasPeer(links', n) {
      if n in links {
        assert HasPeer(links, n);
        var p :| At(links, links[n].kind.peer, p) && links[p].kind == Veth(links[n].index);
        assert At(links', links'[n].kind.peer, p);
      }
    }
  }

  lemma DeleteKeepsValid(net: Net, name: string)
    requires Valid(net) && name in net.links
    ensures Valid(Delete(net, name))
  {
    var links, links' := net.links, Delete(net, name).links;
    var link := links[name];
    assert forall n :: n in links' ==> n in links && links'[n].index == links[n].index && links'[n].kind == links[n].kind;
    forall i, m, n | At(links', i, m) && At(links', i, n) ensures m == n {
      assert At(links, i, m) && At(links, i, n);
    }
    forall n | n in links' && links'[n].master != 0 ensures IsBridgeIndex(links', links'[n].master) {
      assert IsBridgeIndex(links, links[n].master);
      var b :| At(links, links[n].master, b) && links[b].kind.Bridge?;
      assert At(links, link.index, name) && At(links, links[b].index, b);
      if link.kind.Veth? {
        assert HasPeer(links, name);
      }
      assert At(links', links'[n].master, b);
    }
    forall n | n in links' && links'[n].kind.Veth? ensures HasPeer(links', n) {
      PeerSurvives(net, name, n);
    }
  }

  lemma PeerSurvives(net: Net, name: string, n: string)
    requires Valid(net) && name in net.links
    requires n in Delete(net, name).links && net.links[n].kind.Veth?
    ensures HasPeer(Delete(net, name).links, n)
  {
    var links, links' := net.links, Delete(net, name).links;
    var link := links[name];
    assert HasPeer(links, n);
    var p :| At(links, links[n].kind.peer, p) && links[p].kind == Veth(links[n].index);
    assert At(links, link.index, name) && At(links, links[n].index, n);
    assert At(links, links[p].index, p);
    if link.kind.Veth? {
      assert HasPeer(links, name);
    }
    assert At(links', links'[n].kind.peer, p);
  }

  lemma AddVethKeepsValid(net: Net, name: string, peer: string)
    requires Valid(net)
    ensures Valid(AddVeth(net, name, peer).net)
  {
    var o := AddVeth(net, name, peer);
    if o.ok {
      var links' := o.net.links;
      assert At(links', net.next, peer) && At(links', net.next + 1, name);
      ExtendKeepsValid(net, o.net);
    }
  }

  lemma SetMasterKeepsValid(net: Net, name: string, bridge: string)
    requires Valid(net) && name in net.links && bridge in net.links
    ensures Valid(SetMaster(net, name, bridge).net)
  {
    var o := SetMaster(net, name, bridge);
    if o.ok {
      assert At(net.links, net.links[bridge].index, bridge);
      UpdateKeepsValid(net, name, o.net.links[name]);
    }
  }

  lemma CreateVethKeepsValid(net: Net, name: string, no: Refusal := Nothing)
    requires Valid(net)
    ensures Valid(CreateVethPeerIfNotExists(net, name, no).net)
  {
    AddVethKeepsValid(net, VethName(name), VethPeerName(name));
  }

  lemma RaisingKeepsValid(net: Net, veth: string, peer: string, no: Refusal)
    requires Valid(net) && veth in net.links && peer in net.links
    ensures Valid(RaisePair(net, veth, peer, no).net)
  {
    SetUpKeepsValid(net, veth, true);
    SetUpKeepsValid(SetUp(net, veth, true), peer, true);
  }

  lemma MasterIsBridge(net: Net, name: string)
    requires Valid(net) && name in net.links
    ensures net.links[name].master == 0 || IsBridgeIndex(net.links, net.links[name].master)
  {
  }

  lemma ConnectKeepsValid(net: Net, bridge: string, veth: string, peer: string, addr: Address, no: Refusal)
    requires Valid(net) && bridge in net.links && veth in net.links && peer in net.links
    ensures Valid(Connect(net, bridge, veth, peer, addr, no).net)
  {
    var m := Unless(no.LinkSetMaster?, net, SetMaster(net, veth, bridge));
    SetMasterKeepsValid(net, veth, bridge);
    if m.ok {
      var a := Unless(no.AddrAdd?, m.net, AddAddress(m.net, peer, addr));
      if a.ok {
        MasterIsBridge(m.net, peer);
        UpdateKeepsValid(m.net, peer, a.net.links[peer]);
        RaisingKeepsValid(a.net, veth, peer, no);
      }
    }
  }

  lemma AddTeleskopKeepsValid(net: Net, name: string, addr: Address, no: Refusal := Nothing)
    requires Valid(net)
    ensures Valid(AddTeleskopInterface(net, name, addr, no).net)
  {
    var c := CreateVethPeerIfNotExists(net, name, no);
    CreateVethKeepsValid(net, name, no);
    if c.Pair? && name in c.net.links {
      ConnectKeepsValid(c.net, name, VethName(name), c.peer, addr, no);
    }
  }

  /** Changing the state, the addresses and the master of the two ends of a pair. */
  lemma PartlyDownKeepsValid(net: Net, veth: string, peer: string, no: Refusal)
    requires Valid(net) && veth in net.links && peer in net.links
    ensures Valid(PartlyDown(net, veth, peer, no))
  {
    var d1 := SetUp(net, veth, false);
    SetUpKeepsValid(net, veth, false);
    var d2 := SetUp(d1, peer, false);
    SetUpKeepsValid(d1, peer, false);
    FlushAndReleaseKeepValid(d2, veth, peer);
  }

  lemma SetUpKeepsValid(net: Net, name: string, up: bool)
    requires Valid(net) && name in net.links
    ensures Valid(SetUp(net, name, up))
  {
    MasterIsBridge(net, name);
    UpdateKeepsValid(net, name, SetUp(net, name, up).links[name]);
  }

  lemma FlushAndReleaseKeepValid(net: Net, veth: string, peer: string)
    requires Valid(net) && veth in net.links && peer in net.links
    ensures Valid(Flush(net, peer)) && Valid(ClearMaster(Flush(net, peer), veth))
  {
    var f := Flush(net, peer);
    MasterIsBridge(net, peer);
    UpdateKeepsValid(net, peer, f.links[peer]);
    UpdateKeepsValid(f, veth, ClearMaster(f, veth).links[veth]);
  }

  lemma {:induction false} DeleteTeleskopKeepsValid(net: Net, name: string, no: Refusal := Nothing)
    requires Valid(net)
    ensures Valid(DeleteTeleskopInterfaceIfExists(net, name, no).net)
  {
    CreateVethKeepsValid(net, name, no);
    var c := CreateVethPeerIfNotExists(net, name, no);
    if c.Pair? {
      if StopsDeletion(no) {
        PartlyDownKeepsValid(c.net, VethName(name), c.peer, no);
      } else {
        DeleteKeepsValid(c.net, VethName(name));
      }
    }
  }

  datatype Operation =
    | OpAddBridge(req: BridgeRequest)
    | OpDeleteBridge(bridge: string)
    | OpAddInterface(bridge: string, intf: string)
    | OpDeleteInterface(intf: string)
    | OpAddVlan(parent: string, id: nat)
    | OpDeleteVlan(parent: string, id: nat)

  ghost function Apply(net: Net, op: Operation, no: Refusal := Nothing): Outcome {
    match op
    case OpAddBridge(req) => AddBridge(net, req, no)
    case OpDeleteBridge(name) => DeleteBridge(net, name, no)
    case OpAddInterface(bridge, intf) => AddInterfaceToBridge(net, bridge, intf, no)
    case OpDeleteInterface(intf) => DeleteInterfaceFromBridge(net, intf, no)
    case OpAddVlan(parent, id) => AddVLANInterface(net, parent, id, no)
    case OpDeleteVlan(parent, id) => DeleteVLANInterface(net, parent, id, no)
  }

  lemma StartKeepsValid(net: Net, name: string)
    requires Valid(net)
    ensures Valid(CreateNetwork(DefineNetwork(net, name), name).net)
  {
    var d := DefineNetwork(net, name);
    var o := CreateNetwork(d, name);
    if o.ok {
      ExtendKeepsValid(d, o.net);
    }
  }

  lemma {:induction false} AddBridgeKeepsValid(net: Net, req: BridgeRequest, no: Refusal := Nothing)
    requires Valid(net)
    ensures Valid(AddBridge(net, req, no).net)
  {
    StartKeepsValid(net, req.name);
    if !req.internalOnly && req.cidr.ValidCidr? {
      AddTeleskopKeepsValid(CreateNetwork(DefineNetwork(net, req.name), req.name).net, req.name, req.cidr.addr, no);
    }
  }

  lemma DestroyKeepsValid(net: Net, name: string)
    requires Valid(net) && name in net.networks
    ensures Valid(DestroyNetwork(net, name).net)
  {
    if net.networks[name] && name in net.links {
      DeleteKeepsValid(net.(networks := net.networks[name := false]), name);
    }
  }

  lemma {:induction false} DeleteBridgeKeepsValid(net: Net, name: string, no: Refusal := Nothing)
    requires Valid(net)
    ensures Valid(DeleteBridge(net, name, no).net)
  {
    if name in net.networks {
      DestroyKeepsValid(net, name);
      DeleteTeleskopKeepsValid(UndefineNetwork(DestroyNetwork(net, name).net, name), name, no);
    }
  }

  lemma {:induction false} VlanKeepsValid(net: Net, parent: string, id: nat, no: Refusal := Nothing)
    requires Valid(net)
    ensures Valid(AddVLANInterface(net, parent, id, no).net) && Valid(DeleteVLANInterface(net, parent, id, no).net)
  {
    var name := VlanName(parent, id);
    if name in net.links {
      var d := SetUp(net, name, false);
      UpdateKeepsValid(net, name, d.links[name]);
      DeleteKeepsValid(d, name);
    } else if parent in net.links {
      var o := AddVlan(net, name, net.links[parent].index, id);
      if o.ok {
        ExtendKeepsValid(net, o.net);
        UpdateKeepsValid(o.net, name, SetUp(o.net, name, true).links[name]);
      }
    }
  }

  /** Every operation, successful or not, and wherever it is refused, keeps the tables valid. */
  lemma {:induction false} ApplyKeepsValid(net: Net, op: Operation, no: Refusal := Nothing)
    requires Valid(net)
    ensures Valid(Apply(net, op, no).net)
  {
    match op
    case OpAddBridge(req) =>
      AddBridgeKeepsValid(net, req, no);
    case OpDeleteBridge(name) =>
      DeleteBridgeKeepsValid(net, name, no);
    case OpAddInterface(bridge, intf) =>
      if bridge in net.links && intf in net.links {
        SetMasterKeepsValid(net, intf, bridge);
      }
    case OpDeleteInterface(intf) =>
      if intf in net.links {
        UpdateKeepsValid(net, intf, ClearMaster(net, intf).links[intf]);
      }
    case OpAddVlan(parent, id) =>
      VlanKeepsValid(net, parent, id, no);
    case OpDeleteVlan(parent, id) =>
      VlanKeepsValid(net, parent, id, no);
  }

  /** The tables after a list of operations, each with the call that is refused in it. */
  ghost function ApplyAll(net: Net, ops: seq<(Operation, Refusal)>): Net
    decreases |ops|
  {
    if ops == [] then net else ApplyAll(Apply(net, ops[0].0, ops[0].1).net, ops[1..])
  }

  /** The invariant over every run, whatever is refused: unique indices, masters
      that are bridges of the table, and veth links in mutual pairs. */
  lemma {:induction false} RunKeepsValid(net: Net, ops: seq<(Operation, Refusal)>)
    requires Valid(net)
    ensures Valid(ApplyAll(net, ops))
    decreases |ops|
  {
    if ops != [] {
      ApplyKeepsValid(net, ops[0].0, ops[0].1);
      RunKeepsValid(Apply(net, ops[0].0, ops[0].1).net, ops[1..]);
    }
  }
}

/** What AddBridge and DeleteBridge do to the veth pair of a bridge. */
module BridgePairs {
  import opened Netlink
  import opened Bridges
  import opened RoundTrips

  // Everything is stated field by field, on every valid table: whether the pair was
  // there or not, and wherever a call is refused.

  // ---------- finding or making the pair ----------

  /** The veth of the bridge is there, or it and its peer can be made. */
  predicate PairAvailable(links: Links, name: string, no: Refusal) {
    var veth, peer := VethName(name), VethPeerName(name);
    if veth in links then links[veth].kind.Veth? else !no.LinkAdd? && peer !in links && veth != peer
  }

  /** The links with the pair: as they were, or with two new ones, both down. */
  function WithPair(net: Net, name: string): Links {
    if VethName(name) in net.links then net.links
    else net.links[VethPeerName(name) := Link(net.next, Veth(net.next + 1), 0, [], false)]
                  [VethName(name) := Link(net.next + 1, Veth(net.next), 0, [], false)]
  }

  /** The two ends name each other by index. */
  predicate PairEnds(links: Links, veth: string, peer: string) {
    && veth != peer && veth in links && peer in links
    && links[veth].kind == Veth(links[peer].index) && links[peer].kind == Veth(links[veth].index)
  }

  /** What finding or making the pair answers, when it can be found or made. */
  ghost predicate IsPairOf(net: Net, name: string, c: VethPair) {
    && c.Pair? && c.net.links == WithPair(net, name) && c.net.networks == net.networks && Valid(c.net)
    && PairEnds(c.net.links, VethName(name), c.peer)
    && (VethName(name) !in net.links ==> c.peer == VethPeerName(name))
  }

  lemma OldPairFound(net: Net, name: string, no: Refusal, c: VethPair)
    requires Valid(net) && VethName(name) in net.links && net.links[VethName(name)].kind.Veth?
    requires c == CreateVethPeerIfNotExists(net, name, no)
    ensures IsPairOf(net, name, c)
  {
    assert HasPeer(net.links, VethName(name));
  }

  lemma NewPairFound(net: Net, name: string, no: Refusal, c: VethPair)
    requires Valid(net) && VethName(name) !in net.links && PairAvailable(net.links, name, no)
    requires c == CreateVethPeerIfNotExists(net, name, no)
    ensures IsPairOf(net, name, c)
  {
    FreshPair(net, name);
    assert c == CreateVethPeerIfNotExists(net, name);
  }

  /** The peer of an old pair is the one that the index names; that of a new one is
      called `dhcp-` and the name of the bridge. */
  lemma {:induction false} PairFound(net: Net, name: string, no: Refusal, c: VethPair)
    requires Valid(net) && c == CreateVethPeerIfNotExists(net, name, no)
    ensures if PairAvailable(net.links, name, no) then IsPairOf(net, name, c) else c == NoPair(net)
  {
    if PairAvailable(net.links, name, no) {
      if VethName(name) in net.links {
        OldPairFound(net, name, no, c);
      } else {
        NewPairFound(net, name, no, c);
      }
    }
  }

  // ---------- connecting it ----------

  /** How many of the four calls that connect a pair go through. */
  function CallsUp(no: Refusal, addressThere: bool): nat {
    if no.LinkSetMaster? then 0
    else if no.AddrAdd? || addressThere then 1
    else if no.FirstLinkSetUp? then 2
    else if no.SecondLinkSetUp? then 3
    else 4
  }

  /** The veth is in the bridge after the first of them, the peer has the address
      after the second, the veth is up after the third and the peer after the fourth;
      nothing else differs. */
  predicate ConnectedUpTo(a: Links, b: Links, bridge: nat, veth: string, peer: string, addr: Address, k: nat)
    requires veth in a && peer in a
  {
    && b.Keys == a.Keys
    && b[veth] == a[veth].(master := if k >= 1 then bridge else a[veth].master, up := k >= 3 || a[veth].up)
    && b[peer] == a[peer].(addrs := if k >= 2 then a[peer].addrs + [addr] else a[peer].addrs, up := k >= 4 || a[peer].up)
    && forall n :: n in a && n != veth && n != peer ==> b[n] == a[n]
  }

  lemma ConnectLeaves(net: Net, bridge: string, veth: string, peer: string, addr: Address, no: Refusal)
    requires bridge in net.links && net.links[bridge].kind.Bridge? && PairEnds(net.links, veth, peer)
    ensures var o, k := Connect(net, bridge, veth, peer, addr, no), CallsUp(no, addr in net.links[peer].addrs);
            && (o.ok <==> k == 4) && o.net.networks == net.networks
            && ConnectedUpTo(net.links, o.net.links, net.links[bridge].index, veth, peer, addr, k)
  {
  }

  /** The outcome of making the pair of a bridge serve it: a missing pair is made
      first; one that cannot be made, or a link that is no bridge, ends it. */
  ghost predicate PairServed(net: Net, name: string, addr: Address, no: Refusal, o: Outcome, peer: string) {
    if !PairAvailable(net.links, name, no) then o == Outcome(net, false)
    else
      var links := WithPair(net, name);
      var isBridge := name in links && links[name].kind.Bridge?;
      && PairEnds(links, VethName(name), peer)
      && (VethName(name) !in net.links ==> peer == VethPeerName(name))
      && var k := if isBridge then CallsUp(no, addr in links[peer].addrs) else 0;
         && (o.ok <==> k == 4) && o.net.networks == net.networks
         && ConnectedUpTo(links, o.net.links, if isBridge then links[name].index else 0, VethName(name), peer, addr, k)
  }

  lemma {:induction false} TeleskopLeaves(net: Net, name: string, addr: Address, no: Refusal, o: Outcome) returns (peer: string)
    requires Valid(net) && o == AddTeleskopInterface(net, name, addr, no)
    ensures PairServed(net, name, addr, no, o, peer)
  {
    var c := CreateVethPeerIfNotExists(net, name, no);
    PairFound(net, name, no, c);
    peer := "";
    if PairAvailable(net.links, name, no) {
      peer := c.peer;
      if name in c.net.links && c.net.links[name].kind.Bridge? {
        ConnectLeaves(c.net, name, VethName(name), peer, addr, no);
      }
    }
  }

  // ---------- AddBridge ----------

  /** The links with the bridge of a started network. */
  function WithNewBridge(net: Net, name: string): Links {
    net.links[name := Link(net.next, Bridge, 0, [], true)]
  }

  /** The tables behind NetworkCreate. */
  function Started(net: Net, name: string): Net {
    Net(WithNewBridge(net, name), net.networks[name := true], net.next + 1)
  }

  /** AddBridge where no pair comes into it: a bad address, a network that is there,
      a network that cannot be defined or started, an internal-only bridge. */
  lemma AddBridgeWithoutPair(net: Net, req: BridgeRequest, no: Refusal)
    ensures var o := AddBridge(net, req, no);
            if !req.internalOnly && req.cidr.InvalidCidr? then o == Outcome(net, false)
            else if req.name in net.networks then o == Outcome(net, true)
            else if no.NetworkDefine? then o == Outcome(net, false)
            else if no.NetworkCreate? || req.name in net.links then
              o == Outcome(net.(networks := net.networks[req.name := false]), false)
            else req.internalOnly ==> o == Outcome(Started(net, req.name), true)
  {
    assert net.networks[req.name := false][req.name := true] == net.networks[req.name := true];
  }

  /** The network is defined and its bridge started, and the pair comes next. */
  predicate NeedsPair(net: Net, req: BridgeRequest, no: Refusal) {
    && req.name !in net.networks && req.name !in net.links
    && !req.internalOnly && req.cidr.ValidCidr? && !no.NetworkDefine? && !no.NetworkCreate?
  }

  /** AddBridge in all other cases: the bridge and the network are there, and the
      pair, if it is there or can be made, is connected as far as the calls go. */
  lemma {:induction false} AddBridgeLeaves(net: Net, req: BridgeRequest, no: Refusal) returns (peer: string)
    requires Valid(net) && NeedsPair(net, req, no)
    ensures var o, s := AddBridge(net, req, no), Started(net, req.name);
            var links := WithPair(s, req.name);
            && o.net.networks == net.networks[req.name := true]
            && if !PairAvailable(net.links, req.name, no) then !o.ok && o.net.links == s.links
               else && PairEnds(links, VethName(req.name), peer) && peer != req.name
                    && (VethName(req.name) !in net.links ==> peer == VethPeerName(req.name))
                    && var k := CallsUp(no, req.cidr.addr in links[peer].addrs);
                       && (o.ok <==> k == 4)
                       && ConnectedUpTo(links, o.net.links, net.next, VethName(req.name), peer, req.cidr.addr, k)
  {
    var s := Started(net, req.name);
    BridgeNamesDiffer(req.name);
    StartIs(net, req, no);
    peer := TeleskopLeaves(s, req.name, req.cidr.addr, no, AddBridge(net, req, no));
  }

  lemma StartIs(net: Net, req: BridgeRequest, no: Refusal)
    requires Valid(net) && NeedsPair(net, req, no)
    ensures Valid(Started(net, req.name))
    ensures AddBridge(net, req, no) == AddTeleskopInterface(Started(net, req.name), req.name, req.cidr.addr, no)
  {
    var o := CreateNetwork(DefineNetwork(net, req.name), req.name);
    assert o == Outcome(Started(net, req.name), true) by {
      assert net.networks[req.name := false][req.name := true] == net.networks[req.name := true];
    }
    assert Valid(o.net) by { StartKeepsValid(net, req.name); }
  }

  /** The DHCP server answers on interfaces whose names start so. */
  predicate DhcpServed(name: string) { |name| >= 4 && name[..4] == "dhcp" }

  /** The bridge is new and up; the veth is in it; the veth and its peer are up; and
      the peer has the addresses that it had, and the one asked for. */
  ghost predicate Equipped(net: Net, links: Links, name: string, addr: Address, peer: string) {
    var veth := VethName(name);
    && name !in net.links && name in links && links[name] == Link(net.next, Bridge, 0, [], true)
    && PairEnds(links, veth, peer) && links.Keys == net.links.Keys + {name, veth, peer}
    && links[veth].master == net.next && links[veth].up && links[peer].up
    && (if veth in net.links
        then && peer in net.links
             && links[veth] == net.links[veth].(master := net.next, up := true)
             && links[peer] == net.links[peer].(addrs := net.links[peer].addrs + [addr], up := true)
        else && peer !in net.links && DhcpServed(peer)
             && links[veth].addrs == [] && links[peer].addrs == [addr] && links[peer].master == 0)
    && forall n :: n in net.links && n != veth && n != peer ==> n in links && links[n] == net.links[n]
  }

  lemma OldPairEquips(net: Net, name: string, addr: Address, links: Links, peer: string)
    requires Valid(net) && name !in net.links && VethName(name) in net.links && name != VethName(name)
    requires PairEnds(WithNewBridge(net, name), VethName(name), peer) && peer != name
    requires ConnectedUpTo(WithNewBridge(net, name), links, net.next, VethName(name), peer, addr, 4)
    ensures Equipped(net, links, name, addr, peer)
  {
  }

  lemma NewPairEquips(net: Net, name: string, addr: Address, links: Links)
    requires name !in net.links && VethName(name) !in net.links && VethPeerName(name) !in net.links
    requires PairEnds(WithPair(Started(net, name), name), VethName(name), VethPeerName(name))
    requires ConnectedUpTo(WithPair(Started(net, name), name), links, net.next, VethName(name), VethPeerName(name), addr, 4)
    ensures Equipped(net, links, name, addr, VethPeerName(name))
  {
    BridgeNamesDiffer(name);
    assert VethPeerName(name)[..4] == "dhcp-"[..4] == "dhcp";
    assert [] + [addr] == [addr];
  }

  /** On every valid table: whenever AddBridge reports that a bridge with a pair was
      added, the pair serves it, whether the pair is new or was there, down or in
      another bridge; and no other old link has changed. */
  lemma {:induction false} AddBridgeEquips(net: Net, req: BridgeRequest, no: Refusal) returns (peer: string)
    requires Valid(net) && AddBridge(net, req, no).ok && req.name !in net.networks && !req.internalOnly
    ensures req.cidr.ValidCidr?
    ensures var s := AddBridge(net, req, no).net;
            s.networks == net.networks[req.name := true] && Equipped(net, s.links, req.name, req.cidr.addr, peer)
  {
    AddBridgeWithoutPair(net, req, no);
    BridgeNamesDiffer(req.name);
    peer := AddBridgeLeaves(net, req, no);
    var o := AddBridge(net, req, no);
    if VethName(req.name) in net.links {
      OldPairEquips(net, req.name, req.cidr.addr, o.net.links, peer);
    } else {
      NewPairEquips(net, req.name, req.cidr.addr, o.net.links);
    }
  }

  // ---------- DeleteBridge ----------

  /** How many of the five calls that delete a pair go through. */
  function CallsDown(no: Refusal): nat {
    if no.FirstLinkSetDown? then 0
    else if no.SecondLinkSetDown? then 1
    else if no.AddrList? then 2
    else if no.LinkSetNoMaster? then 3
    else if no.LinkDel? then 4
    else 5
  }

  /** The veth is down after the first of them and the peer after the second, the
      peer's IPv4 addresses are off after the third, the veth is in no bridge after
      the fourth, and both are gone after the fifth; nothing else differs. */
  predicate TakenDownUpTo(a: Links, b: Links, veth: string, peer: string, k: nat)
    requires veth in a && peer in a
  {
    && b.Keys == a.Keys - (if k >= 5 then {veth, peer} else {})
    && (k < 5 ==>
          && b[veth] == a[veth].(up := k < 1 && a[veth].up, master := if k >= 4 then 0 else a[veth].master)
          && b[peer] == a[peer].(up := k < 2 && a[peer].up, addrs := if k >= 3 then NotV4(a[peer].addrs) else a[peer].addrs))
    && forall n :: n in a && n != veth && n != peer ==> b[n] == a[n]
  }

  lemma TakingDownLeaves(net: Net, veth: string, peer: string, no: Refusal)
    requires PairEnds(net.links, veth, peer) && StopsDeletion(no)
    ensures var d := PartlyDown(net, veth, peer, no);
            CallsDown(no) < 5 && d.networks == net.networks && TakenDownUpTo(net.links, d.links, veth, peer, CallsDown(no))
  {
  }

  /** The outcome of deleting a pair: a missing one is made first, and one that is
      not there and cannot be made counts as deleted. */
  ghost predicate PairDeleted(net: Net, name: string, no: Refusal, o: Outcome, peer: string) {
    if !PairAvailable(net.links, name, no) then o == Outcome(net, true)
    else
      && PairEnds(WithPair(net, name), VethName(name), peer)
      && (VethName(name) !in net.links ==> peer == VethPeerName(name))
      && (o.ok <==> CallsDown(no) == 5) && o.net.networks == net.networks
      && TakenDownUpTo(WithPair(net, name), o.net.links, VethName(name), peer, CallsDown(no))
  }

  lemma {:induction false} DeletePairLeaves(net: Net, name: string, no: Refusal, o: Outcome) returns (peer: string)
    requires Valid(net) && o == DeleteTeleskopInterfaceIfExists(net, name, no)
    ensures PairDeleted(net, name, no, o, peer)
  {
    var c := CreateVethPeerIfNotExists(net, name, no);
    PairFound(net, name, no, c);
    peer := "";
    if PairAvailable(net.links, name, no) {
      peer := c.peer;
      if StopsDeletion(no) {
        TakingDownLeaves(c.net, VethName(name), peer, no);
      } else {
        OnlyPairGoes(c.net, VethName(name), peer);
      }
    }
  }

  /** No link of a valid table has a veth as its master. */
  lemma OnlyPairGoes(net: Net, veth: string, peer: string)
    requires Valid(net) && PairEnds(net.links, veth, peer)
    ensures TakenDownUpTo(net.links, Delete(net, veth).links, veth, peer, 5)
  {
    var links := Delete(net, veth).links;
    forall n | n in net.links && n != veth && n != peer ensures n in links && links[n] == net.links[n] {
      assert At(net.links, net.links[peer].index, n) <==> n == peer by {
        assert At(net.links, net.links[peer].index, peer);
      }
      if net.links[n].master != 0 {
        assert IsBridgeIndex(net.links, net.links[n].master);
        assert At(net.links, net.links[veth].index, veth);
      }
    }
  }

  /** A link without its place in the bridge of that index. */
  function Freed(link: Link, bridge: nat): Link {
    if link.master == bridge then link.(master := 0) else link
  }

  /** The links behind NetworkDestroy: the link of the network is gone, with its
      peer if it is an end of a pair, and the ports of a bridge are free. */
  predicate Stopped(a: Links, b: Links, name: string) {
    if name !in a then b == a
    else
      && b.Keys == (set n | n in a && n != name && a[name].kind != Veth(a[n].index))
      && forall n :: n in b ==> b[n] == Freed(a[n], a[name].index)
  }

  lemma StopLeaves(net: Net, name: string)
    requires Valid(net) && name in net.networks && net.networks[name]
    ensures var o := DestroyNetwork(net, name);
            o.ok && Valid(o.net) && o.net.networks == net.networks[name := false] && Stopped(net.links, o.net.links, name)
  {
    DestroyKeepsValid(net, name);
  }

  /** DeleteBridge of a started network: its bridge goes, then the network, then the
      pair, as far as the calls go. */
  lemma {:induction false} DeleteBridgeLeaves(net: Net, name: string, no: Refusal, o: Outcome)
    returns (stopped: Links, peer: string)
    requires Valid(net) && name in net.networks && net.networks[name] && !no.NetworkDestroy?
    requires o == DeleteBridge(net, name, no)
    ensures Stopped(net.links, stopped, name)
    ensures if no.NetworkUndefine? then o == Outcome(Net(stopped, net.networks[name := false], net.next), false)
            else PairDeleted(Net(stopped, net.networks - {name}, net.next), name, no, o, peer)
  {
    var s := DestroyNetwork(net, name).net;
    StopLeaves(net, name);
    stopped, peer := s.links, "";
    assert s == Net(stopped, net.networks[name := false], net.next);
    if !no.NetworkUndefine? {
      assert net.networks[name := false] - {name} == net.networks - {name};
      assert UndefineNetwork(s, name) == Net(stopped, net.networks - {name}, net.next);
      peer := DeletePairLeaves(UndefineNetwork(s, name), name, no, o);
    }
  }

  /** ... and of a network that is missing, not started, or cannot be stopped. */
  lemma DeleteBridgeWithoutStop(net: Net, name: string, no: Refusal)
    requires name !in net.networks || !net.networks[name] || no.NetworkDestroy?
    ensures DeleteBridge(net, name, no) == Outcome(net, name !in net.networks)
  {
  }

  /** DeleteBridge answers with success only when the network is gone. */
  lemma {:induction false} DeletedNetworkIsGone(net: Net, name: string, no: Refusal)
    requires Valid(net) && DeleteBridge(net, name, no).ok
    ensures DeleteBridge(net, name, no).net.networks == net.networks - {name}
  {
    if name in net.networks {
      var _, _ := DeleteBridgeLeaves(net, name, no, DeleteBridge(net, name, no));
    }
  }
}

/** Which bridges have their veth pair after bring-up, when the list repeats names: the
    entry that comes first defines the network, with or without a pair, and AddBridge
    answers a later entry of that name with success without looking at the pair. */
module VethPairs {
  import opened Netlink
  import opened Bridges
  import opened RoundTrips
  import opened BringUp

  /** The names of the links that belong to a bridge. */
  function Ends(name: string): set<string> { {name, VethName(name), VethPeerName(name)} }

  function FirstNamed(bridges: seq<BridgeEntry>, name: string): BridgeEntry
    requires exists b | b in bridges :: b.name == name
  {
    if bridges[0].name == name then bridges[0] else FirstNamed(bridges[1..], name)
  }

  /** The two ends name each other, one is a port of the bridge, and both are up. */
  predicate HasPair(net: Net, name: string) {
    var veth, peer := VethName(name), VethPeerName(name);
    && name in net.links && veth in net.links && peer in net.links
    && net.links[name].kind.Bridge? && net.links[veth].master == net.links[name].index
    && net.links[veth].kind == Veth(net.links[peer].index) && net.links[peer].kind == Veth(net.links[veth].index)
    && net.links[veth].up && net.links[peer].up
  }

  /** Bridges of different names share no link name, and no VLAN interface has such a name. */
  predicate AllApart(bridges: seq<BridgeEntry>, parent: string) {
    && (forall b, c | b in bridges && c in bridges :: b.name == c.name || Ends(b.name) !! Ends(c.name))
    && (forall b, c | b in bridges && c in bridges :: b.internalOnly || VlanName(parent, b.vlanId) !in Ends(c.name))
  }

  // ---------- what the steps of another bridge leave alone ----------

  predicate Same(a: Net, b: Net, name: string) {
    && (name in a.networks <==> name in b.networks)
    && forall n | n in Ends(name) :: (n in a.links <==> n in b.links) && (n in a.links ==> b.links[n] == a.links[n])
  }

  predicate MadeOrFree(net: Net, name: string) { name in net.networks || Free(net, name) }

  lemma {:induction false} OtherBridge(net: Net, req: BridgeRequest, name: string)
    requires Valid(net) && MadeOrFree(net, req.name)
    requires req.name in net.networks || Ends(req.name) !! Ends(name)
    ensures Same(net, AddBridge(net, req).net, name)
  {
    if req.name !in net.networks && (req.internalOnly || req.cidr.ValidCidr?) {
      var made := StartedBridge(net, req, Nothing);
      assert req.name in Ends(req.name) && VethName(req.name) in Ends(req.name) && VethPeerName(req.name) in Ends(req.name);
      assert name in Ends(name);
    }
  }

  lemma {:induction false} PlugInKeeps(net: Net, b: BridgeEntry, parent: string, name: string)
    requires VlanName(parent, b.vlanId) !in Ends(name)
    ensures Same(net, RunSteps(net, PlugInSteps(b, parent)).net, name)
  {
    RunPlugIn(net, b, parent);
  }

  lemma SameInSteps(a: Net, b: Net, c: Net, name: string)
    requires Same(a, b, name) && Same(b, c, name)
    ensures Same(a, c, name)
  {
  }

  lemma {:induction false} StepsKeep(net: Net, b: BridgeEntry, parent: string, name: string)
    requires Valid(net) && MadeOrFree(net, b.name)
    requires b.name in net.networks || Ends(b.name) !! Ends(name)
    requires b.internalOnly || VlanName(parent, b.vlanId) !in Ends(name)
    ensures Same(net, RunSteps(net, StepsOf(b, parent)).net, name)
  {
    var req := BridgeRequest(b.name, b.cidr, b.internalOnly);
    var s := AddBridge(net, req).net;
    RunStepsOfBridge(net, b, parent);
    OtherBridge(net, req, name);
    if !b.internalOnly {
      PlugInKeeps(s, b, parent, name);
      SameInSteps(net, s, RunSteps(s, PlugInSteps(b, parent)).net, name);
    }
  }

  // ---------- one bridge after the other ----------

  ghost predicate Ready(net: Net, bridges: seq<BridgeEntry>, parent: string) {
    Valid(net) && AllApart(bridges, parent) && forall b :: b in bridges ==> MadeOrFree(net, b.name)
  }

  lemma {:induction false} BridgeIsMade(net: Net, b: BridgeEntry, parent: string)
    requires Valid(net) && RunSteps(net, StepsOf(b, parent)).ok
    ensures Valid(RunSteps(net, StepsOf(b, parent)).net) && b.name in RunSteps(net, StepsOf(b, parent)).net.networks
  {
    assert AllAdds(StepsOf(b, parent));
    StepsGrow(net, StepsOf(b, parent));
    PrefixStaysDone(net, StepsOf(b, parent));
    assert StepsOf(b, parent)[0] in StepsOf(b, parent);
    assert Done(RunSteps(net, StepsOf(b, parent)).net, StepsOf(b, parent)[0]);
  }

  /** The steps of the first bridge leave the rest of the list ready. */
  lemma {:induction false} RestIsReady(net: Net, bridges: seq<BridgeEntry>, parent: string)
    requires bridges != [] && Ready(net, bridges, parent) && RunSteps(net, StepsOf(bridges[0], parent)).ok
    ensures Ready(RunSteps(net, StepsOf(bridges[0], parent)).net, bridges[1..], parent)
  {
    var b := bridges[0];
    assert bridges == [b] + bridges[1..];
    BridgeIsMade(net, b, parent);
    forall c | c in bridges[1..] ensures MadeOrFree(RunSteps(net, StepsOf(b, parent)).net, c.name) {
      assert c in bridges && b in bridges;
      if c.name != b.name {
        StepsKeep(net, b, parent, c.name);
        assert c.name in Ends(c.name) && VethName(c.name) in Ends(c.name) && VethPeerName(c.name) in Ends(c.name);
      }
    }
  }

  lemma FirstOfList(bridges: seq<BridgeEntry>, parent: string)
    requires bridges != []
    ensures Steps(bridges, parent) == StepsOf(bridges[0], parent) + Steps(bridges[1..], parent)
    ensures forall b :: b in bridges <==> b == bridges[0] || b in bridges[1..]
  {
    assert bridges == [bridges[0]] + bridges[1..];
  }

  /** Once a bridge is made its links stay as they are. */
  lemma {:induction false} ListKeeps(net: Net, bridges: seq<BridgeEntry>, parent: string, name: string)
    requires Ready(net, bridges, parent) && RunSteps(net, Steps(bridges, parent)).ok && name in net.networks
    requires forall b :: b in bridges ==> b.name == name || Ends(b.name) !! Ends(name)
    requires forall b :: b in bridges ==> b.internalOnly || VlanName(parent, b.vlanId) !in Ends(name)
    ensures Same(net, RunSteps(net, Steps(bridges, parent)).net, name)
    decreases |bridges|
  {
    if bridges != [] {
      var b, rest := bridges[0], bridges[1..];
      FirstOfList(bridges, parent);
      RunStepsConcat(net, StepsOf(b, parent), Steps(rest, parent));
      StepsKeep(net, b, parent, name);
      RestIsReady(net, bridges, parent);
      var s := RunSteps(net, StepsOf(b, parent)).net;
      ListKeeps(s, rest, parent, name);
      SameInSteps(net, s, RunSteps(s, Steps(rest, parent)).net, name);
    }
  }

  /** The pair, with the address on its far end; or no pair. */
  predicate PairAsListed(net: Net, b: BridgeEntry) {
    if b.internalOnly then VethName(b.name) !in net.links
    else HasPair(net, b.name) && b.cidr.ValidCidr? && net.links[VethPeerName(b.name)].addrs == [b.cidr.addr]
  }

  lemma {:induction false} AddedAsListed(net: Net, b: BridgeEntry)
    requires Valid(net) && Free(net, b.name) && AddBridge(net, BridgeRequest(b.name, b.cidr, b.internalOnly)).ok
    ensures PairAsListed(AddBridge(net, BridgeRequest(b.name, b.cidr, b.internalOnly)).net, b)
  {
    var req := BridgeRequest(b.name, b.cidr, b.internalOnly);
    BridgeNamesDiffer(b.name);
    var made := StartedBridge(net, req, Nothing);
    if !b.internalOnly {
      StartedSucceedsIff(net, req);
      AddBridgeResult(net, req);
    }
  }

  lemma SamePair(a: Net, b: Net, e: BridgeEntry)
    requires Same(a, b, e.name) && PairAsListed(a, e)
    ensures PairAsListed(b, e)
  {
    assert e.name in Ends(e.name) && VethName(e.name) in Ends(e.name) && VethPeerName(e.name) in Ends(e.name);
  }

  lemma {:induction false} StepsMakePair(net: Net, b: BridgeEntry, parent: string)
    requires Valid(net) && Free(net, b.name) && RunSteps(net, StepsOf(b, parent)).ok
    requires b.internalOnly || VlanName(parent, b.vlanId) !in Ends(b.name)
    ensures PairAsListed(RunSteps(net, StepsOf(b, parent)).net, b)
  {
    var s := AddBridge(net, BridgeRequest(b.name, b.cidr, b.internalOnly)).net;
    RunStepsOfBridge(net, b, parent);
    AddedAsListed(net, b);
    if !b.internalOnly {
      PlugInKeeps(s, b, parent, b.name);
      SamePair(s, RunSteps(s, PlugInSteps(b, parent)).net, b);
    }
  }

  /** On free names the first entry of a name decides: after a successful setup the
      pair is there, with the address of that entry, or it is not there at all. */
  lemma {:induction false} FirstEntryDecides(net: Net, bridges: seq<BridgeEntry>, parent: string, name: string)
    requires Ready(net, bridges, parent) && RunSteps(net, Steps(bridges, parent)).ok
    requires (exists b | b in bridges :: b.name == name) && Free(net, name)
    ensures PairAsListed(RunSteps(net, Steps(bridges, parent)).net, FirstNamed(bridges, name))
    decreases |bridges|
  {
    var b, rest := bridges[0], bridges[1..];
    FirstOfList(bridges, parent);
    RunStepsConcat(net, StepsOf(b, parent), Steps(rest, parent));
    RestIsReady(net, bridges, parent);
    var s := RunSteps(net, StepsOf(b, parent)).net;
    if b.name == name {
      StepsMakePair(net, b, parent);
      BridgeIsMade(net, b, parent);
      ListKeeps(s, rest, parent, name);
      SamePair(s, RunSteps(s, Steps(rest, parent)).net, b);
    } else {
      StepsKeep(net, b, parent, name);
      assert name in Ends(name) && VethName(name) in Ends(name) && VethPeerName(name) in Ends(name);
      FirstEntryDecides(s, rest, parent, name);
    }
  }

  /** Every bridge that needs a pair has it. */
  predicate AllHavePairs(net: Net, bridges: seq<BridgeEntry>) {
    forall b | b in bridges && !b.internalOnly :: HasPair(net, b.name)
  }

  /** No entry of the name of a bridge that needs a pair comes first and is internal-only. */
  predicate NoneComesInternal(bridges: seq<BridgeEntry>) {
    forall b | b in bridges && !b.internalOnly :: !FirstNamed(bridges, b.name).internalOnly
  }

  /** On free names, a successful setup gives every bridge that is not internal-only
      its pair, if and only if the first entry of its name is not internal-only either. */
  lemma {:induction false} SetupGivesPairsIff(net: Net, bridges: seq<BridgeEntry>, parent: string)
    requires Valid(net) && AllApart(bridges, parent) && forall b :: b in bridges ==> Free(net, b.name)
    requires RunSteps(net, Steps(bridges, parent)).ok
    ensures AllHavePairs(RunSteps(net, Steps(bridges, parent)).net, bridges) <==> NoneComesInternal(bridges)
  {
    var s := RunSteps(net, Steps(bridges, parent)).net;
    forall b | b in bridges ensures PairAsListed(s, FirstNamed(bridges, b.name)) && FirstNamed(bridges, b.name).name == b.name {
      FirstEntryDecides(net, bridges, parent, b.name);
      FirstHasName(bridges, b.name);
    }
  }

  lemma {:induction false} FirstHasName(bridges: seq<BridgeEntry>, name: string)
    requires exists b | b in bridges :: b.name == name
    ensures FirstNamed(bridges, name).name == name
  {
    if bridges[0].name != name {
      assert bridges == [bridges[0]] + bridges[1..];
      FirstHasName(bridges[1..], name);
    }
  }
}

/** The bring-up loop of setup.go: what a restart finds, and what it does. */
module BringUp {
  import opened Netlink
  import opened Bridges
  import opened RoundTrips

  /** A bridge as the datastore lists it. */
  datatype BridgeEntry = BridgeEntry(name: string, vlanId: nat, cidr: CidrField, internalOnly: bool)

  function StepsOf(b: BridgeEntry, parent: string): seq<Operation> {
    var add := OpAddBridge(BridgeRequest(b.name, b.cidr, b.internalOnly));
    if b.internalOnly then [add]
    else [add, OpAddVlan(parent, b.vlanId), OpAddInterface(b.name, VlanName(parent, b.vlanId))]
  }

  function Steps(bridges: seq<BridgeEntry>, parent: string): seq<Operation> {
    if bridges == [] then [] else StepsOf(bridges[0], parent) + Steps(bridges[1..], parent)
  }

  function FirstOf(no: seq<Refusal>): Refusal { if no == [] then Nothing else no[0] }

  function Skip(no: seq<Refusal>, n: nat): (rest: seq<Refusal>)
    ensures no == [] ==> rest == []
    ensures n == 0 ==> rest == no
  {
    if n <= |no| then no[n..] else []
  }

  /** Operation after operation, up to the first error; the k-th of `no` is the
      call that the environment refuses in the k-th operation. */
  ghost function RunSteps(net: Net, ops: seq<Operation>, no: seq<Refusal> := []): Outcome
    decreases |ops|
  {
    if ops == [] then Outcome(net, true)
    else
      var o := Apply(net, ops[0], FirstOf(no));
      if o.ok then RunSteps(o.net, ops[1..], Skip(no, 1)) else o
  }

  lemma SkipSkip(no: seq<Refusal>, m: nat, n: nat)
    ensures Skip(Skip(no, m), n) == Skip(no, m + n)
  {
  }

  lemma {:induction false} RunStepsConcat(net: Net, a: seq<Operation>, b: seq<Operation>, no: seq<Refusal> := [])
    ensures var o := RunSteps(net, a, no);
            RunSteps(net, a + b, no) == if o.ok then RunSteps(o.net, b, Skip(no, |a|)) else o
    decreases |a|
  {
    if a == [] {
      assert a + b == b;
    } else {
      assert (a + b)[0] == a[0] && (a + b)[1..] == a[1..] + b;
      if Apply(net, a[0], FirstOf(no)).ok {
        RunStepsConcat(Apply(net, a[0], FirstOf(no)).net, a[1..], b, Skip(no, 1));
        SkipSkip(no, 1, |a| - 1);
      }
    }
  }

  lemma RunStepsCons(net: Net, op: Operation, rest: seq<Operation>, no: seq<Refusal> := [])
    ensures var o := Apply(net, op, FirstOf(no));
            RunSteps(net, [op] + rest, no) == if o.ok then RunSteps(o.net, rest, Skip(no, 1)) else o
  {
    assert ([op] + rest)[0] == op && ([op] + rest)[1..] == rest;
  }

  function PlugInSteps(b: BridgeEntry, parent: string): seq<Operation> {
    [OpAddVlan(parent, b.vlanId), OpAddInterface(b.name, VlanName(parent, b.vlanId))]
  }

  /** The one step of an internal-only bridge, or the three of another one. */
  lemma RunStepsOfBridge(net: Net, b: BridgeEntry, parent: string, no: seq<Refusal> := [])
    ensures var add := AddBridge(net, BridgeRequest(b.name, b.cidr, b.internalOnly), FirstOf(no));
            RunSteps(net, StepsOf(b, parent), no) ==
            if !add.ok || b.internalOnly then add else RunSteps(add.net, PlugInSteps(b, parent), Skip(no, 1))
  {
    var op := StepsOf(b, parent)[0];
    if b.internalOnly {
      assert StepsOf(b, parent) == [op] + [];
      RunStepsCons(net, op, [], no);
    } else {
      assert StepsOf(b, parent) == [op] + PlugInSteps(b, parent);
      RunStepsCons(net, op, PlugInSteps(b, parent), no);
    }
  }

  lemma RunPlugIn(net: Net, b: BridgeEntry, parent: string, no: seq<Refusal> := [])
    ensures var vlan := AddVLANInterface(net, parent, b.vlanId, FirstOf(no));
            RunSteps(net, PlugInSteps(b, parent), no) ==
            if !vlan.ok then vlan
            else AddInterfaceToBridge(vlan.net, b.name, VlanName(parent, b.vlanId), FirstOf(Skip(no, 1)))
  {
    var ops := PlugInSteps(b, parent);
    var vlan := AddVLANInterface(net, parent, b.vlanId, FirstOf(no));
    assert ops == [ops[0]] + [ops[1]] && [ops[1]] == [ops[1]] + [];
    RunStepsCons(net, ops[0], [ops[1]], no);
    RunStepsCons(vlan.net, ops[1], [], Skip(no, 1));
  }

  // ---------- done steps ----------

  predicate IsAdd(op: Operation) { op.OpAddBridge? || op.OpAddVlan? || op.OpAddInterface? }

  predicate AllAdds(ops: seq<Operation>) { forall op | op in ops :: IsAdd(op) }

  /** The step finds its work done. */
  predicate Done(net: Net, op: Operation)
    requires IsAdd(op)
  {
    match op
    case OpAddBridge(req) => (req.internalOnly || req.cidr.ValidCidr?) && req.name in net.networks
    case OpAddVlan(parent, id) => VlanName(parent, id) in net.links
    case OpAddInterface(bridge, intf) => bridge in net.links && intf in net.links && net.links[intf].master != 0
  }

  ghost predicate Grows(net: Net, net': Net) {
    && net.networks.Keys <= net'.networks.Keys
    && forall n :: n in net.links ==> n in net'.links && (net.links[n].master != 0 ==> net'.links[n].master != 0)
  }

  lemma GrowsInSteps(a: Net, b: Net, c: Net)
    requires Grows(a, b) && Grows(b, c)
    ensures Grows(a, c)
  {
  }

  lemma UpdateGrows(net: Net, name: string, link: Link)
    requires name in net.links && (net.links[name].master != 0 ==> link.master != 0)
    ensures Grows(net, net.(links := net.links[name := link]))
  {
  }

  lemma RaisingGrows(net: Net, veth: string, peer: string, no: Refusal)
    requires veth in net.links && peer in net.links
    ensures Grows(net, RaisePair(net, veth, peer, no).net)
  {
    var u := SetUp(net, veth, true);
    UpdateGrows(net, veth, u.links[veth]);
    UpdateGrows(u, peer, SetUp(u, peer, true).links[peer]);
  }

  lemma ConnectGrows(net: Net, bridge: string, veth: string, peer: string, addr: Address, no: Refusal)
    requires Valid(net) && bridge in net.links && veth in net.links && peer in net.links
    ensures Grows(net, Connect(net, bridge, veth, peer, addr, no).net)
  {
    var m := Unless(no.LinkSetMaster?, net, SetMaster(net, veth, bridge));
    if m.ok {
      UpdateGrows(net, veth, m.net.links[veth]);
      var a := Unless(no.AddrAdd?, m.net, AddAddress(m.net, peer, addr));
      if a.ok {
        UpdateGrows(m.net, peer, a.net.links[peer]);
        RaisingGrows(a.net, veth, peer, no);
        GrowsInSteps(net, m.net, a.net);
        GrowsInSteps(net, a.net, RaisePair(a.net, veth, peer, no).net);
      }
    }
  }

  lemma AddTeleskopGrows(net: Net, name: string, addr: Address, no: Refusal := Nothing)
    requires Valid(net)
    ensures Grows(net, AddTeleskopInterface(net, name, addr, no).net)
  {
    var c := CreateVethPeerIfNotExists(net, name, no);
    CreateVethKeepsValid(net, name, no);
    assert Grows(net, c.net);
    if c.Pair? && name in c.net.links {
      ConnectGrows(c.net, name, VethName(name), c.peer, addr, no);
      GrowsInSteps(net, c.net, Connect(c.net, name, VethName(name), c.peer, addr, no).net);
    }
  }

  lemma {:induction false} AddBridgeGrows(net: Net, req: BridgeRequest, no: Refusal := Nothing)
    requires Valid(net)
    ensures Grows(net, AddBridge(net, req, no).net)
    ensures (req.internalOnly || req.cidr.ValidCidr?) && !no.NetworkDefine? ==> req.name in AddBridge(net, req, no).net.networks
  {
    var d := DefineNetwork(net, req.name);
    var o := Unless(no.NetworkCreate?, d, CreateNetwork(d, req.name));
    StartKeepsValid(net, req.name);
    assert Grows(net, o.net) && req.name in o.net.networks;
    if o.ok && !req.internalOnly && req.cidr.ValidCidr? {
      var s := AddTeleskopInterface(o.net, req.name, req.cidr.addr, no).net;
      AddTeleskopGrows(o.net, req.name, req.cidr.addr, no);
      GrowsInSteps(net, o.net, s);
    }
  }

  /** Nothing that a bring-up step needs is ever taken away by another one. */
  lemma {:induction false} AddsGrow(net: Net, op: Operation)
    requires Valid(net) && IsAdd(op)
    ensures Grows(net, Apply(net, op).net)
  {
    if op.OpAddBridge? {
      AddBridgeGrows(net, op.req);
    }
  }

  lemma SuccessIsDone(net: Net, op: Operation)
    requires Valid(net) && IsAdd(op) && Apply(net, op).ok
    ensures Done(Apply(net, op).net, op)
  {
    if op.OpAddBridge? {
      AddBridgeGrows(net, op.req);
    }
  }

  lemma DoneStaysDone(net: Net, net': Net, op: Operation)
    requires IsAdd(op) && Done(net, op) && Grows(net, net')
    ensures Done(net', op)
  {
  }

  lemma {:induction false} StepsGrow(net: Net, ops: seq<Operation>)
    requires Valid(net) && AllAdds(ops)
    ensures Valid(RunSteps(net, ops).net) && Grows(net, RunSteps(net, ops).net)
    decreases |ops|
  {
    if ops != [] {
      var o := Apply(net, ops[0]);
      ApplyKeepsValid(net, ops[0]);
      AddsGrow(net, ops[0]);
      if o.ok {
        StepsGrow(o.net, ops[1..]);
        GrowsInSteps(net, o.net, RunSteps(o.net, ops[1..]).net);
      }
    }
  }

  lemma {:induction false} PrefixStaysDone(net: Net, ops: seq<Operation>)
    requires Valid(net) && AllAdds(ops) && RunSteps(net, ops).ok
    ensures forall op :: op in ops ==> Done(RunSteps(net, ops).net, op)
    decreases |ops|
  {
    if ops != [] {
      var o := Apply(net, ops[0]);
      ApplyKeepsValid(net, ops[0]);
      SuccessIsDone(net, ops[0]);
      StepsGrow(o.net, ops[1..]);
      PrefixStaysDone(o.net, ops[1..]);
      DoneStaysDone(o.net, RunSteps(o.net, ops[1..]).net, ops[0]);
      assert ops == [ops[0]] + ops[1..];
    }
  }

  lemma DoneIsSkipped(net: Net, op: Operation)
    requires IsAdd(op) && Done(net, op)
    ensures Apply(net, op) == Outcome(net, true)
  {
  }

  lemma {:induction false} DoneStepsAreSkipped(net: Net, ops: seq<Operation>)
    requires AllAdds(ops) && forall op :: op in ops ==> Done(net, op)
    ensures RunSteps(net, ops) == Outcome(net, true)
    decreases |ops|
  {
    if ops != [] {
      assert ops[0] in ops && Apply(net, ops[0]) == Outcome(net, true);
      DoneStepsAreSkipped(net, ops[1..]);
    }
  }

  // ---------- restarts ----------

  /** A run up to boundary `j` after one up to boundary `k` has the effect of the longer one. */
  lemma PrefixAfterPrefix(net: Net, ops: seq<Operation>, k: nat, j: nat)
    requires Valid(net) && AllAdds(ops) && k <= |ops| && j <= |ops|
    requires RunSteps(net, ops[..k]).ok
    ensures RunSteps(RunSteps(net, ops[..k]).net, ops[..j]) ==
            if j <= k then RunSteps(net, ops[..k]) else RunSteps(net, ops[..j])
  {
    var s := RunSteps(net, ops[..k]).net;
    PrefixStaysDone(net, ops[..k]);
    if j <= k {
      assert forall op :: op in ops[..j] ==> op in ops[..k];
      DoneStepsAreSkipped(s, ops[..j]);
    } else {
      var rest := ops[k..j];
      assert ops[..j] == ops[..k] + rest;
      DoneStepsAreSkipped(s, ops[..k]);
      RunStepsConcat(s, ops[..k], rest);
      RunStepsConcat(net, ops[..k], rest);
    }
  }

  /** Each stop is a step boundary that an uninterrupted run reaches without an error. */
  ghost predicate Reached(net: Net, ops: seq<Operation>, stops: seq<nat>) {
    forall i :: 0 <= i < |stops| ==> stops[i] <= |ops| && RunSteps(net, ops[..stops[i]]).ok
  }

  /** The tables after bring-up runs that were cut off at the given boundaries. */
  ghost function AfterCrashes(net: Net, ops: seq<Operation>, stops: seq<nat>): Net
    requires forall i :: 0 <= i < |stops| ==> stops[i] <= |ops|
    decreases |stops|
  {
    if stops == [] then net else AfterCrashes(RunSteps(net, ops[..stops[0]]).net, ops, stops[1..])
  }

  lemma {:induction false} CrashesLeaveAPrefix(net: Net, ops: seq<Operation>, k: nat, stops: seq<nat>) returns (j: nat)
    requires Valid(net) && AllAdds(ops) && k <= |ops|
    requires Reached(net, ops, stops) && RunSteps(net, ops[..k]).ok
    ensures j <= |ops| && RunSteps(net, ops[..j]).ok
    ensures AfterCrashes(RunSteps(net, ops[..k]).net, ops, stops) == RunSteps(net, ops[..j]).net
    decreases |stops|
  {
    if stops == [] {
      j := k;
    } else {
      var stop := stops[0];
      PrefixAfterPrefix(net, ops, k, stop);
      j := CrashesLeaveAPrefix(net, ops, if stop <= k then k else stop, stops[1..]);
    }
  }

  /** Restart convergence: however often bring-up is cut off, at whatever step
      boundaries it had reached without an error, running it in full has the
      very outcome of one uninterrupted run: the same answer, links, indices
      and networks.  The bridge list may repeat names and VLAN ids. */
  lemma RestartConverges(net: Net, bridges: seq<BridgeEntry>, parent: string, stops: seq<nat>)
    requires Valid(net)
    requires Reached(net, Steps(bridges, parent), stops)
    ensures var ops := Steps(bridges, parent);
            RunSteps(AfterCrashes(net, ops, stops), ops) == RunSteps(net, ops)
  {
    var ops := Steps(bridges, parent);
    StepsAreAdds(bridges, parent);
    assert ops[..0] == [] && ops[..|ops|] == ops;
    var j := CrashesLeaveAPrefix(net, ops, 0, stops);
    PrefixAfterPrefix(net, ops, j, |ops|);
    if j == |ops| {
      assert ops[..j] == ops;
    }
  }

  // ---------- runs that the environment cuts off ----------

  /** The first changing call that an operation makes. */
  function FirstCall(op: Operation): Refusal {
    match op
    case OpAddBridge(_) => NetworkDefine
    case OpAddVlan(_, _) => LinkAdd
    case OpAddInterface(_, _) => LinkSetMaster
    case OpDeleteBridge(_) => NetworkDestroy
    case OpDeleteInterface(_) => LinkSetNoMaster
    case OpDeleteVlan(_, _) => FirstLinkSetDown
  }

  /** An operation whose first changing call is refused changes nothing; when it
      succeeds all the same, it would not have made that call. */
  lemma FirstRefusalIsABoundary(net: Net, op: Operation)
    ensures Apply(net, op, FirstCall(op)).net == net
    ensures Apply(net, op, FirstCall(op)).ok ==> Apply(net, op) == Outcome(net, true)
  {
  }

  /** The environment refuses nothing but first changing calls. */
  predicate FirstCallsOnly(ops: seq<Operation>, no: seq<Refusal>) {
    forall i | 0 <= i < |ops| && i < |no| :: no[i] == Nothing || no[i] == FirstCall(ops[i])
  }

  lemma PrefixSucceeds(net: Net, ops: seq<Operation>, k: nat)
    requires k <= |ops| && RunSteps(net, ops).ok
    ensures RunSteps(net, ops[..k]).ok
    ensures k < |ops| ==> Apply(RunSteps(net, ops[..k]).net, ops[k]) == RunSteps(net, ops[..k + 1])
  {
    assert ops == ops[..k] + ops[k..];
    RunStepsConcat(net, ops[..k], ops[k..]);
    if k < |ops| {
      assert ops == ops[..k + 1] + ops[k + 1..];
      RunStepsConcat(net, ops[..k + 1], ops[k + 1..]);
      assert ops[..k + 1] == ops[..k] + [ops[k]];
      RunStepsConcat(net, ops[..k], [ops[k]]);
      assert [ops[k]] == [ops[k]] + [];
      RunStepsCons(RunSteps(net, ops[..k]).net, ops[k], []);
    }
  }

  lemma DoneBefore(net: Net, ops: seq<Operation>, m: nat, i: nat)
    requires Valid(net) && AllAdds(ops) && RunSteps(net, ops).ok && i < m <= |ops|
    ensures var s := RunSteps(net, ops[..m]).net; Apply(s, ops[i]) == Outcome(s, true)
  {
    PrefixSucceeds(net, ops, m);
    PrefixStaysDone(net, ops[..m]);
    assert ops[i] == ops[..m][i] && ops[i] in ops[..m];
    DoneIsSkipped(RunSteps(net, ops[..m]).net, ops[i]);
  }

  /** One step of a run that meets the tables of boundary `m`. */
  lemma {:induction false} StepFromBoundary(net: Net, ops: seq<Operation>, m: nat, i: nat, no: Refusal) returns (j: nat)
    requires Valid(net) && AllAdds(ops) && RunSteps(net, ops).ok && i <= m <= |ops| && i < |ops|
    requires no == Nothing || no == FirstCall(ops[i])
    ensures m <= j <= |ops|
    ensures var o := Apply(RunSteps(net, ops[..m]).net, ops[i], no);
            o.net == RunSteps(net, ops[..j]).net && (o.ok ==> i < j)
  {
    var s := RunSteps(net, ops[..m]).net;
    FirstRefusalIsABoundary(s, ops[i]);
    j := m;
    if i < m {
      DoneBefore(net, ops, m, i);
    } else {
      PrefixSucceeds(net, ops, m);
      PrefixSucceeds(net, ops, m + 1);
      if Apply(s, ops[i], no).ok {
        j := m + 1;
      }
    }
  }

  lemma {:induction false} RefusedRunEndsAtBoundary(net: Net, ops: seq<Operation>, m: nat, i: nat, no: seq<Refusal>)
    returns (j: nat)
    requires Valid(net) && AllAdds(ops) && RunSteps(net, ops).ok && i <= m <= |ops|
    requires FirstCallsOnly(ops[i..], no)
    ensures j <= |ops| && RunSteps(RunSteps(net, ops[..m]).net, ops[i..], no).net == RunSteps(net, ops[..j]).net
    decreases |ops| - i
  {
    j := m;
    if i < |ops| {
      assert ops[i..][0] == ops[i] && ops[i..][1..] == ops[i + 1..];
      assert FirstOf(no) == Nothing || FirstOf(no) == FirstCall(ops[i]);
      j := StepFromBoundary(net, ops, m, i, FirstOf(no));
      if Apply(RunSteps(net, ops[..m]).net, ops[i], FirstOf(no)).ok {
        RestIsFirstCalls(ops, i, no);
        j := RefusedRunEndsAtBoundary(net, ops, j, i + 1, Skip(no, 1));
      }
    }
  }

  lemma RestIsFirstCalls(ops: seq<Operation>, i: nat, no: seq<Refusal>)
    requires i < |ops| && FirstCallsOnly(ops[i..], no)
    ensures FirstCallsOnly(ops[i + 1..], Skip(no, 1))
  {
    forall k | 0 <= k < |ops[i + 1..]| && k < |Skip(no, 1)|
      ensures Skip(no, 1)[k] == Nothing || Skip(no, 1)[k] == FirstCall(ops[i + 1..][k])
    {
      assert Skip(no, 1)[k] == no[k + 1] && ops[i + 1..][k] == ops[i..][k + 1];
    }
  }

  /** The tables after runs of the steps, each with its refusals. */
  ghost function AfterRuns(net: Net, ops: seq<Operation>, runs: seq<seq<Refusal>>): Net
    decreases |runs|
  {
    if runs == [] then net else AfterRuns(RunSteps(net, ops, runs[0]).net, ops, runs[1..])
  }

  lemma {:induction false} RunsEndAtBoundary(net: Net, ops: seq<Operation>, m: nat, runs: seq<seq<Refusal>>) returns (j: nat)
    requires Valid(net) && AllAdds(ops) && RunSteps(net, ops).ok && m <= |ops|
    requires forall r :: r in runs ==> FirstCallsOnly(ops, r)
    ensures j <= |ops| && AfterRuns(RunSteps(net, ops[..m]).net, ops, runs) == RunSteps(net, ops[..j]).net
    decreases |runs|
  {
    j := m;
    if runs != [] {
      assert ops[0..] == ops && runs[0] in runs;
      j := RefusedRunEndsAtBoundary(net, ops, m, 0, runs[0]);
      j := RunsEndAtBoundary(net, ops, j, runs[1..]);
    }
  }

  /** Convergence under refusals: if a bring-up without refusals succeeds, then
      after any number of runs in which the environment refused first changing
      calls of steps, however many and wherever, one run without refusals has
      the very outcome it would have had at once. */
  lemma {:induction false} RefusedRunsConverge(net: Net, bridges: seq<BridgeEntry>, parent: string, runs: seq<seq<Refusal>>)
    requires Valid(net) && RunSteps(net, Steps(bridges, parent)).ok
    requires forall r :: r in runs ==> FirstCallsOnly(Steps(bridges, parent), r)
    ensures var ops := Steps(bridges, parent); RunSteps(AfterRuns(net, ops, runs), ops) == RunSteps(net, ops)
  {
    var ops := Steps(bridges, parent);
    StepsAreAdds(bridges, parent);
    assert ops[..0] == [] && ops[..|ops|] == ops;
    var j := RunsEndAtBoundary(net, ops, 0, runs);
    PrefixSucceeds(net, ops, j);
    PrefixAfterPrefix(net, ops, j, |ops|);
    if j == |ops| {
      assert ops[..j] == ops;
    }
  }

  /** Setting up twice is setting up once. */
  lemma {:induction false} SetupTwice(net: Net, bridges: seq<BridgeEntry>, parent: string)
    requires Valid(net) && RunSteps(net, Steps(bridges, parent)).ok
    ensures var once := RunSteps(net, Steps(bridges, parent));
            RunSteps(once.net, Steps(bridges, parent)) == once
  {
    StepsAreAdds(bridges, parent);
    PrefixStaysDone(net, Steps(bridges, parent));
    DoneStepsAreSkipped(RunSteps(net, Steps(bridges, parent)).net, Steps(bridges, parent));
  }

  /** What a successful setup has achieved for a bridge of the list. */
  predicate Provided(net: Net, b: BridgeEntry, parent: string) {
    && b.name in net.networks
    && (!b.internalOnly ==>
          var vlan := VlanName(parent, b.vlanId);
          b.name in net.links && vlan in net.links && net.links[vlan].master != 0)
  }

  /** After a successful setup every listed bridge is provided for, whatever the
      steps of the later bridges did. */
  lemma SetupProvides(net: Net, bridges: seq<BridgeEntry>, parent: string, b: BridgeEntry)
    requires Valid(net) && RunSteps(net, Steps(bridges, parent)).ok
    requires b in bridges
    ensures Provided(RunSteps(net, Steps(bridges, parent)).net, b, parent)
  {
    var s := RunSteps(net, Steps(bridges, parent)).net;
    StepsAreAdds(bridges, parent);
    PrefixStaysDone(net, Steps(bridges, parent));
    StepsOfAreSteps(bridges, parent, b);
    assert StepsOf(b, parent)[0] in StepsOf(b, parent);
    assert Done(s, StepsOf(b, parent)[0]);
    if !b.internalOnly {
      assert StepsOf(b, parent)[2] in StepsOf(b, parent);
      assert Done(s, StepsOf(b, parent)[2]);
    }
  }

  lemma {:induction false} StepsOfAreSteps(bridges: seq<BridgeEntry>, parent: string, b: BridgeEntry)
    requires b in bridges
    ensures forall op :: op in StepsOf(b, parent) ==> op in Steps(bridges, parent)
  {
    if b != bridges[0] {
      StepsOfAreSteps(bridges[1..], parent, b);
    }
  }

  /** On unused names, and with the parent link there, the steps of a bridge
      succeed, and leave the VLAN interface up and a port of the new bridge. */
  lemma FreshBridgeIsProvided(net: Net, b: BridgeEntry, parent: string)
    requires Valid(net) && Unused(net, b.name) && b.cidr.ValidCidr? && !b.internalOnly
    requires parent in net.links && VlanName(parent, b.vlanId) !in net.links
    requires VlanName(parent, b.vlanId) !in {b.name, VethName(b.name), VethPeerName(b.name)}
    requires !exists n :: n in net.links && net.links[n].kind == Vlan(net.links[parent].index, b.vlanId)
    ensures var made := AddBridge(net, BridgeRequest(b.name, b.cidr, false));
            var o := RunSteps(net, StepsOf(b, parent));
            && made.ok && o.ok
            && parent in made.net.links && b.name in made.net.links
            && o.net.links == made.net.links[VlanName(parent, b.vlanId) :=
                 Link(made.net.next, Vlan(made.net.links[parent].index, b.vlanId), made.net.links[b.name].index, [], true)]
  {
    var req := BridgeRequest(b.name, b.cidr, false);
    AddBridgeResult(net, req);
    RoomForVlan(net, req, parent, b.vlanId);
    RunFreshSteps(net, AddBridge(net, req).net, b, parent);
  }

  lemma RunFreshSteps(net: Net, s: Net, b: BridgeEntry, parent: string)
    requires AddBridge(net, BridgeRequest(b.name, b.cidr, b.internalOnly)) == Outcome(s, true) && !b.internalOnly
    requires b.name in s.links && s.links[b.name].kind.Bridge?
    requires parent in s.links && VlanName(parent, b.vlanId) !in s.links
    requires !exists n :: n in s.links && s.links[n].kind == Vlan(s.links[parent].index, b.vlanId)
    ensures var o := RunSteps(net, StepsOf(b, parent));
            && o.ok
            && o.net.links == s.links[VlanName(parent, b.vlanId) :=
                 Link(s.next, Vlan(s.links[parent].index, b.vlanId), s.links[b.name].index, [], true)]
  {
    FreshVlanIsPluggedIn(s, b.name, parent, b.vlanId);
    RunStepsOfBridge(net, b, parent);
    RunPlugIn(s, b, parent);
  }

  lemma RoomForVlan(net: Net, req: BridgeRequest, parent: string, id: nat)
    requires Unused(net, req.name) && req.cidr.ValidCidr? && !req.internalOnly
    requires parent in net.links && VlanName(parent, id) !in net.links
    requires VlanName(parent, id) !in {req.name, VethName(req.name), VethPeerName(req.name)}
    requires !exists n :: n in net.links && net.links[n].kind == Vlan(net.links[parent].index, id)
    ensures var links := WithBridge(net, req);
            && req.name in links && links[req.name] == Link(net.next, Bridge, 0, [], true)
            && parent in links && links[parent] == net.links[parent] && VlanName(parent, id) !in links
            && !exists n :: n in links && links[n].kind == Vlan(net.links[parent].index, id)
  {
    BridgeNamesDiffer(req.name);
  }

  lemma FreshVlanIsPluggedIn(net: Net, bridge: string, parent: string, id: nat)
    requires bridge in net.links && net.links[bridge].kind.Bridge?
    requires parent in net.links && VlanName(parent, id) !in net.links
    requires !exists n :: n in net.links && net.links[n].kind == Vlan(net.links[parent].index, id)
    ensures var a := AddVLANInterface(net, parent, id);
            var p := AddInterfaceToBridge(a.net, bridge, VlanName(parent, id));
            && a.ok && p.ok
            && p.net.links == net.links[VlanName(parent, id) :=
                 Link(net.next, Vlan(net.links[parent].index, id), net.links[bridge].index, [], true)]
  {
    var a := AddVLANInterface(net, parent, id);
    assert a.net.links == net.links[VlanName(parent, id) := Link(net.next, Vlan(net.links[parent].index, id), 0, [], true)];
  }

  lemma {:induction false} StepsAreAdds(bridges: seq<BridgeEntry>, parent: string)
    ensures AllAdds(Steps(bridges, parent))
  {
    if bridges != [] {
      StepsAreAdds(bridges[1..], parent);
    }
  }

  // ---------- retries ----------

  /** What a retry does after an AddBridge that failed, for whatever reason: unless
      the definition of the network was refused, it answers with success, and
      repairs nothing, unless the address was unreadable. */
  lemma FailedAddBridgeIsMasked(net: Net, req: BridgeRequest, no: Refusal)
    requires Valid(net) && !AddBridge(net, req, no).ok
    ensures var s := AddBridge(net, req, no).net;
            if no.NetworkDefine? then s == net
            else AddBridge(s, req).net == s && (AddBridge(s, req).ok <==> req.internalOnly || req.cidr.ValidCidr?)
  {
    AddBridgeGrows(net, req, no);
  }

  /** A pair that is not connected to the end is not raised to the end. */
  lemma {:induction false} UnconnectedPeerStaysDown(net: Net, bridge: string, veth: string, peer: string, addr: Address, no: Refusal)
    requires bridge in net.links && veth in net.links && peer in net.links && veth != peer
    requires !Connect(net, bridge, veth, peer, addr, no).ok && !net.links[peer].up
    ensures var s := Connect(net, bridge, veth, peer, addr, no).net; peer in s.links && !s.links[peer].up
  {
  }

  /** Refused anywhere but in the definition of the network, AddBridge on unused
      names leaves a network without its bridge, or a peer that is missing or down. */
  lemma {:induction false} RefusedAddBridgeIsIncomplete(net: Net, req: BridgeRequest, no: Refusal)
    requires Valid(net) && Unused(net, req.name) && AddBridge(net, req).ok && !AddBridge(net, req, no).ok
    requires !no.NetworkDefine?
    ensures var s := AddBridge(net, req, no).net;
            || (req.name in s.networks && !s.networks[req.name])
            || (!req.internalOnly && (VethPeerName(req.name) in s.links ==> !s.links[VethPeerName(req.name)].up))
  {
    BridgeNamesDiffer(req.name);
    var o := CreateNetwork(DefineNetwork(net, req.name), req.name);
    if !no.NetworkCreate? && !req.internalOnly && !no.LinkAdd? {
      StartKeepsValid(net, req.name);
      FreshPair(o.net, req.name);
      var veth, peer := VethName(req.name), VethPeerName(req.name);
      var c := AddVeth(o.net, veth, peer).net;
      assert AddBridge(net, req, no) == Connect(c, req.name, veth, peer, req.cidr.addr, no);
      UnconnectedPeerStaysDown(c, req.name, veth, peer, req.cidr.addr, no);
    }
  }

  /** A refused deletion of a pair leaves it, while an unrefused one does not. */
  lemma {:induction false} RefusedDeletionKeepsPair(net: Net, name: string, no: Refusal)
    requires !DeleteTeleskopInterfaceIfExists(net, name, no).ok
    ensures var s := DeleteTeleskopInterfaceIfExists(net, name, no).net; VethName(name) in s.links && s.networks == net.networks
    ensures VethName(name) !in DeleteTeleskopInterfaceIfExists(net, name).net.links
  {
  }

  /** A deletion of a bridge that was refused behind the stop of its network is
      not repaired: the network stays for good, or the pair does. */
  lemma {:induction false} RefusedDeleteBridgeStays(net: Net, name: string, no: Refusal)
    requires DeleteBridge(net, name).ok && !DeleteBridge(net, name, no).ok && !no.NetworkDestroy?
    ensures var s := DeleteBridge(net, name, no).net;
            if no.NetworkUndefine? then !DeleteBridge(s, name).ok
            else DeleteBridge(s, name) == Outcome(s, true) && VethName(name) in s.links
    ensures !no.NetworkUndefine? ==> VethName(name) !in DeleteBridge(net, name).net.links
  {
    if !no.NetworkUndefine? {
      RefusedDeletionKeepsPair(UndefineNetwork(DestroyNetwork(net, name).net, name), name, no);
    }
  }

  lemma {:induction false} RetriedAddBridgeDiffers(net: Net, req: BridgeRequest, no: Refusal)
    requires Valid(net) && Unused(net, req.name) && !no.NetworkDefine?
    requires AddBridge(net, req).ok && !AddBridge(net, req, no).ok
    ensures AddBridge(AddBridge(net, req, no).net, req) != AddBridge(net, req)
  {
    BridgeNamesDiffer(req.name);
    AddBridgeResult(net, req);
    FailedAddBridgeIsMasked(net, req, no);
    RefusedAddBridgeIsIncomplete(net, req, no);
  }

  lemma {:induction false} RetriedDeleteBridgeDiffers(net: Net, name: string, no: Refusal)
    requires !no.NetworkDestroy? && DeleteBridge(net, name).ok && !DeleteBridge(net, name, no).ok
    ensures DeleteBridge(DeleteBridge(net, name, no).net, name) != DeleteBridge(net, name)
  {
    RefusedDeleteBridgeStays(net, name, no);
  }

  lemma RetriedPort(net: Net, op: Operation, no: Refusal)
    requires op.OpAddInterface? || op.OpDeleteInterface?
    requires Apply(net, op).ok && !Apply(net, op, no).ok
    ensures Apply(Apply(net, op, no).net, op) == Apply(net, op) && no == FirstCall(op)
  {
  }

  lemma RetriedAddVlan(net: Net, parent: string, id: nat, no: Refusal)
    requires AddVLANInterface(net, parent, id).ok && !AddVLANInterface(net, parent, id, no).ok
    ensures AddVLANInterface(AddVLANInterface(net, parent, id, no).net, parent, id) == AddVLANInterface(net, parent, id) <==> no == LinkAdd
  {
  }

  lemma RetriedDeleteVlan(net: Net, parent: string, id: nat, no: Refusal)
    requires !DeleteVLANInterface(net, parent, id, no).ok
    ensures DeleteVLANInterface(DeleteVLANInterface(net, parent, id, no).net, parent, id) == DeleteVLANInterface(net, parent, id)
  {
    var name := VlanName(parent, id);
    if name in net.links {
      assert SetUp(SetUp(net, name, false), name, false) == SetUp(net, name, false);
    }
  }

  /** A retry repairs a refused operation, on unused names if it adds a bridge, if
      and only if the first changing call was the one refused, or it deletes a VLAN. */
  lemma {:induction false} RetryRepairsIff(net: Net, op: Operation, no: Refusal)
    requires Valid(net) && (op.OpAddBridge? ==> Unused(net, op.req.name))
    requires Apply(net, op).ok && !Apply(net, op, no).ok
    ensures Apply(Apply(net, op, no).net, op) == Apply(net, op) <==> no == FirstCall(op) || op.OpDeleteVlan?
  {
    if no == FirstCall(op) {
      FirstRefusalIsABoundary(net, op);
    } else if op.OpAddBridge? {
      RetriedAddBridgeDiffers(net, op.req, no);
    } else if op.OpDeleteBridge? {
      RetriedDeleteBridgeDiffers(net, op.bridge, no);
    } else if op.OpAddVlan? {
      RetriedAddVlan(net, op.parent, op.id, no);
    } else if op.OpDeleteVlan? {
      RetriedDeleteVlan(net, op.parent, op.id, no);
    } else {
      RetriedPort(net, op, no);
    }
  }

  /** A bridge such as `dhcp`, whose two veth names coincide: the first AddBridge
      fails, the second succeeds, and the pair is never made. */
  lemma CoincidingNamesAreMasked(net: Net, req: BridgeRequest)
    requires Valid(net) && VethName(req.name) == VethPeerName(req.name) && !req.internalOnly && req.cidr.ValidCidr?
    requires req.name !in net.networks && req.name !in net.links && VethName(req.name) !in net.links
    ensures var first := AddBridge(net, req);
            var second := AddBridge(first.net, req);
            !first.ok && second.ok && second.net == first.net && VethName(req.name) !in second.net.links
  {
    assert |VethName(req.name)| > |req.name|;
  }

  /** The pair of a bridge can be made; or it is there, and its peer lacks the address. */
  ghost predicate PairCanServe(net: Net, name: string, addr: Address) {
    var veth := VethName(name);
    if veth in net.links then
      && net.links[veth].kind.Veth?
      && forall p :: At(net.links, net.links[veth].kind.peer, p) ==> addr !in net.links[p].addrs
    else
      VethPeerName(name) !in net.links && veth != VethPeerName(name)
  }

  /** Exactly when AddBridge succeeds, on every valid table. */
  lemma {:induction false} AddBridgeSucceedsIff(net: Net, req: BridgeRequest)
    requires Valid(net)
    ensures AddBridge(net, req).ok <==>
            && (req.internalOnly || req.cidr.ValidCidr?)
            && (req.name !in net.networks ==>
                  req.name !in net.links && (req.internalOnly || PairCanServe(net, req.name, req.cidr.addr)))
  {
    var o := CreateNetwork(DefineNetwork(net, req.name), req.name);
    if req.cidr.ValidCidr? && req.name !in net.networks && o.ok && !req.internalOnly {
      StartKeepsValid(net, req.name);
      TeleskopSucceedsIff(o.net, req.name, req.cidr.addr);
      BridgeIsNoPeer(net, req.name, req.cidr.addr);
    }
  }

  lemma {:induction false} TeleskopSucceedsIff(net: Net, name: string, addr: Address)
    requires Valid(net) && name in net.links && net.links[name].kind.Bridge?
    ensures AddTeleskopInterface(net, name, addr).ok <==> PairCanServe(net, name, addr)
  {
    var veth, c := VethName(name), CreateVethPeerIfNotExists(net, name);
    BridgeNamesDiffer(name);
    if veth in net.links {
      if net.links[veth].kind.Veth? {
        assert HasPeer(net.links, veth);
      }
    } else if VethPeerName(name) !in net.links && veth != VethPeerName(name) {
      FreshInterface(net, name, addr);
    }
  }

  /** A new bridge has no address and is no end of a pair. */
  lemma BridgeIsNoPeer(net: Net, name: string, addr: Address)
    requires Valid(net) && name !in net.links
    ensures PairCanServe(CreateNetwork(DefineNetwork(net, name), name).net, name, addr) <==> PairCanServe(net, name, addr)
  {
    BridgeNamesDiffer(name);
    var links, links' := net.links, CreateNetwork(DefineNetwork(net, name), name).net.links;
    var veth := VethName(name);
    if veth in links && links[veth].kind.Veth? {
      assert HasPeer(links, veth);
      assert forall p :: At(links', links[veth].kind.peer, p) <==> At(links, links[veth].kind.peer, p);
    }
  }

  /** On free names, and with an address that is readable or not needed, AddBridge
      succeeds if and only if it needs no pair or the pair has two names. */
  lemma AddBridgeOnFreeNames(net: Net, req: BridgeRequest)
    requires Valid(net) && Free(net, req.name)
    requires req.internalOnly || req.cidr.ValidCidr?
    ensures AddBridge(net, req).ok <==> req.internalOnly || VethName(req.name) != VethPeerName(req.name)
  {
    AddBridgeSucceedsIff(net, req);
  }
}

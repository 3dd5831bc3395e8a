# Verification of teleskop

teleskop is the hypervisor agent of lovi-cloud. This project models four of its
parts and proves what their runs mean.

**Security groups** (`iptables.go`). The filter table is a map from chain names to
rules, and a packet walks it with jumps and returns (`Rules.dfy`). The setup and
add functions of the agent are methods on a client that changes the table in
place (`Firewall.dfy`), proved against functions on tables (`SecurityGroup.dfy`).
The environment may refuse any NewChain, Insert or AppendUnique, at any point of
a run (`Faults`); a call then stops, and the block that was being inserted is
rolled back by ClearChain and DeleteChain. The main results:

- Without refusals, setup and any calls leave every packet with the verdict of a
  policy that does not mention chains (`Policy.PolicyVerdict`), and the rules of
  addINPUTRules are dead (`RunPolicy.FailureFreePolicy`). With refusals outside
  the last three add functions the same holds for the links whose calls completed
  (`RunPolicy.RunImplementsPolicy`).
- Under all refusals, after a setup that succeeded and any calls whatever, the
  table does what an abstract machine does that has no chains
  (`Machine.RunTracks`): it counts client calls and knows which links' blocks are in
  place, how callisto-sg-chain ends, and which names are taken. It gives the verdict
  for every packet (`Machine.EveryVerdict`). So one refusal in the first call can
  disable filtering for good (`Machine.OneRefusalDisablesFiltering`). A packet gets
  no verdict only when an add of `g-chain` found callisto-sg-chain deleted and made
  it anew, as its own source chain, with a jump that leads back to it; no such add
  happens in a run without a well-formed add of `g-chain` behind one of an ordinary
  name (`Machine.NothingIsStranded`, `Machine.NeverRemadeUnlessMayRemake`).
- No run makes a chain jump to a missing chain. A table on which some traversal
  never ends can be reached, under some refusals, exactly if a well-formed add of
  `g-chain` comes after a setup or a well-formed add of `g-fallback`
  (`Circles.CircleIff`); otherwise every traversal ends after at most four nested
  jumps (`Circles.TerminatesUnlessMayCircle`). A packet handed to INPUT or FORWARD
  can be sent into a circle exactly if a setup, a well-formed add of an ordinary
  name and one of `g-chain` follow each other (`Stranding.StrandIff`): when the
  ordinary add is refused in its fourth function the rollback deletes
  callisto-sg-chain, and the add of `g-chain` makes it anew.
- The name `g-fallback` alone makes no circle, but both reserved names block setup:
  after adds alone on a fresh host, without refusals, a setup succeeds exactly if
  none of them was well-formed for a reserved name (`BeforeSetup.SetupAfterAddsIff`),
  and a blocked host stays blocked, with FORWARD letting every packet through,
  whatever is called later (`BeforeSetup.BlockedForGood`).
- Setup takes nothing back when a client call is refused: the exact table is known
  for each of its eight calls (`FailedSetup.SetupLeaves`), and a setup that failed
  on a fresh host behind its first client call is never completed, whatever is
  called later (`FailedSetup.HalfSetupIsFinal`).
- Without refusals a call is atomic, and succeeds exactly on links whose
  addresses are usable, whose name is not reserved and whose first 19 characters
  are new (`RunPolicy.AddIsAtomicAfterRuns`); a list of links can be added
  in one order exactly when it can be in every order, with the same verdicts
  (`RunPolicy.AllSucceedIffCompatible`, `RunPolicy.OrderIsIrrelevant`).
- A refused call is invisible to all packets if and only if the refused client
  call is one of the first 20, those of the three functions that make a chain of
  their own, or no link was managed yet (`Failures.RefusalIsInvisibleIff`). A
  failure in one of the other three empties callisto-sg-chain (or deletes it, when
  nothing jumps to it) or callisto-FORWARD; the verdict that is left is given
  exactly (`Failures.LateFailureVerdict`). A call that got beyond its first
  function blocks its name for good (`Failures.AddBlocksItsName`).

The code is followed where its names say otherwise: addINPUTRules writes to
callisto-FORWARD, and callisto-INPUT stays empty.

**Network bring-up** (`setup.go`, `bridge.go`, `vlan.go`). The kernel's links and
libvirt's networks are explicit tables (`Netlink.dfy`); the agent's operations are
methods on a host (`Host.dfy`) proved against functions (`Bridges.dfy`). The
environment may refuse any one changing call in each operation (`Refusal`). Every
run keeps indices unique, masters existing bridges and veth links paired, whatever
is refused. Bring-up converges after any number of interruptions at step boundaries
(`BringUp.RestartConverges`) and after any number of runs in which first changing
calls of steps were refused (`BringUp.RefusedRunsConverge`). A step that was refused
half-way is different: after a failed AddBridge a second one answers with success
and repairs nothing (`BringUp.FailedAddBridgeIsMasked`). What AddBridge and
DeleteBridge leave of the veth pair is known field by field, on every valid table and
wherever a call is refused (`BridgePairs.dfy`). For all six operations it
is known when a retry repairs (`BringUp.RetryRepairsIff`), and deleting a bridge
cleans up an AddBridge refused anywhere but in the start of the network
(`RoundTrips.BridgeRoundTrip`). When listed bridges share a VLAN id, the first of
them gets the interface and the others silently get none
(`VlanPorts.SetupGivesVlansIff`); when a name is listed first as internal-only, the
bridge never gets its veth pair (`VethPairs.SetupGivesPairsIff`).

**The cpulist parser** (`cpu.go`). The parser on values is `CpuList.dfy`, and
`CpuTexts.dfy` says by a grammar exactly which texts it accepts and what they stand
for (`CpuTexts.AcceptedIff`). The pointers of the node are cells in `NumaNodes.dfy`.
`go.mod` asks for Go 1.15, so the loop over the logical ids has one variable, and
both logical bounds end up reading the last id. The reported least logical core is
therefore the true one exactly if the second range of the text does not go up
(`CpuList.LogicalMinIsLeastIff`). `cpu_test.go` expects otherwise, and it expects a
single range to be rejected, which the code accepts; the code is followed.

**DHCP answers** (`dhcp/dhcpd.go`). `Dhcpd.MakeResponse` states when an answer is
built and each option in it. `ClasslessRoutes.dfy` is a codec for any list of routes
of the classless static route option (RFC 3442, sections "Classless Route Option
Format" and "DHCP Client Behavior"), and `Dhcpd.dfy` proves that the bytes
makeResponse appends are its encoding, and that clients that use the option agree
with clients that use the router option (section 3.5 of RFC 2132).

Contracts that stand for programs outside the repository: NewChain fails for an
existing chain; Insert fails for a missing chain, a position beyond the end plus
one, a missing jump target, an address that is not IPv4 or a MAC address that
does not have six octets; AppendUnique does nothing when the rule is there;
ClearChain makes a missing chain; DeleteChain fails for a missing, non-empty or
referenced chain. The client itself has no check for circular jumps here, so that
the absence of circles is a property of the agent. A veth pair needs two free
different names; only a bridge takes ports and a bridge is no port; deleting a
bridge releases its ports; deleting a veth link deletes its peer; indices are
handed out in increasing order.

## Model

| member | source | states |
|---|---|---|
| ChainNames.GeneratedNamesCoincide | iptables.go:333-351 | generated names have at most 29 characters and coincide exactly when prefix and first 19 characters of the interface names do; so different prefixes never meet and a prefix is injective on names up to 19 characters |
| ChainNames.GeneratedNameIsFixed | iptables.go:15-29 | a generated name is one of the fixed chain names exactly for the source prefix with `g-chain` or `g-fallback` |
| Rules.EvalFrame | iptables.go:191-272 | chains that nothing in a closed table jumps to are invisible to every packet, at every nesting depth |
| Firewall.IPTables.NewChain | iptables.go:134-139 | fails exactly for an existing chain or a refusal, otherwise adds an empty chain |
| Firewall.IPTables.Insert | iptables.go:203-210 | succeeds exactly when chain, position, jump target and addresses are right, and then puts the rule at the one-based position |
| Firewall.IPTables.AppendUnique | iptables.go:146-148 | appends a rule that is not there yet |
| Firewall.IPTables.ClearChain | iptables.go:206-206 | flushes the chain, or makes it |
| Firewall.IPTables.DeleteChain | iptables.go:207-207 | removes the chain exactly when it is there, empty and not referenced |
| Firewall.InsertRules | iptables.go:203-210 | the insert loop either puts the whole rule list, in order, in front of the chain, or takes the chain down: removed if nothing jumps to it, emptied otherwise |
| Firewall.RunSetupFunction | iptables.go:141-189 | each setup function makes its chain and appends its one rule; one that fails takes nothing back, so a chain that it made stays, empty |
| Firewall.SetupDefaultSecurityGroup | iptables.go:116-123 | the four setup functions in order, up to the first error; on every table with the built-in chains, the exact table behind the first client call that fails |
| Firewall.RunAddFunction | iptables.go:191-331 | each add function makes its chain, if it has one, and installs its rule list |
| Firewall.AddSecurityGroup | iptables.go:125-132 | the six add functions in order, up to the first error; success means all six succeeded |
| SecurityGroup.Taken | iptables.go:203-210 | the index of the first refused rule of a block: everything before it is accepted |
| Traversal.RunKeepsInvariant | iptables.go:116-331 | whatever is called and refused, no chain jumps to a missing chain and, for every name but `g-chain`, every jump goes down in rank |
| Traversal.EvalTerminates | iptables.go:134-331 | in a closed ranked table a traversal never gets stuck and does not depend on the allowed nesting beyond its rank |
| Circles.TerminatesUnlessMayCircle | iptables.go:116-331 | for all call lists without a well-formed add of `g-chain` behind a setup or a well-formed add of `g-fallback`, on every reachable table every chain decides every packet within four nested jumps |
| Circles.CircleIff | iptables.go:22-28 | some refusals lead the calls to a table with a traversal that never ends, if and only if a well-formed add of `g-chain` comes after a setup or a well-formed add of `g-fallback` |
| Stranding.StrandIff | iptables.go:282-288 | some refusals lead the calls to a table on which a packet handed to INPUT or FORWARD gets no verdict, if and only if a setup, a well-formed add of an ordinary name and one of `g-chain` come in this order |
| Stranding.PacketIsStranded | iptables.go:274-331 | on the table so reached, every bridged packet that enters by `g-chain`, does not leave by it and is not UDP gets no verdict from FORWARD at any nesting depth |
| ReservedNames.ReservedNamesLoop | iptables.go:22-28 | without setup and without refusals, adds for the two reserved names make a table on which callisto-sg-chain leads in a circle, while FORWARD lets every packet through |
| Policy.EvalInput | iptables.go:223-230 | the i chain of a link lets through exactly known sessions, DHCP replies, TCP and UDP to ports 1 to 65535, and ICMP, and drops the rest |
| Policy.EvalOutput | iptables.go:251-261 | the o chain of a link lets through exactly DHCP requests, and packets with the link's IP and MAC source that are not DHCP replies |
| Policy.OutputTailIsDead | iptables.go:251-261 | removing the six rules behind the third of an o chain changes no verdict, on any table |
| Policy.EvalSg | iptables.go:278-281 | callisto-sg-chain accepts a packet unless a link it enters or leaves by objects |
| Policy.EvalForward | iptables.go:298-320 | callisto-FORWARD hands exactly the bridged packets of managed ports to callisto-sg-chain |
| Policy.TableImplementsPolicy | iptables.go:191-331 | a table that realizes a list of links decides every packet, from callisto-FORWARD and from FORWARD, as the policy for the set of links |
| Policy.InputRulesAreDead | iptables.go:294-311 | removing every rule of addINPUTRules changes no verdict |
| Installation.AddStepResult | iptables.go:191-331 | one add function: all its rules in front of its chain; or nothing of its own left, and a shared chain discarded |
| Installation.AddResult | iptables.go:125-132 | the exact table after a call, for every outcome and every pattern of refusals |
| Installation.AddRealizes | iptables.go:191-331 | a completed call makes the table realize one link more; a call that fails in its first three functions leaves it realizing the same links |
| Runs.SetupSucceedsIff | iptables.go:116-189 | setup succeeds on a fresh host exactly when none of its eight client calls is refused, and then yields exactly the six base chains |
| Runs.SetupIsRefused | iptables.go:141-144 | once the fallback chain exists setup fails and changes nothing |
| FailedSetup.SetupLeaves | iptables.go:116-189 | on every table with the built-in chains: the exact table, the number of client calls and the answer of a setup whose first failing client call is number n, refused or made for a chain that is there; nothing that was made is taken back |
| FailedSetup.RefusedSetupLeaves | iptables.go:141-189 | on a fresh host, refused in client call n below 8, setup fails and leaves INPUT, FORWARD and the first (n + 1) / 2 of its four chains, each with its rule but a last one whose rule was refused |
| FailedSetup.HalfSetupIsFinal | iptables.go:134-139 | a setup that fails on a fresh host behind its first client call is never completed: after any later calls, under any refusals, no setup succeeds and FORWARD decides no packet |
| FailedSetup.FailedSetupIsRepairedIff | iptables.go:116-150 | a setup that failed on a fresh host can be completed by a further one if and only if its first client call was the one refused |
| BeforeSetup.SetupIff | iptables.go:116-189 | on any table with the built-in chains setup succeeds exactly when none of its eight client calls is refused and none of its four chains exists |
| BeforeSetup.SetupAfterAddsIff | iptables.go:22-28 | after adds alone on a fresh host, without refusals, setup succeeds exactly if its calls are granted and no add was well-formed for a reserved name |
| BeforeSetup.BlockedForGood | iptables.go:134-151 | a host on which setup is blocked stays so: no later calls under any refusals let a setup succeed, and FORWARD lets every packet through |
| BeforeSetup.ReservedNameBlocksSetup | iptables.go:22-28 | after adds alone with one for a reserved name that is the state of the host |
| Runs.AddReaches | iptables.go:125-132 | functions that are ready succeed when their client calls are granted, and the call goes on from the table they leave |
| Runs.AddStopsAt | iptables.go:125-132 | a call stops in the function that makes the first refused client call, or where a shared chain is missing, after that many client calls |
| Runs.AddIsAtomic | iptables.go:88-139 | without refusals a call installs everything, exactly on acceptable links, or changes nothing |
| Runs.RunIsExact | iptables.go:153-331 | closed form: newest-first blocks in the two shared chains, three chains per link, an empty callisto-INPUT, no other chain |
| RunPolicy.RunImplementsPolicy | iptables.go:116-331 | after setup and any calls, with refusals anywhere but in the last three functions, every packet gets the policy verdict of the links whose calls completed, with or without the rules of addINPUTRules |
| RunPolicy.AddFramesAndIsMonotone | iptables.go:125-132 | frame and monotonicity of a completed call on tables |
| RunPolicy.FailureFreePolicy | iptables.go:116-331 | without refusals, after setup and any calls, every packet gets the policy verdict of the links that were acceptable, with or without the rules of addINPUTRules |
| RunPolicy.NothingFailsLate | iptables.go:125-132 | without refusals no call of any run fails in its last three functions, and exactly the acceptable links complete |
| RunPolicy.FailureFreeRun | iptables.go:116-331 | the closed form after setup and any calls |
| RunPolicy.AddIsAtomicAfterRuns | iptables.go:88-139 | atomicity after any failure-free run, for every interface name and address |
| RunPolicy.AllSucceedIffCompatible | iptables.go:125-132 | a list of adds succeeds as a whole exactly when its links are well-formed, not reserved and distinct in their first 19 characters |
| RunPolicy.OrderIsIrrelevant | iptables.go:274-331 | every reordering of a successful list of adds succeeds and gives every packet the same verdict |
| Failures.EarlyFailureIsInvisible | iptables.go:191-272 | a failure in the first three functions leaves all chains as they were and the failing function's chain away, and every packet's verdict from every earlier chain |
| Failures.AddBlocksItsName | iptables.go:194-197 | a call that fails in its first function changes nothing; after any other, every later call for that name is refused at once |
| Failures.LateFailureVerdict | iptables.go:282-329 | the exact verdict for every packet after a failure in one of the last three functions |
| Failures.FailureIsInvisibleIff | iptables.go:191-331 | a failed call leaves all verdicts unchanged if and only if it failed in the first three functions or no link was managed |
| Failures.RefusalIsInvisibleIff | iptables.go:191-331 | for a free name: the verdicts stay if and only if the refused client call is one of the first 20 or no link was managed |
| Machine.CallStops | iptables.go:125-132 | how many functions a call completes and how many client calls it makes, from its name, its addresses, the names taken, the missing callisto-sg-chain and the refusals |
| SharedChains.CallCarries | iptables.go:282-329 | one call, refused anywhere: what is left of the two shared chains, given how many functions it completed, for `g-chain` too |
| SharedChains.CarriedVerdict | iptables.go:274-331 | the verdict for every packet from what is left of the two shared chains: no filtering, the policy, the policy with the rules of addINPUTRules or the source rules of `g-chain` in place of ACCEPT, or none where the circle is entered |
| SharedChains.LoopIsStuck | iptables.go:251-281 | a packet that enters by `g-chain`, is no DHCP request and meets no objection goes round for ever once callisto-sg-chain leads back to itself |
| Machine.CallTracks | iptables.go:191-331 | one call, refused anywhere: shared chains, names and client calls become those of the machine |
| Machine.RunTracks | iptables.go:116-331 | the same over every run after setup, whatever is called |
| Machine.EveryVerdict | iptables.go:116-331 | after a setup that succeeded and any calls, under all refusals, every packet gets the verdict of the machine |
| Machine.NothingIsStranded | iptables.go:282-288 | in a run in which no well-formed add of `g-chain` finds callisto-sg-chain deleted, every packet gets a verdict, within four nested jumps |
| Machine.NeverRemadeUnlessMayRemake | iptables.go:282-288 | a call list without a well-formed add of `g-chain` behind one of an ordinary name is such a run under all refusals |
| Machine.OneRefusalDisablesFiltering | iptables.go:282-288 | if the first add is refused its 21st or 22nd client call, no later add makes FORWARD decide any packet |
| Netlink.WithoutFirstV4 | bridge.go:202-207 | deleting the first listed IPv4 address removes that one from the list and nothing else |
| Netlink.VlanNamesCoincide | vlan.go:15-29 | two VLAN names are equal exactly if parent and id are, whatever characters the parent has |
| Bridges.ApplyKeepsValid | bridge.go:33-256 | every operation, successful or not and refused anywhere, keeps indices unique, masters existing bridges and veth links in mutual pairs |
| Bridges.RunKeepsValid | bridge.go:33-256 | the same over every run of operations, with any call refused in each |
| Host.Host.CreateVethPeer | bridge.go:222-256 | succeeds exactly if the veth is there or it and its peer can be made; then all old links are as they were, the two ends name each other by index, and a new peer is called `dhcp-` and the name of the bridge; a failure changes nothing |
| BridgePairs.PairFound | bridge.go:222-256 | exactly when the pair is found or made, and the links then, for an old pair with any peer name and for a new one |
| BridgePairs.TeleskopLeaves | bridge.go:146-181 | the master, addresses and state of both ends behind each of the four calls that can be refused, on every valid table |
| BridgePairs.AddBridgeWithoutPair | bridge.go:33-76 | outcome and tables of AddBridge for a bad address, a network that is there, one that cannot be defined or started, and an internal-only bridge |
| BridgePairs.AddBridgeLeaves | bridge.go:54-178 | outcome and tables in all other cases, wherever a call is refused |
| BridgePairs.AddBridgeEquips | bridge.go:152-178 | on every valid table, success for a new network with a pair means: `N-dhcp` is a port of the new bridge, it and its peer are up, the peer has its old addresses and the one asked for, and no other old link has changed; the name of a new peer starts with `dhcp`, as the DHCP server asks of its interfaces (dhcp/dhcpd.go:50) |
| BridgePairs.DeletePairLeaves | bridge.go:183-220 | which end is down, flushed, released or gone behind each of the five calls that can be refused, for an old pair and for one made for the purpose |
| BridgePairs.DeleteBridgeLeaves | bridge.go:86-108 | outcome and tables of DeleteBridge for a started network: its link gone, its ports free, the network gone, the pair as far as the calls go |
| Host.Host.AddTeleskopInterface | bridge.go:146-181 | on a pair that was there as on a new one: the veth in the bridge, the address added to its peer, both up, each as far as the calls go, and nothing else changes |
| Host.Host.FlushAddresses | bridge.go:198-207 | removes exactly the IPv4 addresses |
| Host.Host.DeleteTeleskopInterface | bridge.go:183-220 | the pair is gone, after being made if it was missing, and nothing else changes; with a call refused, exactly which end is down, flushed and released |
| Host.Host.AddBridge | bridge.go:33-84 | define, start and equip a network unless it exists, up to the first error or refusal; success for a new network with a pair means that the pair serves it (BridgePairs.AddBridgeEquips) |
| Host.Host.DeleteBridge | bridge.go:86-108 | stop and undefine a network and delete its veth pair, if it exists, up to the first error or refusal; success means that the network, and no other, is gone |
| Host.Host.AddInterfaceToBridge | bridge.go:110-131 | exactly when it succeeds; no other link changes; success leaves a link that has a master alone and makes a free one a port of the bridge; failure changes nothing |
| Host.Host.DeleteInterfaceFromBridge | bridge.go:133-144 | exactly when it succeeds; the link is then in no bridge and nothing else changes; failure changes nothing |
| Host.Host.AddVLANInterface | vlan.go:14-44 | exactly when it succeeds; no old link changes; a new one is the VLAN of the parent, in no bridge, and up exactly on success; success means that the name is there |
| Host.Host.DeleteVLANInterface | vlan.go:46-61 | exactly when it succeeds; success takes exactly the VLAN link away; failure takes it down exactly if its deletion was refused |
| Host.Host.Setup | setup.go:19-45 | the bring-up loop is the concatenation of each bridge's steps, up to the first error, with a call refused in each step |
| BringUp.PrefixAfterPrefix | setup.go:19-45 | a run up to one boundary after a run up to another has the effect of the longer |
| BringUp.RestartConverges | setup.go:19-45 | after any number of interruptions at step boundaries a full run has the outcome of one uninterrupted run, indices included |
| BringUp.RefusedRunsConverge | setup.go:19-45 | if a run without refusals succeeds, then after any number of runs in which first changing calls of steps were refused a run without refusals has that very outcome |
| BringUp.SetupTwice | setup.go:19-45 | setting up twice is setting up once |
| BringUp.SetupProvides | setup.go:19-45 | after a successful setup every listed bridge has its network and, unless internal-only, its VLAN interface in a bridge |
| VethPairs.FirstEntryDecides | setup.go:19-45 | on free names, after a successful setup, the first entry of a name decides: the pair is there, up, with the address of that entry and one end in the bridge, or it is not there |
| VethPairs.SetupGivesPairsIff | setup.go:19-45 | hence every bridge that is not internal-only has its pair if and only if the first entry of its name is not internal-only |
| VlanPorts.StepsKeepPort | setup.go:19-45 | an interface that is a port of a bridge stays one, whatever bring-up steps follow |
| VlanPorts.FirstBridgeTakesVlan | setup.go:19-45 | on an unused VLAN name a successful setup makes the VLAN interface a port of the first listed bridge with that id |
| VlanPorts.SetupGivesVlansIff | setup.go:19-45 | hence every bridge has its own VLAN interface as a port if and only if no two listed bridges share a VLAN id |
| BringUp.FreshBridgeIsProvided | setup.go:19-45 | on unused names the three steps of a bridge succeed, with the tables of AddBridge and a VLAN interface that is up and a port of the new bridge |
| BringUp.FailedAddBridgeIsMasked | bridge.go:54-81 | after an AddBridge that failed or was refused behind the definition of the network, a retry changes nothing, and succeeds exactly if the address was readable or not needed |
| BringUp.RetryRepairsIff | bridge.go:54-96 | a retry of a refused operation, on unused names if it adds a bridge, has the outcome of an unrefused one if and only if the first changing call was the one refused or a VLAN is deleted |
| BringUp.RefusedDeleteBridgeStays | bridge.go:86-108 | a DeleteBridge refused in NetworkUndefine fails for ever, and one refused in the deletion of the pair is answered with success while the pair stays |
| BringUp.AddBridgeSucceedsIff | bridge.go:33-84 | exactly when AddBridge succeeds, on every valid table |
| BringUp.AddBridgeOnFreeNames | bridge.go:226-235 | on free names AddBridge succeeds if and only if it needs no pair or the two veth names differ |
| BringUp.CoincidingNamesAreMasked | bridge.go:226-235 | for a bridge whose two veth names coincide, such as `dhcp`, the pair is never made, while the retry reports success |
| RoundTrips.AddBridgeResult | bridge.go:33-84 | the exact tables after AddBridge on an unused name, with the two veth ends naming each other |
| RoundTrips.BridgeRoundTrip | bridge.go:33-108 | on free names, with any call of AddBridge refused or none: attaching any ports and deleting the bridge restores links and networks if and only if the start of the network was not refused |
| RoundTrips.InactiveNetworkStays | bridge.go:54-96 | a network that was defined and not started cannot be deleted, and AddBridge answers with success for it |
| RoundTrips.VlanRoundTrip | vlan.go:14-61 | adding and deleting a VLAN interface restores the tables |
| Decimal.ValueOfPrint | cpu.go:165-178 | the decimal text of a number has that number as its value |
| CpuList.BoundsAreNatural | cpu.go:161-178 | an extracted bound is never negative and below 2^31 |
| CpuList.ExtractedCounts | cpu.go:161-184 | an extracted list counts up from its first id, and the conversion to 32 bits loses nothing |
| CpuList.ParsedNode | cpu.go:47-142 | for every text: the pairs count up from one or two starts, the physical bounds are the first and last id, both logical bounds are the last logical id |
| CpuTexts.BoundsIff | cpu.go:161-178 | the parser finds the bounds a and b exactly in a text that, white space aside, is one numeral with a = b, or two with a hyphen between them and anything behind a second hyphen |
| CpuTexts.ExtractedIff | cpu.go:161-184 | a list is extracted exactly from such a text, and has exactly the ids from a to b |
| CpuTexts.OneListText | cpu.go:61-96 | without a comma a readable text gives the node of its ids, and any other an error of ParseInt |
| CpuTexts.TwoListText | cpu.go:98-117 | with one comma: the node of both lists, ErrInvalidCPUList for different lengths, and an error of ParseInt if a part is unreadable |
| CpuTexts.MoreListText | cpu.go:47-59 | ErrInvalidNUMATopology exactly for two commas or more, whatever is between them |
| CpuTexts.AcceptedIff | cpu.go:47-117 | exactly which texts are accepted |
| CpuTexts.NumberIsNamed | cpu.go:164-169 | a printed number, with white space around it, is the list of that one id |
| CpuTexts.NumberInPair | cpu.go:98-117 | a printed number in either place of a pair is accepted exactly with a list of one id in the other |
| CpuTexts.SpaceIsUnreadable | cpu.go:162-169 | an empty text and one of white space alone are no list |
| CpuList.PrintParseRoundTrip | cpu.go:98-117 | parsing a printed pair of ranges, with white space, gives back exactly the pairs, or is rejected exactly for different lengths |
| CpuList.OneRangeIsAccepted | cpu.go:61-96 | a printed single range is accepted, without logical cores |
| CpuList.LogicalMinIsLeastIff | cpu.go:143-150 | for every accepted text with two lists: the reported least logical core is the least one exactly if the second range does not go up; the reported greatest one always is the greatest |
| CpuList.LogicalMinIsTrueIff | cpu.go:143-150 | the same for two printed ranges: exactly for ranges of length one |
| CpuList.TestExpectationFails | cpu_test.go:17-22 | for the first text of the repository's test the code reports 71, not 48, as the least logical core |
| NumaNodes.PhysicalBounds | cpu.go:79-86 | the running bounds are the least and greatest id, or MaxUint32 and 0 |
| NumaNodes.LogicalBounds | cpu.go:143-150 | with one loop variable both bounds read the last id of every non-empty list |
| NumaNodes.LogicalBoundsPerRound | cpu.go:143-150 | with a variable per round the bounds would be the least and greatest id |
| NumaNodes.NewNode | cpu.go:120-159 | rejects lists of different lengths; otherwise the pairs hold the physical ids and point into the logical slice, the physical bounds are the least and greatest id, and both logical bounds read the last logical id, for lists in any order |
| NumaNodes.ExtractCoreIDs | cpu.go:161-184 | succeeds exactly on a text that names a list of ids, and yields exactly these ids |
| NumaNodes.ParseCpuList | cpu.go:47-59 | accepts exactly a list, or two of one length with a comma between them, and reads as the specification says; ErrInvalidNUMATopology exactly for two commas or more |
| ClasslessRoutes.DecodeEncode | dhcp/dhcpd.go:123-140 | decoding an encoded route list of any length gives it back |
| ClasslessRoutes.EncodeDecode | dhcp/dhcpd.go:123-140 | encoding a decoded option gives its bytes back |
| Dhcpd.PickServerAddress | dhcp/dhcpd.go:76-87 | a readable IPv4 address of the interface behind which there is no other one, or none if there is none |
| Dhcpd.RouteOptions | dhcp/dhcpd.go:123-140 | the appended bytes are the encoding of the metadata route and the default route; an IPv6 address is an index error |
| Dhcpd.MakeResponse | dhcp/dhcpd.go:71-151 | when an answer is built, when it is refused and when it crashes, from the fields of the lease; and the whole answer: option 1 is the mask, 54 the server address, 51 all ones, 6 the DNS server and 3 the gateway exactly if the lease has one, 121 the bytes of the two routes, and no other option; an offer for a discovery, an acknowledgement for a request, no type for anything else |
| Dhcpd.ClientsAgree | dhcp/dhcpd.go:123-140 | for every lease and destination the routes of option 121 lead to the metadata server for its address, and otherwise where the router option leads |

## Left out

- Comments of rules: they change no verdict; rules are compared without them.
- Foreign rules in INPUT and FORWARD, built-in chain policies, connection tracking (the state is a field of the packet), fragments, and interface names with a wildcard or with no characters.
- Limits of iptables on interface names: the environment may refuse any insert, which covers them.
- Refusals of ClearChain and DeleteChain by the environment: they fail for the stated reasons only.
- Parsing of the addresses of an AddSecurityGroup request: a link carries parsed addresses.
- The client calls of different requests are taken one request after the other.
- BringUp.RestartConverges: speaks of interruptions at step boundaries; one inside AddBridge or AddVLANInterface leaves a half-built bridge or a VLAN that is down, which the early returns of the source do not repair (BringUp.RetryRepairsIff).
- Stranding.StrandIff: speaks of a client without a check for loops, and so do Circles.CircleIff, Machine.EveryVerdict and Stranding.PacketIsStranded; a kernel that refuses a rule which closes a loop that packets can reach would stop the add of `g-chain` of Stranding.PacketIsStranded in its fifth function, the first whose rule makes the loop reachable.
- Host.Host.DeleteTeleskopInterface: does not model an address that cannot be deleted, which the source logs and passes over.
- VLAN ids outside the range of IEEE 802.1Q, limits on link names, and VLAN links that vanish with their parent.
- The rest of setup.go: NUMA discovery from the file system, the initiator name and the registration call.
- Reading cpulist files: the parser starts from the text. The strings are sequences of characters, not bytes.
- Dhcpd.MakeResponse: does not model receiving and sending packets, nor the textual form of the server address.
- Virtual machines, block devices, metadata, request handlers and main: templates and calls into other programs, which would add only easy members.

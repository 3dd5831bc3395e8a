/** The functions of iptables.go on a client that changes the table in place.

    The client stands for go-iptables and for the iptables program behind it,
    which are outside the repository.  Its methods say what they are taken to do:

    - NewChain fails for a chain that exists, and otherwise makes an empty one.
    - Insert counts positions from 1.  It fails for a missing chain, for a position
      beyond the end plus one, for a jump to a missing chain, for an address that
      is not IPv4 and for a MAC address that does not have six octets.
    - AppendUnique fails in the same cases, but for the position, and does nothing
      when the rule is there.
    - ClearChain flushes a chain, and makes a missing one.
    - DeleteChain fails for a missing chain, for one that has rules and for one
      that a rule jumps to.

    The environment may refuse any NewChain, Insert or AppendUnique; `faults` says
    which, by the number of the call.  A refused call changes nothing.  ClearChain
    and DeleteChain fail for the stated reasons only, and their answers are ignored
    by the loops that call them.  Each method is proved against the function of
    the same work in `SecurityGroup.dfy`. */
module Firewall {
  import opened Rules
  import opened ChainNames
  import opened SecurityGroup
  import opened FailedSetup

  /** The iptables client, on the filter table. */
  class IPTables {
    var chains: Chains
    var calls: nat
    const faults: Faults

    constructor (faults: Faults)
      ensures State() == INITIAL && this.faults == faults
    {
      this.faults := faults;
      this.chains := INITIAL.chains;
      this.calls := INITIAL.calls;
    }

    ghost function State(): State
      reads this
    {
      SecurityGroup.State(chains, calls)
    }

    method NewChain(name: string) returns (ok: bool)
      modifies this
      ensures Outcome(State(), ok) == SecurityGroup.NewChain(faults, old(State()), name)
    {
      ok := !faults(calls) && name !in chains;
      if ok {
        chains := chains[name := []];
      }
      calls := calls + 1;
    }

    /** `position` counts from 1, as on the command line. */
    method Insert(chain: string, position: int, rule: Rule) returns (ok: bool)
      modifies this
      ensures calls == old(calls) + 1
      ensures ok <==> && !faults(old(calls)) && chain in old(chains)
                      && 1 <= position <= |old(chains)[chain]| + 1 && Insertable(old(chains).Keys, rule)
      ensures ok ==> var rules := old(chains)[chain];
                     chains == old(chains)[chain := rules[..position - 1] + [rule] + rules[position - 1..]]
      ensures !ok ==> chains == old(chains)
    {
      ok := !faults(calls) && chain in chains && 1 <= position <= |chains[chain]| + 1 && Insertable(chains.Keys, rule);
      if ok {
        var rules := chains[chain];
        chains := chains[chain := rules[..position - 1] + [rule] + rules[position - 1..]];
      }
      calls := calls + 1;
    }

    method AppendUnique(chain: string, rule: Rule) returns (ok: bool)
      modifies this
      ensures Outcome(State(), ok) == SecurityGroup.AppendUnique(faults, old(State()), chain, rule)
    {
      ok := !faults(calls) && chain in chains && Insertable(chains.Keys, rule);
      if ok && rule !in chains[chain] {
        chains := chains[chain := chains[chain] + [rule]];
      }
      calls := calls + 1;
    }

    /** Flushes the chain, or makes it when it does not exist. */
    method ClearChain(chain: string)
      modifies this`chains
      ensures chains == old(chains)[chain := []]
    {
      chains := chains[chain := []];
    }

    /** Refused for a missing or non-empty chain and for one that a rule jumps to. */
    method DeleteChain(chain: string) returns (ok: bool)
      modifies this`chains
      ensures ok <==> chain in old(chains) && old(chains)[chain] == [] && !Referenced(old(chains), chain)
      ensures chains == if ok then old(chains) - {chain} else old(chains)
    {
      ok := chain in chains && chains[chain] == [] && !Referenced(chains, chain);
      if ok {
        chains := chains - {chain};
      }
    }
  }

  // ---------- setupDefaultSecurityGroup ----------

  method SetupChain(client: IPTables, name: string) returns (ok: bool)
    modifies client
    ensures Outcome(client.State(), ok) == NewChain(client.faults, old(client.State()), name)
  {
    ok := client.NewChain(name);
  }

  /** A function that fails takes nothing back: a chain that it made stays, empty. */
  method RunSetupFunction(f: SetupFunction, client: IPTables) returns (ok: bool)
    modifies client
    ensures Outcome(client.State(), ok) == SetupStep(client.faults, old(client.State()), f)
    ensures var made := !client.faults(old(client.calls)) && SetupChainName(f) !in old(client.chains);
            !ok ==> client.chains == if made then old(client.chains)[SetupChainName(f) := []] else old(client.chains)
    ensures ok ==> SetupChainName(f) !in old(client.chains) && client.chains.Keys == old(client.chains).Keys + {SetupChainName(f)}
    ensures ok ==> var (c, r) := SetupRule(f); c in client.chains && r in client.chains[c]
  {
    match f
    case SetupSGFallbackChain =>
      ok := SetupChain(client, SG_FALLBACK);
      if !ok { return; }
      ok := client.AppendUnique(SG_FALLBACK, Rule(Any, Drop));
    case SetupSGChain =>
      ok := SetupChain(client, SG);
      if !ok { return; }
      ok := client.AppendUnique(SG, Rule(Any, Accept));
    case SetupINPUT =>
      ok := SetupChain(client, CALLISTO_INPUT);
      if !ok { return; }
      ok := client.AppendUnique(INPUT, Rule(Any, Jump(CALLISTO_INPUT)));
    case SetupFORWARD =>
      ok := SetupChain(client, CALLISTO_FORWARD);
      if !ok { return; }
      ok := client.AppendUnique(FORWARD, Rule(Any, Jump(CALLISTO_FORWARD)));
  }

  method SetupDefaultSecurityGroup(client: IPTables) returns (ok: bool)
    modifies client
    ensures Outcome(client.State(), ok) == Setup(client.faults, old(client.State()))
    ensures INPUT in old(client.chains) && FORWARD in old(client.chains) ==>
              forall n :: FirstFailure(client.faults, old(client.State()), n) ==>
                (ok <==> n == 8) && client.chains == LeftBySetup(old(client.chains), n)
  {
    if INPUT in client.chains && FORWARD in client.chains {
      SetupLeavesWhereItFails(client.faults, client.State());
    }
    ghost var start := client.State();
    for i := 0 to |SETUP_FUNCTIONS|
      invariant SetupFrom(client.faults, client.State(), i) == Setup(client.faults, start)
    {
      ok := RunSetupFunction(SETUP_FUNCTIONS[i], client);
      if !ok { return; }
    }
    return true;
  }

  // ---------- addSecurityGroup ----------

  /** The loop that the six add functions share: positional inserts 1, 2, 3, ...
      and on a refusal ClearChain and DeleteChain, whose answers are ignored. */
  method InsertRules(client: IPTables, chain: string, rules: seq<Rule>) returns (ok: bool)
    requires rules != []
    modifies client
    ensures Outcome(client.State(), ok) == Install(client.faults, old(client.State()), chain, rules)
  {
    ghost var start := client.State();
    for i := 0 to |rules|
      invariant client.calls == start.calls + i
      invariant client.chains.Keys == start.chains.Keys
      invariant forall j :: 0 <= j < i ==> !Refused(client.faults, start, chain, rules[j], j)
      invariant i == 0 ==> client.chains == start.chains
      invariant i > 0 ==> chain in start.chains && client.chains == start.chains[chain := rules[..i] + start.chains[chain]]
    {
      ok := client.Insert(chain, i + 1, rules[i]);
      if !ok {
        assert Refused(client.faults, start, chain, rules[i], i);
        assert Taken(client.faults, start, chain, rules) == i;
        client.ClearChain(chain);
        DiscardIsClearThenDelete(start.chains, client.chains, chain);
        var _ := client.DeleteChain(chain);
        return false;
      }
      if chain in start.chains {
        assert rules[..i + 1] == rules[..i] + [rules[i]];
        assert (rules[..i] + start.chains[chain])[..i] == rules[..i];
        assert (rules[..i] + start.chains[chain])[i..] == start.chains[chain];
        assert rules[..i] + [rules[i]] + start.chains[chain] == rules[..i + 1] + start.chains[chain];
      }
    }
    assert Taken(client.faults, start, chain, rules) == |rules|;
    assert rules[..|rules|] == rules;
    return true;
  }

  /** ClearChain leaves every other chain alone, so DeleteChain then decides as `Discard` does. */
  lemma DiscardIsClearThenDelete(t: Chains, cleared: Chains, chain: string)
    requires cleared == t[chain := []]
    ensures Discard(t, chain) == if Referenced(cleared, chain) then cleared else cleared - {chain}
  {
    assert cleared - {chain} == t - {chain};
    if Referenced(cleared, chain) {
      var c :| c in cleared && exists r | r in cleared[c] :: r.target == Jump(chain);
      var r: Rule :| r in cleared[c] && r.target == Jump(chain);
      assert c in t - {chain} && r in (t - {chain})[c];
    }
    if Referenced(t - {chain}, chain) {
      var c :| c in t - {chain} && exists r | r in (t - {chain})[c] :: r.target == Jump(chain);
      var r: Rule :| r in (t - {chain})[c] && r.target == Jump(chain);
      assert c in cleared && r in cleared[c];
    }
  }

  method RunAddFunction(f: AddFunction, client: IPTables, intf: Link) returns (ok: bool)
    modifies client
    ensures Outcome(client.State(), ok) == AddStep(client.faults, old(client.State()), f, intf)
  {
    if MakesChain(f) {
      ok := SetupChain(client, ChainOf(f, intf));
      if !ok { return; }
    }
    ok := InsertRules(client, ChainOf(f, intf), RulesOf(f, intf));
  }

  method AddSecurityGroup(client: IPTables, intf: Link) returns (ok: bool)
    modifies client
    ensures var r := Add(client.faults, old(client.State()), intf);
            client.State() == r.state && (ok <==> r.done == |ADD_FUNCTIONS|)
  {
    ghost var start := client.State();
    for i := 0 to |ADD_FUNCTIONS|
      invariant AddFrom(client.faults, client.State(), intf, i) == Add(client.faults, start, intf)
    {
      ok := RunAddFunction(ADD_FUNCTIONS[i], client, intf);
      if !ok { return; }
    }
    return true;
  }
}

/** What refusals by the environment do to a call, and to the packets. */
module Failures {
  import opened Rules
  import opened ChainNames
  import opened SecurityGroup
  import opened Policy
  import opened Traversal
  import opened Installation
  import opened Runs
  import opened SharedChains

  // ---------- failures in the chain-making functions ----------

  /** Failure invisibility, on any closed table: a call that fails in one of its
      first three functions leaves every chain with its rules, the chain of the
      failing function is absent unless it was there before, and every packet
      handed to any earlier chain gets the same verdict. */
  lemma {:induction false} EarlyFailureIsInvisible(faults: Faults, s: State, l: Link, depth: nat, c: string, p: Packet)
    requires Closed(s.chains)
    requires Add(faults, s, l).done < 3
    ensures var r := Add(faults, s, l);
            var own := ChainOf(ADD_FUNCTIONS[r.done], l);
            && r.state.chains == After(s.chains, l, r.done)
            && (c in s.chains ==> Decide(r.state.chains, depth, c, p) == Decide(s.chains, depth, c, p))
            && (own in r.state.chains <==> own in s.chains)
  {
    var r := Add(faults, s, l);
    AddResult(faults, s, l);
    ChainsMade(s.chains, l, r.done);
    OwnChainIsNew(s.chains, l, r.done);
    if c in s.chains {
      EvalFrame(s.chains, r.state.chains, depth, s.chains[c], p);
    }
  }

  lemma OwnChainIsNew(t: Chains, l: Link, k: nat)
    requires k < 3
    ensures ChainOf(ADD_FUNCTIONS[k], l) in After(t, l, k) <==> ChainOf(ADD_FUNCTIONS[k], l) in t
  {
    KeysAfter(t, l, k);
    TouchedSoFar(l, k);
    GeneratedNamesCoincide(SOURCE_PREFIX, l.name, OUTPUT_PREFIX, l.name);
    GeneratedNamesCoincide(SOURCE_PREFIX, l.name, INPUT_PREFIX, l.name);
    GeneratedNamesCoincide(INPUT_PREFIX, l.name, OUTPUT_PREFIX, l.name);
  }

  /** The source chain outlives the rollback: even when it is callisto-sg-chain,
      because the link's output chain then jumps to it. */
  lemma {:induction false} RollbackKeepsSource(t: Chains, l: Link, k: nat)
    requires 1 <= k < |ADD_FUNCTIONS|
    requires k >= 3 ==> OutputName(l.name) !in After(t, l, 1)
    ensures SourceName(l.name) in Undone(t, l, k)
  {
    SourceIsMade(t, l, k);
    GeneratedNameIsFixed(SOURCE_PREFIX, l.name);
    FixedNamesDiffer();
    if k == 3 && SourceName(l.name) == SG {
      OutputHasItsRules(t, l);
      var o, jump := OutputName(l.name), OutputRules(l)[1];
      assert o in After(t, l, 3) - {SG} && jump in (After(t, l, 3) - {SG})[o] && jump.target == Jump(SG);
    }
  }

  lemma SourceIsMade(t: Chains, l: Link, k: nat)
    requires 1 <= k <= |ADD_FUNCTIONS|
    ensures SourceName(l.name) in After(t, l, k)
  {
    KeysAfter(t, l, k);
    TouchedSoFar(l, k);
  }

  lemma OutputHasItsRules(t: Chains, l: Link)
    requires OutputName(l.name) !in After(t, l, 1)
    ensures Holds(After(t, l, 3), OutputName(l.name), OutputRules(l)) && OutputName(l.name) != SG
  {
    AfterMakes(t, l, 2);
    LinkNamesDiffer(l);
    GeneratedNameIsFixed(OUTPUT_PREFIX, l.name);
    assert SG in FIXED;
    assert After(t, l, 3) == After(t, l, 2)[InputName(l.name) := InputRules(l) + RulesAt(After(t, l, 2), InputName(l.name))];
  }

  lemma {:induction false} AddKeepsSource(faults: Faults, s: State, l: Link)
    requires Closed(s.chains)
    requires Add(faults, s, l).done >= 1
    ensures var t' := Add(faults, s, l).state.chains; Closed(t') && SourceName(l.name) in t'
  {
    var k := Add(faults, s, l).done;
    AddResult(faults, s, l);
    AddKeepsInvariant(faults, s, l, 0);
    if k < |ADD_FUNCTIONS| {
      RollbackKeepsSource(s.chains, l, k);
    } else {
      SourceIsMade(s.chains, l, k);
    }
  }

  /** A call whose first function failed changes nothing; any other call, whether
      it completed or failed, blocks its name: every later call for an interface
      with the same first 19 characters is refused at once and changes nothing,
      whatever the environment does. */
  lemma {:induction false} AddBlocksItsName(faults: Faults, later: Faults, s: State, l: Link, m: Link)
    requires Closed(s.chains)
    requires Stem(m.name) == Stem(l.name)
    ensures var r := Add(faults, s, l);
            var again := Add(later, r.state, m);
            if r.done == 0 then r.state.chains == s.chains
            else again.done == 0 && again.state.chains == r.state.chains
  {
    var r := Add(faults, s, l);
    AddResult(faults, s, l);
    if r.done >= 1 {
      AddKeepsSource(faults, s, l);
      GeneratedNamesCoincide(SOURCE_PREFIX, m.name, SOURCE_PREFIX, l.name);
      AddResult(later, r.state, m);
    }
  }

  // ---------- failures in the functions on shared chains ----------

  /** Once a link is managed, callisto-FORWARD jumps to callisto-sg-chain. */
  lemma {:induction false} PinnedByLinks(faults: Faults, s: State, links: seq<Link>, l: Link)
    requires Realizes(s.chains, links) && Add(faults, s, l).done >= 3
    ensures links != [] ==> Pinned(After(s.chains, l, 3))
  {
    var all := Linked(links, Accepting, links);
    AddResult(faults, s, l);
    LinkChainsAreNotShared(l);
    ChainsCarry(s.chains, all, l, 3);
    if links != [] {
      ForwardPins(After(s.chains, l, 3), all);
    }
  }

  /** The shared chains after a late failure: the rollback empties callisto-sg-chain,
      or deletes it when nothing jumps to it, or it empties callisto-FORWARD. */
  lemma {:induction false} LateFailureLeaves(faults: Faults, s: State, links: seq<Link>, l: Link) returns (e: Shared)
    requires Realizes(s.chains, links) && 3 <= Add(faults, s, l).done < 6
    ensures Carries(Add(faults, s, l).state.chains, e)
    ensures if Add(faults, s, l).done > 3 then e.Linked? && e.forward == []
            else e == Linked([], Lost, links) || (e == Severed && links == [])
    ensures NoChainLink(links)
  {
    var all, r := Linked(links, Accepting, links), Add(faults, s, l);
    CallCarries(faults, s, all, l);
    PinnedByLinks(faults, s, links, l);
    e := Evolve(all, l, r.done, Pinned(After(s.chains, l, 3)));
  }

  /** The exact verdict after a late failure, for every packet: only the rules of
      addINPUTRules are left, or none. */
  lemma {:induction false} LateFailureVerdict(faults: Faults, s: State, links: seq<Link>, l: Link, depth: nat, p: Packet)
    requires Realizes(s.chains, links) && depth >= 3
    requires 3 <= Add(faults, s, l).done < 6
    ensures var r := Add(faults, s, l);
            Decide(r.state.chains, depth, CALLISTO_FORWARD, p) ==
            if r.done == 3 then InputRulesVerdict(ToSet(links), p) else Through
  {
    var e := LateFailureLeaves(faults, s, links, l);
    CarriedVerdict(Add(faults, s, l).state.chains, e, depth + 1, p);
  }

  /** A failed call is invisible to all packets if and only if it failed in one
      of its first three functions, or no link was managed yet. */
  lemma {:induction false} FailureIsInvisibleIff(faults: Faults, s: State, links: seq<Link>, l: Link)
    requires Realizes(s.chains, links)
    requires Add(faults, s, l).done < 6
    ensures var r := Add(faults, s, l);
            (forall p :: Decide(r.state.chains, 3, CALLISTO_FORWARD, p) == Decide(s.chains, 3, CALLISTO_FORWARD, p))
            <==> r.done < 3 || links == []
  {
    var r := Add(faults, s, l);
    if r.done < 3 {
      forall p ensures Decide(r.state.chains, 3, CALLISTO_FORWARD, p) == Decide(s.chains, 3, CALLISTO_FORWARD, p) {
        EarlyFailureIsInvisible(faults, s, l, 3, CALLISTO_FORWARD, p);
      }
    } else {
      forall p ensures Decide(s.chains, 3, CALLISTO_FORWARD, p) == PolicyVerdict(ToSet(links), p) {
        TableImplementsPolicy(s.chains, links, 4, p);
      }
      forall p ensures Decide(r.state.chains, 3, CALLISTO_FORWARD, p) ==
                       if r.done == 3 then InputRulesVerdict(ToSet(links), p) else Through {
        LateFailureVerdict(faults, s, links, l, 3, p);
      }
      if links != [] {
        SomeVerdictChanges(links);
      }
    }
  }

  /** The same in terms of what is refused: a call for a free name changes no
      verdict if and only if the refused client call is one of its first 20, or
      no link was managed yet. */
  lemma {:induction false} RefusalIsInvisibleIff(faults: Faults, s: State, links: seq<Link>, l: Link, n: nat)
    requires Realizes(s.chains, links) && WellFormed(l)
    requires SourceName(l.name) !in s.chains && OutputName(l.name) !in s.chains && InputName(l.name) !in s.chains
    requires n < 25 && Granted(faults, s.calls, s.calls + n) && faults(s.calls + n)
    ensures var t' := Add(faults, s, l).state.chains;
            (forall p :: Decide(t', 3, CALLISTO_FORWARD, p) == Decide(s.chains, 3, CALLISTO_FORWARD, p))
            <==> n < 20 || links == []
  {
    LinkIsAllReady(s.chains, l, 0, 6);
    AddStopsAt(faults, s, l, 6, n);
    FailureIsInvisibleIff(faults, s, links, l);
  }

  lemma SomeVerdictChanges(links: seq<Link>)
    requires links != []
    ensures exists p :: PolicyVerdict(ToSet(links), p) !in {InputRulesVerdict(ToSet(links), p), Through}
  {
    var m := links[0];
    var request := Packet(true, m.name, m.name, 0, [], Udp, 68, 67, New);
    assert m in ToSet(links) && Managed(ToSet(links), request) && Passes(ToSet(links), request);
    assert PolicyVerdict(ToSet(links), request) == Accepted;
  }
}

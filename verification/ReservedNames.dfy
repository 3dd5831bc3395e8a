/** What the two reserved interface names do on a host where setup has not run.

    The source chain of a link is named by a prefix and the interface name; so the
    source chain of an interface `g-fallback` is the fallback chain of setup, and
    that of `g-chain` is callisto-sg-chain.  An add for the first name makes the
    fallback chain, with source rules in it; an add for the second then makes
    callisto-sg-chain, puts the source rules into it, and in its fourth function the
    jump to the output chain, which jumps back.  So without any refusal by the
    environment two calls make a table with a circle.  No packet enters it from
    FORWARD, because FORWARD has no rule before setup.

    `Circles.dfy` and `Stranding.dfy` say exactly when a circle can arise and when
    packets can enter it, and `BeforeSetup.dfy` what such adds do to a later setup. */
module ReservedNames {
  import opened Basics
  import opened Rules
  import opened ChainNames
  import opened SecurityGroup
  import opened Policy
  import opened Traversal
  import opened Installation
  import opened Runs

  const MAC: seq<Octet> := [0, 0, 0, 0, 0, 0]
  const FALLBACK_LINK := Link("g-fallback", V4(0), MAC)
  const CHAIN_LINK := Link("g-chain", V4(0), MAC)

  lemma ReservedSources()
    ensures SourceName(FALLBACK_LINK.name) == SG_FALLBACK && SourceName(CHAIN_LINK.name) == SG
    ensures SG_FALLBACK != SG && Stem(FALLBACK_LINK.name) != Stem(CHAIN_LINK.name)
  {
    GeneratedNameIsFixed(SOURCE_PREFIX, FALLBACK_LINK.name);
    GeneratedNameIsFixed(SOURCE_PREFIX, CHAIN_LINK.name);
    FixedNamesDiffer();
    assert |FALLBACK_LINK.name| != |CHAIN_LINK.name|;
  }

  /** A call gets as far as the first shared chain that is missing. */
  lemma {:induction false} StopsAtMissingChain(s: State, l: Link, k: nat)
    requires 3 <= k <= 4 && Closed(s.chains) && WellFormed(l)
    requires SourceName(l.name) !in s.chains && OutputName(l.name) !in s.chains && InputName(l.name) !in s.chains
    requires SG_FALLBACK in s.chains || SourceName(l.name) == SG_FALLBACK
    requires if k == 3 then SG !in s.chains.Keys + Touched(l, 3)
             else SourceName(l.name) == SG && CALLISTO_FORWARD !in s.chains.Keys + Touched(l, 4)
    ensures Add(NO_FAULTS, s, l).state.chains == After(s.chains, l, k)
    ensures After(s.chains, l, k).Keys == s.chains.Keys + Touched(l, k)
  {
    LinkIsAllReady(s.chains, l, 0, k);
    KeysAfter(s.chains, l, k);
    var m := AddReaches(NO_FAULTS, s, s.chains, l, 0, k);
    StopsHere(NO_FAULTS, m, l, k);
    AddFromResult(NO_FAULTS, m, s.chains, l, k);
    DiscardMissing(m.chains, ChainOf(ADD_FUNCTIONS[k], l));
  }

  /** The first call makes a chain under the name of the fallback chain and
      stops at the missing callisto-sg-chain. */
  lemma {:induction false} FirstCall()
    ensures Add(NO_FAULTS, INITIAL, FALLBACK_LINK).state.chains.Keys == {INPUT, FORWARD} + Touched(FALLBACK_LINK, 3)
  {
    ReservedSources();
    MadeNamesAreNotFixed(FALLBACK_LINK.name);
    FixedNamesDiffer();
    TouchedSoFar(FALLBACK_LINK, 3);
    StopsAtMissingChain(INITIAL, FALLBACK_LINK, 3);
  }

  lemma NamesOfSecondCall(names: set<string>)
    requires names == {INPUT, FORWARD} + Touched(FALLBACK_LINK, 3)
    ensures SourceName(CHAIN_LINK.name) == SG && SG_FALLBACK in names
    ensures SG !in names && OutputName(CHAIN_LINK.name) !in names && InputName(CHAIN_LINK.name) !in names
    ensures CALLISTO_FORWARD !in names + Touched(CHAIN_LINK, 4)
  {
    var l := CHAIN_LINK;
    ReservedSources();
    MadeNamesAreNotFixed(l.name);
    MadeNamesAreNotFixed(FALLBACK_LINK.name);
    FixedNamesDiffer();
    TouchedSoFar(FALLBACK_LINK, 3);
    TouchedSoFar(l, 4);
    GeneratedNamesCoincide(OUTPUT_PREFIX, l.name, OUTPUT_PREFIX, FALLBACK_LINK.name);
    GeneratedNamesCoincide(OUTPUT_PREFIX, l.name, INPUT_PREFIX, FALLBACK_LINK.name);
    GeneratedNamesCoincide(INPUT_PREFIX, l.name, INPUT_PREFIX, FALLBACK_LINK.name);
    GeneratedNamesCoincide(INPUT_PREFIX, l.name, OUTPUT_PREFIX, FALLBACK_LINK.name);
  }

  /** A call whose source chain is callisto-sg-chain puts its two jumps in front of it. */
  lemma {:induction false} SecondCall(s: State, l: Link)
    requires Closed(s.chains) && WellFormed(l)
    requires SourceName(l.name) == SG && SG_FALLBACK in s.chains
    requires SG !in s.chains && OutputName(l.name) !in s.chains && InputName(l.name) !in s.chains
    requires CALLISTO_FORWARD !in s.chains.Keys + Touched(l, 4)
    ensures Circular(Add(NO_FAULTS, s, l).state.chains, l)
  {
    StopsAtMissingChain(s, l, 4);
    ChainsAfterFour(s.chains, l);
  }

  /** The link's output chain jumps to callisto-sg-chain and back again. */
  predicate Circular(t: Chains, l: Link) {
    && SourceName(l.name) == SG
    && SG in t && SgBlock(l) <= t[SG]
    && Holds(t, OutputName(l.name), OutputRules(l))
  }

  lemma ChainsAfterFour(t: Chains, l: Link)
    requires SourceName(l.name) == SG && SG !in t && OutputName(l.name) !in t && InputName(l.name) !in t
    ensures Circular(After(t, l, 4), l)
  {
    LinkNamesDiffer(l);
    KeysAfter(t, l, 1);
    KeysAfter(t, l, 2);
    TouchedSoFar(l, 1);
    TouchedSoFar(l, 2);
    ChainsMade(t, l, 3);
    assert After(t, l, 4) == After(t, l, 3)[SG := SgBlock(l) + RulesAt(After(t, l, 3), SG)];
  }

  /** A packet that enters by the link, and is not UDP, goes round and round. */
  lemma {:induction false} GoesInCircles(t: Chains, l: Link, depth: nat, p: Packet)
    requires Circular(t, l)
    requires p.bridged && p.physIn == l.name && p.physOut != l.name && p.proto != Udp
    ensures Eval(t, depth, t[SG], p) == Stuck
    decreases depth
  {
    var b, o := SgBlock(l), OutputRules(l);
    assert t[SG][1..][0] == b[1];
    assert Eval(t, depth, t[SG], p) == Eval(t, depth, t[SG][1..], p);
    if depth >= 1 {
      assert o[1..][0] == o[1];
      assert Eval(t, depth - 1, o, p) == Eval(t, depth - 1, o[1..], p);
      if depth >= 2 {
        GoesInCircles(t, l, depth - 2, p);
      }
    }
  }

  /** Two calls on a fresh host reach a table on which no number of nested jumps
      is enough for some packets in callisto-sg-chain, while FORWARD, which is
      empty, lets every packet through. */
  lemma {:induction false} ReservedNamesLoop(depth: nat, p: Packet)
    requires p.bridged && p.physIn == CHAIN_LINK.name && p.physOut != CHAIN_LINK.name && p.proto != Udp
    ensures var t := Run(NO_FAULTS, INITIAL, [CallAdd(FALLBACK_LINK), CallAdd(CHAIN_LINK)]).chains;
            Closed(t) && Decide(t, depth, SG, p) == Stuck && Decide(t, depth, FORWARD, p) == Through
  {
    BuiltinIsNoTarget(FALLBACK_LINK, FORWARD);
    BuiltinIsNoTarget(CHAIN_LINK, FORWARD);
    AddKeepsChain(NO_FAULTS, INITIAL, FALLBACK_LINK, FORWARD);
    var s := Add(NO_FAULTS, INITIAL, FALLBACK_LINK).state;
    TwoCalls(FALLBACK_LINK, CHAIN_LINK);
    RunKeepsInvariant(NO_FAULTS, INITIAL, [CallAdd(FALLBACK_LINK)]);
    RunKeepsInvariant(NO_FAULTS, INITIAL, [CallAdd(FALLBACK_LINK), CallAdd(CHAIN_LINK)]);
    FirstCall();
    NamesOfSecondCall(s.chains.Keys);
    SecondCall(s, CHAIN_LINK);
    AddKeepsChain(NO_FAULTS, s, CHAIN_LINK, FORWARD);
    GoesInCircles(Add(NO_FAULTS, s, CHAIN_LINK).state.chains, CHAIN_LINK, depth, p);
  }

  lemma TwoCalls(l: Link, m: Link)
    ensures Run(NO_FAULTS, INITIAL, [CallAdd(l)]) == Add(NO_FAULTS, INITIAL, l).state
    ensures Run(NO_FAULTS, INITIAL, [CallAdd(l), CallAdd(m)]) == Add(NO_FAULTS, Add(NO_FAULTS, INITIAL, l).state, m).state
  {
    var s := Add(NO_FAULTS, INITIAL, l).state;
    assert [CallAdd(l)][1..] == [] && [CallAdd(l), CallAdd(m)][1..] == [CallAdd(m)] && [CallAdd(m)][1..] == [];
    assert Run(NO_FAULTS, s, [CallAdd(m)]) == Add(NO_FAULTS, s, m).state;
  }
}

/** What one call, refused anywhere, leaves of the two shared chains, and what
    that means for every packet. */
module SharedChains {
  import opened Rules
  import opened ChainNames
  import opened SecurityGroup
  import opened Policy
  import opened Traversal
  import opened Installation
  import opened Runs

  /** How a call that completed `done` functions leaves the two shared chains;
      `pinned` says whether another chain jumps to callisto-sg-chain, so that a
      rollback empties it instead of deleting it. */
  function Evolve(s: Shared, l: Link, done: nat, pinned: bool): Shared {
    if s.Severed? then (if l.name == "g-chain" then Remake(l, done) else s)
    else if done < 3 then s
    else if done == 3 then (if pinned then Linked([], Lost, s.forward) else Severed)
    else Linked([l] + s.sg, s.tail, if done < 6 then [] else [l] + s.forward)
  }

  /** An add of `g-chain` makes callisto-sg-chain anew, as its source chain. */
  function Remake(l: Link, done: nat): Shared {
    if done == 0 then Severed
    else if done < 3 then Linked([], Sources(l), [])
    else if done == 3 then Linked([], Lost, [])
    else Linked([], Looping(l), if done < 6 then [] else [l])
  }

  // ---------- the rollbacks ----------

  /** Whether a rollback of callisto-sg-chain can only empty it. */
  predicate Pinned(t: Chains) { Referenced(t - {SG}, SG) }

  lemma ForwardPins(t: Chains, s: Shared)
    requires s.Linked? && Carries(t, s) && s.forward != []
    ensures Pinned(t)
  {
    FixedNamesDiffer();
    var r := ForwardRules(s.forward)[0];
    assert r.target == Jump(SG) && r in ForwardRules(s.forward);
    assert CALLISTO_FORWARD in t - {SG} && r in (t - {SG})[CALLISTO_FORWARD];
  }

  /** callisto-sg-chain emptied, or deleted. */
  lemma {:induction false} SgEmptiedCarries(t: Chains, s: Shared)
    requires s.Linked? && Carries(t, s) && Closed(t[SG := []])
    ensures Carries(t[SG := []], Linked([], Lost, s.forward))
  {
    SharedUpdateKeepsBase(t, SG, []);
    SharedUpdate(t, SG, []);
    FixedNamesDiffer();
  }

  lemma {:induction false} SgDeletedCarries(t: Chains, s: Shared)
    requires s.Linked? && Carries(t, s) && Closed(t - {SG}) && s.forward == []
    ensures Carries(t - {SG}, Severed)
  {
    FixedNamesDiffer();
  }

  /** callisto-sg-chain through the rollback. */
  lemma {:induction false} SgDiscardCarries(t: Chains, s: Shared)
    requires s.Linked? && Carries(t, s)
    ensures Carries(Discard(t, SG), if Pinned(t) then Linked([], Lost, s.forward) else Severed)
  {
    DiscardKeepsInvariant(t, SG);
    if Pinned(t) {
      SgEmptiedCarries(t, s);
    } else {
      if s.forward != [] {
        ForwardPins(t, s);
      }
      SgDeletedCarries(t, s);
    }
  }

  /** FORWARD jumps to callisto-FORWARD, so a rollback only empties it. */
  lemma ForwardIsDiscarded(t: Chains)
    requires Holds(t, FORWARD, BASE[FORWARD])
    ensures Discard(t, CALLISTO_FORWARD) == t[CALLISTO_FORWARD := []]
  {
    FixedNamesDiffer();
    var jump := Rule(Any, Jump(CALLISTO_FORWARD));
    assert FORWARD in t - {CALLISTO_FORWARD} && jump in (t - {CALLISTO_FORWARD})[FORWARD];
  }

  lemma {:induction false} ForwardDiscardCarries(t: Chains, s: Shared)
    requires s.Linked? && Carries(t, s)
    ensures Carries(t[CALLISTO_FORWARD := []], s.(forward := []))
  {
    ForwardIsDiscarded(t);
    DiscardKeepsInvariant(t, CALLISTO_FORWARD);
    SharedUpdateKeepsBase(t, CALLISTO_FORWARD, []);
    SharedUpdate(t, CALLISTO_FORWARD, []);
    FixedNamesDiffer();
  }

  // ---------- the tables of one call ----------

  /** The table after three functions, with the block of the fourth. */
  function WithSgBlock(t3: Chains, l: Link): Chains {
    t3[SG := SgBlock(l) + RulesAt(t3, SG)]
  }

  lemma {:induction false} FourthAndFifth(t: Chains, l: Link)
    requires SG in After(t, l, 3) && CALLISTO_FORWARD in After(t, l, 3)
    ensures var t4 := WithSgBlock(After(t, l, 3), l);
            && After(t, l, 4) == t4 && CALLISTO_FORWARD in t4
            && After(t, l, 5) == t4[CALLISTO_FORWARD := InputBlock(l) + t4[CALLISTO_FORWARD]]
  {
    FixedNamesDiffer();
  }

  lemma ForwardStays(t3: Chains, l: Link, rules: seq<Rule>)
    requires Holds(t3, FORWARD, BASE[FORWARD])
    ensures var t4 := WithSgBlock(t3, l);
            Holds(t4, FORWARD, BASE[FORWARD]) && Holds(t4[CALLISTO_FORWARD := rules], FORWARD, BASE[FORWARD])
  {
    FixedNamesDiffer();
  }

  /** The tables of a call that stops in its fifth or sixth function. */
  lemma {:induction false} LateUndone(t: Chains, l: Link, k: nat)
    requires var t3 := After(t, l, 3); SG in t3 && CALLISTO_FORWARD in t3 && Holds(t3, FORWARD, BASE[FORWARD])
    requires k == 4 || k == 5
    ensures Undone(t, l, k) == WithSgBlock(After(t, l, 3), l)[CALLISTO_FORWARD := []]
  {
    FourthAndFifth(t, l);
    ForwardStays(After(t, l, 3), l, InputBlock(l) + RulesAt(After(t, l, 4), CALLISTO_FORWARD));
    ForwardIsDiscarded(After(t, l, k));
    if k == 4 {
      assert ADD_FUNCTIONS[4] == AddINPUTRules;
    } else {
      assert ADD_FUNCTIONS[5] == AddFORWARDRules;
    }
  }

  lemma {:induction false} AllSix(t: Chains, l: Link)
    requires SG in After(t, l, 3) && CALLISTO_FORWARD in After(t, l, 3)
    ensures var t4 := WithSgBlock(After(t, l, 3), l);
            CALLISTO_FORWARD in t4 &&
            After(t, l, 6) == t4[CALLISTO_FORWARD := ForwardBlock(l) + InputBlock(l) + t4[CALLISTO_FORWARD]]
  {
    FixedNamesDiffer();
    BlocksOnTop(t, l);
  }

  /** The table a call leaves: that of its last function, or what the rollback makes of it. */
  function TableLeft(t: Chains, l: Link, done: nat): Chains
    requires done <= |ADD_FUNCTIONS|
  {
    if done == |ADD_FUNCTIONS| then After(t, l, done) else Undone(t, l, done)
  }

  /** What such a call does to the table `t4` with its block in callisto-sg-chain. */
  function ForwardDone(t4: Chains, l: Link, all: bool): Chains {
    t4[CALLISTO_FORWARD := if all then ForwardBlock(l) + InputBlock(l) + RulesAt(t4, CALLISTO_FORWARD) else []]
  }

  lemma {:induction false} LateTable(t: Chains, l: Link, k: nat)
    requires SG in After(t, l, 3) && CALLISTO_FORWARD in After(t, l, 3) && 4 <= k <= 6
    requires Holds(After(t, l, 3), FORWARD, BASE[FORWARD])
    ensures TableLeft(t, l, k) == ForwardDone(WithSgBlock(After(t, l, 3), l), l, k == 6)
  {
    if k < 6 {
      LateUndone(t, l, k);
    } else {
      AllSix(t, l);
    }
  }

  lemma {:induction false} ForwardDoneCarries(t4: Chains, l: Link, s4: Shared, all: bool)
    requires s4.Linked? && Carries(t4, s4) && HasChains(t4, l)
    ensures Carries(ForwardDone(t4, l, all), s4.(forward := if all then [l] + s4.forward else []))
  {
    if all {
      ForwardGrows(t4, s4, l);
    } else {
      ForwardDiscardCarries(t4, s4);
    }
  }

  // ---------- a call for an ordinary name ----------

  lemma {:induction false} ChainsCarry(t: Chains, s: Shared, l: Link, k: nat)
    requires Carries(t, s) && l.name != "g-chain" && 1 <= k <= 3 && Closed(After(t, l, k))
    requires SourceName(l.name) !in t && (k >= 2 ==> OutputName(l.name) !in After(t, l, 1))
    requires k >= 3 ==> InputName(l.name) !in After(t, l, 2)
    ensures Carries(After(t, l, k), s) && (k == 3 ==> HasLinkChains(After(t, l, 3), l))
  {
    ChainsMade(t, l, k);
    KeysAfter(t, l, k);
    TouchedSoFar(l, k);
    LinkChainsAreNotShared(l);
    ExtensionCarries(t, After(t, l, k), s);
  }

  lemma {:induction false} FourthUndoneCarries(t: Chains, s: Shared, l: Link)
    requires Carries(After(t, l, 3), s)
    requires s.Severed? ==> l.name != "g-chain"
    ensures Carries(Undone(t, l, 3), Evolve(s, l, 3, Pinned(After(t, l, 3))))
  {
    assert Undone(t, l, 3) == Discard(After(t, l, 3), SG);
    if s.Severed? {
      DiscardMissing(After(t, l, 3), SG);
    } else {
      SgDiscardCarries(After(t, l, 3), s);
    }
  }

  /** A call that gets beyond its fourth function, from the table after the third. */
  lemma {:induction false} LateCarries(t3: Chains, t4: Chains, s: Shared, l: Link, all: bool)
    requires s.Linked? && Carries(t3, s) && HasLinkChains(t3, l) && l.name != "g-chain"
    requires t4 == WithSgBlock(t3, l)
    ensures Carries(ForwardDone(t4, l, all), Linked([l] + s.sg, s.tail, if all then [l] + s.forward else []))
  {
    SgGrows(t3, s, l);
    ForwardDoneCarries(t4, l, Linked([l] + s.sg, s.tail, s.forward), all);
  }

  // ---------- an add of `g-chain` that finds callisto-sg-chain gone ----------

  /** The three chains of `g-chain`, the first of them callisto-sg-chain itself. */
  lemma {:induction false} ChainsRemade(t: Chains, l: Link, k: nat)
    requires SG !in t && l.name == "g-chain" && 1 <= k <= 3
    requires k >= 2 ==> OutputName(l.name) !in After(t, l, 1)
    requires k >= 3 ==> InputName(l.name) !in After(t, l, 2)
    ensures Holds(After(t, l, k), SG, SourceRules(l))
    ensures k >= 2 ==> Holds(After(t, l, k), OutputName(l.name), OutputRules(l))
    ensures k == 3 ==> Holds(After(t, l, 3), InputName(l.name), InputRules(l))
    ensures forall c :: c in t ==> c in After(t, l, k) && After(t, l, k)[c] == t[c]
  {
    LinkChainsAreNotShared(l);
    LinkNamesDiffer(l);
    AfterMakes(t, l, 1);
    if k >= 2 { AfterMakes(t, l, 2); }
    if k >= 3 { AfterMakes(t, l, 3); }
  }

  lemma {:induction false} RemadeChains(t: Chains, l: Link, k: nat)
    requires Carries(t, Severed) && l.name == "g-chain" && 1 <= k <= 3 && Closed(After(t, l, k))
    requires k >= 2 ==> OutputName(l.name) !in After(t, l, 1)
    requires k >= 3 ==> InputName(l.name) !in After(t, l, 2)
    ensures Carries(After(t, l, k), Linked([], Sources(l), []))
    ensures k >= 2 ==> Holds(After(t, l, k), OutputName(l.name), OutputRules(l))
    ensures k == 3 ==> Holds(After(t, l, 3), InputName(l.name), InputRules(l))
  {
    ChainsRemade(t, l, k);
  }

  lemma OutputPins(t: Chains, l: Link)
    requires l.name == "g-chain" && Holds(t, OutputName(l.name), OutputRules(l))
    ensures Pinned(t)
  {
    LinkChainsAreNotShared(l);
    var o, jump := OutputName(l.name), OutputRules(l)[1];
    assert o in t - {SG} && jump in (t - {SG})[o] && jump.target == Jump(SG);
  }

  /** Its two jumps on top of its source rules close the circle. */
  lemma {:induction false} LoopCloses(t3: Chains, l: Link)
    requires Carries(t3, Linked([], Sources(l), []))
    requires Holds(t3, OutputName(l.name), OutputRules(l)) && Holds(t3, InputName(l.name), InputRules(l))
    ensures Carries(WithSgBlock(t3, l), Linked([], Looping(l), [])) && HasChains(WithSgBlock(t3, l), l)
  {
    var rules := SgBlock(l) + t3[SG];
    PrependKeepsClosed(t3, SG, SgBlock(l));
    SharedUpdateKeepsBase(t3, SG, rules);
    LinkChainsAreNotShared(l);
    FixedNamesDiffer();
  }

  lemma {:induction false} RemakeUndone(t: Chains, l: Link)
    requires Carries(t, Severed) && l.name == "g-chain" && Closed(After(t, l, 3))
    requires OutputName(l.name) !in After(t, l, 1) && InputName(l.name) !in After(t, l, 2)
    ensures Carries(Undone(t, l, 3), Remake(l, 3))
  {
    RemadeChains(t, l, 3);
    assert Undone(t, l, 3) == Discard(After(t, l, 3), SG);
    OutputPins(After(t, l, 3), l);
    SgDiscardCarries(After(t, l, 3), Linked([], Sources(l), []));
  }

  lemma {:induction false} RemakeCarries(t3: Chains, t4: Chains, l: Link, all: bool)
    requires Carries(t3, Linked([], Sources(l), []))
    requires Holds(t3, OutputName(l.name), OutputRules(l)) && Holds(t3, InputName(l.name), InputRules(l))
    requires t4 == WithSgBlock(t3, l)
    ensures Carries(ForwardDone(t4, l, all), Linked([], Looping(l), if all then [l] else []))
  {
    LoopCloses(t3, l);
    assert [l] + [] == [l];
    ForwardDoneCarries(t4, l, Linked([], Looping(l), []), all);
  }

  // ---------- one call ----------

  lemma {:induction false} EarlyCallCarries(faults: Faults, s: State, h: Shared, l: Link)
    requires Carries(s.chains, h) && Add(faults, s, l).done < 3
    ensures var r := Add(faults, s, l); Carries(r.state.chains, Evolve(h, l, r.done, false))
  {
    var k := Add(faults, s, l).done;
    AddResult(faults, s, l);
    LinkChainsAreNotShared(l);
    if k >= 1 {
      AddKeepsInvariant(faults, s, l, 0);
      if l.name == "g-chain" {
        RemadeChains(s.chains, l, k);
      } else {
        ChainsCarry(s.chains, h, l, k);
      }
    }
  }

  lemma {:induction false} FourthCallCarries(faults: Faults, s: State, h: Shared, l: Link)
    requires Carries(s.chains, h) && Add(faults, s, l).done == 3
    ensures Carries(Add(faults, s, l).state.chains, Evolve(h, l, 3, Pinned(After(s.chains, l, 3))))
  {
    AddResult(faults, s, l);
    LinkChainsAreNotShared(l);
    if l.name == "g-chain" {
      RemakeUndone(s.chains, l);
    } else {
      ChainsCarry(s.chains, h, l, 3);
      FourthUndoneCarries(s.chains, h, l);
    }
  }

  /** The table after three functions, as far as the last three ask for it. */
  lemma {:induction false} ThirdTable(t: Chains, h: Shared, l: Link)
    requires Carries(t, h)
    requires SourceName(l.name) !in t && OutputName(l.name) !in After(t, l, 1) && InputName(l.name) !in After(t, l, 2)
    ensures var t3 := After(t, l, 3);
            && CALLISTO_FORWARD in t3 && Holds(t3, FORWARD, BASE[FORWARD])
            && (h.Linked? || l.name == "g-chain" ==> SG in t3)
  {
    ChainsMade(t, l, 3);
    KeysAfter(t, l, 3);
    TouchedSoFar(l, 3);
    LinkChainsAreNotShared(l);
  }

  lemma {:induction false} BeyondOrdinary(t: Chains, t4: Chains, h: Shared, l: Link, k: nat)
    requires h.Linked? && Carries(t, h) && l.name != "g-chain" && 4 <= k <= 6 && Closed(After(t, l, 3))
    requires SourceName(l.name) !in t && OutputName(l.name) !in After(t, l, 1) && InputName(l.name) !in After(t, l, 2)
    requires t4 == WithSgBlock(After(t, l, 3), l)
    ensures Carries(ForwardDone(t4, l, k == 6), Evolve(h, l, k, Pinned(After(t, l, 3))))
  {
    ChainsCarry(t, h, l, 3);
    LateCarries(After(t, l, 3), t4, h, l, k == 6);
  }

  lemma {:induction false} BeyondRemade(t: Chains, t4: Chains, l: Link, all: bool)
    requires Carries(t, Severed) && l.name == "g-chain" && Closed(After(t, l, 3))
    requires OutputName(l.name) !in After(t, l, 1) && InputName(l.name) !in After(t, l, 2)
    requires t4 == WithSgBlock(After(t, l, 3), l)
    ensures Carries(ForwardDone(t4, l, all), Linked([], Looping(l), if all then [l] else []))
  {
    RemadeChains(t, l, 3);
    RemakeCarries(After(t, l, 3), t4, l, all);
  }

  /** The shared chains after a call that gets beyond its fourth function, from its fourth table. */
  lemma {:induction false} BeyondFourth(t: Chains, t4: Chains, h: Shared, l: Link, k: nat)
    requires Carries(t, h) && 4 <= k <= 6 && Closed(After(t, l, 3))
    requires SourceName(l.name) !in t && OutputName(l.name) !in After(t, l, 1) && InputName(l.name) !in After(t, l, 2)
    requires h.Severed? ==> l.name == "g-chain"
    requires t4 == WithSgBlock(After(t, l, 3), l)
    ensures Carries(ForwardDone(t4, l, k == 6), Evolve(h, l, k, Pinned(After(t, l, 3))))
  {
    if h.Severed? {
      BeyondRemade(t, t4, l, k == 6);
    } else {
      LinkChainsAreNotShared(l);
      BeyondOrdinary(t, t4, h, l, k);
    }
  }

  lemma {:induction false} LateCallCarries(faults: Faults, s: State, h: Shared, l: Link)
    requires Carries(s.chains, h) && Add(faults, s, l).done > 3
    requires h.Severed? ==> l.name == "g-chain"
    ensures var r := Add(faults, s, l);
            Carries(r.state.chains, Evolve(h, l, r.done, Pinned(After(s.chains, l, 3))))
  {
    var k, t4 := Add(faults, s, l).done, WithSgBlock(After(s.chains, l, 3), l);
    AddResult(faults, s, l);
    BeyondFourth(s.chains, t4, h, l, k);
    assert Add(faults, s, l).state.chains == ForwardDone(t4, l, k == 6) by {
      ThirdTable(s.chains, h, l);
      LateTable(s.chains, l, k);
    }
  }

  /** A call leaves the shared chains as `Evolve` says, given how far it got. */
  lemma {:induction false} CallCarries(faults: Faults, s: State, h: Shared, l: Link)
    requires Carries(s.chains, h)
    requires h.Severed? && l.name != "g-chain" ==> Add(faults, s, l).done <= 3
    ensures var r := Add(faults, s, l);
            Carries(r.state.chains, Evolve(h, l, r.done, Pinned(After(s.chains, l, 3))))
  {
    if Add(faults, s, l).done < 3 {
      EarlyCallCarries(faults, s, h, l);
    } else if Add(faults, s, l).done == 3 {
      FourthCallCarries(faults, s, h, l);
    } else {
      LateCallCarries(faults, s, h, l);
    }
  }

  // ---------- packets ----------

  predicate SourceOk(l: Link, p: Packet) { l.ip == V4(p.srcIp) && l.mac == p.srcMac }

  /** What the tail of callisto-sg-chain makes of a bridged packet. */
  function TailVerdict(tail: Tail, p: Packet): Verdict {
    match tail
    case Accepting => Accepted
    case Lost => Through
    case Sources(c) => if SourceOk(c, p) then Through else Dropped
    case Looping(c) =>
      if p.physOut == c.name && !IngressOk(p) then Dropped
      else if p.physIn == c.name && !DhcpRequest(p) then Stuck
      else if SourceOk(c, p) then Through else Dropped
  }

  /** What the shared chains make of a packet: the policy, with what failures took from it. */
  ghost function SharedVerdict(s: Shared, p: Packet): Verdict {
    if s.Severed? || !p.bridged || !Managed(ToSet(s.forward), p) then Through
    else if !Passes(ToSet(s.sg), p) then Dropped
    else if TailVerdict(s.tail, p) != Through then TailVerdict(s.tail, p)
    else InputRulesVerdict(ToSet(s.forward), p)
  }

  /** How many nested jumps the verdict takes. */
  function Nesting(s: Shared): nat { if s.Linked? && !NoChainLink(s.forward) then 5 else 4 }

  /** More room for jumps changes a verdict only where there was too little. */
  lemma {:induction false} DeeperAgrees(t: Chains, d: nat, e: nat, rules: seq<Rule>, p: Packet)
    requires d <= e
    ensures Eval(t, d, rules, p) == Stuck || Eval(t, d, rules, p) == Eval(t, e, rules, p)
    decreases d, |rules|
  {
    if rules != [] {
      DeeperAgrees(t, d, e, rules[1..], p);
      var target := rules[0].target;
      if target.Jump? && d > 0 && target.chain in t {
        DeeperAgrees(t, d - 1, e - 1, t[target.chain], p);
      }
    }
  }

  lemma PassingShallow(t: Chains, depth: nat, l: Link, p: Packet)
    requires Holds(t, SG_FALLBACK, [Rule(Any, Drop)])
    ensures IngressOk(p) ==> Eval(t, depth, InputRules(l), p) in {Stuck, Through}
    ensures Holds(t, SourceName(l.name), SourceRules(l)) && EgressOk(l, p) ==> Eval(t, depth, OutputRules(l), p) in {Stuck, Through}
  {
    DeeperAgrees(t, depth, depth + 1, InputRules(l), p);
    EvalInput(t, depth + 1, l, p);
    if Holds(t, SourceName(l.name), SourceRules(l)) {
      DeeperAgrees(t, depth, depth + 1, OutputRules(l), p);
      EvalOutput(t, depth + 1, l, p);
    }
  }

  lemma EvalBlock(t: Chains, depth: nat, l: Link, rest: seq<Rule>, p: Packet)
    requires Holds(t, InputName(l.name), InputRules(l)) && Holds(t, OutputName(l.name), OutputRules(l))
    requires depth > 0 && p.bridged && p.physOut == l.name ==> Eval(t, depth - 1, InputRules(l), p) in {Stuck, Through}
    requires depth > 0 && p.bridged && p.physIn == l.name ==> Eval(t, depth - 1, OutputRules(l), p) in {Stuck, Through}
    ensures Eval(t, depth, SgBlock(l) + rest, p) in {Stuck, Eval(t, depth, rest, p)}
    ensures p.bridged && p.physIn == l.name && (depth == 0 || Eval(t, depth - 1, OutputRules(l), p) == Stuck) ==>
              Eval(t, depth, SgBlock(l) + rest, p) == Stuck
  {
    var b := SgBlock(l);
    assert b + rest == [b[0]] + ([b[1]] + rest);
    assert ([b[0]] + ([b[1]] + rest))[0] == b[0] && ([b[0]] + ([b[1]] + rest))[1..] == [b[1]] + rest;
    assert ([b[1]] + rest)[0] == b[1] && ([b[1]] + rest)[1..] == rest;
  }

  /** The blocks of links that do not object, with however little room. */
  lemma {:induction false} BlocksPass(t: Chains, depth: nat, links: seq<Link>, tail: Tail, p: Packet)
    requires Holds(t, SG_FALLBACK, [Rule(Any, Drop)])
    requires forall l :: l in links ==> HasLinkChains(t, l)
    requires forall l :: l in links ==> PassesLink(l, p)
    ensures Eval(t, depth, SgRules(links, tail), p) in {Stuck, Eval(t, depth, TailRules(tail), p)}
  {
    if links != [] {
      var l := links[0];
      BlocksPass(t, depth, links[1..], tail, p);
      assert HasLinkChains(t, l) && PassesLink(l, p);
      if depth > 0 {
        PassingShallow(t, depth - 1, l, p);
      }
      EvalBlock(t, depth, l, SgRules(links[1..], tail), p);
    }
  }

  /** A packet that enters by `g-chain` and that nobody objects to goes round and round. */
  lemma {:induction false} LoopIsStuck(t: Chains, s: Shared, depth: nat, p: Packet)
    requires s.Linked? && s.tail.Looping? && Carries(t, s) && p.bridged
    requires forall l :: l in s.sg ==> PassesLink(l, p)
    requires TailVerdict(s.tail, p) == Stuck
    ensures Eval(t, depth, t[SG], p) == Stuck
    decreases depth
  {
    var c := s.tail.link;
    BlocksPass(t, depth, s.sg, s.tail, p);
    if depth > 0 {
      if depth > 1 {
        LoopIsStuck(t, s, depth - 2, p);
      }
      OutputLoops(t, depth - 1, c, p);
      PassingShallow(t, depth - 1, c, p);
    }
    EvalBlock(t, depth, c, SourceRules(c), p);
  }

  lemma OutputLoops(t: Chains, depth: nat, c: Link, p: Packet)
    requires c.name == "g-chain" && SG in t && !DhcpRequest(p)
    requires depth > 0 ==> Eval(t, depth - 1, t[SG], p) == Stuck
    ensures Eval(t, depth, OutputRules(c), p) == Stuck
  {
    LinkChainsAreNotShared(c);
    var rs := OutputRules(c);
    EvalSuffixes(t, depth, rs, p);
    EvalCons(t, depth, rs[0], rs[1..], p);
    assert rs[1..][0] == rs[1];
  }

  lemma {:induction false} EvalTail(t: Chains, s: Shared, depth: nat, p: Packet)
    requires s.Linked? && Carries(t, s) && depth >= 2 && p.bridged
    requires forall l :: l in s.sg ==> PassesLink(l, p)
    ensures Eval(t, depth, TailRules(s.tail), p) == TailVerdict(s.tail, p)
  {
    match s.tail
    case Accepting => EvalCons(t, depth, Rule(Any, Accept), [], p);
    case Lost =>
    case Sources(c) => EvalSource(t, depth, c, p);
    case Looping(c) =>
      if TailVerdict(s.tail, p) == Stuck {
        LoopIsStuck(t, s, depth - 2, p);
        OutputLoops(t, depth - 1, c, p);
      }
      EvalLoop(t, depth, c, p);
  }

  /** The block of `g-chain` and its source rules, in terms of its output chain. */
  lemma {:induction false} EvalLoop(t: Chains, depth: nat, c: Link, p: Packet)
    requires HasTailChains(t, Looping(c)) && Holds(t, SG_FALLBACK, [Rule(Any, Drop)])
    requires SG in t && depth >= 2 && p.bridged
    requires p.physIn == c.name && !DhcpRequest(p) ==> Eval(t, depth - 1, OutputRules(c), p) == Stuck || (p.physOut == c.name && !IngressOk(p))
    ensures Eval(t, depth, TailRules(Looping(c)), p) == TailVerdict(Looping(c), p)
  {
    assert TailRules(Looping(c)) == [SgBlock(c)[0]] + ([SgBlock(c)[1]] + SourceRules(c));
    EvalCons(t, depth, SgBlock(c)[0], [SgBlock(c)[1]] + SourceRules(c), p);
    EvalCons(t, depth, SgBlock(c)[1], SourceRules(c), p);
    EvalInput(t, depth - 1, c, p);
    EvalSource(t, depth, c, p);
    LinkChainsAreNotShared(c);
    EvalOutputRules(t, depth - 1, c, p);
  }

  /** callisto-sg-chain, for a bridged packet. */
  lemma {:induction false} EvalWholeSg(t: Chains, s: Shared, depth: nat, p: Packet)
    requires s.Linked? && Carries(t, s) && depth >= 2 && p.bridged
    ensures Eval(t, depth, t[SG], p) == if !Passes(ToSet(s.sg), p) then Dropped else TailVerdict(s.tail, p)
  {
    EvalSg(t, depth, s.sg, s.tail, p);
    if Passes(ToSet(s.sg), p) {
      assert forall l :: l in s.sg ==> l in ToSet(s.sg);
      EvalTail(t, s, depth, p);
    }
  }

  lemma {:induction false} UndecidedVerdict(t: Chains, s: Shared, depth: nat, p: Packet)
    requires s.Linked? && Carries(t, s) && depth + 1 >= Nesting(s) && p.bridged
    requires Eval(t, depth - 1, t[SG], p) == Through
    ensures Eval(t, depth, ForwardRules(s.forward), p) == InputRulesVerdict(ToSet(s.forward), p)
  {
    if !NoChainLink(s.forward) {
      EvalWholeSg(t, s, depth - 1, p);
      EvalWholeSg(t, s, depth - 2, p);
    }
    EvalForwardUndecided(t, depth, s.forward, p);
  }

  /** callisto-FORWARD, for a bridged packet. */
  lemma {:induction false} BridgedVerdict(t: Chains, s: Shared, depth: nat, p: Packet)
    requires s.Linked? && Carries(t, s) && depth + 1 >= Nesting(s) && p.bridged
    ensures Eval(t, depth, ForwardRules(s.forward), p) == SharedVerdict(s, p)
  {
    EvalWholeSg(t, s, depth - 1, p);
    if Eval(t, depth - 1, t[SG], p) == Through {
      UndecidedVerdict(t, s, depth, p);
      NotManagedIsThrough(s.forward, p);
    } else {
      EvalForward(t, depth, s.forward, p);
    }
  }

  lemma NotManagedIsThrough(links: seq<Link>, p: Packet)
    ensures !Managed(ToSet(links), p) ==> InputRulesVerdict(ToSet(links), p) == Through
  {
  }

  /** A table that carries `s` decides every packet as `SharedVerdict` says. */
  lemma {:induction false} CarriedVerdict(t: Chains, s: Shared, depth: nat, p: Packet)
    requires Carries(t, s) && depth >= Nesting(s)
    ensures Decide(t, depth, FORWARD, p) == SharedVerdict(s, p)
    ensures Decide(t, depth - 1, CALLISTO_FORWARD, p) == SharedVerdict(s, p)
  {
    EvalBuiltin(t, depth, p);
    if s.Linked? {
      if p.bridged {
        BridgedVerdict(t, s, depth - 1, p);
      } else {
        EvalForward(t, depth - 1, s.forward, p);
      }
    }
  }
}

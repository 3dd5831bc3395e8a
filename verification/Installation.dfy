/** What one addSecurityGroup call does to a whole table: for every outcome the
    exact table it leaves, and for a realized table what that means for packets. */
module Installation {
  import opened Rules
  import opened ChainNames
  import opened SecurityGroup
  import opened Policy
  import opened Traversal

  function RulesAt(t: Chains, c: string): seq<Rule> {
    if c in t then t[c] else []
  }

  /** The table after the first `k` add functions: each puts its rules in front of its chain. */
  function After(t: Chains, l: Link, k: nat): Chains
    requires k <= |ADD_FUNCTIONS|
    decreases k, l  // `l` keeps a literal `k` from being unrolled
  {
    if k == 0 then t
    else
      var t' := After(t, l, k - 1);
      var f := ADD_FUNCTIONS[k - 1];
      t'[ChainOf(f, l) := RulesOf(f, l) + RulesAt(t', ChainOf(f, l))]
  }

  /** The table a call leaves when its add function number `k` fails: an
      unchanged table if that function makes its own chain, otherwise a table
      without the rules of the shared chain. */
  function Undone(t: Chains, l: Link, k: nat): Chains
    requires k < |ADD_FUNCTIONS|
  {
    var t' := After(t, l, k);
    if MakesChain(ADD_FUNCTIONS[k]) then t' else Discard(t', ChainOf(ADD_FUNCTIONS[k], l))
  }

  // ---------- one add function ----------

  lemma DiscardMissing(t: Chains, c: string)
    requires Closed(t) && c !in t
    ensures Discard(t, c) == t
  {
    assert t - {c} == t;
    assert forall d :: d in t ==> JumpsInto(t.Keys, t[d]);
  }

  lemma DiscardFresh(t: Chains, c: string)
    requires Closed(t) && c !in t
    ensures Discard(t[c := []], c) == t
  {
    assert t[c := []] - {c} == t;
    assert forall d :: d in t ==> JumpsInto(t.Keys, t[d]);
  }

  lemma AddStepResult(faults: Faults, s: State, f: AddFunction, l: Link)
    requires Closed(s.chains)
    ensures var o := AddStep(faults, s, f, l);
            var c := ChainOf(f, l);
            && (o.ok ==> o.state.chains == s.chains[c := RulesOf(f, l) + RulesAt(s.chains, c)])
            && (o.ok ==> (c in s.chains <==> !MakesChain(f)))
            && (!o.ok ==> o.state.chains == if MakesChain(f) then s.chains else Discard(s.chains, c))
  {
    var c := ChainOf(f, l);
    var rules := RulesOf(f, l);
    if MakesChain(f) && NewChain(faults, s, c).ok {
      DiscardFresh(s.chains, c);
    } else if !MakesChain(f) && AddStep(faults, s, f, l).ok {
      assert !Refused(faults, s, c, rules[0], 0);
    }
  }

  lemma {:induction false} AddFromResult(faults: Faults, s: State, t: Chains, l: Link, i: nat)
    requires i <= |ADD_FUNCTIONS|
    requires Closed(s.chains) && s.chains == After(t, l, i)
    ensures var r := AddFrom(faults, s, l, i);
            r.state.chains == if r.done == |ADD_FUNCTIONS| then After(t, l, r.done) else Undone(t, l, r.done)
    decreases |ADD_FUNCTIONS| - i
  {
    if i < |ADD_FUNCTIONS| {
      var f := ADD_FUNCTIONS[i];
      AddStepResult(faults, s, f, l);
      var o := AddStep(faults, s, f, l);
      if o.ok {
        AddStepKeepsInvariant(faults, s, f, l);
        AddFromResult(faults, o.state, t, l, i + 1);
      }
    }
  }

  /** Each completed chain-making function found the name of its chain free. */
  lemma {:induction false} AddFromFoundFree(faults: Faults, s: State, t: Chains, l: Link, i: nat)
    requires i <= |ADD_FUNCTIONS|
    requires Closed(s.chains) && s.chains == After(t, l, i)
    ensures var r := AddFrom(faults, s, l, i);
            && (i == 0 && r.done >= 1 ==> SourceName(l.name) !in t)
            && (i <= 1 && r.done >= 2 ==> OutputName(l.name) !in After(t, l, 1))
            && (i <= 2 && r.done >= 3 ==> InputName(l.name) !in After(t, l, 2))
            && (i <= 3 && r.done >= 3 ==> Closed(After(t, l, 3)))
    decreases |ADD_FUNCTIONS| - i
  {
    if i < 3 {
      var f := ADD_FUNCTIONS[i];
      AddStepResult(faults, s, f, l);
      var o := AddStep(faults, s, f, l);
      if o.ok {
        AddStepKeepsInvariant(faults, s, f, l);
        AddFromFoundFree(faults, o.state, t, l, i + 1);
      }
    }
  }

  /** Every outcome of addSecurityGroup, on every closed table and under every
      pattern of refusals: all six blocks are in front of their chains, or the
      functions before the failing one did their work and the failing one left
      nothing of its own behind. */
  lemma {:induction false} AddResult(faults: Faults, s: State, l: Link)
    requires Closed(s.chains)
    ensures var r := Add(faults, s, l);
            && r.state.chains == (if r.done == |ADD_FUNCTIONS| then After(s.chains, l, r.done) else Undone(s.chains, l, r.done))
            && (r.done >= 1 ==> SourceName(l.name) !in s.chains)
            && (r.done >= 2 ==> OutputName(l.name) !in After(s.chains, l, 1))
            && (r.done >= 3 ==> InputName(l.name) !in After(s.chains, l, 2) && Closed(After(s.chains, l, 3)))
  {
    AddFromResult(faults, s, s.chains, l, 0);
    AddFromFoundFree(faults, s, s.chains, l, 0);
  }

  // ---------- on a realized table ----------

  /** New chains beside the old ones leave the shared chains as they are. */
  lemma ExtensionCarries(t: Chains, t': Chains, s: Shared)
    requires Carries(t, s) && Closed(t')
    requires forall c :: c in t ==> c in t' && t'[c] == t[c]
    requires s.Severed? ==> SG !in t'
    ensures Carries(t', s)
  {
    if s.Linked? {
      forall l | l in s.sg ensures HasLinkChains(t', l) {
        assert HasLinkChains(t, l);
      }
      forall l | l in s.forward ensures HasChains(t', l) {
        assert HasChains(t, l);
      }
    }
  }

  /** A chain-making function sets exactly one new chain. */
  lemma AfterMakes(t: Chains, l: Link, k: nat)
    requires 1 <= k <= 3
    requires ChainOf(ADD_FUNCTIONS[k - 1], l) !in After(t, l, k - 1)
    ensures After(t, l, k) == After(t, l, k - 1)[ChainOf(ADD_FUNCTIONS[k - 1], l) := RulesOf(ADD_FUNCTIONS[k - 1], l)]
  {
    var rules := RulesOf(ADD_FUNCTIONS[k - 1], l);
    assert rules + [] == rules;
  }

  /** After the three chain-making functions every old chain is as before, and
      the new link has its chains. */
  lemma ChainsMade(t: Chains, l: Link, k: nat)
    requires k <= 3
    requires k >= 1 ==> SourceName(l.name) !in t
    requires k >= 2 ==> OutputName(l.name) !in After(t, l, 1)
    requires k >= 3 ==> InputName(l.name) !in After(t, l, 2)
    ensures forall c :: c in t ==> c in After(t, l, k) && After(t, l, k)[c] == t[c]
    ensures k == 3 ==> HasLinkChains(After(t, l, 3), l)
  {
    if k >= 1 { AfterMakes(t, l, 1); }
    if k >= 2 { AfterMakes(t, l, 2); }
    if k >= 3 { AfterMakes(t, l, 3); }
  }

  /** The last three functions touch the two shared chains only. */
  lemma BlocksOnTop(t: Chains, l: Link)
    requires SG in After(t, l, 3) && CALLISTO_FORWARD in After(t, l, 3)
    ensures var t3 := After(t, l, 3);
            After(t, l, 6) == t3[SG := SgBlock(l) + t3[SG]]
                                [CALLISTO_FORWARD := ForwardBlock(l) + InputBlock(l) + t3[CALLISTO_FORWARD]]
  {
    var t3 := After(t, l, 3);
    var t4 := After(t, l, 4);
    assert t4 == t3[SG := SgBlock(l) + t3[SG]];
    assert t4[CALLISTO_FORWARD] == t3[CALLISTO_FORWARD];
    var t5 := After(t, l, 5);
    assert t5 == t4[CALLISTO_FORWARD := InputBlock(l) + t3[CALLISTO_FORWARD]];
    assert After(t, l, 6) == t5[CALLISTO_FORWARD := ForwardBlock(l) + (InputBlock(l) + t3[CALLISTO_FORWARD])];
    assert ForwardBlock(l) + (InputBlock(l) + t3[CALLISTO_FORWARD]) == ForwardBlock(l) + InputBlock(l) + t3[CALLISTO_FORWARD];
  }

  lemma FixedNamesDiffer()
    ensures INPUT != FORWARD && INPUT != SG_FALLBACK && INPUT != SG && INPUT != CALLISTO_INPUT && INPUT != CALLISTO_FORWARD
    ensures FORWARD != SG_FALLBACK && FORWARD != SG && FORWARD != CALLISTO_INPUT && FORWARD != CALLISTO_FORWARD
    ensures SG_FALLBACK != SG && SG_FALLBACK != CALLISTO_INPUT && SG_FALLBACK != CALLISTO_FORWARD
    ensures SG != CALLISTO_INPUT && SG != CALLISTO_FORWARD && CALLISTO_INPUT != CALLISTO_FORWARD
  {
    assert SG[9] == 's' && SG_FALLBACK[9] == 's' && CALLISTO_INPUT[9] == 'I' && CALLISTO_FORWARD[9] == 'F';
  }

  lemma PrependKeepsClosed(t: Chains, c: string, rules: seq<Rule>)
    requires Closed(t) && c in t && JumpsInto(t.Keys, rules)
    ensures Closed(t[c := rules + t[c]])
  {
    assert JumpsInto(t.Keys, t[c]);
  }

  /** The chains of a link are not the shared chains, but for the source chain of `g-chain`. */
  lemma LinkChainsAreNotShared(l: Link)
    ensures SG !in {OutputName(l.name), InputName(l.name)} && (SG == SourceName(l.name) <==> l.name == "g-chain")
    ensures CALLISTO_FORWARD !in {SourceName(l.name), OutputName(l.name), InputName(l.name)}
  {
    GeneratedNameIsFixed(SOURCE_PREFIX, l.name);
    MadeNamesAreNotFixed(l.name);
    FixedNamesDiffer();
    assert SG in FIXED && CALLISTO_FORWARD in FIXED;
  }

  /** Rewriting a shared chain leaves the chains of every link alone. */
  lemma SharedUpdate(t: Chains, c: string, rules: seq<Rule>)
    requires c == SG || c == CALLISTO_FORWARD
    ensures forall l: Link :: l.name != "g-chain" && HasLinkChains(t, l) ==> HasLinkChains(t[c := rules], l)
    ensures forall l :: HasChains(t, l) ==> HasChains(t[c := rules], l)
    ensures forall tail :: HasTailChains(t, tail) ==> HasTailChains(t[c := rules], tail)
  {
    forall l: Link | l.name != "g-chain" && HasLinkChains(t, l) ensures HasLinkChains(t[c := rules], l) {
      LinkChainsAreNotShared(l);
    }
    forall l | HasChains(t, l) ensures HasChains(t[c := rules], l) {
      LinkChainsAreNotShared(l);
    }
    forall tail | HasTailChains(t, tail) ensures HasTailChains(t[c := rules], tail) {
      if tail.Looping? {
        LinkChainsAreNotShared(tail.link);
      }
    }
  }

  /** ... and the rules of setup. */
  lemma SharedUpdateKeepsBase(t: Chains, c: string, rules: seq<Rule>)
    requires HasBaseRules(t)
    requires c == SG || c == CALLISTO_FORWARD
    ensures HasBaseRules(t[c := rules])
  {
    FixedNamesDiffer();
  }

  /** The block of a link in front of callisto-sg-chain. */
  lemma {:induction false} SgGrows(t: Chains, s: Shared, l: Link)
    requires s.Linked? && Carries(t, s) && HasLinkChains(t, l) && l.name != "g-chain"
    ensures var t' := t[SG := SgBlock(l) + t[SG]];
            Carries(t', s.(sg := [l] + s.sg)) && HasLinkChains(t', l)
  {
    var rules := SgBlock(l) + t[SG];
    PrependKeepsClosed(t, SG, SgBlock(l));
    SharedUpdateKeepsBase(t, SG, rules);
    SgBlockInFront(l, s.sg, s.tail);
    assert SG != CALLISTO_FORWARD by { FixedNamesDiffer(); }
    SharedUpdate(t, SG, rules);
  }

  /** The two blocks of a link in front of callisto-FORWARD. */
  lemma {:induction false} ForwardGrows(t: Chains, s: Shared, l: Link)
    requires s.Linked? && Carries(t, s) && HasChains(t, l)
    ensures Carries(t[CALLISTO_FORWARD := ForwardBlock(l) + InputBlock(l) + t[CALLISTO_FORWARD]], s.(forward := [l] + s.forward))
  {
    var rules := ForwardBlock(l) + InputBlock(l) + t[CALLISTO_FORWARD];
    var t' := t[CALLISTO_FORWARD := rules];
    assert Closed(t') by { PrependKeepsClosed(t, CALLISTO_FORWARD, ForwardBlock(l) + InputBlock(l)); }
    assert HasBaseRules(t') by { SharedUpdateKeepsBase(t, CALLISTO_FORWARD, rules); }
    assert Holds(t', CALLISTO_FORWARD, ForwardRules([l] + s.forward)) by { ForwardBlockInFront(l, s.forward); }
    assert Holds(t', SG, t[SG]) by { FixedNamesDiffer(); }
    SharedUpdate(t, CALLISTO_FORWARD, rules);
  }

  lemma SgBlockInFront(l: Link, links: seq<Link>, tail: Tail)
    ensures SgRules([l] + links, tail) == SgBlock(l) + SgRules(links, tail)
  {
    assert ([l] + links)[0] == l && ([l] + links)[1..] == links;
  }

  lemma ForwardBlockInFront(l: Link, links: seq<Link>)
    ensures ForwardRules([l] + links) == ForwardBlock(l) + InputBlock(l) + ForwardRules(links)
  {
    assert ([l] + links)[0] == l && ([l] + links)[1..] == links;
  }

  /** A call that completes makes the table realize one link more; a call that
      fails in one of its first three functions leaves it realizing the same links. */
  lemma {:induction false} AddRealizes(faults: Faults, s: State, links: seq<Link>, l: Link)
    requires Realizes(s.chains, links)
    ensures var r := Add(faults, s, l);
            && (r.done == |ADD_FUNCTIONS| ==> Realizes(r.state.chains, [l] + links))
            && (r.done < 3 ==> Realizes(r.state.chains, links))
  {
    var r := Add(faults, s, l);
    AddResult(faults, s, l);
    AddKeepsInvariant(faults, s, l, 0);
    var all := Linked(links, Accepting, links);
    if r.done < 3 {
      ChainsMade(s.chains, l, r.done);
      ExtensionCarries(s.chains, r.state.chains, all);
    } else if r.done == |ADD_FUNCTIONS| {
      var t3 := After(s.chains, l, 3);
      ChainsMade(s.chains, l, 3);
      ExtensionCarries(s.chains, t3, all);
      BlocksOnTop(s.chains, l);
      LinkChainsAreNotShared(l);
      SgGrows(t3, all, l);
      ForwardGrows(t3[SG := SgBlock(l) + t3[SG]], all.(sg := [l] + links), l);
    }
  }

  // ---------- what a call leaves alone ----------

  /** A chain that is no target of the first `k` functions is left alone. */
  lemma AfterKeeps(t: Chains, l: Link, k: nat, c: string)
    requires k <= |ADD_FUNCTIONS| && c in t
    requires forall i :: 0 <= i < k ==> ChainOf(ADD_FUNCTIONS[i], l) != c
    ensures c in After(t, l, k) && After(t, l, k)[c] == t[c]
  {
    if k > 0 {
      AfterKeeps(t, l, k - 1, c);
    }
  }

  /** A chain that is no target of the six blocks is left alone, whatever the outcome. */
  lemma {:induction false} AddKeepsChain(faults: Faults, s: State, l: Link, c: string)
    requires Closed(s.chains) && c in s.chains
    requires forall f :: ChainOf(f, l) != c
    ensures var t := Add(faults, s, l).state.chains; c in t && t[c] == s.chains[c]
  {
    AddResult(faults, s, l);
    AfterKeeps(s.chains, l, Add(faults, s, l).done, c);
  }

  lemma BuiltinIsNoTarget(l: Link, c: string)
    requires c in {INPUT, FORWARD, CALLISTO_INPUT}
    ensures forall f :: ChainOf(f, l) != c
  {
    FixedNamesDiffer();
    GeneratedNameIsFixed(SOURCE_PREFIX, l.name);
    GeneratedNameIsFixed(OUTPUT_PREFIX, l.name);
    GeneratedNameIsFixed(INPUT_PREFIX, l.name);
    if Reserved(l.name) {
      assert SourceName(l.name) == SG || SourceName(l.name) == SG_FALLBACK;
    }
  }
}

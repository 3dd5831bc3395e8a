/** Every table that any run can reach is closed and ranked, so every traversal ends. */
module Traversal {
  import opened Rules
  import opened ChainNames
  import opened SecurityGroup

  const MAX_RANK := 4

  /** FORWARD and INPUT above callisto-FORWARD and callisto-INPUT, above
      callisto-sg-chain, above the per-link i and o chains, above the per-link s
      chains and the fallback. */
  function Rank(c: string): nat {
    if c == FORWARD || c == INPUT then 4
    else if c == CALLISTO_FORWARD || c == CALLISTO_INPUT then 3
    else if c == SG then 2
    else if |c| >= 10 && (c[..10] == INPUT_PREFIX || c[..10] == OUTPUT_PREFIX) then 1
    else 0
  }

  ghost predicate JumpsBelow(rank: nat, rules: seq<Rule>) {
    forall r :: r in rules && r.target.Jump? ==> Rank(r.target.chain) < rank
  }

  ghost predicate Ranked(t: Chains) {
    forall c :: c in t ==> JumpsBelow(Rank(c), t[c])
  }

  /** A call that cannot make callisto-sg-chain the source chain of a link. */
  predicate OrdinaryCall(call: Call) {
    call.CallAdd? ==> call.link.name != "g-chain"
  }

  // ---------- the invariant ----------

  lemma DiscardKeepsInvariant(t: Chains, chain: string)
    requires Closed(t)
    ensures Closed(Discard(t, chain))
    ensures Ranked(t) ==> Ranked(Discard(t, chain))
  {
    var t' := Discard(t, chain);
    forall c, r: Rule | c in t' && r in t'[c] && r.target.Jump? ensures r.target.chain in t' {
      assert c in t && r in t[c] && JumpsInto(t.Keys, t[c]);
      if r.target.chain == chain {
        assert c in t - {chain} && r in (t - {chain})[c] && r.target == Jump(chain);
      }
    }
  }

  lemma InstallKeepsInvariant(faults: Faults, s: State, chain: string, rules: seq<Rule>)
    requires Closed(s.chains)
    ensures Closed(Install(faults, s, chain, rules).state.chains)
    ensures Ranked(s.chains) && JumpsBelow(Rank(chain), rules) ==> Ranked(Install(faults, s, chain, rules).state.chains)
  {
    var k := Taken(faults, s, chain, rules);
    if k < |rules| {
      DiscardKeepsInvariant(s.chains, chain);
    } else if rules != [] {
      var t' := s.chains[chain := rules + s.chains[chain]];
      assert chain in s.chains by { assert !Refused(faults, s, chain, rules[0], 0); }
      forall r: Rule | r in rules && r.target.Jump? ensures r.target.chain in s.chains {
        var j :| 0 <= j < |rules| && rules[j] == r;
        assert !Refused(faults, s, chain, rules[j], j);
      }
    }
  }

  lemma {:induction false} AddStepKeepsInvariant(faults: Faults, s: State, f: AddFunction, l: Link)
    requires Closed(s.chains)
    ensures Closed(AddStep(faults, s, f, l).state.chains)
    ensures Ranked(s.chains) && l.name != "g-chain" ==> Ranked(AddStep(faults, s, f, l).state.chains)
  {
    var c := ChainOf(f, l);
    var s1 := if MakesChain(f) then NewChain(faults, s, c).state else s;
    assert Closed(s1.chains) && (Ranked(s.chains) ==> Ranked(s1.chains));
    InstallKeepsInvariant(faults, s1, c, RulesOf(f, l));
    if l.name != "g-chain" {
      AddRulesJumpBelow(f, l);
    }
  }

  /** The chains that the rules of an add function jump to. */
  function TargetsOf(f: AddFunction, l: Link): set<string> {
    match f
    case AddSOURCESGRules => {}
    case AddOUTPUTSGRules => {SourceName(l.name), SG_FALLBACK}
    case AddINPUTSGRules => {SG_FALLBACK}
    case AddSGRules => {InputName(l.name), OutputName(l.name)}
    case AddINPUTRules => {OutputName(l.name)}
    case AddFORWARDRules => {SG}
  }

  lemma RuleTargets(f: AddFunction, l: Link, r: Rule)
    requires r in RulesOf(f, l) && r.target.Jump?
    ensures r.target.chain in TargetsOf(f, l)
  {
  }

  /** Every add function makes its rules jump to chains of lower rank than its own. */
  lemma TargetsAreBelow(f: AddFunction, l: Link)
    requires l.name != "g-chain"
    ensures forall c :: c in TargetsOf(f, l) ==> Rank(c) < Rank(ChainOf(f, l))
  {
    LinkRanks(l);
  }

  lemma AddRulesJumpBelow(f: AddFunction, l: Link)
    requires l.name != "g-chain"
    ensures JumpsBelow(Rank(ChainOf(f, l)), RulesOf(f, l))
  {
    TargetsAreBelow(f, l);
    forall r: Rule | r in RulesOf(f, l) && r.target.Jump? ensures r.target.chain in TargetsOf(f, l) {
      RuleTargets(f, l, r);
    }
  }

  lemma LinkRanks(l: Link)
    requires l.name != "g-chain"
    ensures Rank(SourceName(l.name)) == 0 && Rank(OutputName(l.name)) == 1 && Rank(InputName(l.name)) == 1
    ensures Rank(SG_FALLBACK) == 0 && Rank(SG) == 2 && Rank(CALLISTO_FORWARD) == 3
  {
    FixedRanks();
    NameShape(SOURCE_PREFIX, l.name);
    NameShape(OUTPUT_PREFIX, l.name);
    NameShape(INPUT_PREFIX, l.name);
    GeneratedNameIsFixed(SOURCE_PREFIX, l.name);
    GeneratedNameIsFixed(OUTPUT_PREFIX, l.name);
    GeneratedNameIsFixed(INPUT_PREFIX, l.name);
  }

  lemma FixedRanks()
    ensures Rank(SG_FALLBACK) == 0 && Rank(SG) == 2
    ensures Rank(CALLISTO_FORWARD) == Rank(CALLISTO_INPUT) == 3 && Rank(FORWARD) == Rank(INPUT) == 4
  {
    assert SG_FALLBACK[10] != 'I' && SG_FALLBACK[9] == 's';
    assert SG[9] == 's' && CALLISTO_FORWARD[9] == 'F' && CALLISTO_INPUT[9] == 'I';
  }

  lemma {:induction false} AddKeepsInvariant(faults: Faults, s: State, l: Link, i: nat)
    requires i <= |ADD_FUNCTIONS|
    requires Closed(s.chains)
    ensures Closed(AddFrom(faults, s, l, i).state.chains)
    ensures Ranked(s.chains) && l.name != "g-chain" ==> Ranked(AddFrom(faults, s, l, i).state.chains)
    decreases |ADD_FUNCTIONS| - i
  {
    if i < |ADD_FUNCTIONS| {
      AddStepKeepsInvariant(faults, s, ADD_FUNCTIONS[i], l);
      AddKeepsInvariant(faults, AddStep(faults, s, ADD_FUNCTIONS[i], l).state, l, i + 1);
    }
  }

  lemma AppendKeepsInvariant(faults: Faults, s: State, chain: string, r: Rule)
    requires Closed(s.chains)
    ensures Closed(AppendUnique(faults, s, chain, r).state.chains)
    ensures Ranked(s.chains) && JumpsBelow(Rank(chain), [r]) ==> Ranked(AppendUnique(faults, s, chain, r).state.chains)
  {
    var o := AppendUnique(faults, s, chain, r);
    if o.ok && r !in s.chains[chain] {
      assert JumpsInto(s.chains.Keys, s.chains[chain]);
      assert r in [r];
    }
  }

  lemma SetupStepKeepsInvariant(faults: Faults, s: State, f: SetupFunction)
    requires Closed(s.chains)
    ensures Closed(SetupStep(faults, s, f).state.chains)
    ensures Ranked(s.chains) ==> Ranked(SetupStep(faults, s, f).state.chains)
  {
    var o := NewChain(faults, s, SetupChainName(f));
    var (chain, r) := SetupRule(f);
    assert Closed(o.state.chains) && (Ranked(s.chains) ==> Ranked(o.state.chains));
    AppendKeepsInvariant(faults, o.state, chain, r);
    FixedRanks();
    assert JumpsBelow(Rank(chain), [r]);
  }

  lemma {:induction false} SetupKeepsInvariant(faults: Faults, s: State, i: nat)
    requires i <= |SETUP_FUNCTIONS|
    requires Closed(s.chains)
    ensures Closed(SetupFrom(faults, s, i).state.chains)
    ensures Ranked(s.chains) ==> Ranked(SetupFrom(faults, s, i).state.chains)
    decreases |SETUP_FUNCTIONS| - i
  {
    if i < |SETUP_FUNCTIONS| {
      SetupStepKeepsInvariant(faults, s, SETUP_FUNCTIONS[i]);
      SetupKeepsInvariant(faults, SetupStep(faults, s, SETUP_FUNCTIONS[i]).state, i + 1);
    }
  }

  lemma {:induction false} StepKeepsInvariant(faults: Faults, s: State, call: Call)
    requires Closed(s.chains)
    ensures Closed(Step(faults, s, call).chains)
    ensures Ranked(s.chains) && OrdinaryCall(call) ==> Ranked(Step(faults, s, call).chains)
  {
    if call.CallSetup? {
      SetupKeepsInvariant(faults, s, 0);
    } else {
      AddKeepsInvariant(faults, s, call.link, 0);
    }
  }

  /** Safety over every run: whatever calls are made, in whatever order, and
      whatever the environment refuses on the way, no chain jumps to a missing
      chain, and every jump goes down in rank. */
  lemma {:induction false} RunKeepsInvariant(faults: Faults, s: State, calls: seq<Call>)
    requires Closed(s.chains)
    ensures Closed(Run(faults, s, calls).chains)
    ensures Ranked(s.chains) && (forall c :: c in calls ==> OrdinaryCall(c)) ==> Ranked(Run(faults, s, calls).chains)
    decreases |calls|
  {
    if calls != [] {
      StepKeepsInvariant(faults, s, calls[0]);
      RunKeepsInvariant(faults, Step(faults, s, calls[0]), calls[1..]);
    }
  }

  // ---------- what the invariant is for ----------

  /** In a closed, ranked table a traversal that starts at rank `rank` never
      runs into a missing chain, never nests more than `rank` jumps, and gives
      the same verdict however much deeper it would be allowed to nest. */
  lemma {:induction false} EvalTerminates(t: Chains, rank: nat, depth: nat, rules: seq<Rule>, p: Packet)
    requires Closed(t) && Ranked(t)
    requires JumpsInto(t.Keys, rules) && JumpsBelow(rank + 1, rules)
    requires rank < depth
    ensures Eval(t, depth, rules, p) != Stuck
    ensures Eval(t, depth, rules, p) == Eval(t, rank + 1, rules, p)
    decreases rank, |rules|
  {
    if rules != [] {
      EvalTerminates(t, rank, depth, rules[1..], p);
      EvalTerminates(t, rank, rank + 1, rules[1..], p);
      var target := rules[0].target;
      assert rules[0] in rules;
      if target.Jump? {
        var next := Rank(target.chain);
        if next == 0 {
          EvalLeaf(t, depth - 1, rank, t[target.chain], p);
        } else {
          EvalTerminates(t, next - 1, depth - 1, t[target.chain], p);
          EvalTerminates(t, next - 1, rank, t[target.chain], p);
        }
      }
    }
  }

  lemma {:induction false} EvalLeaf(t: Chains, d1: nat, d2: nat, rules: seq<Rule>, p: Packet)
    requires JumpsBelow(0, rules)
    ensures Eval(t, d1, rules, p) == Eval(t, d2, rules, p) != Stuck
    decreases |rules|
  {
    if rules != [] {
      assert rules[0] in rules;
      EvalLeaf(t, d1, d2, rules[1..], p);
    }
  }
}

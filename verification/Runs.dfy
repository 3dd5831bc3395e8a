/** Whole runs: setupDefaultSecurityGroup followed by any calls. */
module Runs {
  import opened Rules
  import opened ChainNames
  import opened SecurityGroup
  import opened Policy
  import opened Traversal
  import opened Installation

  // ---------- setup ----------

  /** The table of a host without managed links. */
  const BASE: Chains := map[
    INPUT := [Rule(Any, Jump(CALLISTO_INPUT))],
    FORWARD := [Rule(Any, Jump(CALLISTO_FORWARD))],
    CALLISTO_INPUT := [],
    CALLISTO_FORWARD := [],
    SG_FALLBACK := [Rule(Any, Drop)],
    SG := [Rule(Any, Accept)]]

  lemma BaseRealizes()
    ensures Realizes(BASE, []) && BASE.Keys == FIXED
  {
    FixedNamesDiffer();
  }

  /** The environment grants the client calls numbered from `first` on, up to `end`. */
  ghost predicate Granted(faults: Faults, first: nat, end: nat) {
    forall n :: first <= n < end ==> !faults(n)
  }

  /** ... or refuses them. */
  ghost predicate Denied(faults: Faults, first: nat, end: nat) {
    forall n :: first <= n < end ==> faults(n)
  }

  ghost predicate DeniedFrom(faults: Faults, first: nat) {
    forall n :: first <= n ==> faults(n)
  }

  /** The first `i` setup functions on a fresh host, when they succeed. */
  function SetUp(i: nat): Chains
    requires i <= |SETUP_FUNCTIONS|
  {
    if i == 0 then INITIAL.chains
    else
      var f := SETUP_FUNCTIONS[i - 1];
      SetUp(i - 1)[SetupChainName(f) := []][SetupRule(f).0 := [SetupRule(f).1]]
  }

  lemma SetupStepResult(faults: Faults, s: State, f: SetupFunction)
    requires SetupRule(f).0 != SetupChainName(f) ==> Holds(s.chains, SetupRule(f).0, [])
    requires SetupStep(faults, s, f).ok
    ensures SetupStep(faults, s, f).state.chains == s.chains[SetupChainName(f) := []][SetupRule(f).0 := [SetupRule(f).1]]
  {
    var (c, r) := SetupRule(f);
    assert [] + [r] == [r];
  }

  lemma SetupTargetIsEmpty(i: nat)
    requires i < |SETUP_FUNCTIONS|
    ensures var f := SETUP_FUNCTIONS[i];
            SetupRule(f).0 != SetupChainName(f) ==> Holds(SetUp(i), SetupRule(f).0, [])
  {
    FixedNamesDiffer();
    assert SetUp(1) == INITIAL.chains[SG_FALLBACK := []][SG_FALLBACK := [Rule(Any, Drop)]];
    assert SetUp(2) == SetUp(1)[SG := []][SG := [Rule(Any, Accept)]];
    assert SetUp(3) == SetUp(2)[CALLISTO_INPUT := []][INPUT := [Rule(Any, Jump(CALLISTO_INPUT))]];
  }

  lemma {:induction false} SetupFromResult(faults: Faults, s: State, i: nat)
    requires i <= |SETUP_FUNCTIONS|
    requires s.chains == SetUp(i)
    ensures SetupFrom(faults, s, i).ok ==> SetupFrom(faults, s, i).state.chains == SetUp(|SETUP_FUNCTIONS|)
    decreases |SETUP_FUNCTIONS| - i
  {
    if i < |SETUP_FUNCTIONS| {
      var f := SETUP_FUNCTIONS[i];
      if SetupStep(faults, s, f).ok {
        SetupTargetIsEmpty(i);
        SetupStepResult(faults, s, f);
        SetupFromResult(faults, SetupStep(faults, s, f).state, i + 1);
      }
    }
  }

  lemma SetUpIsBase()
    ensures SetUp(|SETUP_FUNCTIONS|) == BASE
  {
    FixedNamesDiffer();
    assert SetUp(1) == INITIAL.chains[SG_FALLBACK := []][SG_FALLBACK := [Rule(Any, Drop)]];
    assert SetUp(2) == SetUp(1)[SG := []][SG := [Rule(Any, Accept)]];
    assert SetUp(3) == SetUp(2)[CALLISTO_INPUT := []][INPUT := [Rule(Any, Jump(CALLISTO_INPUT))]];
    assert SetUp(4) == SetUp(3)[CALLISTO_FORWARD := []][FORWARD := [Rule(Any, Jump(CALLISTO_FORWARD))]];
  }

  lemma SetUpKeys(i: nat)
    requires i <= |SETUP_FUNCTIONS|
    ensures SetUp(i).Keys == {INPUT, FORWARD}
                             + (if i >= 1 then {SG_FALLBACK} else {}) + (if i >= 2 then {SG} else {})
                             + (if i >= 3 then {CALLISTO_INPUT} else {}) + (if i >= 4 then {CALLISTO_FORWARD} else {})
  {
    if i > 0 {
      SetUpKeys(i - 1);
    }
  }

  /** The next setup function finds its chain missing, and what its rule needs in place. */
  lemma SetUpHasRoom(i: nat)
    requires i < |SETUP_FUNCTIONS|
    ensures var f := SETUP_FUNCTIONS[i];
            var names := SetUp(i).Keys + {SetupChainName(f)};
            SetupChainName(f) !in SetUp(i) && SetupRule(f).0 in names && Insertable(names, SetupRule(f).1)
  {
    FixedNamesDiffer();
    SetUpKeys(i);
  }

  lemma SetupStepSucceeds(faults: Faults, s: State, i: nat)
    requires i < |SETUP_FUNCTIONS| && s.chains == SetUp(i)
    requires Granted(faults, s.calls, s.calls + 2)
    ensures var o := SetupStep(faults, s, SETUP_FUNCTIONS[i]); o.ok && o.state.calls == s.calls + 2
  {
    SetUpHasRoom(i);
    var n := NewChain(faults, s, SetupChainName(SETUP_FUNCTIONS[i]));
    assert n.ok && n.state.chains.Keys == SetUp(i).Keys + {SetupChainName(SETUP_FUNCTIONS[i])};
  }

  lemma {:induction false} SetupSucceedsFrom(faults: Faults, s: State, i: nat)
    requires i <= |SETUP_FUNCTIONS| && s.chains == SetUp(i)
    requires Granted(faults, s.calls, s.calls + 2 * (|SETUP_FUNCTIONS| - i))
    ensures var o := SetupFrom(faults, s, i); o.ok && o.state.calls == s.calls + 2 * (|SETUP_FUNCTIONS| - i)
    decreases |SETUP_FUNCTIONS| - i
  {
    if i < |SETUP_FUNCTIONS| {
      SetupStepSucceeds(faults, s, i);
      SetupTargetIsEmpty(i);
      SetupStepResult(faults, s, SETUP_FUNCTIONS[i]);
      SetupSucceedsFrom(faults, SetupStep(faults, s, SETUP_FUNCTIONS[i]).state, i + 1);
    }
  }

  lemma SetupStepCost(faults: Faults, s: State, f: SetupFunction)
    requires SetupStep(faults, s, f).ok
    ensures !faults(s.calls) && !faults(s.calls + 1) && SetupStep(faults, s, f).state.calls == s.calls + 2
  {
  }

  lemma {:induction false} SetupNeedsItsCalls(faults: Faults, s: State, i: nat)
    requires i <= |SETUP_FUNCTIONS| && SetupFrom(faults, s, i).ok
    ensures Granted(faults, s.calls, s.calls + 2 * (|SETUP_FUNCTIONS| - i))
    decreases |SETUP_FUNCTIONS| - i
  {
    if i < |SETUP_FUNCTIONS| {
      var o := SetupStep(faults, s, SETUP_FUNCTIONS[i]);
      SetupStepCost(faults, s, SETUP_FUNCTIONS[i]);
      SetupNeedsItsCalls(faults, o.state, i + 1);
      GrantedTwoMore(faults, s.calls, s.calls + 2 * (|SETUP_FUNCTIONS| - i));
    }
  }

  lemma GrantedTwoMore(faults: Faults, n: nat, end: nat)
    requires !faults(n) && !faults(n + 1) && Granted(faults, n + 2, end)
    ensures Granted(faults, n, end)
  {
  }

  /** Setup succeeds on a fresh host exactly when none of its eight client calls is refused. */
  lemma SetupSucceedsIff(faults: Faults, s: State)
    requires s.chains == INITIAL.chains
    ensures Setup(faults, s).ok <==> Granted(faults, s.calls, s.calls + 8)
    ensures Setup(faults, s).ok ==> Setup(faults, s).state == State(BASE, s.calls + 8)
  {
    if Setup(faults, s).ok {
      SetupNeedsItsCalls(faults, s, 0);
    }
    if Granted(faults, s.calls, s.calls + 8) {
      SetupSucceedsFrom(faults, s, 0);
    }
    SetupFromResult(faults, s, 0);
    SetUpIsBase();
  }

  /** Once the fallback chain exists, setup fails at its first call and changes
      nothing (`FailedSetup.dfy` says what follows for a setup that failed half-way). */
  lemma SetupIsRefused(faults: Faults, s: State)
    requires SG_FALLBACK in s.chains
    ensures !Setup(faults, s).ok && Setup(faults, s).state.chains == s.chains
  {
    assert SETUP_FUNCTIONS[0] == SetupSGFallbackChain;
  }

  // ---------- when a call completes ----------

  predicate WellFormed(l: Link) { l.ip.V4? && |l.mac| == 6 }

  /** Nothing but the environment can refuse the add function `f` on this table. */
  predicate Ready(t: Chains, f: AddFunction, l: Link) {
    && (ChainOf(f, l) in t <==> !MakesChain(f))
    && (forall r | r in RulesOf(f, l) :: Insertable(t.Keys + {ChainOf(f, l)}, r))
  }

  /** How many client calls a successful add function makes. */
  function StepCost(f: AddFunction): nat {
    match f
    case AddSOURCESGRules => 3
    case AddOUTPUTSGRules => 10
    case AddINPUTSGRules => 7
    case AddSGRules => 2
    case AddINPUTRules => 1
    case AddFORWARDRules => 2
  }

  lemma StepCostIs(f: AddFunction, l: Link)
    ensures StepCost(f) == (if MakesChain(f) then 1 else 0) + |RulesOf(f, l)|
  {
  }

  /** How many client calls the first `k` add functions make when they succeed. */
  function CostUpTo(k: nat): nat {
    if k == 0 then 0 else if k == 1 then 3 else if k == 2 then 13 else if k == 3 then 20 else if k == 4 then 22
    else if k == 5 then 23 else 25
  }

  /** The number of the add function that makes the n-th client call of a call; 6 beyond the last. */
  function StepAt(n: nat): nat {
    if n < 3 then 0 else if n < 13 then 1 else if n < 20 then 2 else if n < 22 then 3 else if n < 23 then 4
    else if n < 25 then 5 else 6
  }

  lemma StepSucceeds(faults: Faults, s: State, f: AddFunction, l: Link)
    requires Ready(s.chains, f, l)
    requires Granted(faults, s.calls, s.calls + StepCost(f))
    ensures AddStep(faults, s, f, l).ok && AddStep(faults, s, f, l).state.calls == s.calls + StepCost(f)
  {
    var c, rules := ChainOf(f, l), RulesOf(f, l);
    StepCostIs(f, l);
    var s1 := if MakesChain(f) then NewChain(faults, s, c).state else s;
    assert s1.chains.Keys == s.chains.Keys + {c};
    forall k | 0 <= k < |rules| ensures !Refused(faults, s1, c, rules[k], k) {
      assert rules[k] in rules;
    }
  }

  /** A ready add function stops at the client call that the environment refuses. */
  lemma StepStops(faults: Faults, s: State, f: AddFunction, l: Link, n: nat)
    requires Ready(s.chains, f, l) && n < StepCost(f)
    requires Granted(faults, s.calls, s.calls + n) && faults(s.calls + n)
    ensures !AddStep(faults, s, f, l).ok && AddStep(faults, s, f, l).state.calls == s.calls + n + 1
  {
    var c, rules := ChainOf(f, l), RulesOf(f, l);
    StepCostIs(f, l);
    if !MakesChain(f) || n > 0 {
      var s1 := if MakesChain(f) then NewChain(faults, s, c).state else s;
      var m := if MakesChain(f) then n - 1 else n;
      assert s1.chains.Keys == s.chains.Keys + {c};
      forall k | 0 <= k < m ensures !Refused(faults, s1, c, rules[k], k) {
        assert rules[k] in rules;
      }
      assert Refused(faults, s1, c, rules[m], m);
    }
  }

  /** A malformed address pair is refused at the first rule of the source chain. */
  lemma MalformedIsRefused(faults: Faults, s: State, l: Link)
    requires !WellFormed(l)
    ensures Add(faults, s, l).done == 0
  {
    var r := SourceRules(l)[0];
    assert forall names :: !Insertable(names, r);
    assert ADD_FUNCTIONS[0] == AddSOURCESGRules;
  }

  /** One ready add function with its client calls granted. */
  lemma StepAdvances(faults: Faults, s: State, t: Chains, l: Link, i: nat)
    requires i < |ADD_FUNCTIONS| && Closed(s.chains) && s.chains == After(t, l, i)
    requires Ready(s.chains, ADD_FUNCTIONS[i], l)
    requires Granted(faults, s.calls, s.calls + StepCost(ADD_FUNCTIONS[i]))
    ensures var o := AddStep(faults, s, ADD_FUNCTIONS[i], l);
            && o.ok && Closed(o.state.chains) && o.state.chains == After(t, l, i + 1)
            && o.state.calls == s.calls + StepCost(ADD_FUNCTIONS[i])
  {
    var f := ADD_FUNCTIONS[i];
    StepSucceeds(faults, s, f, l);
    AddStepResult(faults, s, f, l);
    AddStepKeepsInvariant(faults, s, f, l);
  }

  /** The add functions from the i-th up to the k-th are ready, each after those before it. */
  predicate AllReady(t: Chains, l: Link, i: nat, k: nat)
    requires k <= |ADD_FUNCTIONS|
    decreases k - i, l  // `l` keeps literal numbers from being unrolled
  {
    i >= k || (Ready(After(t, l, i), ADD_FUNCTIONS[i], l) && AllReady(t, l, i + 1, k))
  }

  /** Ready functions with their client calls granted succeed, and the call goes
      on from the table they leave. */
  lemma {:induction false} AddReaches(faults: Faults, s: State, t: Chains, l: Link, i: nat, k: nat) returns (m: State)
    requires i <= k <= |ADD_FUNCTIONS|
    requires Closed(s.chains) && s.chains == After(t, l, i)
    requires AllReady(t, l, i, k)
    requires Granted(faults, s.calls, s.calls + CostUpTo(k) - CostUpTo(i))
    ensures AddFrom(faults, s, l, i) == AddFrom(faults, m, l, k)
    ensures Closed(m.chains) && m.chains == After(t, l, k) && m.calls == s.calls + CostUpTo(k) - CostUpTo(i)
    decreases k - i
  {
    if i < k {
      CostAndStep(i);
      CostGrows(i + 1, k);
      StepAdvances(faults, s, t, l, i);
      m := AddReaches(faults, AddStep(faults, s, ADD_FUNCTIONS[i], l).state, t, l, i + 1, k);
    } else {
      m := s;
    }
  }

  /** The first client call of the function is refused, or made on a missing shared chain. */
  predicate StopsAtOnce(faults: Faults, s: State, f: AddFunction, l: Link) {
    faults(s.calls) || (!MakesChain(f) && ChainOf(f, l) !in s.chains)
  }

  lemma StopsHere(faults: Faults, s: State, l: Link, k: nat)
    requires k < |ADD_FUNCTIONS| && StopsAtOnce(faults, s, ADD_FUNCTIONS[k], l)
    ensures AddFrom(faults, s, l, k).done == k && AddFrom(faults, s, l, k).state.calls == s.calls + 1
  {
    var f := ADD_FUNCTIONS[k];
    if !MakesChain(f) {
      assert Refused(faults, s, ChainOf(f, l), RulesOf(f, l)[0], 0);
    }
  }

  lemma CostGrows(i: nat, k: nat)
    requires i <= k
    ensures CostUpTo(i) <= CostUpTo(k)
  {
  }

  /** How many client calls a call has made when the n-th is the last one that could succeed. */
  function CallsMade(n: nat): nat { if n < 25 then n + 1 else 25 }

  /** The call cannot go beyond its first `e` functions. */
  predicate EndsAt(t: Chains, l: Link, e: nat)
    requires e <= |ADD_FUNCTIONS|
  {
    e == |ADD_FUNCTIONS| || (!MakesChain(ADD_FUNCTIONS[e]) && ChainOf(ADD_FUNCTIONS[e], l) !in After(t, l, e))
  }

  /** A call whose first `e` functions are ready, and that ends there, stops in the
      function that makes the first refused client call, or at that end. */
  lemma {:induction false} AddStopsAt(faults: Faults, s: State, l: Link, e: nat, n: nat)
    requires e <= |ADD_FUNCTIONS| && n <= CostUpTo(e)
    requires Closed(s.chains) && AllReady(s.chains, l, 0, e) && EndsAt(s.chains, l, e)
    requires Granted(faults, s.calls, s.calls + n) && (n < CostUpTo(e) ==> faults(s.calls + n))
    ensures var r := Add(faults, s, l); r.done == StepAt(n) && r.state.calls == s.calls + CallsMade(n)
  {
    StepOfCall(n);
    if n < CostUpTo(e) {
      StepsBefore(n, e);
      AddStopsIn(faults, s, l, e, StepAt(n), s.calls + n);
    } else {
      var m := AddReaches(faults, s, s.chains, l, 0, e);
      if e < |ADD_FUNCTIONS| {
        StopsHere(faults, m, l, e);
      }
    }
  }

  lemma StepsBefore(n: nat, e: nat)
    requires n < CostUpTo(e) && e <= |ADD_FUNCTIONS|
    ensures StepAt(n) < e
  {
  }

  lemma {:induction false} AddStopsIn(faults: Faults, s: State, l: Link, e: nat, k: nat, call: nat)
    requires k < e <= |ADD_FUNCTIONS|
    requires Closed(s.chains) && AllReady(s.chains, l, 0, e)
    requires s.calls + CostUpTo(k) <= call < s.calls + CostUpTo(k) + StepCost(ADD_FUNCTIONS[k])
    requires Granted(faults, s.calls, call) && faults(call)
    ensures var r := Add(faults, s, l); r.done == k && r.state.calls == call + 1
  {
    AllReadyAt(s.chains, l, 0, k, e);
    var m := AddReaches(faults, s, s.chains, l, 0, k);
    StopsAtCall(faults, m, s.chains, l, e, k, call);
  }

  lemma {:induction false} AllReadyAt(t: Chains, l: Link, i: nat, k: nat, e: nat)
    requires i <= k <= e <= |ADD_FUNCTIONS|
    ensures AllReady(t, l, i, e) <==> AllReady(t, l, i, k) && AllReady(t, l, k, e)
    decreases k - i
  {
    if i < k {
      AllReadyAt(t, l, i + 1, k, e);
    }
  }

  lemma StepOfCall(n: nat)
    ensures var k := StepAt(n);
            CostUpTo(k) <= n && (k < |ADD_FUNCTIONS| ==> n < 25 && n - CostUpTo(k) < StepCost(ADD_FUNCTIONS[k]))
  {
  }

  lemma StopsAtCall(faults: Faults, s: State, t: Chains, l: Link, e: nat, k: nat, call: nat)
    requires k < e <= |ADD_FUNCTIONS| && s.chains == After(t, l, k) && AllReady(t, l, k, e)
    requires s.calls <= call < s.calls + StepCost(ADD_FUNCTIONS[k])
    requires Granted(faults, s.calls, call) && faults(call)
    ensures AddFrom(faults, s, l, k).done == k && AddFrom(faults, s, l, k).state.calls == call + 1
  {
    StepStops(faults, s, ADD_FUNCTIONS[k], l, call - s.calls);
  }

  lemma CostAndStep(i: nat)
    requires i < |ADD_FUNCTIONS|
    ensures CostUpTo(i + 1) == CostUpTo(i) + StepCost(ADD_FUNCTIONS[i])
  {
  }

  /** With usable addresses, the functions are ready once the shared chains they need exist. */
  lemma LinkIsReady(t: Chains, l: Link, j: nat)
    requires j < |ADD_FUNCTIONS| && WellFormed(l)
    requires SourceName(l.name) !in t && OutputName(l.name) !in t && InputName(l.name) !in t
    requires j >= 1 ==> SG_FALLBACK in t.Keys + Touched(l, j)
    requires j >= 3 ==> SG in t.Keys + Touched(l, j)
    requires j >= 4 ==> CALLISTO_FORWARD in t.Keys + Touched(l, j)
    ensures Ready(After(t, l, j), ADD_FUNCTIONS[j], l)
  {
    KeysAfter(t, l, j);
    TouchedSoFar(l, j);
    LinkNamesDiffer(l);
    RulesAreInsertable(ADD_FUNCTIONS[j], l, t.Keys + Touched(l, j) + {ChainOf(ADD_FUNCTIONS[j], l)});
  }

  /** On a table with free names and the chains that the functions need, the link is ready throughout. */
  lemma {:induction false} LinkIsAllReady(t: Chains, l: Link, i: nat, k: nat)
    requires i <= k <= |ADD_FUNCTIONS| && WellFormed(l)
    requires SourceName(l.name) !in t && OutputName(l.name) !in t && InputName(l.name) !in t
    requires k >= 2 ==> SG_FALLBACK in t || SourceName(l.name) == SG_FALLBACK
    requires k >= 4 ==> SG in t || SourceName(l.name) == SG
    requires k >= 5 ==> CALLISTO_FORWARD in t
    ensures AllReady(t, l, i, k)
    decreases k - i
  {
    if i < k {
      TouchedSoFar(l, i);
      LinkIsReady(t, l, i);
      LinkIsAllReady(t, l, i + 1, k);
    }
  }

  lemma LinkNamesDiffer(l: Link)
    ensures SourceName(l.name) != OutputName(l.name) && SourceName(l.name) != InputName(l.name)
    ensures InputName(l.name) != OutputName(l.name)
  {
    GeneratedNamesCoincide(SOURCE_PREFIX, l.name, OUTPUT_PREFIX, l.name);
    GeneratedNamesCoincide(SOURCE_PREFIX, l.name, INPUT_PREFIX, l.name);
    GeneratedNamesCoincide(INPUT_PREFIX, l.name, OUTPUT_PREFIX, l.name);
  }

  lemma RulesAreInsertable(f: AddFunction, l: Link, names: set<string>)
    requires WellFormed(l)
    requires f.AddOUTPUTSGRules? ==> SourceName(l.name) in names && SG_FALLBACK in names
    requires f.AddINPUTSGRules? ==> SG_FALLBACK in names
    requires f.AddSGRules? || f.AddINPUTRules? ==> InputName(l.name) in names && OutputName(l.name) in names
    requires f.AddFORWARDRules? ==> SG in names
    ensures forall r :: r in RulesOf(f, l) ==> Insertable(names, r)
  {
  }

  // ---------- the exact table of a failure-free run ----------

  ghost function LinkNames(links: seq<Link>): set<string> {
    if links == [] then {}
    else {SourceName(links[0].name), OutputName(links[0].name), InputName(links[0].name)} + LinkNames(links[1..])
  }

  /** Closed form: the shared chains are the newest-first blocks of `links`,
      each link has its three chains, and there is no other chain. */
  ghost predicate Exactly(t: Chains, links: seq<Link>) {
    Realizes(t, links) && t.Keys == FIXED + LinkNames(links)
  }

  /** What a caller can check before the call: the addresses are usable, the
      interface name is not reserved, and its first 19 characters are new. */
  predicate Acceptable(links: seq<Link>, l: Link) {
    && WellFormed(l)
    && !Reserved(l.name)
    && forall m | m in links :: Stem(m.name) != Stem(l.name)
  }

  lemma {:induction false} LinkNamesAt(links: seq<Link>, prefix: string, intf: string)
    requires prefix in PREFIXES
    ensures ValidChainName(prefix, intf) in LinkNames(links) <==> exists m :: m in links && Stem(m.name) == Stem(intf)
  {
    if links != [] {
      var m := links[0];
      LinkNamesAt(links[1..], prefix, intf);
      GeneratedNamesCoincide(prefix, intf, SOURCE_PREFIX, m.name);
      GeneratedNamesCoincide(prefix, intf, OUTPUT_PREFIX, m.name);
      GeneratedNamesCoincide(prefix, intf, INPUT_PREFIX, m.name);
      assert links == [m] + links[1..];
    }
  }

  /** On an exact table, the names of a link are taken together or not at all. */
  lemma NamesTaken(t: Chains, links: seq<Link>, l: Link)
    requires t.Keys == FIXED + LinkNames(links)
    ensures var unique := !Reserved(l.name) && forall m | m in links :: Stem(m.name) != Stem(l.name);
            && (SourceName(l.name) in t <==> !unique)
            && (unique ==> OutputName(l.name) !in t && InputName(l.name) !in t)
  {
    LinkNamesAt(links, SOURCE_PREFIX, l.name);
    LinkNamesAt(links, OUTPUT_PREFIX, l.name);
    LinkNamesAt(links, INPUT_PREFIX, l.name);
    GeneratedNameIsFixed(SOURCE_PREFIX, l.name);
    GeneratedNameIsFixed(OUTPUT_PREFIX, l.name);
    GeneratedNameIsFixed(INPUT_PREFIX, l.name);
  }

  /** Atomicity: without refusals by the environment, an addSecurityGroup call
      either fails with the table exactly unchanged or installs everything, and
      it succeeds exactly on acceptable links. */
  lemma {:induction false} AddIsAtomic(s: State, links: seq<Link>, l: Link)
    requires Exactly(s.chains, links)
    ensures var r := Add(NO_FAULTS, s, l);
            if Acceptable(links, l)
            then r.done == |ADD_FUNCTIONS| && Exactly(r.state.chains, [l] + links)
            else r.done == 0 && r.state.chains == s.chains
  {
    NamesTaken(s.chains, links, l);
    if Acceptable(links, l) {
      AcceptableCompletes(s, links, l);
    } else {
      AddResult(NO_FAULTS, s, l);
      if !WellFormed(l) {
        MalformedIsRefused(NO_FAULTS, s, l);
      }
    }
  }

  lemma {:induction false} AcceptableCompletes(s: State, links: seq<Link>, l: Link)
    requires Exactly(s.chains, links) && WellFormed(l)
    requires SourceName(l.name) !in s.chains && OutputName(l.name) !in s.chains && InputName(l.name) !in s.chains
    ensures var r := Add(NO_FAULTS, s, l); r.done == |ADD_FUNCTIONS| && Exactly(r.state.chains, [l] + links)
  {
    CompletesWhenReady(s, l);
    AddRealizes(NO_FAULTS, s, links, l);
    KeysAfterAdd(s.chains, links, l);
  }

  lemma {:induction false} CompletesWhenReady(s: State, l: Link)
    requires Closed(s.chains) && WellFormed(l)
    requires SourceName(l.name) !in s.chains && OutputName(l.name) !in s.chains && InputName(l.name) !in s.chains
    requires SG_FALLBACK in s.chains && SG in s.chains && CALLISTO_FORWARD in s.chains
    ensures var r := Add(NO_FAULTS, s, l); r.done == |ADD_FUNCTIONS| && r.state.chains == After(s.chains, l, 6)
  {
    LinkIsAllReady(s.chains, l, 0, |ADD_FUNCTIONS|);
    var _ := AddReaches(NO_FAULTS, s, s.chains, l, 0, |ADD_FUNCTIONS|);
  }

  lemma KeysAfterAdd(t: Chains, links: seq<Link>, l: Link)
    requires t.Keys == FIXED + LinkNames(links)
    ensures After(t, l, 6).Keys == FIXED + LinkNames([l] + links)
  {
    KeysAfter(t, l, 6);
    TouchedSoFar(l, 6);
    assert ([l] + links)[0] == l && ([l] + links)[1..] == links;
  }

  function Touched(l: Link, k: nat): set<string>
    requires k <= |ADD_FUNCTIONS|
    decreases k, l  // `l` keeps a literal `k` from being unrolled
  {
    if k == 0 then {} else Touched(l, k - 1) + {ChainOf(ADD_FUNCTIONS[k - 1], l)}
  }

  lemma {:induction false} KeysAfter(t: Chains, l: Link, k: nat)
    requires k <= |ADD_FUNCTIONS|
    ensures After(t, l, k).Keys == t.Keys + Touched(l, k)
  {
    if k > 0 {
      KeysAfter(t, l, k - 1);
    }
  }

  lemma TouchedSoFar(l: Link, k: nat)
    requires k <= |ADD_FUNCTIONS|
    ensures k == 0 ==> Touched(l, k) == {}
    ensures k == 1 ==> Touched(l, k) == {SourceName(l.name)}
    ensures k == 2 ==> Touched(l, k) == {SourceName(l.name), OutputName(l.name)}
    ensures k == 3 ==> Touched(l, k) == {SourceName(l.name), OutputName(l.name), InputName(l.name)}
    ensures k == 4 ==> Touched(l, k) == {SourceName(l.name), OutputName(l.name), InputName(l.name), SG}
    ensures k >= 5 ==> Touched(l, k) == {SourceName(l.name), OutputName(l.name), InputName(l.name), SG, CALLISTO_FORWARD}
  {
    if k > 0 {
      TouchedSoFar(l, k - 1);
    }
  }

  /** The links a failure-free run manages, newest first. */
  function Added(links: seq<Link>, calls: seq<Call>): seq<Link>
    decreases |calls|
  {
    if calls == [] then links
    else
      var links' := if calls[0].CallAdd? && Acceptable(links, calls[0].link) then [calls[0].link] + links else links;
      Added(links', calls[1..])
  }

  /** The closed form holds after every failure-free list of calls. */
  lemma {:induction false} RunIsExact(s: State, links: seq<Link>, calls: seq<Call>)
    requires Exactly(s.chains, links)
    ensures Exactly(Run(NO_FAULTS, s, calls).chains, Added(links, calls))
    decreases |calls|
  {
    if calls != [] {
      var s' := Step(NO_FAULTS, s, calls[0]);
      var links' := if calls[0].CallAdd? && Acceptable(links, calls[0].link) then [calls[0].link] + links else links;
      if calls[0].CallSetup? {
        SetupIsRefused(NO_FAULTS, s);
      } else {
        AddIsAtomic(s, links, calls[0].link);
      }
      RunIsExact(s', links', calls[1..]);
    }
  }
}

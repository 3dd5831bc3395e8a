/** What adds that come before setup do to it: a link whose name is reserved takes
    the name of a chain that setup makes, and blocks it for good. */
module BeforeSetup {
  import opened Rules
  import opened ChainNames
  import opened SecurityGroup
  import opened Traversal
  import opened Installation
  import opened Policy
  import opened Runs
  import opened Circles
  import opened Stranding
  import opened Failures

  const SETUP_NAMES := {SG_FALLBACK, SG, CALLISTO_INPUT, CALLISTO_FORWARD}

  // ---------- when setup succeeds ----------

  predicate FreeFrom(names: set<string>, i: nat) {
    forall j | 0 <= i <= j < |SETUP_FUNCTIONS| :: SetupChainName(SETUP_FUNCTIONS[j]) !in names
  }

  lemma SetupStepIff(faults: Faults, s: State, f: SetupFunction)
    requires INPUT in s.chains && FORWARD in s.chains
    ensures var o := SetupStep(faults, s, f);
            && (o.ok <==> !faults(s.calls) && !faults(s.calls + 1) && SetupChainName(f) !in s.chains)
            && (o.ok ==> o.state.calls == s.calls + 2 && o.state.chains.Keys == s.chains.Keys + {SetupChainName(f)})
  {
  }

  lemma LaterNamesStayFree(names: set<string>, i: nat)
    requires i < |SETUP_FUNCTIONS|
    ensures FreeFrom(names, i) <==>
            SetupChainName(SETUP_FUNCTIONS[i]) !in names && FreeFrom(names + {SetupChainName(SETUP_FUNCTIONS[i])}, i + 1)
  {
    FixedNamesDiffer();
  }

  lemma {:induction false} SetupFromIff(faults: Faults, s: State, i: nat)
    requires i <= |SETUP_FUNCTIONS| && INPUT in s.chains && FORWARD in s.chains
    ensures SetupFrom(faults, s, i).ok <==>
            Granted(faults, s.calls, s.calls + 2 * (|SETUP_FUNCTIONS| - i)) && FreeFrom(s.chains.Keys, i)
    decreases |SETUP_FUNCTIONS| - i
  {
    if i < |SETUP_FUNCTIONS| {
      var f := SETUP_FUNCTIONS[i];
      var o := SetupStep(faults, s, f);
      SetupStepIff(faults, s, f);
      LaterNamesStayFree(s.chains.Keys, i);
      if o.ok {
        SetupFromIff(faults, o.state, i + 1);
      }
    }
  }

  /** On any table with the built-in chains, setup succeeds exactly when none of
      its eight client calls is refused and none of its four chains exists. */
  lemma {:induction false} SetupIff(faults: Faults, s: State)
    requires INPUT in s.chains && FORWARD in s.chains
    ensures Setup(faults, s).ok <==> Granted(faults, s.calls, s.calls + 8) && s.chains.Keys !! SETUP_NAMES
  {
    SetupFromIff(faults, s, 0);
    var names := s.chains.Keys;
    assert FreeFrom(names, 0) <==> names !! SETUP_NAMES by {
      assert SetupChainName(SETUP_FUNCTIONS[0]) == SG_FALLBACK && SetupChainName(SETUP_FUNCTIONS[1]) == SG;
      assert SetupChainName(SETUP_FUNCTIONS[2]) == CALLISTO_INPUT && SetupChainName(SETUP_FUNCTIONS[3]) == CALLISTO_FORWARD;
    }
  }

  // ---------- a blocked host ----------

  /** Setup is blocked by a chain of that name, and FORWARD has no rule. */
  predicate Blocked(t: Chains) {
    Holds(t, FORWARD, []) && (SG_FALLBACK in t || SG in t)
  }

  lemma {:induction false} SetupStaysBlocked(faults: Faults, s: State)
    requires Blocked(s.chains)
    ensures Blocked(Setup(faults, s).state.chains)
  {
    FixedNamesDiffer();
    if SG_FALLBACK in s.chains {
      SetupIsRefused(faults, s);
    } else {
      var o := SetupStep(faults, s, SETUP_FUNCTIONS[0]);
      assert SETUP_FUNCTIONS[0] == SetupSGFallbackChain && SETUP_FUNCTIONS[1] == SetupSGChain;
      if o.ok {
        assert Setup(faults, s) == SetupFrom(faults, o.state, 1);
        assert !SetupStep(faults, o.state, SETUP_FUNCTIONS[1]).ok;
      }
    }
  }

  lemma {:induction false} AddStaysBlocked(faults: Faults, s: State, l: Link)
    requires Closed(s.chains) && Blocked(s.chains)
    ensures Blocked(Add(faults, s, l).state.chains)
  {
    BuiltinIsNoTarget(l, FORWARD);
    AddKeepsChain(faults, s, l, FORWARD);
    GeneratedNameIsFixed(SOURCE_PREFIX, l.name);
    if SG_FALLBACK in s.chains {
      AddKeepsFallback(faults, s, l);
    } else if l.name == "g-fallback" && Add(faults, s, l).done >= 1 {
      AddKeepsSource(faults, s, l);
    } else {
      FewFunctionsKeepNames(faults, s, l);
    }
  }

  /** Without the fallback chain an add of another name gets at most its source chain. */
  lemma {:induction false} FewFunctionsKeepNames(faults: Faults, s: State, l: Link)
    requires Closed(s.chains) && SG_FALLBACK !in s.chains
    requires l.name != "g-fallback" || Add(faults, s, l).done == 0
    ensures Add(faults, s, l).done <= 1
    ensures Add(faults, s, l).state.chains.Keys ==
            s.chains.Keys + if Add(faults, s, l).done == 0 then {} else {SourceName(l.name)}
  {
    GeneratedNameIsFixed(SOURCE_PREFIX, l.name);
    if l.name != "g-fallback" {
      OutputNeedsFallback(faults, s, l);
    }
    AddResult(faults, s, l);
    KeysAfter(s.chains, l, Add(faults, s, l).done);
    TouchedSoFar(l, Add(faults, s, l).done);
  }

  lemma {:induction false} RunStaysBlocked(faults: Faults, s: State, calls: seq<Call>)
    requires Closed(s.chains) && Blocked(s.chains)
    ensures Blocked(Run(faults, s, calls).chains)
    decreases |calls|
  {
    if calls != [] {
      StepKeepsInvariant(faults, s, calls[0]);
      if calls[0].CallSetup? {
        SetupStaysBlocked(faults, s);
      } else {
        AddStaysBlocked(faults, s, calls[0].link);
      }
      RunStaysBlocked(faults, Step(faults, s, calls[0]), calls[1..]);
    }
  }

  /** A blocked host stays so: after any later calls, under any refusals, no setup
      succeeds, and every packet passes FORWARD without a verdict. */
  lemma {:induction false} BlockedForGood(faults: Faults, s: State, later: seq<Call>, retry: Faults, depth: nat, p: Packet)
    requires Closed(s.chains) && Blocked(s.chains) && INPUT in s.chains
    ensures var s' := Run(faults, s, later);
            !Setup(retry, s').ok && Decide(s'.chains, depth, FORWARD, p) == Through
  {
    RunStaysBlocked(faults, s, later);
    RunKeepsInput(faults, s, later);
    SetupIff(retry, Run(faults, s, later));
    assert SG_FALLBACK in SETUP_NAMES && SG in SETUP_NAMES;
  }

  lemma {:induction false} RunKeepsInput(faults: Faults, s: State, calls: seq<Call>)
    requires Closed(s.chains) && INPUT in s.chains
    ensures INPUT in Run(faults, s, calls).chains
    decreases |calls|
  {
    if calls != [] {
      StepKeepsInvariant(faults, s, calls[0]);
      if calls[0].CallSetup? {
        SetupKeepsName(faults, s, 0, INPUT);
      } else {
        BuiltinIsNoTarget(calls[0].link, INPUT);
        AddKeepsChain(faults, s, calls[0].link, INPUT);
      }
      RunKeepsInput(faults, Step(faults, s, calls[0]), calls[1..]);
    }
  }

  lemma {:induction false} SetupKeepsName(faults: Faults, s: State, i: nat, c: string)
    requires i <= |SETUP_FUNCTIONS| && c in s.chains
    ensures c in SetupFrom(faults, s, i).state.chains
    decreases |SETUP_FUNCTIONS| - i
  {
    if i < |SETUP_FUNCTIONS| {
      var o := SetupStep(faults, s, SETUP_FUNCTIONS[i]);
      if o.ok {
        SetupKeepsName(faults, o.state, i + 1, c);
      }
    }
  }

  // ---------- adds before setup ----------

  /** The call makes a link whose source chain has a name that setup needs. */
  predicate TakesSetupName(call: Call) {
    call.CallAdd? && Reserved(call.link.name) && WellFormed(call.link)
  }

  /** No setup has run, and no chain of its names is there. */
  predicate Untouched(t: Chains) {
    INPUT in t && Holds(t, FORWARD, []) && t.Keys !! SETUP_NAMES
  }

  /** An add on such a host, without refusals: its source chain is all it can make. */
  lemma {:induction false} AddOnUntouched(s: State, l: Link)
    requires Closed(s.chains) && Untouched(s.chains)
    ensures var t := Add(NO_FAULTS, s, l).state.chains;
            INPUT in t && if TakesSetupName(CallAdd(l)) then Blocked(t) else Untouched(t)
  {
    FixedNamesDiffer();
    BuiltinIsNoTarget(l, FORWARD);
    BuiltinIsNoTarget(l, INPUT);
    AddKeepsChain(NO_FAULTS, s, l, FORWARD);
    AddKeepsChain(NO_FAULTS, s, l, INPUT);
    GeneratedNameIsFixed(SOURCE_PREFIX, l.name);
    if TakesSetupName(CallAdd(l)) {
      FirstFunctionSucceeds(s, l);
      AddKeepsSource(NO_FAULTS, s, l);
    } else {
      OrdinaryOnUntouched(s, l);
    }
  }

  lemma {:induction false} OrdinaryOnUntouched(s: State, l: Link)
    requires Closed(s.chains) && Untouched(s.chains) && !TakesSetupName(CallAdd(l))
    ensures Add(NO_FAULTS, s, l).state.chains.Keys !! SETUP_NAMES
  {
    GeneratedNameIsFixed(SOURCE_PREFIX, l.name);
    if !WellFormed(l) {
      MalformedIsRefused(NO_FAULTS, s, l);
    }
    FewFunctionsKeepNames(NO_FAULTS, s, l);
    assert SETUP_NAMES <= FIXED;
  }

  /** The source chain of a free name is made. */
  lemma {:induction false} FirstFunctionSucceeds(s: State, l: Link)
    requires Closed(s.chains) && WellFormed(l) && SourceName(l.name) !in s.chains
    ensures Add(NO_FAULTS, s, l).done >= 1
  {
    SourceIsReady(s.chains, l);
    StepSucceeds(NO_FAULTS, s, ADD_FUNCTIONS[0], l);
  }

  lemma SourceIsReady(t: Chains, l: Link)
    requires WellFormed(l) && SourceName(l.name) !in t
    ensures Ready(t, ADD_FUNCTIONS[0], l)
  {
    RulesAreInsertable(AddSOURCESGRules, l, t.Keys + {SourceName(l.name)});
  }

  predicate AddsOnly(calls: seq<Call>) { forall c | c in calls :: c.CallAdd? }

  lemma {:induction false} AddsOnUntouched(s: State, calls: seq<Call>)
    requires Closed(s.chains) && Untouched(s.chains) && AddsOnly(calls)
    ensures var t := Run(NO_FAULTS, s, calls).chains;
            && Closed(t) && INPUT in t
            && if exists c :: c in calls && TakesSetupName(c) then Blocked(t) else Untouched(t)
    decreases |calls|
  {
    if calls != [] {
      var s' := Step(NO_FAULTS, s, calls[0]);
      assert calls == [calls[0]] + calls[1..];
      StepKeepsInvariant(NO_FAULTS, s, calls[0]);
      AddOnUntouched(s, calls[0].link);
      if TakesSetupName(calls[0]) {
        RunStaysBlocked(NO_FAULTS, s', calls[1..]);
        RunKeepsInput(NO_FAULTS, s', calls[1..]);
        RunKeepsInvariant(NO_FAULTS, s', calls[1..]);
      } else {
        AddsOnUntouched(s', calls[1..]);
      }
    }
  }

  /** After adds alone on a fresh host, without refusals, a setup succeeds exactly
      if none of its client calls is refused and no add was well-formed for a reserved name. */
  lemma {:induction false} SetupAfterAddsIff(calls: seq<Call>, faults: Faults)
    requires AddsOnly(calls)
    ensures var s := Run(NO_FAULTS, INITIAL, calls);
            Setup(faults, s).ok <==> Granted(faults, s.calls, s.calls + 8) && forall c :: c in calls ==> !TakesSetupName(c)
  {
    var s := Run(NO_FAULTS, INITIAL, calls);
    FixedNamesDiffer();
    AddsOnUntouched(INITIAL, calls);
    SetupIff(faults, s);
    assert SG_FALLBACK in SETUP_NAMES && SG in SETUP_NAMES;
  }

  /** And once a reserved name was added, no later calls repair it. */
  lemma {:induction false} ReservedNameBlocksSetup(calls: seq<Call>, faults: Faults, later: seq<Call>, retry: Faults, depth: nat, p: Packet)
    requires AddsOnly(calls) && exists c :: c in calls && TakesSetupName(c)
    ensures var s := Run(faults, Run(NO_FAULTS, INITIAL, calls), later);
            !Setup(retry, s).ok && Decide(s.chains, depth, FORWARD, p) == Through
  {
    FixedNamesDiffer();
    AddsOnUntouched(INITIAL, calls);
    BlockedForGood(faults, Run(NO_FAULTS, INITIAL, calls), later, retry, depth, p);
  }
}

/** Which lists of calls can make a table that strands a packet which the kernel
    hands to it, exactly, over all patterns of refusals. */
module Stranding {
  import opened Basics
  import opened Rules
  import opened ChainNames
  import opened SecurityGroup
  import opened Policy
  import opened Traversal
  import opened Installation
  import opened Runs
  import opened ReservedNames
  import opened Circles

  /** The call can get as far as the shared chains. */
  predicate AddsOrdinary(call: Call) {
    call.CallAdd? && !Reserved(call.link.name) && WellFormed(call.link)
  }

  predicate NoRemake(calls: seq<Call>) {
    forall c | c in calls :: !RemakesSg(c)
  }

  /** A well-formed add of `g-chain` comes after a well-formed add of an ordinary name. */
  predicate MayRemake(calls: seq<Call>) {
    exists k | 0 <= k < |calls| :: AddsOrdinary(calls[k]) && !NoRemake(calls[k + 1..])
  }

  /** ... and that one comes after a setup. */
  predicate MayStrand(calls: seq<Call>) {
    exists i | 0 <= i < |calls| :: calls[i].CallSetup? && MayRemake(calls[i + 1..])
  }

  /** A packet that the kernel hands to a built-in chain gets no verdict. */
  ghost predicate Strands(t: Chains) {
    exists c, p :: c in {INPUT, FORWARD} && NeverDecided(t, c, p)
  }

  /** Under these refusals the calls make a table that strands a packet. */
  ghost predicate ReachesStrand(faults: Faults, calls: seq<Call>) {
    Strands(Run(faults, INITIAL, calls).chains)
  }

  // ---------- no call list beyond the condition makes one ----------

  /** INPUT decides nothing. */
  predicate Quiet(t: Chains) {
    && INPUT in t
    && (t[INPUT] == [] || (t[INPUT] == [Rule(Any, Jump(CALLISTO_INPUT))] && Holds(t, CALLISTO_INPUT, [])))
  }

  /** FORWARD cannot lead into a circle, now or after the calls to come. */
  ghost predicate ForwardIsSafe(t: Chains, calls: seq<Call>) {
    && FORWARD in t
    && (|| t[FORWARD] == []
        || (Ranked(t) && (NoRemake(calls) || (SG in t && !MayRemake(calls)))))
  }

  /** What a run keeps when its calls do not meet the condition: before the
      fallback chain is made, and after. */
  ghost predicate Harmless(t: Chains, calls: seq<Call>) {
    && Closed(t) && Quiet(t)
    && (if SG_FALLBACK in t then ForwardIsSafe(t, calls)
        else Ranked(t) && t[INPUT] == [] && Holds(t, FORWARD, []) && !MayStrand(calls))
  }

  lemma {:induction false} HarmlessDecides(t: Chains)
    requires Harmless(t, [])
    ensures !Strands(t)
  {
    forall c, p | c in {INPUT, FORWARD} ensures !NeverDecided(t, c, p) {
      if t[c] == [] {
        assert Decide(t, 0, c, p) == Through;
      } else if c == FORWARD {
        RankedHasNoCircle(t);
      } else {
        assert t[INPUT][1..] == [] && t[CALLISTO_INPUT] == [];
        assert Eval(t, 1, t[INPUT], p) == Eval(t, 1, [], p);
        assert Decide(t, 1, INPUT, p) == Through;
      }
    }
  }

  lemma RestOfRemake(calls: seq<Call>)
    requires calls != [] && !MayRemake(calls)
    ensures !MayRemake(calls[1..])
    ensures AddsOrdinary(calls[0]) ==> NoRemake(calls[1..])
  {
    forall k | 0 <= k < |calls[1..]| && AddsOrdinary(calls[1..][k]) ensures NoRemake(calls[1..][k + 1..]) {
      assert calls[1..][k] == calls[k + 1] && calls[1..][k + 1..] == calls[k + 1 + 1..];
    }
  }

  lemma RestOfStrand(calls: seq<Call>)
    requires calls != [] && !MayStrand(calls)
    ensures !MayStrand(calls[1..])
    ensures calls[0].CallSetup? ==> !MayRemake(calls[1..])
  {
    forall i | 0 <= i < |calls[1..]| && calls[1..][i].CallSetup? ensures !MayRemake(calls[1..][i + 1..]) {
      assert calls[1..][i] == calls[i + 1] && calls[1..][i + 1..] == calls[i + 1 + 1..];
    }
  }

  /** A table on which the first `i` setup functions have worked and the next may have failed. */
  predicate MidSetup(t: Chains, i: nat) {
    && Quiet(t) && (i < 3 ==> t[INPUT] == [])
    && (i >= 1 ==> SG_FALLBACK in t) && (i >= 2 ==> SG in t)
    && FORWARD in t && (i < 4 ==> t[FORWARD] == [])
  }

  lemma {:induction false} SetupStepQuiet(faults: Faults, s: State, i: nat)
    requires i < |SETUP_FUNCTIONS| && MidSetup(s.chains, i)
    ensures var o := SetupStep(faults, s, SETUP_FUNCTIONS[i]);
            && MidSetup(o.state.chains, if o.ok then i + 1 else i)
            && (o.state.chains == s.chains || SG_FALLBACK in o.state.chains)
  {
    FixedNamesDiffer();
  }

  lemma {:induction false} SetupQuiet(faults: Faults, s: State, i: nat) returns (k: nat)
    requires i <= |SETUP_FUNCTIONS| && MidSetup(s.chains, i)
    ensures var t := SetupFrom(faults, s, i).state.chains;
            && i <= k <= |SETUP_FUNCTIONS| && MidSetup(t, k)
            && (t == s.chains || SG_FALLBACK in t)
    decreases |SETUP_FUNCTIONS| - i
  {
    k := i;
    if i < |SETUP_FUNCTIONS| {
      var o := SetupStep(faults, s, SETUP_FUNCTIONS[i]);
      SetupStepQuiet(faults, s, i);
      if o.ok {
        k := SetupQuiet(faults, o.state, i + 1);
      }
    }
  }

  lemma {:induction false} HarmlessAfterSetup(faults: Faults, s: State, calls: seq<Call>)
    requires calls != [] && calls[0].CallSetup? && Harmless(s.chains, calls)
    ensures Harmless(Setup(faults, s).state.chains, calls[1..])
  {
    if SG_FALLBACK in s.chains {
      SetupIsRefused(faults, s);
      if s.chains[FORWARD] != [] && !NoRemake(calls) {
        RestOfRemake(calls);
      }
    } else {
      RestOfStrand(calls);
      StepKeepsRanked(faults, s, calls[0]);
      var _ := SetupQuiet(faults, s, 0);
    }
  }

  lemma AddKeepsBuiltins(faults: Faults, s: State, l: Link)
    requires Closed(s.chains) && Quiet(s.chains) && FORWARD in s.chains
    ensures var t := Add(faults, s, l).state.chains;
            Quiet(t) && t[INPUT] == s.chains[INPUT] && Holds(t, FORWARD, s.chains[FORWARD])
  {
    BuiltinIsNoTarget(l, INPUT);
    BuiltinIsNoTarget(l, FORWARD);
    AddKeepsChain(faults, s, l, INPUT);
    AddKeepsChain(faults, s, l, FORWARD);
    if CALLISTO_INPUT in s.chains {
      BuiltinIsNoTarget(l, CALLISTO_INPUT);
      AddKeepsChain(faults, s, l, CALLISTO_INPUT);
    }
  }

  lemma {:induction false} AddKeepsFallback(faults: Faults, s: State, l: Link)
    requires Closed(s.chains) && SG_FALLBACK in s.chains
    ensures SG_FALLBACK in Add(faults, s, l).state.chains
  {
    FixedNamesDiffer();
    GeneratedNameIsFixed(SOURCE_PREFIX, l.name);
    if l.name == "g-fallback" {
      RefusedAtOnce(faults, s, l);
    } else {
      MadeNamesAreNotFixed(l.name);
      assert SG_FALLBACK in FIXED;
      AddKeepsChain(faults, s, l, SG_FALLBACK);
    }
  }

  /** While both shared chains exist, only a well-formed add of an ordinary name changes anything. */
  lemma {:induction false} OnlyOrdinaryChanges(faults: Faults, s: State, call: Call)
    requires call.CallAdd? && Closed(s.chains) && SG_FALLBACK in s.chains && SG in s.chains
    requires !AddsOrdinary(call)
    ensures Add(faults, s, call.link).state.chains == s.chains
  {
    GeneratedNameIsFixed(SOURCE_PREFIX, call.link.name);
    RefusedAtOnce(faults, s, call.link);
  }

  lemma {:induction false} ForwardStaysSafe(faults: Faults, s: State, calls: seq<Call>)
    requires calls != [] && calls[0].CallAdd? && Closed(s.chains) && SG_FALLBACK in s.chains
    requires ForwardIsSafe(s.chains, calls) && s.chains[FORWARD] != []
    ensures var t := Add(faults, s, calls[0].link).state.chains;
            Ranked(t) && (NoRemake(calls[1..]) || (SG in t && !MayRemake(calls[1..])))
  {
    StepKeepsRanked(faults, s, calls[0]);
    if !NoRemake(calls) {
      RestOfRemake(calls);
      if !AddsOrdinary(calls[0]) {
        OnlyOrdinaryChanges(faults, s, calls[0]);
      }
    }
  }

  lemma {:induction false} HarmlessAfterAdd(faults: Faults, s: State, calls: seq<Call>)
    requires calls != [] && calls[0].CallAdd? && Harmless(s.chains, calls)
    ensures Harmless(Add(faults, s, calls[0].link).state.chains, calls[1..])
  {
    var l := calls[0].link;
    AddKeepsBuiltins(faults, s, l);
    StepKeepsInvariant(faults, s, calls[0]);
    if SG_FALLBACK in s.chains {
      AddKeepsFallback(faults, s, l);
      if s.chains[FORWARD] != [] {
        ForwardStaysSafe(faults, s, calls);
      }
    } else {
      RestOfStrand(calls);
      StepKeepsRanked(faults, s, calls[0]);
    }
  }

  lemma {:induction false} RunStaysHarmless(faults: Faults, s: State, calls: seq<Call>)
    requires Harmless(s.chains, calls)
    ensures Harmless(Run(faults, s, calls).chains, [])
    decreases |calls|
  {
    if calls != [] {
      if calls[0].CallSetup? {
        HarmlessAfterSetup(faults, s, calls);
      } else {
        HarmlessAfterAdd(faults, s, calls);
      }
      RunStaysHarmless(faults, Step(faults, s, calls[0]), calls[1..]);
    }
  }

  // ---------- every call list that meets the condition can make one ----------

  /** The table that an add leaves which stops in its fourth function, on a host
      without managed links: the rollback deletes callisto-sg-chain. */
  function WithoutSg(l: Link): Chains {
    After(BASE, l, 3) - {SG}
  }

  lemma ThreeChainsOnBase(l: Link)
    requires !Reserved(l.name)
    ensures SourceName(l.name) !in FIXED && OutputName(l.name) !in FIXED && InputName(l.name) !in FIXED
    ensures After(BASE, l, 3) == BASE[SourceName(l.name) := SourceRules(l)]
                                     [OutputName(l.name) := OutputRules(l)][InputName(l.name) := InputRules(l)]
    ensures After(BASE, l, 3).Keys == FIXED + Touched(l, 3)
  {
    BaseRealizes();
    GeneratedNameIsFixed(SOURCE_PREFIX, l.name);
    MadeNamesAreNotFixed(l.name);
    LinkNamesDiffer(l);
    KeysAfter(BASE, l, 1);
    KeysAfter(BASE, l, 2);
    KeysAfter(BASE, l, 3);
    TouchedSoFar(l, 1);
    TouchedSoFar(l, 2);
    AfterMakes(BASE, l, 1);
    AfterMakes(BASE, l, 2);
    AfterMakes(BASE, l, 3);
  }

  lemma {:induction false} SgIsDeleted(l: Link)
    requires !Reserved(l.name)
    ensures Discard(After(BASE, l, 3), SG) == WithoutSg(l)
  {
    ThreeChainsOnBase(l);
    FixedNamesDiffer();
    var t := After(BASE, l, 3) - {SG};
    forall c, r: Rule | c in t && r in t[c] ensures r.target != Jump(SG) {
      if c in FIXED {
        assert t[c] == BASE[c];
      } else {
        assert r in SourceRules(l) || r in OutputRules(l) || r in InputRules(l);
      }
    }
  }

  /** The add of an ordinary name that stops in its fourth function. */
  lemma {:induction false} OrdinaryStops(faults: Faults, s: State, l: Link)
    requires s.chains == BASE && WellFormed(l) && !Reserved(l.name)
    requires Granted(faults, s.calls, s.calls + 20) && faults(s.calls + 20)
    ensures Add(faults, s, l).state == State(WithoutSg(l), s.calls + 21)
  {
    BaseIsReady(l);
    AddStopsIn(faults, s, l, 6, 3, s.calls + 20);
    AddResult(faults, s, l);
    SgIsDeleted(l);
    assert Undone(BASE, l, 3) == Discard(After(BASE, l, 3), SG);
  }

  lemma BaseIsReady(l: Link)
    requires WellFormed(l) && !Reserved(l.name)
    ensures Closed(BASE) && AllReady(BASE, l, 0, 6)
  {
    BaseRealizes();
    GeneratedNameIsFixed(SOURCE_PREFIX, l.name);
    MadeNamesAreNotFixed(l.name);
    LinkIsAllReady(BASE, l, 0, 6);
  }

  /** What the add of `g-chain` then finds. */
  lemma {:induction false} NamesWithoutSg(l: Link, m: Link)
    requires !Reserved(l.name) && m.name == "g-chain"
    ensures var t := WithoutSg(l);
            && SourceName(m.name) == SG && SG !in t && OutputName(m.name) !in t && InputName(m.name) !in t
            && SG_FALLBACK in t && Holds(t, CALLISTO_FORWARD, []) && Holds(t, FORWARD, BASE[FORWARD])
  {
    FixedNamesDiffer();
    ThreeChainsOnBase(l);
    TouchedSoFar(l, 3);
    GeneratedNameIsFixed(SOURCE_PREFIX, m.name);
    MadeNamesAreNotFixed(m.name);
    GeneratedNamesCoincide(OUTPUT_PREFIX, m.name, OUTPUT_PREFIX, l.name);
    GeneratedNamesCoincide(OUTPUT_PREFIX, m.name, INPUT_PREFIX, l.name);
    GeneratedNamesCoincide(OUTPUT_PREFIX, m.name, SOURCE_PREFIX, l.name);
    GeneratedNamesCoincide(INPUT_PREFIX, m.name, INPUT_PREFIX, l.name);
    GeneratedNamesCoincide(INPUT_PREFIX, m.name, OUTPUT_PREFIX, l.name);
    GeneratedNamesCoincide(INPUT_PREFIX, m.name, SOURCE_PREFIX, l.name);
    assert |Stem(m.name)| == 7;
  }

  /** FORWARD leads into the circle. */
  predicate LeadsRound(t: Chains, m: Link) {
    && Circular(t, m)
    && Holds(t, FORWARD, BASE[FORWARD])
    && Holds(t, CALLISTO_FORWARD, ForwardBlock(m) + InputBlock(m))
  }

  lemma {:induction false} SharedBlocksOnTop(t: Chains, m: Link)
    requires SourceName(m.name) == SG && SG !in t && OutputName(m.name) !in t && InputName(m.name) !in t
    requires Holds(t, CALLISTO_FORWARD, []) && Holds(t, FORWARD, BASE[FORWARD])
    ensures LeadsRound(After(t, m, 6), m)
  {
    FixedNamesDiffer();
    MadeNamesAreNotFixed(m.name);
    BuiltinIsNoTarget(m, FORWARD);
    AfterKeeps(t, m, 6, FORWARD);
    AfterKeeps(t, m, 3, CALLISTO_FORWARD);
    ChainsAfterFour(t, m);
    KeysAfter(t, m, 3);
    TouchedSoFar(m, 3);
    BlocksOnTop(t, m);
    assert After(t, m, 4) == After(t, m, 3)[SG := SgBlock(m) + RulesAt(After(t, m, 3), SG)];
  }

  /** The add of `g-chain` that completes. */
  lemma {:induction false} RemakeCompletes(faults: Faults, s: State, l: Link, m: Link)
    requires Closed(s.chains) && s.chains == WithoutSg(l)
    requires !Reserved(l.name) && m.name == "g-chain" && WellFormed(m)
    requires Granted(faults, s.calls, s.calls + 25)
    ensures var r := Add(faults, s, m).state; r.calls == s.calls + 25 && LeadsRound(r.chains, m)
  {
    NamesWithoutSg(l, m);
    LinkIsAllReady(s.chains, m, 0, 6);
    var _ := AddReaches(faults, s, s.chains, m, 0, 6);
    SharedBlocksOnTop(s.chains, m);
  }

  /** A packet that enters by `g-chain`, and is not UDP, never gets a verdict. */
  lemma {:induction false} PacketIsStranded(t: Chains, m: Link, depth: nat, p: Packet)
    requires LeadsRound(t, m)
    requires p.bridged && p.physIn == m.name && p.physOut != m.name && p.proto != Udp
    ensures Decide(t, depth, FORWARD, p) == Stuck
  {
    if depth >= 1 {
      EvalBuiltin(t, depth, p);
      var b := t[CALLISTO_FORWARD];
      assert Eval(t, depth - 1, b, p) == Eval(t, depth - 1, b[1..], p);
      assert b[1..][0] == Rule(PhysIn(m.name), Jump(SG));
      if depth >= 2 {
        GoesInCircles(t, m, depth - 2, p);
      }
    }
  }

  lemma {:induction false} LeadsRoundStrands(t: Chains, m: Link)
    requires LeadsRound(t, m) && m.name == "g-chain"
    ensures Strands(t)
  {
    var p := Packet(true, m.name, "", 0, [], Icmp, 0, 0, New);
    forall depth: nat ensures Decide(t, depth, FORWARD, p) == Stuck {
      PacketIsStranded(t, m, depth, p);
    }
    assert NeverDecided(t, FORWARD, p);
  }

  lemma {:induction false} StrandFollowsRemake(faults: Faults, s: State, l: Link, calls: seq<Call>, j: nat)
    requires Closed(s.chains) && s.chains == WithoutSg(l) && !Reserved(l.name)
    requires j < |calls| && RemakesSg(calls[j])
    requires Denied(faults, s.calls, s.calls + j)
    requires Granted(faults, s.calls + j, s.calls + j + 25)
    requires DeniedFrom(faults, s.calls + j + 25)
    ensures Strands(Run(faults, s, calls).chains)
  {
    var m, s' := calls[j].link, State(s.chains, s.calls + j);
    RunAround(faults, s, calls, j);
    RemakeCompletes(faults, s', l, m);
    RunRefused(faults, Add(faults, s', m).state, calls[j + 1..]);
    LeadsRoundStrands(Add(faults, s', m).state.chains, m);
  }

  lemma {:induction false} StrandFollowsAdd(faults: Faults, s: State, calls: seq<Call>, k: nat, j: nat)
    requires s.chains == BASE
    requires k < |calls| && AddsOrdinary(calls[k]) && j < |calls[k + 1..]| && RemakesSg(calls[k + 1..][j])
    requires Denied(faults, s.calls, s.calls + k)
    requires Granted(faults, s.calls + k, s.calls + k + 20)
    requires Denied(faults, s.calls + k + 20, s.calls + k + 21 + j)
    requires Granted(faults, s.calls + k + 21 + j, s.calls + k + 46 + j)
    requires DeniedFrom(faults, s.calls + k + 46 + j)
    ensures Strands(Run(faults, s, calls).chains)
  {
    var l, s' := calls[k].link, State(s.chains, s.calls + k);
    RunAround(faults, s, calls, k);
    OrdinaryStops(faults, s', l);
    BaseRealizes();
    StepKeepsInvariant(faults, s', calls[k]);
    StrandFollowsRemake(faults, Add(faults, s', l).state, l, calls[k + 1..], j);
  }

  lemma SetupCompletes(faults: Faults, n: nat, call: Call)
    requires call.CallSetup? && Granted(faults, n, n + 8)
    ensures Step(faults, State(INITIAL.chains, n), call) == State(BASE, n + 8)
  {
    SetupSucceedsIff(faults, State(INITIAL.chains, n));
  }

  lemma {:induction false} RunAfterSetup(faults: Faults, calls: seq<Call>, i: nat)
    requires i < |calls| && calls[i].CallSetup?
    requires Denied(faults, 0, i) && Granted(faults, i, i + 8)
    ensures Run(faults, INITIAL, calls) == Run(faults, State(BASE, i + 8), calls[i + 1..])
  {
    RunAround(faults, INITIAL, calls, i);
    SetupCompletes(faults, i, calls[i]);
  }

  lemma {:induction false} StrandFollowsSetup(faults: Faults, calls: seq<Call>, i: nat, rest: seq<Call>, k: nat, j: nat)
    requires i < |calls| && calls[i].CallSetup? && rest == calls[i + 1..]
    requires k < |rest| && AddsOrdinary(rest[k]) && j < |rest[k + 1..]| && RemakesSg(rest[k + 1..][j])
    requires Denied(faults, 0, i) && Granted(faults, i, i + 8) && Denied(faults, i + 8, i + 8 + k)
    requires Granted(faults, i + 8 + k, i + 28 + k) && Denied(faults, i + 28 + k, i + 29 + k + j)
    requires Granted(faults, i + 29 + k + j, i + 54 + k + j) && DeniedFrom(faults, i + 54 + k + j)
    ensures ReachesStrand(faults, calls)
  {
    RunAfterSetup(faults, calls, i);
    StrandFollowsAdd(faults, State(BASE, i + 8), rest, k, j);
  }

  lemma {:induction false} StrandIsReached(calls: seq<Call>, i: nat, k: nat, j: nat) returns (faults: Faults)
    requires i < |calls| && calls[i].CallSetup?
    requires k < |calls[i + 1..]| && AddsOrdinary(calls[i + 1..][k])
    requires j < |calls[i + 1..][k + 1..]| && RemakesSg(calls[i + 1..][k + 1..][j])
    ensures ReachesStrand(faults, calls)
  {
    faults := Windows(i, i + 8, i + 8 + k, i + 28 + k, i + 29 + k + j, i + 54 + k + j);
    WindowsAreGranted(i, i + 8, i + 8 + k, i + 28 + k, i + 29 + k + j, i + 54 + k + j);
    StrandFollowsSetup(faults, calls, i, calls[i + 1..], k, j);
  }

  lemma {:induction false} SomeRefusalsStrand(calls: seq<Call>) returns (faults: Faults)
    requires MayStrand(calls)
    ensures ReachesStrand(faults, calls)
  {
    var i :| 0 <= i < |calls| && calls[i].CallSetup? && MayRemake(calls[i + 1..]);
    var k :| 0 <= k < |calls[i + 1..]| && AddsOrdinary(calls[i + 1..][k]) && !NoRemake(calls[i + 1..][k + 1..]);
    var rest := calls[i + 1..][k + 1..];
    var j :| 0 <= j < |rest| && RemakesSg(rest[j]);
    faults := StrandIsReached(calls, i, k, j);
  }

  lemma {:induction false} NoRefusalsStrand(faults: Faults, calls: seq<Call>)
    requires !MayStrand(calls)
    ensures !ReachesStrand(faults, calls)
  {
    FixedNamesDiffer();
    RunStaysHarmless(faults, INITIAL, calls);
    HarmlessDecides(Run(faults, INITIAL, calls).chains);
  }

  /** Exactly the call lists with a setup, then a well-formed add of an ordinary
      name, then one of `g-chain` can, under some refusals, strand a packet that
      the kernel hands to the table. */
  lemma {:induction false} StrandIff(calls: seq<Call>)
    ensures (exists faults :: ReachesStrand(faults, calls)) <==> MayStrand(calls)
  {
    if MayStrand(calls) {
      var faults := SomeRefusalsStrand(calls);
      assert ReachesStrand(faults, calls);
    } else {
      forall faults ensures !ReachesStrand(faults, calls) {
        NoRefusalsStrand(faults, calls);
      }
    }
  }
}

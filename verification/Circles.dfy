/** Which lists of calls can make a table on which a traversal never ends,
    exactly, over all patterns of refusals. */
module Circles {
  import opened Basics
  import opened Rules
  import opened ChainNames
  import opened SecurityGroup
  import opened Policy
  import opened Traversal
  import opened Installation
  import opened Runs
  import opened ReservedNames

  // ---------- what a caller can see in a list of calls ----------

  /** The call can make the fallback chain. */
  predicate MakesFallback(call: Call) {
    call.CallSetup? || (call.link.name == "g-fallback" && WellFormed(call.link))
  }

  /** The call can make callisto-sg-chain the source chain of a link. */
  predicate RemakesSg(call: Call) {
    call.CallAdd? && call.link.name == "g-chain" && WellFormed(call.link)
  }

  /** A well-formed add of `g-chain` comes after a setup or a well-formed add of `g-fallback`. */
  predicate MayCircle(calls: seq<Call>) {
    exists i, j | 0 <= i < j < |calls| :: MakesFallback(calls[i]) && RemakesSg(calls[j])
  }

  // ---------- traversals that do not end ----------

  ghost predicate NeverDecided(t: Chains, c: string, p: Packet) {
    c in t && forall depth: nat :: Decide(t, depth, c, p) == Stuck
  }

  ghost predicate HasCircle(t: Chains) {
    exists c, p :: NeverDecided(t, c, p)
  }

  /** Under these refusals the calls make a table with a circle. */
  ghost predicate ReachesCircle(faults: Faults, calls: seq<Call>) {
    HasCircle(Run(faults, INITIAL, calls).chains)
  }

  lemma RankedHasNoCircle(t: Chains)
    requires Closed(t) && Ranked(t)
    ensures !HasCircle(t)
  {
    forall c, p ensures !NeverDecided(t, c, p) {
      if c in t {
        assert JumpsBelow(MAX_RANK, t[c]);
        EvalTerminates(t, MAX_RANK - 1, MAX_RANK, t[c], p);
        assert Decide(t, MAX_RANK, c, p) != Stuck;
      }
    }
  }

  // ---------- one call ----------

  /** A call for a link whose source chain exists, or whose addresses are malformed, changes nothing. */
  lemma {:induction false} RefusedAtOnce(faults: Faults, s: State, l: Link)
    requires Closed(s.chains)
    requires SourceName(l.name) in s.chains || !WellFormed(l)
    ensures Add(faults, s, l).done == 0 && Add(faults, s, l).state.chains == s.chains
  {
    AddResult(faults, s, l);
    if !WellFormed(l) {
      MalformedIsRefused(faults, s, l);
    }
  }

  /** Without the fallback chain the output chain is refused at its last rule at the latest. */
  lemma {:induction false} OutputNeedsFallback(faults: Faults, s: State, l: Link)
    requires SG_FALLBACK !in s.chains && SourceName(l.name) != SG_FALLBACK
    ensures Add(faults, s, l).done <= 1
  {
    var o := AddStep(faults, s, ADD_FUNCTIONS[0], l);
    if o.ok {
      var c, rules := OutputName(l.name), OutputRules(l);
      GeneratedNameIsFixed(OUTPUT_PREFIX, l.name);
      assert o.state.chains.Keys == s.chains.Keys + {SourceName(l.name)} by {
        assert ChainOf(ADD_FUNCTIONS[0], l) == SourceName(l.name);
      }
      var n := NewChain(faults, o.state, c);
      if n.ok {
        assert SG_FALLBACK in FIXED && SG_FALLBACK !in n.state.chains;
        assert rules[8].target == Jump(SG_FALLBACK);
        assert Refused(faults, n.state, c, rules[8], 8);
      }
      assert !AddStep(faults, o.state, ADD_FUNCTIONS[1], l).ok;
      assert Add(faults, s, l) == AddFrom(faults, o.state, l, 1);
    }
  }

  /** A call keeps the table ranked, unless it is a well-formed add of `g-chain`
      that finds the fallback chain, but not callisto-sg-chain. */
  lemma {:induction false} StepKeepsRanked(faults: Faults, s: State, call: Call)
    requires Closed(s.chains) && Ranked(s.chains)
    requires RemakesSg(call) ==> SG_FALLBACK !in s.chains || SG in s.chains
    ensures Closed(Step(faults, s, call).chains) && Ranked(Step(faults, s, call).chains)
  {
    StepKeepsInvariant(faults, s, call);
    if !OrdinaryCall(call) {
      var l := call.link;
      GeneratedNameIsFixed(SOURCE_PREFIX, l.name);
      if SG in s.chains || !WellFormed(l) {
        RefusedAtOnce(faults, s, l);
      } else {
        FixedNamesDiffer();
        OutputNeedsFallback(faults, s, l);
        AddResult(faults, s, l);
        OnlySourceMade(s.chains, l);
      }
    }
  }

  lemma OnlySourceMade(t: Chains, l: Link)
    requires Ranked(t) && SourceName(l.name) !in t
    ensures Ranked(After(t, l, 1)) && Ranked(After(t, l, 0))
  {
    AfterMakes(t, l, 1);
  }

  // ---------- circles: no call list beyond the condition makes one ----------

  lemma {:induction false} FallbackStaysAway(faults: Faults, s: State, call: Call)
    requires Closed(s.chains) && SG_FALLBACK !in s.chains && !MakesFallback(call)
    ensures SG_FALLBACK !in Step(faults, s, call).chains
  {
    var l := call.link;
    AddResult(faults, s, l);
    if WellFormed(l) {
      AfterLacksFallback(s.chains, l, Add(faults, s, l).done);
    } else {
      MalformedIsRefused(faults, s, l);
    }
  }

  lemma {:induction false} AfterLacksFallback(t: Chains, l: Link, k: nat)
    requires k <= |ADD_FUNCTIONS| && SG_FALLBACK !in t && l.name != "g-fallback"
    ensures SG_FALLBACK !in After(t, l, k)
  {
    KeysAfter(t, l, k);
    TouchedSoFar(l, k);
    FixedNamesDiffer();
    GeneratedNameIsFixed(SOURCE_PREFIX, l.name);
    MadeNamesAreNotFixed(l.name);
    assert SG_FALLBACK in FIXED;
  }

  lemma {:induction false} RunStaysRanked(faults: Faults, s: State, calls: seq<Call>)
    requires Closed(s.chains) && Ranked(s.chains)
    requires !MayCircle(calls)
    requires SG_FALLBACK in s.chains ==> forall c :: c in calls ==> !RemakesSg(c)
    ensures Closed(Run(faults, s, calls).chains) && Ranked(Run(faults, s, calls).chains)
    decreases |calls|
  {
    if calls != [] {
      var call, rest := calls[0], calls[1..];
      StepKeepsRanked(faults, s, call);
      NoCircleInRest(calls);
      if SG_FALLBACK !in s.chains && !MakesFallback(call) {
        FallbackStaysAway(faults, s, call);
      }
      RunStaysRanked(faults, Step(faults, s, call), rest);
    }
  }

  lemma NoCircleInRest(calls: seq<Call>)
    requires calls != [] && !MayCircle(calls)
    ensures !MayCircle(calls[1..])
    ensures MakesFallback(calls[0]) ==> forall c :: c in calls[1..] ==> !RemakesSg(c)
  {
    var rest := calls[1..];
    forall i, j | 0 <= i < j < |rest| ensures !(MakesFallback(rest[i]) && RemakesSg(rest[j])) {
      assert rest[i] == calls[i + 1] && rest[j] == calls[j + 1];
    }
    forall j | 0 <= j < |rest| ensures MakesFallback(calls[0]) ==> !RemakesSg(rest[j]) {
      assert rest[j] == calls[j + 1];
    }
  }

  // ---------- runs in which most calls are refused at once ----------

  lemma {:induction false} RunConcat(faults: Faults, s: State, a: seq<Call>, b: seq<Call>)
    ensures Run(faults, s, a + b) == Run(faults, Run(faults, s, a), b)
    decreases |a|
  {
    if a == [] {
      assert a + b == b;
    } else {
      assert (a + b)[0] == a[0] && (a + b)[1..] == a[1..] + b;
      RunConcat(faults, Step(faults, s, a[0]), a[1..], b);
    }
  }

  /** A call whose first client call is refused costs that call and changes nothing. */
  lemma CallRefused(faults: Faults, s: State, call: Call)
    requires faults(s.calls)
    ensures Step(faults, s, call) == State(s.chains, s.calls + 1)
  {
    assert SETUP_FUNCTIONS[0] == SetupSGFallbackChain && ADD_FUNCTIONS[0] == AddSOURCESGRules;
  }

  lemma {:induction false} RunRefused(faults: Faults, s: State, calls: seq<Call>)
    requires Denied(faults, s.calls, s.calls + |calls|)
    ensures Run(faults, s, calls) == State(s.chains, s.calls + |calls|)
    decreases |calls|
  {
    if calls != [] {
      CallRefused(faults, s, calls[0]);
      RunRefused(faults, State(s.chains, s.calls + 1), calls[1..]);
    }
  }

  /** The environment grants the client calls of three windows and refuses all others. */
  function Windows(a: nat, b: nat, c: nat, d: nat, e: nat, f: nat): Faults {
    (n: nat) => !(a <= n < b || c <= n < d || e <= n < f)
  }

  lemma WindowsAreGranted(a: nat, b: nat, c: nat, d: nat, e: nat, f: nat)
    requires a <= b <= c <= d <= e <= f
    ensures var w := Windows(a, b, c, d, e, f);
            && Denied(w, 0, a) && Granted(w, a, b) && Denied(w, b, c) && Granted(w, c, d)
            && Denied(w, d, e) && Granted(w, e, f) && DeniedFrom(w, f)
  {
  }

  /** The run around one call that is not refused at once. */
  lemma {:induction false} RunAround(faults: Faults, s: State, calls: seq<Call>, i: nat)
    requires i < |calls|
    requires Denied(faults, s.calls, s.calls + i)
    ensures Run(faults, s, calls) == Run(faults, Step(faults, State(s.chains, s.calls + i), calls[i]), calls[i + 1..])
  {
    assert calls == calls[..i] + calls[i..];
    RunConcat(faults, s, calls[..i], calls[i..]);
    RunRefused(faults, s, calls[..i]);
    assert calls[i..][0] == calls[i] && calls[i..][1..] == calls[i + 1..];
  }

  // ---------- circles: every call list that meets the condition can make one ----------

  /** The client calls after which such a call has made the fallback chain and no other. */
  function FallbackCost(call: Call): nat { if call.CallSetup? then 2 else 3 }

  /** The first client calls of a call that makes the fallback chain; the next is refused. */
  lemma {:induction false} FallbackOnly(faults: Faults, n: nat, call: Call)
    requires MakesFallback(call)
    requires Granted(faults, n, n + FallbackCost(call)) && faults(n + FallbackCost(call))
    ensures var s := Step(faults, State(INITIAL.chains, n), call);
            s.calls == n + FallbackCost(call) + 1 && Closed(s.chains) && s.chains.Keys == {INPUT, FORWARD, SG_FALLBACK}
  {
    var s0 := State(INITIAL.chains, n);
    StepKeepsInvariant(faults, s0, call);
    if call.CallSetup? {
      SetupFallbackOnly(faults, s0);
    } else {
      AddFallbackOnly(faults, s0, call.link);
    }
  }

  /** An add that stops after its source chain. */
  lemma {:induction false} AddSourceOnly(faults: Faults, s: State, l: Link)
    requires Closed(s.chains) && WellFormed(l)
    requires SourceName(l.name) !in s.chains && OutputName(l.name) !in s.chains && InputName(l.name) !in s.chains
    requires Granted(faults, s.calls, s.calls + 3) && faults(s.calls + 3)
    ensures var r := Add(faults, s, l).state; r.calls == s.calls + 4 && r.chains == After(s.chains, l, 1)
  {
    LinkIsAllReady(s.chains, l, 0, 1);
    var m := AddReaches(faults, s, s.chains, l, 0, 1);
    StopsHere(faults, m, l, 1);
    AddResult(faults, s, l);
  }

  lemma {:induction false} AddFallbackOnly(faults: Faults, s: State, l: Link)
    requires s.chains == INITIAL.chains && l.name == "g-fallback" && WellFormed(l)
    requires Granted(faults, s.calls, s.calls + 3) && faults(s.calls + 3)
    ensures var r := Add(faults, s, l).state; r.calls == s.calls + 4 && r.chains.Keys == {INPUT, FORWARD, SG_FALLBACK}
  {
    GeneratedNameIsFixed(SOURCE_PREFIX, l.name);
    MadeNamesAreNotFixed(l.name);
    FixedNamesDiffer();
    AddSourceOnly(faults, s, l);
    KeysAfter(s.chains, l, 1);
    TouchedSoFar(l, 1);
  }

  lemma SetupFallbackOnly(faults: Faults, s: State)
    requires s.chains == INITIAL.chains
    requires Granted(faults, s.calls, s.calls + 2) && faults(s.calls + 2)
    ensures Setup(faults, s).state.calls == s.calls + 3
    ensures Setup(faults, s).state.chains.Keys == {INPUT, FORWARD, SG_FALLBACK}
  {
    FixedNamesDiffer();
    var o := SetupStep(faults, s, SETUP_FUNCTIONS[0]);
    assert o.ok && o.state.calls == s.calls + 2 && o.state.chains.Keys == {INPUT, FORWARD, SG_FALLBACK};
    assert !SetupStep(faults, o.state, SETUP_FUNCTIONS[1]).ok;
    assert Setup(faults, s) == SetupFrom(faults, o.state, 1);
  }

  lemma {:induction false} NamesOfRemake(names: set<string>, l: Link)
    requires l.name == "g-chain" && names <= FIXED - {SG}
    ensures SourceName(l.name) == SG && SG !in names && OutputName(l.name) !in names && InputName(l.name) !in names
  {
    GeneratedNameIsFixed(SOURCE_PREFIX, l.name);
    MadeNamesAreNotFixed(l.name);
  }

  /** An add of `g-chain` that finds the fallback chain, but neither
      callisto-sg-chain nor callisto-FORWARD. */
  lemma {:induction false} RemakesAndStops(faults: Faults, s: State, l: Link)
    requires Closed(s.chains) && WellFormed(l) && l.name == "g-chain"
    requires s.chains.Keys == {INPUT, FORWARD, SG_FALLBACK}
    requires Granted(faults, s.calls, s.calls + 22)
    ensures var r := Add(faults, s, l); Circular(r.state.chains, l) && r.state.calls == s.calls + 23
  {
    FixedNamesDiffer();
    NamesOfRemake(s.chains.Keys, l);
    NoForwardYet(s.chains, l);
    AddUpToForward(faults, s, l);
    ChainsAfterFour(s.chains, l);
  }

  lemma {:induction false} NoForwardYet(t: Chains, l: Link)
    requires t.Keys == {INPUT, FORWARD, SG_FALLBACK}
    ensures CALLISTO_FORWARD !in After(t, l, 4)
  {
    KeysAfter(t, l, 4);
    TouchedSoFar(l, 4);
    BuiltinIsNoTarget(l, FORWARD);
    FixedNamesDiffer();
    MadeNamesAreNotFixed(l.name);
    GeneratedNameIsFixed(SOURCE_PREFIX, l.name);
  }

  /** An add that stops at the missing callisto-FORWARD. */
  lemma {:induction false} AddUpToForward(faults: Faults, s: State, l: Link)
    requires Closed(s.chains) && WellFormed(l)
    requires SourceName(l.name) !in s.chains && OutputName(l.name) !in s.chains && InputName(l.name) !in s.chains
    requires SG_FALLBACK in s.chains && SourceName(l.name) == SG
    requires CALLISTO_FORWARD !in After(s.chains, l, 4)
    requires Granted(faults, s.calls, s.calls + 22)
    ensures var r := Add(faults, s, l).state; r.calls == s.calls + 23 && r.chains == After(s.chains, l, 4)
  {
    LinkIsAllReady(s.chains, l, 0, 4);
    var m := AddReaches(faults, s, s.chains, l, 0, 4);
    StopsHere(faults, m, l, 4);
    AddFromResult(faults, m, s.chains, l, 4);
    DiscardMissing(m.chains, CALLISTO_FORWARD);
  }

  lemma {:induction false} CircularHasCircle(t: Chains, l: Link)
    requires Circular(t, l)
    ensures HasCircle(t)
  {
    var p := Packet(true, l.name, "", 0, [], Icmp, 0, 0, New);
    if l.name == "" {
      p := p.(physOut := "x");
    }
    forall depth: nat ensures Decide(t, depth, SG, p) == Stuck {
      GoesInCircles(t, l, depth, p);
    }
    assert NeverDecided(t, SG, p);
  }

  /** With the fallback chain alone in place, an add of `g-chain` whose client
      calls are granted ends in a circle. */
  lemma {:induction false} CircleFollows(faults: Faults, s: State, calls: seq<Call>, j: nat)
    requires Closed(s.chains) && s.chains.Keys == {INPUT, FORWARD, SG_FALLBACK}
    requires j < |calls| && RemakesSg(calls[j])
    requires Denied(faults, s.calls, s.calls + j)
    requires Granted(faults, s.calls + j, s.calls + j + 22)
    requires DeniedFrom(faults, s.calls + j + 22)
    ensures HasCircle(Run(faults, s, calls).chains)
  {
    var l, s' := calls[j].link, State(s.chains, s.calls + j);
    RunAround(faults, s, calls, j);
    RemakesAndStops(faults, s', l);
    RunRefused(faults, Add(faults, s', l).state, calls[j + 1..]);
    CircularHasCircle(Add(faults, s', l).state.chains, l);
  }

  lemma {:induction false} RunAfterFallback(faults: Faults, calls: seq<Call>, i: nat, w: nat) returns (s: State)
    requires i < |calls| && MakesFallback(calls[i]) && w == FallbackCost(calls[i])
    requires Denied(faults, 0, i) && Granted(faults, i, i + w) && faults(i + w)
    ensures Run(faults, INITIAL, calls) == Run(faults, s, calls[i + 1..])
    ensures s.calls == i + w + 1 && Closed(s.chains) && s.chains.Keys == {INPUT, FORWARD, SG_FALLBACK}
  {
    RunAround(faults, INITIAL, calls, i);
    FallbackOnly(faults, i, calls[i]);
    s := Step(faults, State(INITIAL.chains, i), calls[i]);
  }

  lemma {:induction false} CircleFollowsFallback(faults: Faults, calls: seq<Call>, i: nat, w: nat, j: nat)
    requires i < |calls| && MakesFallback(calls[i]) && w == FallbackCost(calls[i])
    requires j < |calls[i + 1..]| && RemakesSg(calls[i + 1..][j])
    requires Denied(faults, 0, i) && Granted(faults, i, i + w) && Denied(faults, i + w, i + w + 1 + j)
    requires Granted(faults, i + w + 1 + j, i + w + 23 + j) && DeniedFrom(faults, i + w + 23 + j)
    ensures ReachesCircle(faults, calls)
  {
    var s := RunAfterFallback(faults, calls, i, w);
    CircleFollows(faults, s, calls[i + 1..], j);
  }

  lemma {:induction false} CircleIsReached(calls: seq<Call>, i: nat, j: nat) returns (faults: Faults)
    requires i < j < |calls| && MakesFallback(calls[i]) && RemakesSg(calls[j])
    ensures ReachesCircle(faults, calls)
  {
    var w, k := FallbackCost(calls[i]), j - i - 1;
    faults := Windows(i, i + w, i + w + 1 + k, i + w + 23 + k, i + w + 23 + k, i + w + 23 + k);
    WindowsAreGranted(i, i + w, i + w + 1 + k, i + w + 23 + k, i + w + 23 + k, i + w + 23 + k);
    assert calls[i + 1..][k] == calls[j];
    CircleFollowsFallback(faults, calls, i, w, k);
  }

  /** Exactly the call lists with a well-formed add of `g-chain` after a setup or
      a well-formed add of `g-fallback` can, under some refusals, make a table on
      which a traversal does not end. */
  lemma {:induction false} CircleIff(calls: seq<Call>)
    ensures (exists faults :: ReachesCircle(faults, calls)) <==> MayCircle(calls)
  {
    FixedNamesDiffer();
    if MayCircle(calls) {
      var i, j :| 0 <= i < j < |calls| && MakesFallback(calls[i]) && RemakesSg(calls[j]);
      var faults := CircleIsReached(calls, i, j);
      assert ReachesCircle(faults, calls);
    } else {
      forall faults ensures !ReachesCircle(faults, calls) {
        RunStaysRanked(faults, INITIAL, calls);
        RankedHasNoCircle(Run(faults, INITIAL, calls).chains);
      }
    }
  }

  /** On every table that such a list of calls reaches, whatever is refused, every
      chain decides every packet after at most four nested jumps, and room for
      more changes nothing. */
  lemma TerminatesUnlessMayCircle(faults: Faults, calls: seq<Call>, c: string, p: Packet, depth: nat)
    requires !MayCircle(calls)
    requires c in Run(faults, INITIAL, calls).chains
    requires depth >= MAX_RANK
    ensures var t := Run(faults, INITIAL, calls).chains;
            Decide(t, depth, c, p) == Decide(t, MAX_RANK, c, p) != Stuck
  {
    FixedNamesDiffer();
    RunStaysRanked(faults, INITIAL, calls);
    var t := Run(faults, INITIAL, calls).chains;
    assert JumpsBelow(MAX_RANK, t[c]);
    EvalTerminates(t, MAX_RANK - 1, depth, t[c], p);
  }
}

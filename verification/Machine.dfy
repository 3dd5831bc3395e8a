/** An abstract machine without chains; after a successful setup the table does
    what the machine does, whatever is called and whatever is refused. */
module Machine {
  import opened Rules
  import opened ChainNames
  import opened SecurityGroup
  import opened Policy
  import opened Traversal
  import opened Installation
  import opened Runs
  import opened SharedChains
  import opened Circles
  import opened Stranding

  // ---------- the machine ----------

  /** What is left of the shared chains; whether the output chain of `g-chain`
      exists, which jumps to callisto-sg-chain; the first 19 characters of the
      names that are taken; and the number of client calls made so far. */
  datatype Machine = Machine(shared: Shared, pinned: bool, stems: set<string>, calls: nat)

  /** After the eight client calls of setup: its chains take the reserved names. */
  const START := Machine(Linked([], Accepting, []), false, {"g-chain", "g-fallback"}, 8)

  /** The number of the first client call from the n-th on that the environment
      refuses, counted from `first`; `end` if it refuses none before. */
  function FirstDenied(faults: Faults, first: nat, n: nat, end: nat): (m: nat)
    requires n <= end
    ensures n <= m <= end
    ensures Granted(faults, first + n, first + m)
    ensures m < end ==> faults(first + m)
    decreases end - n
  {
    if n == end || faults(first + n) then n else FirstDenied(faults, first, n + 1, end)
  }

  /** How many client calls succeed if the environment refuses none: none for a
      name that is taken, one for malformed addresses, and 20 of the 25 when
      callisto-sg-chain is gone and the add does not make it anew. */
  function Reach(m: Machine, l: Link): nat {
    if Stem(l.name) in m.stems then 0
    else if !WellFormed(l) then 1
    else if m.shared.Severed? && l.name != "g-chain" then 20
    else 25
  }

  /** A rollback of callisto-sg-chain can only empty it. */
  predicate Held(m: Machine) { m.pinned || (m.shared.Linked? && m.shared.forward != []) }

  function NamesTaken(stems: set<string>, l: Link, done: nat, shared: Shared): set<string> {
    if done == 0 then stems
    else stems + {Stem(l.name)} - (if shared.Severed? then {"g-chain"} else {})
  }

  function MachineAdd(faults: Faults, m: Machine, l: Link): Machine {
    var n := FirstDenied(faults, m.calls, 0, Reach(m, l));
    var done := StepAt(n);
    var shared := Evolve(m.shared, l, done, Held(m));
    Machine(shared, m.pinned || (l.name == "g-chain" && done >= 2), NamesTaken(m.stems, l, done, shared), m.calls + CallsMade(n))
  }

  /** A further setup fails at its first client call. */
  function MachineStep(faults: Faults, m: Machine, call: Call): Machine {
    match call
    case CallSetup => m.(calls := m.calls + 1)
    case CallAdd(l) => MachineAdd(faults, m, l)
  }

  function MachineRun(faults: Faults, m: Machine, calls: seq<Call>): Machine
    decreases |calls|
  {
    if calls == [] then m else MachineRun(faults, MachineStep(faults, m, calls[0]), calls[1..])
  }

  // ---------- what relates the table to the machine ----------

  const CHAIN_OUTPUT := OutputName("g-chain")

  /** Some link of that name; its output rules do not depend on the addresses. */
  const CHAIN_LINK := Link("g-chain", V4(0), [])

  /** Only callisto-FORWARD and the output chain of `g-chain` jump to callisto-sg-chain. */
  ghost predicate FewJumpToSg(t: Chains) {
    && (forall c :: c in t && c != CALLISTO_FORWARD && c != CHAIN_OUTPUT ==> NoneJumpsToSg(t[c]))
    && (CHAIN_OUTPUT in t ==> t[CHAIN_OUTPUT] == OutputRules(CHAIN_LINK))
  }

  ghost predicate NoneJumpsToSg(rules: seq<Rule>) {
    forall r :: r in rules ==> r.target != Jump(SG)
  }

  /** Exactly the taken names have a source chain; only those have an output or an
      input chain, a reserved name only if `g-chain` has an output chain. */
  ghost predicate NamesAre(names: set<string>, stems: set<string>) {
    && (forall x :: SourceName(x) in names <==> Stem(x) in stems)
    && (forall x :: OutputName(x) in names || InputName(x) in names ==>
          Stem(x) in stems && (Reserved(x) ==> CHAIN_OUTPUT in names))
  }

  ghost predicate Tracks(t: Chains, m: Machine) {
    && Carries(t, m.shared) && FewJumpToSg(t) && NamesAre(t.Keys, m.stems)
    && (CHAIN_OUTPUT in t <==> m.pinned)
  }

  // ---------- jumps to callisto-sg-chain ----------

  lemma ChainOutput(l: Link)
    ensures OutputName(l.name) == CHAIN_OUTPUT <==> l.name == "g-chain"
    ensures CHAIN_OUTPUT !in {SourceName(l.name), InputName(l.name), SG, CALLISTO_FORWARD}
    ensures l.name == "g-chain" ==> OutputRules(l) == OutputRules(CHAIN_LINK)
  {
    SameName("g-chain", l.name);
    ReservedStems(l.name);
    MadeNamesAreNotFixed("g-chain");
    assert SG in FIXED && CALLISTO_FORWARD in FIXED;
  }

  lemma BlocksAvoidSg(f: AddFunction, l: Link)
    requires ChainOf(f, l) != CALLISTO_FORWARD && ChainOf(f, l) != CHAIN_OUTPUT
    ensures NoneJumpsToSg(RulesOf(f, l))
  {
    ChainOutput(l);
    LinkChainsAreNotShared(l);
    FixedNamesDiffer();
    forall r | r in RulesOf(f, l) ensures r.target != Jump(SG) {
      if r.target.Jump? {
        RuleTargets(f, l, r);
      }
    }
  }

  /** One add function, on the table before it. */
  lemma {:induction false} FewJumpInStep(t: Chains, f: AddFunction, l: Link)
    requires FewJumpToSg(t)
    requires f.AddOUTPUTSGRules? && l.name == "g-chain" ==> OutputName(l.name) !in t
    ensures var t' := t[ChainOf(f, l) := RulesOf(f, l) + RulesAt(t, ChainOf(f, l))];
            && FewJumpToSg(t')
            && (CHAIN_OUTPUT in t' <==> CHAIN_OUTPUT in t || (f.AddOUTPUTSGRules? && l.name == "g-chain"))
  {
    ChainOutput(l);
    if ChainOf(f, l) == CHAIN_OUTPUT {
      assert f.AddOUTPUTSGRules? && RulesOf(f, l) + [] == RulesOf(f, l);
    } else if ChainOf(f, l) != CALLISTO_FORWARD {
      BlocksAvoidSg(f, l);
    }
  }

  lemma {:induction false} FewJumpAfter(t: Chains, l: Link, k: nat)
    requires k <= |ADD_FUNCTIONS| && FewJumpToSg(t)
    requires k >= 2 && l.name == "g-chain" ==> OutputName(l.name) !in After(t, l, 1)
    ensures FewJumpToSg(After(t, l, k))
    ensures CHAIN_OUTPUT in After(t, l, k) <==> CHAIN_OUTPUT in t || (l.name == "g-chain" && k >= 2)
  {
    if k > 0 {
      FewJumpAfter(t, l, k - 1);
      FewJumpInStep(After(t, l, k - 1), ADD_FUNCTIONS[k - 1], l);
    }
  }

  lemma DiscardKeepsFew(t: Chains, c: string)
    requires FewJumpToSg(t) && (c == SG || c == CALLISTO_FORWARD)
    ensures FewJumpToSg(Discard(t, c)) && (CHAIN_OUTPUT in Discard(t, c) <==> CHAIN_OUTPUT in t)
  {
    ChainOutput(CHAIN_LINK);
  }

  lemma {:induction false} TableLeftHasFew(t: Chains, l: Link, k: nat)
    requires k <= |ADD_FUNCTIONS| && FewJumpToSg(After(t, l, k))
    ensures FewJumpToSg(TableLeft(t, l, k)) && (CHAIN_OUTPUT in TableLeft(t, l, k) <==> CHAIN_OUTPUT in After(t, l, k))
  {
    if 3 <= k < 6 {
      DiscardKeepsFew(After(t, l, k), ChainOf(ADD_FUNCTIONS[k], l));
    }
  }

  lemma {:induction false} CallKeepsFew(faults: Faults, s: State, l: Link)
    requires Closed(s.chains) && FewJumpToSg(s.chains)
    ensures var r := Add(faults, s, l);
            && FewJumpToSg(r.state.chains)
            && (CHAIN_OUTPUT in r.state.chains <==> CHAIN_OUTPUT in s.chains || (l.name == "g-chain" && r.done >= 2))
  {
    var k := Add(faults, s, l).done;
    AddResult(faults, s, l);
    FewJumpAfter(s.chains, l, k);
    TableLeftHasFew(s.chains, l, k);
    assert Add(faults, s, l).state.chains == TableLeft(s.chains, l, k);
  }

  /** The rollback of callisto-sg-chain finds a jump to it exactly when the machine says so. */
  lemma {:induction false} PinnedIff(t: Chains, s: Shared)
    requires s.Linked? && Carries(t, s) && FewJumpToSg(t)
    ensures Pinned(t) <==> CHAIN_OUTPUT in t || s.forward != []
  {
    ChainOutput(CHAIN_LINK);
    LinkChainsAreNotShared(CHAIN_LINK);
    if s.forward != [] {
      ForwardPins(t, s);
    } else if CHAIN_OUTPUT in t {
      OutputPins(t, CHAIN_LINK);
    } else {
      assert !Referenced(t - {SG}, SG);
    }
  }

  // ---------- one call: the names ----------

  lemma ReservedStems(x: string)
    ensures Stem(x) == "g-chain" <==> x == "g-chain"
    ensures Stem(x) == "g-fallback" <==> x == "g-fallback"
  {
  }

  lemma StartNames()
    ensures NamesAre(FIXED, START.stems)
  {
    forall x ensures SourceName(x) in FIXED <==> Stem(x) in START.stems {
      GeneratedNameIsFixed(SOURCE_PREFIX, x);
      ReservedStems(x);
    }
    forall x ensures OutputName(x) !in FIXED && InputName(x) !in FIXED {
      GeneratedNameIsFixed(OUTPUT_PREFIX, x);
      GeneratedNameIsFixed(INPUT_PREFIX, x);
    }
  }

  lemma {:induction false} NamesGrow(names: set<string>, stems: set<string>, l: Link, k: nat)
    requires NamesAre(names, stems) && 1 <= k <= 3 && l.name != "g-fallback"
    ensures NamesAre(names + Touched(l, k), stems + {Stem(l.name)})
  {
    TouchedSoFar(l, k);
    forall x ensures SourceName(x) in names + Touched(l, k) <==> Stem(x) in stems + {Stem(l.name)} {
      SameName(x, l.name);
    }
    forall x | OutputName(x) in names + Touched(l, k) || InputName(x) in names + Touched(l, k)
      ensures Stem(x) in stems + {Stem(l.name)} && (Reserved(x) ==> CHAIN_OUTPUT in names + Touched(l, k))
    {
      SameName(x, l.name);
      ReservedStems(x);
      ReservedStems(l.name);
    }
  }

  lemma SameName(x: string, y: string)
    ensures SourceName(x) == SourceName(y) <==> Stem(x) == Stem(y)
    ensures OutputName(x) == OutputName(y) <==> Stem(x) == Stem(y)
    ensures InputName(x) == InputName(y) <==> Stem(x) == Stem(y)
    ensures SourceName(x) !in {OutputName(y), InputName(y)} && OutputName(x) !in {SourceName(y), InputName(y)}
    ensures InputName(x) !in {SourceName(y), OutputName(y)}
    ensures Stem(x) == Stem(y) ==> (Reserved(x) <==> Reserved(y))
  {
    GeneratedNamesCoincide(SOURCE_PREFIX, x, SOURCE_PREFIX, y);
    GeneratedNamesCoincide(OUTPUT_PREFIX, x, OUTPUT_PREFIX, y);
    GeneratedNamesCoincide(INPUT_PREFIX, x, INPUT_PREFIX, y);
    GeneratedNamesCoincide(SOURCE_PREFIX, x, OUTPUT_PREFIX, y);
    GeneratedNamesCoincide(SOURCE_PREFIX, x, INPUT_PREFIX, y);
    GeneratedNamesCoincide(OUTPUT_PREFIX, x, SOURCE_PREFIX, y);
    GeneratedNamesCoincide(OUTPUT_PREFIX, x, INPUT_PREFIX, y);
    GeneratedNamesCoincide(INPUT_PREFIX, x, SOURCE_PREFIX, y);
    GeneratedNamesCoincide(INPUT_PREFIX, x, OUTPUT_PREFIX, y);
    ReservedStems(x);
    ReservedStems(y);
  }

  lemma NamesLoseSg(names: set<string>, stems: set<string>)
    requires NamesAre(names, stems) && CHAIN_OUTPUT !in names
    ensures NamesAre(names - {SG}, stems - {"g-chain"})
  {
    forall x ensures SourceName(x) == SG <==> Stem(x) == "g-chain" {
      GeneratedNameIsFixed(SOURCE_PREFIX, x);
      ReservedStems(x);
    }
    forall x | OutputName(x) in names || InputName(x) in names ensures Stem(x) != "g-chain" {
      ReservedStems(x);
    }
  }

  /** Whatever a call leaves, no chain but callisto-sg-chain can be gone. */
  lemma {:induction false} RollbackKeys(t: Chains, l: Link, k: nat)
    requires 3 <= k < 6 && Holds(After(t, l, 3), FORWARD, BASE[FORWARD]) && CALLISTO_FORWARD in After(t, l, 3)
    requires k > 3 ==> SG in After(t, l, 3)
    ensures Undone(t, l, k).Keys + {SG} == After(t, l, 3).Keys + {SG}
  {
    FixedNamesDiffer();
    if k == 3 {
      assert Undone(t, l, 3) == Discard(After(t, l, 3), SG);
    } else {
      LateUndone(t, l, k);
    }
  }

  /** The names of the table a call leaves. */
  lemma {:induction false} CallKeys(faults: Faults, s: State, h: Shared, l: Link)
    requires Carries(s.chains, h)
    requires h.Severed? && l.name != "g-chain" ==> Add(faults, s, l).done <= 3
    ensures var r := Add(faults, s, l);
            var names := s.chains.Keys + Touched(l, if r.done < 3 then r.done else 3);
            var severed := Evolve(h, l, r.done, Pinned(After(s.chains, l, 3))).Severed?;
            r.state.chains.Keys == if severed then names - {SG} else names + {SG}
  {
    CallCarries(faults, s, h, l);
    CallNames(faults, s, h, l);
  }

  lemma {:induction false} CallNames(faults: Faults, s: State, h: Shared, l: Link)
    requires Carries(s.chains, h)
    requires h.Severed? && l.name != "g-chain" ==> Add(faults, s, l).done <= 3
    ensures var r := Add(faults, s, l);
            r.state.chains.Keys + {SG} == s.chains.Keys + Touched(l, if r.done < 3 then r.done else 3) + {SG}
  {
    AddResult(faults, s, l);
    KeysAfter(s.chains, l, Add(faults, s, l).done);
    if Add(faults, s, l).done >= 3 {
      LateNames(s.chains, h, l, Add(faults, s, l).done);
    }
  }

  lemma {:induction false} LateNames(t: Chains, h: Shared, l: Link, k: nat)
    requires Carries(t, h) && 3 <= k <= 6 && (h.Severed? && l.name != "g-chain" ==> k == 3)
    requires SourceName(l.name) !in t && OutputName(l.name) !in After(t, l, 1) && InputName(l.name) !in After(t, l, 2)
    ensures TableLeft(t, l, k).Keys + {SG} == t.Keys + Touched(l, 3) + {SG}
  {
    if k < 6 {
      KeysAfter(t, l, 3);
      ThirdTable(t, h, l);
      RollbackKeys(t, l, k);
    } else {
      AllSixNames(t, l);
    }
  }

  lemma AllSixNames(t: Chains, l: Link)
    requires CALLISTO_FORWARD in t
    ensures After(t, l, 6).Keys + {SG} == t.Keys + Touched(l, 3) + {SG}
  {
    KeysAfter(t, l, 6);
    TouchedSoFar(l, 3);
    TouchedSoFar(l, 6);
  }

  // ---------- one call: how far it gets ----------

  lemma {:induction false} TakenNameStops(faults: Faults, s: State, l: Link)
    requires SourceName(l.name) in s.chains || faults(s.calls)
    ensures var r := Add(faults, s, l); r.done == 0 && r.state.calls == s.calls + 1
  {
    assert ADD_FUNCTIONS[0] == AddSOURCESGRules;
  }

  lemma {:induction false} MalformedStops(faults: Faults, s: State, l: Link)
    requires SourceName(l.name) !in s.chains && !faults(s.calls) && !WellFormed(l)
    ensures var r := Add(faults, s, l); r.done == 0 && r.state.calls == s.calls + 2
  {
    var c, rules := SourceName(l.name), SourceRules(l);
    var n := NewChain(faults, s, c);
    assert Refused(faults, n.state, c, rules[0], 0);
    assert ADD_FUNCTIONS[0] == AddSOURCESGRules;
  }

  lemma {:induction false} FreeNameStops(faults: Faults, s: State, m: Machine, l: Link, n: nat)
    requires Tracks(s.chains, m) && WellFormed(l) && Stem(l.name) !in m.stems
    requires n <= Reach(m, l) && Granted(faults, s.calls, s.calls + n) && (n < Reach(m, l) ==> faults(s.calls + n))
    ensures var r := Add(faults, s, l); r.done == StepAt(n) && r.state.calls == s.calls + CallsMade(n)
  {
    var e := if m.shared.Severed? && l.name != "g-chain" then 3 else 6;
    GeneratedNameIsFixed(SOURCE_PREFIX, l.name);
    LinkIsAllReady(s.chains, l, 0, e);
    if e == 3 {
      SgIsMissing(s.chains, l);
    }
    AddStopsAt(faults, s, l, e, n);
  }

  lemma SgIsMissing(t: Chains, l: Link)
    requires SG !in t && l.name != "g-chain"
    ensures EndsAt(t, l, 3)
  {
    KeysAfter(t, l, 3);
    TouchedSoFar(l, 3);
    GeneratedNameIsFixed(SOURCE_PREFIX, l.name);
    MadeNamesAreNotFixed(l.name);
    assert SG in FIXED;
  }

  /** The call completes as many functions, and makes as many client calls, as the machine says. */
  lemma {:induction false} CallStops(faults: Faults, s: State, m: Machine, l: Link)
    requires Tracks(s.chains, m) && s.calls == m.calls
    ensures var n := FirstDenied(faults, m.calls, 0, Reach(m, l));
            var r := Add(faults, s, l);
            r.done == StepAt(n) && r.state.calls == m.calls + CallsMade(n)
  {
    var n := FirstDenied(faults, m.calls, 0, Reach(m, l));
    if Stem(l.name) in m.stems || n == 0 {
      TakenNameStops(faults, s, l);
    } else if !WellFormed(l) {
      MalformedStops(faults, s, l);
    } else {
      FreeNameStops(faults, s, m, l, n);
    }
  }

  // ---------- runs ----------

  /** A call that completes a function has a free name and usable addresses. */
  lemma {:induction false} CompletedNameIsFree(faults: Faults, s: State, m: Machine, l: Link)
    requires Tracks(s.chains, m) && s.calls == m.calls
    ensures var k := Add(faults, s, l).done;
            && (k >= 1 ==> l.name != "g-fallback" && WellFormed(l) && SourceName(l.name) !in s.chains)
            && (m.shared.Severed? && l.name != "g-chain" ==> k <= 3)
            && (m.shared.Linked? && k >= 1 ==> l.name != "g-chain")
  {
    CallStops(faults, s, m, l);
    AddResult(faults, s, l);
    GeneratedNameIsFixed(SOURCE_PREFIX, l.name);
  }

  /** The rollback of the fourth function, if it comes to that. */
  lemma {:induction false} HeldIff(faults: Faults, s: State, m: Machine, l: Link)
    requires Tracks(s.chains, m) && s.calls == m.calls && m.shared.Linked? && Add(faults, s, l).done >= 3
    ensures Pinned(After(s.chains, l, 3)) <==> Held(m)
  {
    CompletedNameIsFree(faults, s, m, l);
    AddResult(faults, s, l);
    LinkChainsAreNotShared(l);
    ChainsCarry(s.chains, m.shared, l, 3);
    FewJumpAfter(s.chains, l, 3);
    PinnedIff(After(s.chains, l, 3), m.shared);
  }

  /** The shared chains after one call. */
  lemma {:induction false} SharedTracks(faults: Faults, s: State, m: Machine, l: Link)
    requires Tracks(s.chains, m) && s.calls == m.calls
    ensures var m' := MachineAdd(faults, m, l);
            && Carries(Add(faults, s, l).state.chains, m'.shared)
            && m'.shared == Evolve(m.shared, l, Add(faults, s, l).done, Pinned(After(s.chains, l, 3)))
  {
    CallStops(faults, s, m, l);
    CompletedNameIsFree(faults, s, m, l);
    CallCarries(faults, s, m.shared, l);
    if m.shared.Linked? && Add(faults, s, l).done == 3 {
      HeldIff(faults, s, m, l);
    }
  }

  /** The output chain of `g-chain` jumps to callisto-sg-chain, so that one is there too. */
  lemma ChainOutputNeedsSg(t: Chains)
    requires Closed(t) && FewJumpToSg(t) && CHAIN_OUTPUT in t
    ensures SG in t
  {
    LinkChainsAreNotShared(CHAIN_LINK);
    var jump := OutputRules(CHAIN_LINK)[1];
    assert jump in t[CHAIN_OUTPUT] && jump.target == Jump(SG);
  }

  /** While callisto-sg-chain is there, it was there before or is the source chain made. */
  lemma {:induction false} SgIsNamed(faults: Faults, s: State, m: Machine, l: Link, j: nat)
    requires Tracks(s.chains, m) && s.calls == m.calls && 1 <= Add(faults, s, l).done && 1 <= j <= 3
    requires MachineAdd(faults, m, l).shared.Linked?
    ensures SG in s.chains.Keys + Touched(l, j)
  {
    CallStops(faults, s, m, l);
    TouchedSoFar(l, j);
    LinkChainsAreNotShared(l);
  }

  /** The keys after one call, in terms of the names that its functions made. */
  lemma {:induction false} KeysTrack(faults: Faults, s: State, m: Machine, l: Link, j: nat)
    requires Tracks(s.chains, m) && s.calls == m.calls && Add(faults, s, l).done >= 1
    requires j == if Add(faults, s, l).done < 3 then Add(faults, s, l).done else 3
    ensures var names := s.chains.Keys + Touched(l, j);
            Add(faults, s, l).state.chains.Keys == if MachineAdd(faults, m, l).shared.Severed? then names - {SG} else names
  {
    SharedTracks(faults, s, m, l);
    CompletedNameIsFree(faults, s, m, l);
    CallKeys(faults, s, m.shared, l);
    if MachineAdd(faults, m, l).shared.Linked? {
      SgIsNamed(faults, s, m, l, j);
      assert s.chains.Keys + Touched(l, j) + {SG} == s.chains.Keys + Touched(l, j);
    }
  }

  /** The names after one call. */
  lemma {:induction false} NamesTrack(faults: Faults, s: State, m: Machine, l: Link)
    requires Tracks(s.chains, m) && s.calls == m.calls && Add(faults, s, l).done >= 1
    ensures NamesAre(Add(faults, s, l).state.chains.Keys, MachineAdd(faults, m, l).stems)
  {
    var k := Add(faults, s, l).done;
    var j := if k < 3 then k else 3;
    var names, stems := s.chains.Keys + Touched(l, j), m.stems + {Stem(l.name)};
    assert MachineAdd(faults, m, l).stems == if MachineAdd(faults, m, l).shared.Severed? then stems - {"g-chain"} else stems by {
      CallStops(faults, s, m, l);
    }
    assert NamesAre(names, stems) by {
      CompletedNameIsFree(faults, s, m, l);
      NamesGrow(s.chains.Keys, m.stems, l, j);
    }
    KeysTrack(faults, s, m, l, j);
    if MachineAdd(faults, m, l).shared.Severed? {
      NoChainOutputLeft(faults, s, l);
      NamesLoseSg(names, stems);
    }
  }

  lemma {:induction false} NoChainOutputLeft(faults: Faults, s: State, l: Link)
    requires Closed(s.chains) && FewJumpToSg(s.chains)
    ensures var t := Add(faults, s, l).state.chains; SG !in t ==> CHAIN_OUTPUT !in t && CHAIN_OUTPUT != SG
  {
    var t := Add(faults, s, l).state.chains;
    AddKeepsInvariant(faults, s, l, 0);
    CallKeepsFew(faults, s, l);
    ChainOutput(CHAIN_LINK);
    if CHAIN_OUTPUT in t {
      ChainOutputNeedsSg(t);
    }
  }

  /** One call: the table follows the machine. */
  lemma {:induction false} CallTracks(faults: Faults, s: State, m: Machine, l: Link)
    requires Tracks(s.chains, m) && s.calls == m.calls
    ensures var m' := MachineAdd(faults, m, l);
            var s' := Add(faults, s, l).state;
            Tracks(s'.chains, m') && s'.calls == m'.calls
  {
    CallStops(faults, s, m, l);
    SharedTracks(faults, s, m, l);
    CallKeepsFew(faults, s, l);
    if Add(faults, s, l).done >= 1 {
      NamesTrack(faults, s, m, l);
    } else {
      AddResult(faults, s, l);
    }
  }

  lemma {:induction false} StartTracks()
    ensures Tracks(BASE, START)
  {
    BaseRealizes();
    StartNames();
    FixedNamesDiffer();
    MadeNamesAreNotFixed("g-chain");
    assert CHAIN_OUTPUT !in BASE.Keys;
  }

  /** The table, and the number of client calls, follow the machine over every run. */
  lemma {:induction false} RunTracks(faults: Faults, s: State, m: Machine, calls: seq<Call>)
    requires Tracks(s.chains, m) && s.calls == m.calls
    ensures var m' := MachineRun(faults, m, calls);
            var s' := Run(faults, s, calls);
            Tracks(s'.chains, m') && s'.calls == m'.calls
    decreases |calls|
  {
    if calls != [] {
      if calls[0].CallSetup? {
        SetupIsRefused(faults, s);
      } else {
        CallTracks(faults, s, m, calls[0].link);
      }
      RunTracks(faults, Step(faults, s, calls[0]), MachineStep(faults, m, calls[0]), calls[1..]);
    }
  }

  // ---------- packets ----------

  lemma {:induction false} RunAfterSetupTracks(faults: Faults, calls: seq<Call>)
    requires Setup(faults, INITIAL).ok
    ensures var s := Run(faults, Setup(faults, INITIAL).state, calls);
            var m := MachineRun(faults, START, calls);
            Tracks(s.chains, m) && s.calls == m.calls
  {
    SetupSucceedsIff(faults, INITIAL);
    StartTracks();
    RunTracks(faults, State(BASE, 8), START, calls);
  }

  /** The exact verdict for every packet, after a setup that succeeded and any
      calls whatever, under all refusals. */
  lemma {:induction false} EveryVerdict(faults: Faults, calls: seq<Call>, depth: nat, p: Packet)
    requires Setup(faults, INITIAL).ok
    requires depth >= Nesting(MachineRun(faults, START, calls).shared)
    ensures var s := Run(faults, Setup(faults, INITIAL).state, calls);
            var m := MachineRun(faults, START, calls);
            Decide(s.chains, depth, FORWARD, p) == SharedVerdict(m.shared, p)
  {
    RunAfterSetupTracks(faults, calls);
    var s := Run(faults, Setup(faults, INITIAL).state, calls);
    CarriedVerdict(s.chains, MachineRun(faults, START, calls).shared, depth, p);
  }

  // ---------- when callisto-sg-chain is not made anew ----------

  /** A well-formed add of `g-chain` does not find callisto-sg-chain gone. */
  predicate NotRemade(m: Machine, call: Call) {
    m.shared.Severed? ==> !RemakesSg(call)
  }

  /** ... and so for every call of a run. */
  predicate NeverRemade(faults: Faults, m: Machine, calls: seq<Call>)
    decreases |calls|
  {
    calls == [] || (NotRemade(m, calls[0]) && NeverRemade(faults, MachineStep(faults, m, calls[0]), calls[1..]))
  }

  /** callisto-sg-chain ends in the ACCEPT of setup or in nothing, and no block is that of `g-chain`. */
  predicate Plain(m: Machine) {
    m.shared.Linked? ==> "g-chain" in m.stems && (m.shared.tail.Accepting? || m.shared.tail.Lost?) && NoChainLink(m.shared.forward)
  }

  lemma {:induction false} StepStaysPlain(faults: Faults, m: Machine, call: Call)
    requires Plain(m) && NotRemade(m, call)
    ensures Plain(MachineStep(faults, m, call))
  {
    if call.CallAdd? {
      ReservedStems(call.link.name);
    }
  }

  lemma {:induction false} RunStaysPlain(faults: Faults, m: Machine, calls: seq<Call>)
    requires Plain(m) && NeverRemade(faults, m, calls)
    ensures Plain(MachineRun(faults, m, calls))
    decreases |calls|
  {
    if calls != [] {
      StepStaysPlain(faults, m, calls[0]);
      RunStaysPlain(faults, MachineStep(faults, m, calls[0]), calls[1..]);
    }
  }

  /** A run in which callisto-sg-chain is not made anew strands no packet, and four
      nested jumps are enough. */
  lemma {:induction false} NothingIsStranded(faults: Faults, calls: seq<Call>, depth: nat, p: Packet)
    requires Setup(faults, INITIAL).ok
    requires NeverRemade(faults, START, calls) && depth >= 4
    ensures var t := Run(faults, Setup(faults, INITIAL).state, calls).chains;
            Decide(t, depth, FORWARD, p) == SharedVerdict(MachineRun(faults, START, calls).shared, p) != Stuck
  {
    RunStaysPlain(faults, START, calls);
    EveryVerdict(faults, calls, depth, p);
  }

  /** A call list without a well-formed add of `g-chain` behind one of an ordinary name is such a run. */
  lemma {:induction false} NeverRemadeUnlessMayRemake(faults: Faults, m: Machine, calls: seq<Call>)
    requires {"g-chain", "g-fallback"} <= m.stems + (if m.shared.Severed? then {"g-chain"} else {})
    requires !MayRemake(calls) && (m.shared.Severed? ==> NoRemake(calls))
    ensures NeverRemade(faults, m, calls)
    decreases |calls|
  {
    if calls != [] {
      RestOfRemake(calls);
      assert calls[0] in calls;
      if calls[0].CallAdd? {
        ReservedStems(calls[0].link.name);
      }
      NeverRemadeUnlessMayRemake(faults, MachineStep(faults, m, calls[0]), calls[1..]);
    }
  }

  // ---------- a consequence ----------

  lemma {:induction false} SeveredForGood(faults: Faults, m: Machine, calls: seq<Call>)
    requires m.shared.Severed? && NeverRemade(faults, m, calls)
    ensures MachineRun(faults, m, calls).shared.Severed?
    decreases |calls|
  {
    if calls != [] {
      SeveredForGood(faults, MachineStep(faults, m, calls[0]), calls[1..]);
    }
  }

  /** One refusal can disable filtering for good: if the first add, of an ordinary
      name, is refused its 21st or 22nd client call, then whatever is added later,
      `g-chain` excepted, every packet passes FORWARD without a verdict. */
  lemma {:induction false} OneRefusalDisablesFiltering(faults: Faults, l: Link, calls: seq<Call>, depth: nat, p: Packet)
    requires WellFormed(l) && !Reserved(l.name) && NoRemake(calls) && depth >= 4
    requires Granted(faults, 0, 28) && (faults(28) || faults(29))
    ensures Decide(Run(faults, Setup(faults, INITIAL).state, [CallAdd(l)] + calls).chains, depth, FORWARD, p) == Through
  {
    var all, m := [CallAdd(l)] + calls, MachineAdd(faults, START, l);
    assert all[0] == CallAdd(l) && all[1..] == calls;
    SetupSucceedsIff(faults, INITIAL);
    FirstAddSevers(faults, l);
    NeverRemadeUnlessMayRemake(faults, m, calls);
    SeveredForGood(faults, m, calls);
    EveryVerdict(faults, all, depth, p);
  }

  lemma FirstAddSevers(faults: Faults, l: Link)
    requires WellFormed(l) && !Reserved(l.name)
    requires Granted(faults, 0, 28) && (faults(28) || faults(29))
    ensures MachineAdd(faults, START, l).shared == Severed
    ensures MachineAdd(faults, START, l).stems == {"g-fallback", Stem(l.name)}
  {
    ReservedStems(l.name);
    var n := FirstDenied(faults, 8, 0, 25);
    assert 20 <= n <= 21;
    assert {"g-chain", "g-fallback"} + {Stem(l.name)} - {"g-chain"} == {"g-fallback", Stem(l.name)};
  }
}

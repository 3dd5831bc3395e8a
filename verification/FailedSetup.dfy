/** What a setup leaves when one of its client calls fails. */
module FailedSetup {
  import opened Rules
  import opened ChainNames
  import opened SecurityGroup
  import opened Policy
  import opened Traversal
  import opened Installation
  import opened Runs
  import opened BeforeSetup

  /** The chains that setup makes, in this order: call 0 makes the first and call 1
      adds its rule, call 2 makes the second, and so on. */
  const SETUP_CHAINS: seq<string> := [SG_FALLBACK, SG, CALLISTO_INPUT, CALLISTO_FORWARD]

  /** The n-th client call of a setup fails: it is refused, or makes a chain that is there. */
  predicate CallFails(faults: Faults, s: State, n: nat)
    requires n < 8
  {
    faults(s.calls + n) || (n % 2 == 0 && SETUP_CHAINS[n / 2] in s.chains)
  }

  /** Call `n` is the first one that fails, or there is none and `n` is 8. */
  ghost predicate FirstFailure(faults: Faults, s: State, n: nat) {
    && n <= 8
    && (forall k :: 0 <= k < n ==> !CallFails(faults, s, k))
    && (n < 8 ==> CallFails(faults, s, n))
  }

  function WithRule(rules: seq<Rule>, r: Rule): seq<Rule> {
    if r in rules then rules else rules + [r]
  }

  /** The chains made by the first `n` client calls. */
  function Made(n: nat): set<string> {
    set i | 0 <= i < |SETUP_CHAINS| && 2 * i < n :: SETUP_CHAINS[i]
  }

  /** The rules of a chain behind the first `n` client calls of a setup on `t`: the
      call after the one that makes a chain adds its rule, to the chain itself or,
      for the last two, as a jump to it in a built-in chain. */
  function RulesLeft(t: Chains, n: nat, c: string): seq<Rule> {
    var rules := if c in t then t[c] else [];
    if c == INPUT then if n >= 6 then WithRule(rules, Rule(Any, Jump(CALLISTO_INPUT))) else rules
    else if c == FORWARD then if n >= 8 then WithRule(rules, Rule(Any, Jump(CALLISTO_FORWARD))) else rules
    else if c in t then rules
    else if c == SG_FALLBACK && n >= 2 then [Rule(Any, Drop)]
    else if c == SG && n >= 4 then [Rule(Any, Accept)]
    else []
  }

  /** What those calls make of `t`: nothing that was there goes. */
  function LeftBySetup(t: Chains, n: nat): Chains {
    map c | c in t.Keys + Made(n) :: RulesLeft(t, n, c)
  }

  /** What call `n` makes, or adds its rule to. */
  lemma MadeNames(n: nat)
    requires n < 8
    ensures SETUP_CHAINS[n / 2] == SetupChainName(SETUP_FUNCTIONS[n / 2])
    ensures Made(n + 1) == if n % 2 == 0 then Made(n) + {SETUP_CHAINS[n / 2]} else Made(n)
    ensures SETUP_CHAINS[n / 2] in Made(n) <==> n % 2 == 1
  {
    FixedNamesDiffer();
  }

  lemma ChainIsMade(t: Chains, n: nat)
    requires n < 8 && n % 2 == 0 && SETUP_CHAINS[n / 2] !in t && INPUT in t && FORWARD in t
    ensures var name := SETUP_CHAINS[n / 2];
            name !in LeftBySetup(t, n) && LeftBySetup(t, n)[name := []] == LeftBySetup(t, n + 1)
  {
    FixedNamesDiffer();
    MadeNames(n);
  }

  lemma RuleIsAdded(t: Chains, n: nat)
    requires n < 8 && n % 2 == 1 && SETUP_CHAINS[n / 2] !in t && INPUT in t && FORWARD in t
    ensures var (c, r) := SetupRule(SETUP_FUNCTIONS[n / 2]);
            var left := LeftBySetup(t, n);
            c in left && Insertable(left.Keys, r) && left[c := WithRule(left[c], r)] == LeftBySetup(t, n + 1)
  {
    FixedNamesDiffer();
    MadeNames(n);
    assert WithRule([], SetupRule(SETUP_FUNCTIONS[n / 2]).1) == [SetupRule(SETUP_FUNCTIONS[n / 2]).1];
  }

  /** Where a setup has come behind `n` client calls. */
  function Reached(start: State, n: nat): State {
    State(LeftBySetup(start.chains, n), start.calls + n)
  }

  /** How it ends when call `n` is the first that fails. */
  function StoppedAt(start: State, n: nat): Outcome {
    Outcome(State(LeftBySetup(start.chains, n), start.calls + n + 1), false)
  }

  lemma NewChainLeaves(faults: Faults, start: State, n: nat)
    requires n < 8 && n % 2 == 0 && INPUT in start.chains && FORWARD in start.chains
    ensures NewChain(faults, Reached(start, n), SETUP_CHAINS[n / 2]) ==
            if CallFails(faults, start, n) then StoppedAt(start, n) else Outcome(Reached(start, n + 1), true)
  {
    MadeNames(n);
    if SETUP_CHAINS[n / 2] !in start.chains {
      ChainIsMade(start.chains, n);
    }
  }

  lemma AppendLeaves(faults: Faults, start: State, n: nat)
    requires n < 8 && n % 2 == 1 && INPUT in start.chains && FORWARD in start.chains
    requires SETUP_CHAINS[n / 2] !in start.chains
    ensures var (c, r) := SetupRule(SETUP_FUNCTIONS[n / 2]);
            AppendUnique(faults, Reached(start, n), c, r) ==
            if CallFails(faults, start, n) then StoppedAt(start, n) else Outcome(Reached(start, n + 1), true)
  {
    RuleIsAdded(start.chains, n);
    var (c, r) := SetupRule(SETUP_FUNCTIONS[n / 2]);
    var left := LeftBySetup(start.chains, n);
    assert r in left[c] ==> left[c := left[c]] == left;
  }

  /** The client calls of a setup, on the states `at(0)`, `at(1)`, ... between them:
      call `k` leads from one to the next, or fails. */
  ghost predicate CallsLead(faults: Faults, at: nat -> State, fails: nat -> bool, k: nat)
    requires k < 8
  {
    var f := SETUP_FUNCTIONS[k / 2];
    var o := if k % 2 == 0 then NewChain(faults, at(k), SetupChainName(f))
             else AppendUnique(faults, at(k), SetupRule(f).0, SetupRule(f).1);
    if fails(k) then o == Outcome(State(at(k).chains, at(k).calls + 1), false) else o == Outcome(at(k + 1), true)
  }

  lemma StepLeads(faults: Faults, at: nat -> State, fails: nat -> bool, i: nat)
    requires i < |SETUP_FUNCTIONS| && CallsLead(faults, at, fails, 2 * i)
    requires !fails(2 * i) ==> CallsLead(faults, at, fails, 2 * i + 1)
    ensures SetupStep(faults, at(2 * i), SETUP_FUNCTIONS[i]) ==
            if fails(2 * i) then Outcome(State(at(2 * i).chains, at(2 * i).calls + 1), false)
            else if fails(2 * i + 1) then Outcome(State(at(2 * i + 1).chains, at(2 * i + 1).calls + 1), false)
            else Outcome(at(2 * i + 2), true)
  {
  }

  lemma {:induction false} SetupLeads(faults: Faults, at: nat -> State, fails: nat -> bool, i: nat, n: nat)
    requires i <= |SETUP_FUNCTIONS| && 2 * i <= n <= 8
    requires forall k :: 0 <= k < 8 && k <= n ==> CallsLead(faults, at, fails, k)
    requires (forall k :: 0 <= k < n ==> !fails(k)) && (n < 8 ==> fails(n))
    ensures SetupFrom(faults, at(2 * i), i) ==
            if n < 8 then Outcome(State(at(n).chains, at(n).calls + 1), false) else Outcome(at(8), true)
    decreases |SETUP_FUNCTIONS| - i
  {
    if i < |SETUP_FUNCTIONS| {
      StepLeads(faults, at, fails, i);
      if n >= 2 * i + 2 {
        SetupLeads(faults, at, fails, i + 1, n);
      }
    }
  }

  lemma CallLeads(faults: Faults, s: State, at: nat -> State, fails: nat -> bool, k: nat, n: nat)
    requires k < 8 && k <= n && INPUT in s.chains && FORWARD in s.chains && FirstFailure(faults, s, n)
    requires at(k) == Reached(s, k) && at(k + 1) == Reached(s, k + 1) && fails(k) == CallFails(faults, s, k)
    ensures CallsLead(faults, at, fails, k)
  {
    if k % 2 == 1 {
      assert !CallFails(faults, s, k - 1);
      AppendLeaves(faults, s, k);
    } else {
      MadeNames(k);
      NewChainLeaves(faults, s, k);
    }
  }

  /** On any table with the built-in chains: a setup makes its client calls up to
      the first one that fails, leaves what they made, and takes nothing back. */
  lemma {:induction false} SetupLeaves(faults: Faults, s: State, n: nat)
    requires INPUT in s.chains && FORWARD in s.chains && FirstFailure(faults, s, n)
    ensures Setup(faults, s) == Outcome(State(LeftBySetup(s.chains, n), s.calls + if n < 8 then n + 1 else 8), n == 8)
  {
    var at := (k: nat) => Reached(s, k);
    var fails := (k: nat) => k < 8 && CallFails(faults, s, k);
    forall k | 0 <= k < 8 && k <= n ensures CallsLead(faults, at, fails, k) {
      CallLeads(faults, s, at, fails, k, n);
    }
    StartsThere(s);
    SetupLeads(faults, at, fails, 0, n);
  }

  lemma {:induction false} SetupLeavesWhereItFails(faults: Faults, s: State)
    requires INPUT in s.chains && FORWARD in s.chains
    ensures var o := Setup(faults, s);
            forall n :: FirstFailure(faults, s, n) ==> (o.ok <==> n == 8) && o.state.chains == LeftBySetup(s.chains, n)
  {
    forall n | FirstFailure(faults, s, n)
      ensures var o := Setup(faults, s); (o.ok <==> n == 8) && o.state.chains == LeftBySetup(s.chains, n)
    {
      SetupLeaves(faults, s, n);
    }
  }

  lemma StartsThere(s: State)
    ensures Reached(s, 0) == s
  {
    assert LeftBySetup(s.chains, 0) == s.chains;
  }

  /** There is such a call, or none fails, on every table. */
  lemma FailureOrNone(faults: Faults, s: State) returns (n: nat)
    ensures FirstFailure(faults, s, n)
  {
    n := 0;
    while n < 8 && !CallFails(faults, s, n)
      invariant n <= 8 && forall k :: 0 <= k < n ==> !CallFails(faults, s, k)
    {
      n := n + 1;
    }
  }

  // ---------- a fresh host ----------

  predicate Fresh(s: State) { s.chains == map[INPUT := [], FORWARD := []] }

  /** On a fresh host, a setup whose first refused client call is number `n` leaves
      the two built-in chains and the first half of `n`, rounded up, of its own
      chains; all have their rules, but for a last one whose rule was refused. */
  lemma {:induction false} RefusedSetupLeaves(faults: Faults, s: State, n: nat)
    requires Fresh(s) && n < 8 && Granted(faults, s.calls, s.calls + n) && faults(s.calls + n)
    ensures Setup(faults, s) == Outcome(State(LeftBySetup(s.chains, n), s.calls + n + 1), false)
    ensures LeftBySetup(s.chains, n).Keys == {INPUT, FORWARD} + Made(n)
  {
    FixedNamesDiffer();
    NoneIsThere(faults, s, n);
    SetupLeaves(faults, s, n);
  }

  lemma NoneIsThere(faults: Faults, s: State, n: nat)
    requires Fresh(s) && n < 8 && Granted(faults, s.calls, s.calls + n) && faults(s.calls + n)
    ensures FirstFailure(faults, s, n)
  {
    FixedNamesDiffer();
    forall k | 0 <= k < n ensures !CallFails(faults, s, k) {
      assert SETUP_CHAINS[k / 2] !in s.chains;
    }
  }

  /** Once its first client call was granted, a setup that fails on a fresh host is
      never completed: after any later calls, under any refusals, no setup succeeds,
      and FORWARD lets every packet through without a verdict. */
  lemma {:induction false} HalfSetupIsFinal(faults: Faults, s: State, later: seq<Call>, retry: Faults, depth: nat, p: Packet)
    requires Fresh(s) && !faults(s.calls) && !Setup(faults, s).ok
    ensures var s' := Run(faults, Setup(faults, s).state, later);
            !Setup(retry, s').ok && Decide(s'.chains, depth, FORWARD, p) == Through
  {
    var left := Setup(faults, s).state;
    var n := FailureOrNone(faults, s);
    SetupLeaves(faults, s, n);
    assert !CallFails(faults, s, 0) by { FixedNamesDiffer(); }
    FreshIsClosed(s);
    StepKeepsInvariant(faults, s, CallSetup);
    BlockedForGood(faults, left, later, retry, depth, p);
  }

  lemma FreshIsClosed(s: State)
    requires Fresh(s)
    ensures Closed(s.chains)
  {
    FixedNamesDiffer();
  }

  /** Hence a setup that failed on a fresh host can be completed by a further one
      if and only if its first client call was the one refused. */
  lemma {:induction false} FailedSetupIsRepairedIff(faults: Faults, s: State)
    requires Fresh(s) && !Setup(faults, s).ok
    ensures (exists retry :: Setup(retry, Setup(faults, s).state).ok) <==> faults(s.calls)
  {
    var left := Setup(faults, s).state;
    if faults(s.calls) {
      assert left.chains == s.chains by { RefusedSetupLeaves(faults, s, 0); }
      SetupSucceedsIff(NO_FAULTS, left);
      assert Setup(NO_FAULTS, left).ok;
    } else {
      forall retry ensures !Setup(retry, left).ok {
        HalfSetupIsFinal(faults, s, [], retry, 0, Packet(false, "", "", 0, [], Icmp, 0, 0, New));
      }
    }
  }
}

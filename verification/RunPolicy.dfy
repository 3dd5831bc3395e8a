/** What every packet meets after a whole run. */
module RunPolicy {
  import opened Rules
  import opened ChainNames
  import opened SecurityGroup
  import opened Policy
  import opened Traversal
  import opened Installation
  import opened Runs

  // ---------- runs with refusals ----------

  /** No call of the run fails in one of the three functions on shared chains. */
  predicate NoLateFailure(faults: Faults, s: State, calls: seq<Call>)
    decreases |calls|
  {
    calls == [] ||
    (&& (calls[0].CallAdd? ==> Add(faults, s, calls[0].link).done in {0, 1, 2, 6})
     && NoLateFailure(faults, Step(faults, s, calls[0]), calls[1..]))
  }

  /** The links whose calls completed, newest first, in front of `links`. */
  function Completed(faults: Faults, s: State, calls: seq<Call>, links: seq<Link>): seq<Link>
    decreases |calls|
  {
    if calls == [] then links
    else
      var done := calls[0].CallAdd? && Add(faults, s, calls[0].link).done == 6;
      Completed(faults, Step(faults, s, calls[0]), calls[1..], if done then [calls[0].link] + links else links)
  }

  lemma {:induction false} RunRealizes(faults: Faults, s: State, links: seq<Link>, calls: seq<Call>)
    requires Realizes(s.chains, links)
    requires NoLateFailure(faults, s, calls)
    ensures Realizes(Run(faults, s, calls).chains, Completed(faults, s, calls, links))
    decreases |calls|
  {
    if calls != [] {
      var s' := Step(faults, s, calls[0]);
      if calls[0].CallSetup? {
        SetupIsRefused(faults, s);
        RunRealizes(faults, s', links, calls[1..]);
      } else {
        AddRealizes(faults, s, links, calls[0].link);
        var done := Add(faults, s, calls[0].link).done == 6;
        RunRealizes(faults, s', if done then [calls[0].link] + links else links, calls[1..]);
      }
    }
  }

  /** Policy equivalence over runs: after a setup that succeeded and any calls,
      under any refusals that spare the functions on shared chains, every packet
      meets the policy of the links whose calls completed; and the rules of
      addINPUTRules are dead. */
  lemma {:induction false} RunImplementsPolicy(faults: Faults, calls: seq<Call>, depth: nat, p: Packet)
    requires Setup(faults, INITIAL).ok
    requires var s0 := Setup(faults, INITIAL).state; NoLateFailure(faults, s0, calls)
    requires depth >= 4
    ensures var s0 := Setup(faults, INITIAL).state;
            var t := Run(faults, s0, calls).chains;
            var pruned := t[CALLISTO_FORWARD := Prune(RulesAt(t, CALLISTO_FORWARD))];
            var verdict := PolicyVerdict(ToSet(Completed(faults, s0, calls, [])), p);
            && Decide(t, depth, FORWARD, p) == verdict
            && Decide(t, depth - 1, CALLISTO_FORWARD, p) == verdict
            && Decide(pruned, depth, FORWARD, p) == verdict
  {
    SetupSucceedsIff(faults, INITIAL);
    BaseRealizes();
    var s0 := Setup(faults, INITIAL).state;
    var links := Completed(faults, s0, calls, []);
    RunRealizes(faults, s0, [], calls);
    var t := Run(faults, s0, calls).chains;
    TableImplementsPolicy(t, links, depth, p);
    InputRulesAreDead(t, links, depth, p);
  }

  /** Frame and monotonicity of one completed call, under any refusals before it. */
  lemma {:induction false} AddFramesAndIsMonotone(faults: Faults, s: State, links: seq<Link>, l: Link, depth: nat, p: Packet)
    requires Realizes(s.chains, links) && depth >= 4
    requires Add(faults, s, l).done == 6
    ensures var before := Decide(s.chains, depth, FORWARD, p);
            var after := Decide(Add(faults, s, l).state.chains, depth, FORWARD, p);
            && (p.physIn != l.name && p.physOut != l.name ==> after == before)
            && (before == Dropped ==> after == Dropped)
  {
    TableImplementsPolicy(s.chains, links, depth, p);
    VerdictAfterAdd(faults, s, links, l, depth, p);
    PolicyMonotone(ToSet(links), l, p);
    if p.physIn != l.name && p.physOut != l.name {
      PolicyFrame(ToSet(links), l, p);
    }
  }

  lemma {:induction false} VerdictAfterAdd(faults: Faults, s: State, links: seq<Link>, l: Link, depth: nat, p: Packet)
    requires Realizes(s.chains, links) && depth >= 4
    requires Add(faults, s, l).done == 6
    ensures Decide(Add(faults, s, l).state.chains, depth, FORWARD, p) == PolicyVerdict(ToSet(links) + {l}, p)
  {
    AddRealizes(faults, s, links, l);
    TableImplementsPolicy(Add(faults, s, l).state.chains, [l] + links, depth, p);
    ToSetPrepend(l, links);
  }

  lemma ToSetPrepend(l: Link, links: seq<Link>)
    ensures ToSet([l] + links) == ToSet(links) + {l}
  {
    ToSetCons([l] + links);
    assert ([l] + links)[0] == l && ([l] + links)[1..] == links;
  }

  // ---------- failure-free runs ----------

  ghost function FreshHost(): State { Setup(NO_FAULTS, INITIAL).state }

  /** Closed form of every failure-free run that starts with setup. */
  lemma {:induction false} FailureFreeRun(calls: seq<Call>)
    ensures Exactly(Run(NO_FAULTS, Setup(NO_FAULTS, INITIAL).state, calls).chains, Added([], calls))
  {
    SetupSucceedsIff(NO_FAULTS, INITIAL);
    BaseRealizes();
    RunIsExact(Setup(NO_FAULTS, INITIAL).state, [], calls);
  }

  /** Without refusals no call fails late, and exactly the added links complete. */
  lemma {:induction false} NothingFailsLate(s: State, links: seq<Link>, calls: seq<Call>)
    requires Exactly(s.chains, links)
    ensures NoLateFailure(NO_FAULTS, s, calls)
    ensures Completed(NO_FAULTS, s, calls, links) == Added(links, calls)
    decreases |calls|
  {
    if calls != [] {
      var s' := Step(NO_FAULTS, s, calls[0]);
      if calls[0].CallSetup? {
        SetupIsRefused(NO_FAULTS, s);
        NothingFailsLate(s', links, calls[1..]);
      } else {
        AddIsAtomic(s, links, calls[0].link);
        NothingFailsLate(s', if Acceptable(links, calls[0].link) then [calls[0].link] + links else links, calls[1..]);
      }
    }
  }

  /** Policy equivalence over failure-free runs: after setup and any calls at all,
      acceptable or not, every packet meets the policy of the links that were
      acceptable when they were added; and the rules of addINPUTRules are dead. */
  lemma {:induction false} FailureFreePolicy(calls: seq<Call>, depth: nat, p: Packet)
    requires depth >= 4
    ensures var t := Run(NO_FAULTS, FreshHost(), calls).chains;
            var pruned := t[CALLISTO_FORWARD := Prune(RulesAt(t, CALLISTO_FORWARD))];
            var verdict := PolicyVerdict(ToSet(Added([], calls)), p);
            Decide(t, depth, FORWARD, p) == verdict && Decide(pruned, depth, FORWARD, p) == verdict
  {
    SetupSucceedsIff(NO_FAULTS, INITIAL);
    BaseRealizes();
    NothingFailsLate(FreshHost(), [], calls);
    RunImplementsPolicy(NO_FAULTS, calls, depth, p);
  }

  /** Atomicity after any failure-free run: a call installs everything or changes
      nothing, and a caller can tell which beforehand. */
  lemma {:induction false} AddIsAtomicAfterRuns(calls: seq<Call>, l: Link)
    ensures var s := Run(NO_FAULTS, Setup(NO_FAULTS, INITIAL).state, calls);
            var r := Add(NO_FAULTS, s, l);
            if Acceptable(Added([], calls), l)
            then r.done == |ADD_FUNCTIONS| && Exactly(r.state.chains, [l] + Added([], calls))
            else r.done == 0 && r.state.chains == s.chains
  {
    FailureFreeRun(calls);
    AddIsAtomic(Run(NO_FAULTS, Setup(NO_FAULTS, INITIAL).state, calls), Added([], calls), l);
  }

  function Adds(links: seq<Link>): (calls: seq<Call>)
    ensures |calls| == |links|
  {
    if links == [] then [] else [CallAdd(links[0])] + Adds(links[1..])
  }

  /** Every call of a list of adds completes. */
  predicate AllSucceed(s: State, links: seq<Link>)
    decreases |links|
  {
    links == [] ||
    (&& Add(NO_FAULTS, s, links[0]).done == 6
     && AllSucceed(Add(NO_FAULTS, s, links[0]).state, links[1..]))
  }

  /** The links can be managed together, whatever is managed already. */
  predicate Compatible(links: seq<Link>) {
    && (forall i | 0 <= i < |links| :: WellFormed(links[i]) && !Reserved(links[i].name))
    && (forall i, j | 0 <= i < j < |links| :: Stem(links[i].name) != Stem(links[j].name))
  }

  /** No name of `links` is taken by `older`. */
  predicate Apart(older: seq<Link>, links: seq<Link>) {
    forall m, l | m in older && l in links :: Stem(m.name) != Stem(l.name)
  }

  lemma {:induction false} AllSucceedIff(s: State, older: seq<Link>, links: seq<Link>)
    requires Exactly(s.chains, older)
    ensures AllSucceed(s, links) <==> Compatible(links) && Apart(older, links)
    decreases |links|
  {
    if links != [] {
      var l, rest := links[0], links[1..];
      assert links == [l] + rest;
      AddIsAtomic(s, older, l);
      SplitCompatible(l, rest);
      SplitApart(older, l, rest);
      if Acceptable(older, l) {
        AllSucceedIff(Add(NO_FAULTS, s, l).state, [l] + older, rest);
      }
    }
  }

  lemma SplitApart(older: seq<Link>, l: Link, rest: seq<Link>)
    ensures Apart(older, [l] + rest) <==> Apart(older, [l]) && Apart(older, rest)
    ensures Apart([l] + older, rest) <==> Apart([l], rest) && Apart(older, rest)
    ensures Apart([l], rest) <==> forall m :: m in rest ==> Stem(m.name) != Stem(l.name)
    ensures Apart(older, [l]) <==> forall m :: m in older ==> Stem(m.name) != Stem(l.name)
  {
    assert l in [l] && forall m :: m in [l] + rest <==> m == l || m in rest;
    assert forall m :: m in [l] + older <==> m == l || m in older;
  }

  /** When all adds succeed, exactly their links are managed. */
  lemma {:induction false} AllAdded(older: seq<Link>, links: seq<Link>)
    requires Compatible(links) && Apart(older, links)
    ensures ToSet(Added(older, Adds(links))) == ToSet(older) + ToSet(links)
    decreases |links|
  {
    if links != [] {
      var l, rest := links[0], links[1..];
      assert links == [l] + rest;
      assert Adds(links)[0] == CallAdd(l) && Adds(links)[1..] == Adds(rest);
      SplitCompatible(l, rest);
      SplitApart(older, l, rest);
      AllAdded([l] + older, rest);
      ToSetCons(links);
      ToSetCons([l] + older);
      assert ([l] + older)[1..] == older;
    }
  }

  /** A list of adds succeeds as a whole, after setup, exactly when its links
      are compatible; so a caller can tell beforehand. */
  lemma {:induction false} AllSucceedIffCompatible(links: seq<Link>)
    ensures AllSucceed(FreshHost(), links) <==> Compatible(links)
  {
    FailureFreeRun([]);
    AllSucceedIff(FreshHost(), [], links);
  }

  lemma {:induction false} VerdictAfterAdds(links: seq<Link>, depth: nat, p: Packet)
    requires Compatible(links)
    requires depth >= 4
    ensures Decide(Run(NO_FAULTS, FreshHost(), Adds(links)).chains, depth, FORWARD, p) == PolicyVerdict(ToSet(links), p)
  {
    AllAdded([], links);
    FailureFreeRun(Adds(links));
    TableImplementsPolicy(Run(NO_FAULTS, FreshHost(), Adds(links)).chains, Added([], Adds(links)), depth, p);
    assert ToSet([]) + ToSet(links) == ToSet(links);
  }

  /** Order independence: if a list of adds succeeds, so does every reordering
      of it, and both leave every packet with the same verdict. */
  lemma {:induction false} OrderIsIrrelevant(links: seq<Link>, other: seq<Link>, depth: nat, p: Packet)
    requires multiset(links) == multiset(other)
    requires AllSucceed(FreshHost(), links)
    requires depth >= 4
    ensures AllSucceed(FreshHost(), other)
    ensures var t := Run(NO_FAULTS, FreshHost(), Adds(links)).chains;
            var t' := Run(NO_FAULTS, FreshHost(), Adds(other)).chains;
            Decide(t, depth, FORWARD, p) == Decide(t', depth, FORWARD, p) == PolicyVerdict(ToSet(links), p)
  {
    AllSucceedIffCompatible(links);
    AllSucceedIffCompatible(other);
    CompatiblePermutation(links, other);
    VerdictAfterAdds(links, depth, p);
    VerdictAfterAdds(other, depth, p);
    SameSet(links, other);
  }

  lemma SameSet(links: seq<Link>, other: seq<Link>)
    requires multiset(links) == multiset(other)
    ensures ToSet(links) == ToSet(other)
  {
    assert forall l :: l in links <==> l in multiset(links);
    assert forall l :: l in other <==> l in multiset(other);
  }

  lemma CompatiblePermutation(links: seq<Link>, other: seq<Link>)
    requires multiset(links) == multiset(other) && Compatible(links)
    ensures Compatible(other)
  {
    forall i | 0 <= i < |other| ensures WellFormed(other[i]) && !Reserved(other[i].name) {
      assert other[i] in multiset(links);
    }
    forall i, j | 0 <= i < j < |other| ensures Stem(other[i].name) != Stem(other[j].name) {
      if other[i] == other[j] {
        TwiceInMultiset(other, i, j);
        NotTwice(links, other[i]);
      } else {
        assert other[i] in multiset(links) && other[j] in multiset(links);
        var m, n :| 0 <= m < |links| && 0 <= n < |links| && links[m] == other[i] && links[n] == other[j];
        assert m < n || n < m;
      }
    }
  }

  lemma TwiceInMultiset<T>(s: seq<T>, i: nat, j: nat)
    requires i < j < |s| && s[i] == s[j]
    ensures multiset(s)[s[i]] >= 2
  {
    assert s == s[..j] + [s[j]] + s[j + 1..];
    assert s[i] in s[..j];
    assert multiset(s) == multiset(s[..j]) + multiset{s[j]} + multiset(s[j + 1..]);
  }

  lemma {:induction false} NotTwice(links: seq<Link>, l: Link)
    requires Compatible(links)
    ensures multiset(links)[l] <= 1
  {
    if links != [] {
      var rest := links[1..];
      assert links == [links[0]] + rest;
      SplitCompatible(links[0], rest);
      NotTwice(rest, l);
      assert multiset(links) == multiset{links[0]} + multiset(rest);
    }
  }

  lemma SplitCompatible(l: Link, rest: seq<Link>)
    ensures Compatible([l] + rest) <==>
            && WellFormed(l) && !Reserved(l.name) && Compatible(rest)
            && forall m :: m in rest ==> Stem(m.name) != Stem(l.name)
  {
    var all := [l] + rest;
    assert all[0] == l && forall i :: 0 <= i < |rest| ==> all[i + 1] == rest[i];
    if Compatible(all) {
      forall i, j | 0 <= i < j < |rest| ensures Stem(rest[i].name) != Stem(rest[j].name) {
        assert Stem(all[i + 1].name) != Stem(all[j + 1].name);
      }
    }
  }
}

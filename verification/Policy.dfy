/** The policy that the tables implement, and its proof: every table that
    realizes a set of links decides every packet as `Policy` says. */
module Policy {
  import opened Rules
  import opened ChainNames
  import opened SecurityGroup

  // ---------- the policy, without chains ----------

  predicate DhcpRequest(p: Packet) { p.proto == Udp && p.sport == 68 && p.dport == 67 }
  predicate DhcpReply(p: Packet) { p.proto == Udp && p.sport == 67 && p.dport == 68 }

  /** A packet may leave by a managed port. */
  predicate IngressOk(p: Packet) {
    || p.state == Established || p.state == Related
    || DhcpReply(p)
    || p.proto == Icmp
    || ((p.proto == Tcp || p.proto == Udp) && 1 <= p.dport)
  }

  /** A packet may enter by the managed port of link `l`. */
  predicate EgressOk(l: Link, p: Packet) {
    || DhcpRequest(p)
    || (l.ip == V4(p.srcIp) && l.mac == p.srcMac && !DhcpReply(p))
  }

  ghost predicate Managed(links: set<Link>, p: Packet) {
    exists l :: l in links && (l.name == p.physOut || l.name == p.physIn)
  }

  predicate PassesLink(l: Link, p: Packet) {
    && (l.name == p.physOut ==> IngressOk(p))
    && (l.name == p.physIn ==> EgressOk(l, p))
  }

  ghost predicate Passes(links: set<Link>, p: Packet) {
    forall l :: l in links ==> PassesLink(l, p)
  }

  ghost function PolicyVerdict(links: set<Link>, p: Packet): Verdict {
    if !p.bridged || !Managed(links, p) then Through
    else if Passes(links, p) then Accepted
    else Dropped
  }

  // ---------- tables that realize a list of links, newest first ----------

  /** The end of callisto-sg-chain: the ACCEPT of setup; nothing, after a rollback;
      the source rules of a link `g-chain`, whose add made the chain anew; or
      those rules behind the block of that link, which leads back to the chain. */
  datatype Tail = Accepting | Lost | Sources(link: Link) | Looping(link: Link)

  function TailRules(tail: Tail): seq<Rule> {
    match tail
    case Accepting => [Rule(Any, Accept)]
    case Lost => []
    case Sources(c) => SourceRules(c)
    case Looping(c) => SgBlock(c) + SourceRules(c)
  }

  /** The blocks of `links` in front of the tail. */
  function SgRules(links: seq<Link>, tail: Tail := Accepting): seq<Rule> {
    if links != [] then SgBlock(links[0]) + SgRules(links[1..], tail) else TailRules(tail)
  }

  function ForwardRules(links: seq<Link>): seq<Rule> {
    if links == [] then [] else ForwardBlock(links[0]) + InputBlock(links[0]) + ForwardRules(links[1..])
  }

  predicate Holds(t: Chains, c: string, rules: seq<Rule>) {
    c in t && t[c] == rules
  }

  predicate HasLinkChains(t: Chains, l: Link) {
    && Holds(t, SourceName(l.name), SourceRules(l))
    && Holds(t, OutputName(l.name), OutputRules(l))
    && Holds(t, InputName(l.name), InputRules(l))
  }

  /** The chains through which a packet leaves callisto-FORWARD for a link: its
      own three, or for `g-chain`, whose source chain is callisto-sg-chain, its output chain. */
  predicate HasChains(t: Chains, l: Link) {
    if l.name == "g-chain" then Holds(t, OutputName(l.name), OutputRules(l)) else HasLinkChains(t, l)
  }

  predicate HasTailChains(t: Chains, tail: Tail) {
    match tail
    case Accepting => true
    case Lost => true
    case Sources(c) => c.name == "g-chain"
    case Looping(c) =>
      c.name == "g-chain" && Holds(t, OutputName(c.name), OutputRules(c)) && Holds(t, InputName(c.name), InputRules(c))
  }

  /** What is left of the two shared chains: callisto-sg-chain is gone, and
      callisto-FORWARD empty; or they hold the blocks of these links. */
  datatype Shared = Severed | Linked(sg: seq<Link>, tail: Tail, forward: seq<Link>)

  /** The rules of setup outside the two shared chains. */
  predicate HasBaseRules(t: Chains) {
    && Holds(t, INPUT, [Rule(Any, Jump(CALLISTO_INPUT))])
    && Holds(t, FORWARD, [Rule(Any, Jump(CALLISTO_FORWARD))])
    && Holds(t, CALLISTO_INPUT, [])
    && Holds(t, SG_FALLBACK, [Rule(Any, Drop)])
  }

  /** The shared chains are exactly as `s` says, and each of its links has its
      three chains; the table may hold further chains. */
  ghost predicate Carries(t: Chains, s: Shared) {
    && Closed(t) && HasBaseRules(t)
    && match s
       case Severed => SG !in t && Holds(t, CALLISTO_FORWARD, [])
       case Linked(sg, tail, forward) =>
         && Holds(t, SG, SgRules(sg, tail)) && HasTailChains(t, tail)
         && Holds(t, CALLISTO_FORWARD, ForwardRules(forward))
         && (forall l :: l in sg ==> l.name != "g-chain" && HasLinkChains(t, l))
         && (forall l :: l in forward ==> HasChains(t, l))
  }

  /** Both shared chains hold exactly the blocks of `links`, and the ACCEPT of
      setup is at the end of callisto-sg-chain. */
  ghost predicate Realizes(t: Chains, links: seq<Link>) {
    Carries(t, Linked(links, Accepting, links))
  }

  ghost function ToSet(links: seq<Link>): set<Link> { set l | l in links }

  // ---------- the per-link chains ----------

  lemma EvalFallback(t: Chains, depth: nat, p: Packet)
    requires Holds(t, SG_FALLBACK, [Rule(Any, Drop)])
    ensures Eval(t, depth, t[SG_FALLBACK], p) == Dropped
  {
  }

  lemma EvalSuffixes(t: Chains, depth: nat, rules: seq<Rule>, p: Packet)
    ensures rules[0..] == rules
    ensures forall i :: 0 <= i < |rules| ==> rules[i..] == [rules[i]] + rules[i + 1..]
  {
  }

  lemma EvalSource(t: Chains, depth: nat, l: Link, p: Packet)
    ensures Eval(t, depth, SourceRules(l), p) ==
            if l.ip == V4(p.srcIp) && l.mac == p.srcMac then Through else Dropped
  {
    var rs := SourceRules(l);
    EvalSuffixes(t, depth, rs, p);
    EvalCons(t, depth, rs[0], rs[1..], p);
    EvalCons(t, depth, rs[1], rs[2..], p);
  }

  lemma EvalInputTail(t: Chains, depth: nat, l: Link, p: Packet)
    requires Holds(t, SG_FALLBACK, [Rule(Any, Drop)])
    requires depth >= 1
    ensures Eval(t, depth, InputRules(l)[3..], p) ==
            if p.proto == Icmp || (p.proto == Udp && 1 <= p.dport) then Through else Dropped
  {
    var rs := InputRules(l);
    EvalSuffixes(t, depth, rs, p);
    EvalFallback(t, depth - 1, p);
    EvalCons(t, depth, rs[3], rs[4..], p);
    EvalCons(t, depth, rs[4], rs[5..], p);
    EvalCons(t, depth, rs[5], rs[6..], p);
  }

  lemma EvalInput(t: Chains, depth: nat, l: Link, p: Packet)
    requires Holds(t, SG_FALLBACK, [Rule(Any, Drop)])
    requires depth >= 1
    ensures Eval(t, depth, InputRules(l), p) == if IngressOk(p) then Through else Dropped
  {
    var rs := InputRules(l);
    EvalSuffixes(t, depth, rs, p);
    EvalInputTail(t, depth, l, p);
    EvalCons(t, depth, rs[0], rs[1..], p);
    EvalCons(t, depth, rs[1], rs[2..], p);
    EvalCons(t, depth, rs[2], rs[3..], p);
  }

  /** The output chain of a link in terms of its source chain, whatever that holds. */
  lemma EvalOutputRules(t: Chains, depth: nat, l: Link, p: Packet)
    requires Holds(t, SG_FALLBACK, [Rule(Any, Drop)])
    requires SourceName(l.name) in t
    requires depth >= 1
    ensures Eval(t, depth, OutputRules(l), p) ==
            var v := Eval(t, depth - 1, t[SourceName(l.name)], p);
            if DhcpRequest(p) then Through else if v != Through then v else if DhcpReply(p) then Dropped else Through
  {
    var rs := OutputRules(l);
    EvalSuffixes(t, depth, rs, p);
    EvalCons(t, depth, rs[0], rs[1..], p);
    EvalCons(t, depth, rs[1], rs[2..], p);
    EvalCons(t, depth, rs[2], rs[3..], p);
    EvalCons(t, depth, rs[3], rs[4..], p);
    EvalCons(t, depth, rs[4], rs[5..], p);
    EvalCons(t, depth, rs[5], rs[6..], p);
    EvalCons(t, depth, rs[6], rs[7..], p);
    EvalCons(t, depth, rs[7], rs[8..], p);
  }

  lemma EvalOutput(t: Chains, depth: nat, l: Link, p: Packet)
    requires Holds(t, SG_FALLBACK, [Rule(Any, Drop)])
    requires Holds(t, SourceName(l.name), SourceRules(l))
    requires depth >= 1
    ensures Eval(t, depth, OutputRules(l), p) == if EgressOk(l, p) then Through else Dropped
  {
    EvalSource(t, depth - 1, l, p);
    EvalOutputRules(t, depth, l, p);
  }

  /** The six rules behind the third of an o chain change no verdict, on any table:
      they let every packet through, and so would the end of the chain. */
  lemma {:induction false} OutputTailIsDead(t: Chains, depth: nat, l: Link, p: Packet)
    ensures Eval(t, depth, OutputRules(l), p) == Eval(t, depth, OutputRules(l)[..3], p)
  {
    var rs := OutputRules(l);
    TailLetsThrough(t, depth, l, p);
    assert rs == rs[..3] + rs[3..] && rs[..3] == rs[..3] + [];
    EvalBehind(t, depth, rs[..3], rs[3..], [], p);
  }

  lemma TailLetsThrough(t: Chains, depth: nat, l: Link, p: Packet)
    ensures Eval(t, depth, OutputRules(l)[3..], p) == Through
  {
    var rs := OutputRules(l);
    EvalSuffixes(t, depth, rs, p);
    EvalCons(t, depth, rs[3], rs[4..], p);
    EvalCons(t, depth, rs[4], rs[5..], p);
    EvalCons(t, depth, rs[5], rs[6..], p);
    EvalCons(t, depth, rs[6], rs[7..], p);
    EvalCons(t, depth, rs[7], rs[8..], p);
  }

  /** What lets a packet through alike can be exchanged behind any rules. */
  lemma {:induction false} EvalBehind(t: Chains, depth: nat, front: seq<Rule>, a: seq<Rule>, b: seq<Rule>, p: Packet)
    requires Eval(t, depth, a, p) == Eval(t, depth, b, p) == Through
    ensures Eval(t, depth, front + a, p) == Eval(t, depth, front + b, p)
    decreases |front|
  {
    if front == [] {
      assert front + a == a && front + b == b;
    } else {
      assert (front + a)[0] == front[0] == (front + b)[0];
      assert (front + a)[1..] == front[1..] + a && (front + b)[1..] == front[1..] + b;
      EvalBehind(t, depth, front[1..], a, b, p);
    }
  }

  // ---------- the shared chains ----------

  lemma ToSetCons(links: seq<Link>)
    requires links != []
    ensures ToSet(links) == {links[0]} + ToSet(links[1..])
  {
    assert links == [links[0]] + links[1..];
  }

  /** The two rules of one link in callisto-sg-chain, followed by `rest`. */
  lemma EvalSgBlock(t: Chains, depth: nat, l: Link, rest: seq<Rule>, p: Packet)
    requires Holds(t, SG_FALLBACK, [Rule(Any, Drop)]) && HasLinkChains(t, l)
    requires depth >= 2
    ensures Eval(t, depth, SgBlock(l) + rest, p) ==
            if p.bridged && !PassesLink(l, p) then Dropped else Eval(t, depth, rest, p)
  {
    var b := SgBlock(l);
    assert b + rest == [b[0]] + ([b[1]] + rest);
    EvalInput(t, depth - 1, l, p);
    EvalOutput(t, depth - 1, l, p);
    EvalCons(t, depth, b[0], [b[1]] + rest, p);
    EvalCons(t, depth, b[1], rest, p);
  }

  /** callisto-sg-chain drops a packet that one of its links objects to, and
      otherwise leaves it to its tail. */
  lemma {:induction false} EvalSg(t: Chains, depth: nat, links: seq<Link>, tail: Tail, p: Packet)
    requires Holds(t, SG_FALLBACK, [Rule(Any, Drop)])
    requires forall l :: l in links ==> HasLinkChains(t, l)
    requires depth >= 2
    ensures Eval(t, depth, SgRules(links, tail), p) ==
            if p.bridged && !Passes(ToSet(links), p) then Dropped else Eval(t, depth, TailRules(tail), p)
  {
    if links != [] {
      EvalSg(t, depth, links[1..], tail, p);
      EvalSgBlock(t, depth, links[0], SgRules(links[1..], tail), p);
      ToSetCons(links);
    }
  }

  /** The three rules of one link in callisto-FORWARD.  When callisto-sg-chain
      decides the packet, the last of them, from addINPUTRules, is never reached
      by a packet that it matches. */
  lemma EvalForwardBlock(t: Chains, depth: nat, l: Link, rest: seq<Rule>, p: Packet)
    requires depth >= 1 && SG in t && (p.bridged ==> Eval(t, depth - 1, t[SG], p) != Through)
    ensures Eval(t, depth, ForwardBlock(l) + InputBlock(l) + rest, p) ==
            if p.bridged && (l.name == p.physOut || l.name == p.physIn) then Eval(t, depth - 1, t[SG], p)
            else Eval(t, depth, rest, p)
  {
    var b, r := ForwardBlock(l), InputBlock(l)[0];
    EvalPrunedBlock(t, depth, l, [r] + rest, p);
    assert b + InputBlock(l) + rest == b + ([r] + rest);
    EvalCons(t, depth, r, rest, p);
  }

  lemma EvalPrunedBlock(t: Chains, depth: nat, l: Link, rest: seq<Rule>, p: Packet)
    requires depth >= 1 && SG in t && (p.bridged ==> Eval(t, depth - 1, t[SG], p) != Through)
    ensures Eval(t, depth, ForwardBlock(l) + rest, p) ==
            if p.bridged && (l.name == p.physOut || l.name == p.physIn) then Eval(t, depth - 1, t[SG], p)
            else Eval(t, depth, rest, p)
  {
    var b := ForwardBlock(l);
    assert b + rest == [b[0]] + ([b[1]] + rest);
    EvalCons(t, depth, b[0], [b[1]] + rest, p);
    EvalCons(t, depth, b[1], rest, p);
  }

  lemma {:induction false} EvalForward(t: Chains, depth: nat, links: seq<Link>, p: Packet)
    requires depth >= 1 && SG in t && (p.bridged ==> Eval(t, depth - 1, t[SG], p) != Through)
    ensures Eval(t, depth, ForwardRules(links), p) ==
            if p.bridged && Managed(ToSet(links), p) then Eval(t, depth - 1, t[SG], p) else Through
  {
    if links != [] {
      EvalForward(t, depth, links[1..], p);
      EvalForwardBlock(t, depth, links[0], ForwardRules(links[1..]), p);
      ToSetCons(links);
    }
  }

  /** What the output chain of a link lets out, when callisto-sg-chain decides
      nothing: for `g-chain` the addresses are not asked for. */
  predicate Leaves(l: Link, p: Packet) {
    if l.name == "g-chain" then !DhcpReply(p) else EgressOk(l, p)
  }

  /** What the rules of addINPUTRules decide when callisto-sg-chain does not. */
  ghost function InputRulesVerdict(links: set<Link>, p: Packet): Verdict {
    if p.bridged && exists l :: l in links && l.name == p.physIn && !Leaves(l, p) then Dropped else Through
  }

  predicate NoChainLink(links: seq<Link>) {
    forall l | l in links :: l.name != "g-chain"
  }

  lemma EvalLeaving(t: Chains, depth: nat, l: Link, p: Packet)
    requires depth >= 1 && Holds(t, SG_FALLBACK, [Rule(Any, Drop)]) && HasChains(t, l)
    requires l.name == "g-chain" ==> SG in t && Eval(t, depth - 1, t[SG], p) == Through
    ensures Eval(t, depth, OutputRules(l), p) == if Leaves(l, p) then Through else Dropped
  {
    GeneratedNameIsFixed(SOURCE_PREFIX, l.name);
    if l.name == "g-chain" {
      EvalOutputRules(t, depth, l, p);
    } else {
      EvalOutput(t, depth, l, p);
    }
  }

  /** The three rules of a link in callisto-FORWARD, when callisto-sg-chain does not decide the packet. */
  lemma {:induction false} EvalUndecidedBlock(t: Chains, depth: nat, l: Link, rest: seq<Rule>, p: Packet)
    requires depth >= 1 && SG in t && Eval(t, depth - 1, t[SG], p) == Through
    requires Holds(t, OutputName(l.name), OutputRules(l))
    requires Eval(t, depth - 1, OutputRules(l), p) == if Leaves(l, p) then Through else Dropped
    ensures Eval(t, depth, ForwardBlock(l) + InputBlock(l) + rest, p) ==
            if p.bridged && l.name == p.physIn && !Leaves(l, p) then Dropped else Eval(t, depth, rest, p)
  {
    var b, r := ForwardBlock(l), InputBlock(l)[0];
    assert b + InputBlock(l) + rest == [b[0]] + ([b[1]] + ([r] + rest));
    EvalCons(t, depth, b[0], [b[1]] + ([r] + rest), p);
    EvalCons(t, depth, b[1], [r] + rest, p);
    EvalCons(t, depth, r, rest, p);
  }

  /** When callisto-sg-chain does not decide the packet, the rules of addINPUTRules are live. */
  lemma {:induction false} EvalForwardUndecided(t: Chains, depth: nat, links: seq<Link>, p: Packet)
    requires depth >= 2 && SG in t && Eval(t, depth - 1, t[SG], p) == Through
    requires NoChainLink(links) || Eval(t, depth - 2, t[SG], p) == Through
    requires Holds(t, SG_FALLBACK, [Rule(Any, Drop)])
    requires forall l :: l in links ==> HasChains(t, l)
    ensures Eval(t, depth, ForwardRules(links), p) == InputRulesVerdict(ToSet(links), p)
  {
    if links != [] {
      var l := links[0];
      EvalForwardUndecided(t, depth, links[1..], p);
      assert HasChains(t, l);
      EvalLeaving(t, depth - 1, l, p);
      EvalUndecidedBlock(t, depth, l, ForwardRules(links[1..]), p);
      ToSetCons(links);
    }
  }

  lemma EvalBuiltin(t: Chains, depth: nat, p: Packet)
    requires Holds(t, FORWARD, [Rule(Any, Jump(CALLISTO_FORWARD))]) && CALLISTO_FORWARD in t
    requires depth >= 1
    ensures Decide(t, depth, FORWARD, p) == Decide(t, depth - 1, CALLISTO_FORWARD, p)
  {
    var r := Rule(Any, Jump(CALLISTO_FORWARD));
    assert t[FORWARD] == [r] + [];
    EvalCons(t, depth, r, [], p);
  }

  /** Policy equivalence: a table that realizes `links` decides every packet,
      from callisto-FORWARD and from FORWARD, as the policy for the set of links. */
  lemma TableImplementsPolicy(t: Chains, links: seq<Link>, depth: nat, p: Packet)
    requires Realizes(t, links)
    requires depth >= 4
    ensures Decide(t, depth - 1, CALLISTO_FORWARD, p) == PolicyVerdict(ToSet(links), p)
    ensures Decide(t, depth, FORWARD, p) == PolicyVerdict(ToSet(links), p)
  {
    EvalSg(t, depth - 2, links, Accepting, p);
    EvalForward(t, depth - 1, links, p);
    EvalBuiltin(t, depth, p);
  }

  // ---------- dead rules ----------

  /** `rules` without the rules of addINPUTRules: those that jump elsewhere than callisto-sg-chain. */
  function Prune(rules: seq<Rule>): seq<Rule> {
    if rules == [] then []
    else (if rules[0].target == Jump(SG) then [rules[0]] else []) + Prune(rules[1..])
  }

  lemma PruneBlock(l: Link, rest: seq<Rule>)
    ensures Prune(ForwardBlock(l) + InputBlock(l) + rest) == ForwardBlock(l) + Prune(rest)
  {
    var b, r := ForwardBlock(l), InputBlock(l)[0];
    GeneratedNameIsFixed(OUTPUT_PREFIX, l.name);
    assert r.target != Jump(SG) by { assert SG in FIXED; }
    var rs := b + InputBlock(l) + rest;
    assert rs[1..] == [b[1]] + ([r] + rest) && rs[1..][1..] == [r] + rest && ([r] + rest)[1..] == rest;
    assert Prune([r] + rest) == Prune(rest);
    assert Prune(rs[1..]) == [b[1]] + Prune([r] + rest);
  }

  lemma {:induction false} PruneForward(t: Chains, depth: nat, links: seq<Link>, p: Packet)
    requires depth >= 1 && SG in t && (p.bridged ==> Eval(t, depth - 1, t[SG], p) != Through)
    ensures Eval(t, depth, Prune(ForwardRules(links)), p) == Eval(t, depth, ForwardRules(links), p)
  {
    if links != [] {
      var l, rest := links[0], ForwardRules(links[1..]);
      PruneBlock(l, rest);
      PruneForward(t, depth, links[1..], p);
      EvalForwardBlock(t, depth, l, rest, p);
      EvalPrunedBlock(t, depth, l, Prune(rest), p);
    }
  }

  /** Dead-rule elimination: dropping every rule that addINPUTRules inserted
      changes no verdict. */
  lemma InputRulesAreDead(t: Chains, links: seq<Link>, depth: nat, p: Packet)
    requires Realizes(t, links)
    requires depth >= 4
    ensures var t' := t[CALLISTO_FORWARD := Prune(t[CALLISTO_FORWARD])];
            && Decide(t', depth - 1, CALLISTO_FORWARD, p) == Decide(t, depth - 1, CALLISTO_FORWARD, p)
            && Decide(t', depth, FORWARD, p) == Decide(t, depth, FORWARD, p)
  {
    var t' := t[CALLISTO_FORWARD := Prune(t[CALLISTO_FORWARD])];
    forall l | l in links ensures HasLinkChains(t', l) {
      GeneratedNameIsFixed(SOURCE_PREFIX, l.name);
      GeneratedNameIsFixed(OUTPUT_PREFIX, l.name);
      GeneratedNameIsFixed(INPUT_PREFIX, l.name);
      assert CALLISTO_FORWARD in FIXED;
    }
    EvalSg(t', depth - 2, links, Accepting, p);
    PruneForward(t', depth - 1, links, p);
    EvalForward(t', depth - 1, links, p);
    TableImplementsPolicy(t, links, depth, p);
    EvalBuiltin(t', depth, p);
  }

  // ---------- properties of the policy ----------

  /** Frame: a new link changes nothing for packets that neither enter nor leave by it. */
  lemma PolicyFrame(links: set<Link>, l: Link, p: Packet)
    requires p.physIn != l.name && p.physOut != l.name
    ensures PolicyVerdict(links + {l}, p) == PolicyVerdict(links, p)
  {
    assert Managed(links + {l}, p) == Managed(links, p);
    assert Passes(links + {l}, p) == Passes(links, p);
  }

  /** Monotonicity: a new link never lets through what was dropped. */
  lemma PolicyMonotone(links: set<Link>, l: Link, p: Packet)
    ensures PolicyVerdict(links, p) == Dropped ==> PolicyVerdict(links + {l}, p) == Dropped
  {
    assert Passes(links + {l}, p) ==> Passes(links, p);
    assert Managed(links, p) ==> Managed(links + {l}, p);
  }
}

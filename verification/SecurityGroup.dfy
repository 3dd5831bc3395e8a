/** What the security-group functions of iptables.go do to the filter table,
    stated on values.  `Firewall.dfy` proves the methods against this. */
module SecurityGroup {
  import opened Basics
  import opened Rules
  import opened ChainNames

  /** `faults(n)`: the environment refuses the n-th NewChain, Insert or AppendUnique. */
  type Faults = nat -> bool

  /** The filter table and the number of refusable client calls made so far. */
  datatype State = State(chains: Chains, calls: nat)

  datatype Outcome = Outcome(state: State, ok: bool)

  datatype Link = Link(name: string, ip: Ip, mac: seq<Octet>)

  const NO_FAULTS: Faults := (n: nat) => false

  // ---------- the client ----------

  /** What the client demands of a rule: its jump target exists, its source
      address is IPv4 and its MAC address has six octets. */
  predicate Insertable(names: set<string>, r: Rule) {
    && (r.target.Jump? ==> r.target.chain in names)
    && (r.cond.Source? ==> r.cond.ip.V4? && |r.cond.mac| == 6)
  }

  predicate Referenced(t: Chains, name: string) {
    exists c | c in t :: exists r | r in t[c] :: r.target == Jump(name)
  }

  function NewChain(faults: Faults, s: State, name: string): Outcome {
    if faults(s.calls) || name in s.chains then Outcome(State(s.chains, s.calls + 1), false)
    else Outcome(State(s.chains[name := []], s.calls + 1), true)
  }

  function AppendUnique(faults: Faults, s: State, chain: string, r: Rule): Outcome {
    if faults(s.calls) || chain !in s.chains || !Insertable(s.chains.Keys, r) then
      Outcome(State(s.chains, s.calls + 1), false)
    else
      Outcome(State(if r in s.chains[chain] then s.chains
                    else s.chains[chain := s.chains[chain] + [r]], s.calls + 1), true)
  }

  /** ClearChain then DeleteChain, whatever they answer: the chain is gone,
      unless another chain still jumps to it; then it stays, without rules. */
  function Discard(t: Chains, chain: string): Chains {
    if Referenced(t - {chain}, chain) then t[chain := []] else t - {chain}
  }

  // ---------- one block of positional inserts, with its rollback ----------

  /** The client refuses rule `r` in the k-th Insert of a block that starts in `s`. */
  predicate Refused(faults: Faults, s: State, chain: string, r: Rule, k: nat) {
    faults(s.calls + k) || chain !in s.chains || !Insertable(s.chains.Keys, r)
  }

  /** The index of the first rule from the k-th on that is refused, or `|rules|`. */
  function Taken(faults: Faults, s: State, chain: string, rules: seq<Rule>, k: nat := 0): (n: nat)
    requires k <= |rules|
    ensures k <= n <= |rules|
    ensures forall j :: k <= j < n ==> !Refused(faults, s, chain, rules[j], j)
    ensures n < |rules| ==> Refused(faults, s, chain, rules[n], n)
    decreases |rules| - k
  {
    if k == |rules| || Refused(faults, s, chain, rules[k], k) then k
    else Taken(faults, s, chain, rules, k + 1)
  }

  /** A block either puts all its rules, in order, in front of the chain, or
      takes the whole chain down. */
  function Install(faults: Faults, s: State, chain: string, rules: seq<Rule>): Outcome {
    var k := Taken(faults, s, chain, rules);
    if k < |rules| then Outcome(State(Discard(s.chains, chain), s.calls + k + 1), false)
    else if rules == [] then Outcome(s, true)
    else Outcome(State(s.chains[chain := rules + s.chains[chain]], s.calls + k), true)
  }

  // ---------- setupDefaultSecurityGroup ----------

  datatype SetupFunction = SetupSGFallbackChain | SetupSGChain | SetupINPUT | SetupFORWARD

  const SETUP_FUNCTIONS := [SetupSGFallbackChain, SetupSGChain, SetupINPUT, SetupFORWARD]

  function SetupChainName(f: SetupFunction): string {
    match f
    case SetupSGFallbackChain => SG_FALLBACK
    case SetupSGChain => SG
    case SetupINPUT => CALLISTO_INPUT
    case SetupFORWARD => CALLISTO_FORWARD
  }

  /** The chain that gets the rule of a setup function, and the rule. */
  function SetupRule(f: SetupFunction): (string, Rule) {
    match f
    case SetupSGFallbackChain => (SG_FALLBACK, Rule(Any, Drop))
    case SetupSGChain => (SG, Rule(Any, Accept))
    case SetupINPUT => (INPUT, Rule(Any, Jump(CALLISTO_INPUT)))
    case SetupFORWARD => (FORWARD, Rule(Any, Jump(CALLISTO_FORWARD)))
  }

  function SetupStep(faults: Faults, s: State, f: SetupFunction): Outcome {
    var o := NewChain(faults, s, SetupChainName(f));
    if !o.ok then o else AppendUnique(faults, o.state, SetupRule(f).0, SetupRule(f).1)
  }

  function SetupFrom(faults: Faults, s: State, i: nat): Outcome
    requires i <= |SETUP_FUNCTIONS|
    decreases |SETUP_FUNCTIONS| - i, s  // `s` keeps a literal `i` from being unrolled
  {
    if i == |SETUP_FUNCTIONS| then Outcome(s, true)
    else
      var o := SetupStep(faults, s, SETUP_FUNCTIONS[i]);
      if o.ok then SetupFrom(faults, o.state, i + 1) else o
  }

  function Setup(faults: Faults, s: State): Outcome { SetupFrom(faults, s, 0) }

  // ---------- addSecurityGroup ----------

  datatype AddFunction =
    AddSOURCESGRules | AddOUTPUTSGRules | AddINPUTSGRules | AddSGRules | AddINPUTRules | AddFORWARDRules

  const ADD_FUNCTIONS :=
    [AddSOURCESGRules, AddOUTPUTSGRules, AddINPUTSGRules, AddSGRules, AddINPUTRules, AddFORWARDRules]

  function SourceRules(l: Link): seq<Rule> {
    [Rule(Source(l.ip, l.mac), Return), Rule(Any, Drop)]
  }

  function InputRules(l: Link): seq<Rule> {
    [ Rule(KnownSession, Return),
      Rule(UdpExact(67, 68), Return),
      Rule(AnyPort(Tcp), Return),
      Rule(AnyPort(Udp), Return),
      Rule(IcmpOnly, Return),
      Rule(Any, Jump(SG_FALLBACK)) ]
  }

  function OutputRules(l: Link): seq<Rule> {
    [ Rule(UdpExact(68, 67), Return),
      Rule(Any, Jump(SourceName(l.name))),
      Rule(UdpExact(67, 68), Drop),
      Rule(KnownSession, Return),
      Rule(AnyPort(Tcp), Return),
      Rule(AnyPort(Udp), Return),
      Rule(IcmpOnly, Return),
      Rule(Any, Return),
      Rule(Any, Jump(SG_FALLBACK)) ]
  }

  function SgBlock(l: Link): seq<Rule> {
    [Rule(PhysOut(l.name), Jump(InputName(l.name))), Rule(PhysIn(l.name), Jump(OutputName(l.name)))]
  }

  /** addINPUTRules: despite its name, these rules go to callisto-FORWARD. */
  function InputBlock(l: Link): seq<Rule> {
    [Rule(PhysIn(l.name), Jump(OutputName(l.name)))]
  }

  function ForwardBlock(l: Link): seq<Rule> {
    [Rule(PhysOut(l.name), Jump(SG)), Rule(PhysIn(l.name), Jump(SG))]
  }

  function ChainOf(f: AddFunction, l: Link): string {
    match f
    case AddSOURCESGRules => SourceName(l.name)
    case AddOUTPUTSGRules => OutputName(l.name)
    case AddINPUTSGRules => InputName(l.name)
    case AddSGRules => SG
    case AddINPUTRules => CALLISTO_FORWARD
    case AddFORWARDRules => CALLISTO_FORWARD
  }

  function RulesOf(f: AddFunction, l: Link): seq<Rule> {
    match f
    case AddSOURCESGRules => SourceRules(l)
    case AddOUTPUTSGRules => OutputRules(l)
    case AddINPUTSGRules => InputRules(l)
    case AddSGRules => SgBlock(l)
    case AddINPUTRules => InputBlock(l)
    case AddFORWARDRules => ForwardBlock(l)
  }

  predicate MakesChain(f: AddFunction) {
    f.AddSOURCESGRules? || f.AddOUTPUTSGRules? || f.AddINPUTSGRules?
  }

  function AddStep(faults: Faults, s: State, f: AddFunction, l: Link): Outcome {
    if MakesChain(f) then
      var o := NewChain(faults, s, ChainOf(f, l));
      if !o.ok then o else Install(faults, o.state, ChainOf(f, l), RulesOf(f, l))
    else
      Install(faults, s, ChainOf(f, l), RulesOf(f, l))
  }

  /** The state an addSecurityGroup call ends in, and how many of its six functions succeeded. */
  datatype Progress = Progress(state: State, done: nat)

  function AddFrom(faults: Faults, s: State, l: Link, i: nat): (r: Progress)
    requires i <= |ADD_FUNCTIONS|
    ensures i <= r.done <= |ADD_FUNCTIONS|
    decreases |ADD_FUNCTIONS| - i, l  // `l` keeps a literal `i` from being unrolled
  {
    if i == |ADD_FUNCTIONS| then Progress(s, i)
    else
      var o := AddStep(faults, s, ADD_FUNCTIONS[i], l);
      if o.ok then AddFrom(faults, o.state, l, i + 1) else Progress(o.state, i)
  }

  function Add(faults: Faults, s: State, l: Link): (r: Progress)
    ensures r.done <= |ADD_FUNCTIONS|
  {
    AddFrom(faults, s, l, 0)
  }

  // ---------- runs ----------

  datatype Call = CallSetup | CallAdd(link: Link)

  function Step(faults: Faults, s: State, call: Call): State {
    match call
    case CallSetup => Setup(faults, s).state
    case CallAdd(l) => Add(faults, s, l).state
  }

  /** The state after a list of calls, each of which may have failed. */
  function Run(faults: Faults, s: State, calls: seq<Call>): State
    decreases |calls|
  {
    if calls == [] then s else Run(faults, Step(faults, s, calls[0]), calls[1..])
  }

  /** A host before the first call: the two built-in chains, without rules. */
  const INITIAL := State(map[INPUT := [], FORWARD := []], 0)
}

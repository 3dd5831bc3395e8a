/** Packets, rules and the traversal of the filter table.  A table maps a chain
    name to its rules; a packet walks a chain from the top, jumps into other
    chains, and comes back on RETURN or at the end of a chain. */
module Rules {
  import opened Basics

  type Port = n: int | 0 <= n < 65536
  type Word = n: int | 0 <= n < 0x1_0000_0000

  /** An address as `net.ParseIP` yields it: one with a four-octet form, or not. */
  datatype Ip = V4(addr: Word) | V6(addr6: nat)

  datatype Protocol = Tcp | Udp | Icmp | OtherProtocol
  datatype ConnState = New | Established | Related | Invalid

  /** What the rules can observe of an IPv4 packet.  `physIn` and `physOut` are
      the bridge ports it enters and leaves by. */
  datatype Packet = Packet(
    bridged: bool, physIn: string, physOut: string,
    srcIp: Word, srcMac: seq<Octet>,
    proto: Protocol, sport: Port, dport: Port, state: ConnState)

  datatype Match =
    | Any
    | Source(ip: Ip, mac: seq<Octet>)             // -s IP/32 -m mac --mac-source MAC
    | KnownSession                                // -m state --state RELATED,ESTABLISHED
    | UdpExact(sport: Port, dport: Port)          // -p udp --sport S --dport D
    | AnyPort(proto: Protocol)                    // -p PROTO -m multiport --dports 1:65535
    | IcmpOnly                                    // -p icmp
    | PhysOut(name: string)                       // --physdev-out NAME --physdev-is-bridged
    | PhysIn(name: string)                        // --physdev-in NAME --physdev-is-bridged

  datatype Target = Accept | Drop | Return | Jump(chain: string)

  datatype Rule = Rule(cond: Match, target: Target)

  type Chains = map<string, seq<Rule>>

  predicate Matches(m: Match, p: Packet) {
    match m
    case Any => true
    case Source(ip, mac) => ip == V4(p.srcIp) && mac == p.srcMac
    case KnownSession => p.state == Established || p.state == Related
    case UdpExact(s, d) => p.proto == Udp && p.sport == s && p.dport == d
    case AnyPort(proto) => p.proto == proto && 1 <= p.dport
    case IcmpOnly => p.proto == Icmp
    case PhysOut(name) => p.bridged && p.physOut == name
    case PhysIn(name) => p.bridged && p.physIn == name
  }

  /** `Through`: the chain ended or a RETURN was met, so the caller goes on.
      `Stuck`: a jump to a missing chain, or more nested jumps than `depth`. */
  datatype Verdict = Accepted | Dropped | Through | Stuck

  function Eval(t: Chains, depth: nat, rules: seq<Rule>, p: Packet): Verdict
    decreases depth, |rules|
  {
    if rules == [] then Through
    else if !Matches(rules[0].cond, p) then Eval(t, depth, rules[1..], p)
    else match rules[0].target
      case Accept => Accepted
      case Drop => Dropped
      case Return => Through
      case Jump(c) =>
        if depth == 0 || c !in t then Stuck
        else
          var v := Eval(t, depth - 1, t[c], p);
          if v == Through then Eval(t, depth, rules[1..], p) else v
  }

  /** What the table decides for a packet handed to chain `c`, with room for `depth` nested jumps. */
  function Decide(t: Chains, depth: nat, c: string, p: Packet): Verdict {
    if c in t then Eval(t, depth, t[c], p) else Stuck
  }

  /** Every jump has a target: the table never sends a packet to a missing chain. */
  ghost predicate JumpsInto(names: set<string>, rules: seq<Rule>) {
    forall r :: r in rules && r.target.Jump? ==> r.target.chain in names
  }

  ghost predicate Closed(t: Chains) {
    forall c :: c in t ==> JumpsInto(t.Keys, t[c])
  }

  /** One rule of a longer list: the traversal of `[r] + rest` in terms of `rest`. */
  lemma EvalCons(t: Chains, depth: nat, r: Rule, rest: seq<Rule>, p: Packet)
    ensures !Matches(r.cond, p) ==> Eval(t, depth, [r] + rest, p) == Eval(t, depth, rest, p)
    ensures Matches(r.cond, p) && r.target.Accept? ==> Eval(t, depth, [r] + rest, p) == Accepted
    ensures Matches(r.cond, p) && r.target.Drop? ==> Eval(t, depth, [r] + rest, p) == Dropped
    ensures Matches(r.cond, p) && r.target.Return? ==> Eval(t, depth, [r] + rest, p) == Through
    ensures Matches(r.cond, p) && r.target.Jump? && depth > 0 && r.target.chain in t ==>
              Eval(t, depth, [r] + rest, p) ==
              var v := Eval(t, depth - 1, t[r.target.chain], p);
              if v == Through then Eval(t, depth, rest, p) else v
  {
    assert ([r] + rest)[0] == r && ([r] + rest)[1..] == rest;
  }

  /** Chains that nobody in `t` jumps to are invisible: a table that agrees with
      the closed table `t` on every chain of `t` decides every packet alike. */
  lemma {:induction false} EvalFrame(t: Chains, t': Chains, depth: nat, rules: seq<Rule>, p: Packet)
    requires Closed(t) && JumpsInto(t.Keys, rules)
    requires forall c :: c in t ==> c in t' && t'[c] == t[c]
    ensures Eval(t', depth, rules, p) == Eval(t, depth, rules, p)
    decreases depth, |rules|
  {
    if rules != [] {
      EvalFrame(t, t', depth, rules[1..], p);
      var target := rules[0].target;
      assert rules[0] in rules;
      if target.Jump? && depth > 0 {
        EvalFrame(t, t', depth - 1, t[target.chain], p);
      }
    }
  }
}

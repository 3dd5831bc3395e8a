/** The chain names of iptables.go: six fixed ones and three per link, cut to 29 characters. */
module ChainNames {

  const MAX_CHAIN_NAME_LENGTH := 29

  const INPUT := "INPUT"
  const FORWARD := "FORWARD"
  const SG_FALLBACK := "callisto-sg-fallback"
  const SG := "callisto-sg-chain"
  const CALLISTO_INPUT := "callisto-INPUT"
  const CALLISTO_FORWARD := "callisto-FORWARD"
  const INPUT_PREFIX := "callisto-i"
  const OUTPUT_PREFIX := "callisto-o"
  const SOURCE_PREFIX := "callisto-s"

  const FIXED := {INPUT, FORWARD, SG_FALLBACK, SG, CALLISTO_INPUT, CALLISTO_FORWARD}
  const PREFIXES := {INPUT_PREFIX, OUTPUT_PREFIX, SOURCE_PREFIX}

  function ValidChainName(prefix: string, val: string): string {
    var tmp := prefix + val;
    if |tmp| > MAX_CHAIN_NAME_LENGTH then tmp[..MAX_CHAIN_NAME_LENGTH] else tmp
  }

  function InputName(intf: string): string { ValidChainName(INPUT_PREFIX, intf) }
  function OutputName(intf: string): string { ValidChainName(OUTPUT_PREFIX, intf) }
  function SourceName(intf: string): string { ValidChainName(SOURCE_PREFIX, intf) }

  /** The part of an interface name that survives the cut behind a ten-character prefix. */
  function Stem(intf: string): string {
    if |intf| > 19 then intf[..19] else intf
  }

  /** The interface names whose source chain is one of the fixed chains. */
  predicate Reserved(intf: string) {
    intf == "g-chain" || intf == "g-fallback"
  }

  lemma NameShape(prefix: string, val: string)
    requires |prefix| == 10
    ensures ValidChainName(prefix, val) == prefix + Stem(val)
    ensures |ValidChainName(prefix, val)| <= MAX_CHAIN_NAME_LENGTH
    ensures ValidChainName(prefix, val)[..10] == prefix
    ensures ValidChainName(prefix, val)[10..] == Stem(val)
  {
    if |val| > 19 {
      assert (prefix + val)[..29] == prefix + val[..19];
    }
  }

  /** Two generated names coincide exactly when both the prefix and the first 19
      characters of the interface names coincide; so one prefix is injective on
      names of up to 19 characters, and different prefixes never meet. */
  lemma GeneratedNamesCoincide(p1: string, v1: string, p2: string, v2: string)
    requires p1 in PREFIXES && p2 in PREFIXES
    ensures ValidChainName(p1, v1) == ValidChainName(p2, v2) <==> p1 == p2 && Stem(v1) == Stem(v2)
    ensures |v1| <= 19 && |v2| <= 19 ==>
              (ValidChainName(p1, v1) == ValidChainName(p2, v2) <==> p1 == p2 && v1 == v2)
    ensures |ValidChainName(p1, v1)| <= MAX_CHAIN_NAME_LENGTH
  {
    NameShape(p1, v1);
    NameShape(p2, v2);
  }

  /** A generated name is a fixed chain name for exactly two inputs. */
  lemma GeneratedNameIsFixed(prefix: string, intf: string)
    requires prefix in PREFIXES
    ensures ValidChainName(prefix, intf) in FIXED <==> prefix == SOURCE_PREFIX && Reserved(intf)
    ensures prefix == SOURCE_PREFIX ==>
              && (ValidChainName(prefix, intf) == SG <==> intf == "g-chain")
              && (ValidChainName(prefix, intf) == SG_FALLBACK <==> intf == "g-fallback")
  {
    var name := ValidChainName(prefix, intf);
    NameShape(prefix, intf);
    assert name[9] == prefix[9] && name[10..] == Stem(intf);
    assert SG[10..] == "g-chain" && SG_FALLBACK[10..] == "g-fallback";
    assert SG == SOURCE_PREFIX + "g-chain" && SG_FALLBACK == SOURCE_PREFIX + "g-fallback";
    assert CALLISTO_INPUT[9] == 'I' && CALLISTO_FORWARD[9] == 'F' && |INPUT| < 10 && |FORWARD| < 10;
  }

  /** Output and input chains are never fixed chains. */
  lemma MadeNamesAreNotFixed(intf: string)
    ensures OutputName(intf) !in FIXED && InputName(intf) !in FIXED
  {
    GeneratedNameIsFixed(OUTPUT_PREFIX, intf);
    GeneratedNameIsFixed(INPUT_PREFIX, intf);
  }
}

/** The cpulist text of a NUMA node and the node it stands for, on values.

    A text has one list of physical core ids, or a list of physical and one of
    logical ids separated by a comma, such as `0-23,48-71`.  Each list is a range,
    two numbers with a hyphen between them, or a single number; white space around a
    list is allowed, further pieces behind a second hyphen are ignored, and a range
    whose end is below its start is empty.  Two lists must have the same length.

    The functions of Go's standard library that the parser calls are written out:
    `strings.TrimSpace` with the white space of Unicode, `strings.Split` for a
    separator of one character, `strconv.ParseInt` for base 10 and 32 bits, which
    accepts a sign, and the conversion from int64 to uint32, which keeps the low
    32 bits.  A string is a sequence of characters here, not of bytes.

    A node is what a reader of the message finds when the pointers in it are
    followed; the pointers themselves are in `NumaNodes.dfy`. */
module CpuList {
  import opened Basics
  import opened Decimal

  const MAX_UINT32 := 0xFFFF_FFFF

  type Uint32 = n: int | 0 <= n <= MAX_UINT32

  datatype ParseError = InvalidNumaTopology | InvalidCpuList | BadNumber

  datatype Result<+T> = Ok(value: T) | Err(error: ParseError)

  // ---------- the strings and strconv functions ----------

  /** `unicode.IsSpace`. */
  predicate IsSpace(c: char) {
    var n := c as int;
    9 <= n <= 13 || n in {32, 0x85, 0xA0, 0x1680, 0x2028, 0x2029, 0x202F, 0x205F, 0x3000} || 0x2000 <= n <= 0x200A
  }

  predicate AllSpace(s: string) { forall i | 0 <= i < |s| :: IsSpace(s[i]) }

  function TrimLeft(s: string): string {
    if s != [] && IsSpace(s[0]) then TrimLeft(s[1..]) else s
  }

  function TrimRight(s: string): string {
    if s != [] && IsSpace(s[|s| - 1]) then TrimRight(s[..|s| - 1]) else s
  }

  function TrimSpace(s: string): string { TrimRight(TrimLeft(s)) }

  function Split(s: string, sep: char): (pieces: seq<string>)
    ensures pieces != []
  {
    if s == [] then [[]]
    else
      var rest := Split(s[1..], sep);
      if s[0] == sep then [[]] + rest else [[s[0]] + rest[0]] + rest[1..]
  }

  /** `strconv.ParseInt(s, 10, 32)`. */
  function ParseInt32(s: string): (r: Option<int>)
    ensures r.Some? ==> -0x8000_0000 <= r.value < 0x8000_0000
    ensures r.Some? && '-' !in s ==> 0 <= r.value
  {
    var signed := s != [] && (s[0] == '+' || s[0] == '-');
    var digits := if signed then s[1..] else s;
    if digits == [] || !AllDigits(digits) then None
    else
      var n := if signed && s[0] == '-' then -(Value(digits) as int) else Value(digits);
      if -0x8000_0000 <= n < 0x8000_0000 then Some(n) else None
  }

  /** The conversion of Go: the low 32 bits. */
  function ToUint32(n: int): Uint32 { if 0 <= n <= MAX_UINT32 then n else n % 0x1_0000_0000 }

  // ---------- cpu.go ----------

  /** The consecutive ids from `start` to `end`, each converted to 32 bits. */
  function Range(start: int, end: int): (r: seq<Uint32>)
    ensures |r| == if start <= end then end - start + 1 else 0
    ensures forall i :: 0 <= i < |r| ==> r[i] == ToUint32(start + i)
    decreases end - start + 1
  {
    if start > end then [] else Range(start, end - 1) + [ToUint32(end)]
  }

  /** The two ends of a range, or one number as both ends; further pieces are ignored. */
  function CoreBounds(s: string): Option<(int, int)> {
    var t := TrimSpace(s);
    var num := Split(t, '-');
    if |num| < 2 then
      var n := ParseInt32(t);
      if n.None? then None else Some((n.value, n.value))
    else
      var start := ParseInt32(num[0]);
      var end := ParseInt32(num[1]);
      if start.None? || end.None? then None else Some((start.value, end.value))
  }

  function ExtractCoreID(s: string): Option<seq<Uint32>> {
    var bounds := CoreBounds(s);
    if bounds.None? then None else Some(Range(bounds.value.0, bounds.value.1))
  }

  /** A node as a reader of the message sees it, with the pointers followed. */
  datatype NodeValue = NodeValue(
    pairs: seq<(Uint32, Option<Uint32>)>,
    physicalMin: Uint32, physicalMax: Uint32,
    logicalMin: Option<Uint32>, logicalMax: Option<Uint32>)

  /** The least element, or MaxUint32 for an empty list. */
  function MinOf(list: seq<Uint32>): (m: Uint32)
    ensures forall x :: x in list ==> m <= x
    ensures if list == [] then m == MAX_UINT32 else m in list
  {
    if list == [] then MAX_UINT32
    else
      var rest := MinOf(list[..|list| - 1]);
      var x := list[|list| - 1];
      assert list == list[..|list| - 1] + [x];
      if x < rest || |list| == 1 then x else rest
  }

  /** The greatest element, or 0 for an empty list. */
  function MaxOf(list: seq<Uint32>): (m: Uint32)
    ensures forall x :: x in list ==> x <= m
    ensures if list == [] then m == 0 else m in list
  {
    if list == [] then 0
    else
      var rest := MaxOf(list[..|list| - 1]);
      var x := list[|list| - 1];
      assert list == list[..|list| - 1] + [x];
      if x > rest || |list| == 1 then x else rest
  }

  /** What one cell, overwritten in each round of a loop over `list`, holds at the end. */
  function LastOr(list: seq<Uint32>, empty: Uint32): Uint32 {
    if list == [] then empty else list[|list| - 1]
  }

  function OneList(physical: seq<Uint32>): NodeValue {
    NodeValue(seq(|physical|, (i: nat) requires i < |physical| => (physical[i], None)),
              MinOf(physical), MaxOf(physical), None, None)
  }

  /** A node of two lists: the logical bounds read the cell of the loop variable. */
  function TwoLists(physical: seq<Uint32>, logical: seq<Uint32>): NodeValue
    requires |physical| == |logical|
  {
    NodeValue(seq(|physical|, (i: nat) requires i < |physical| => (physical[i], Some(logical[i]))),
              MinOf(physical), MaxOf(physical),
              Some(LastOr(logical, MAX_UINT32)), Some(LastOr(logical, 0)))
  }

  function OneNode(list: Option<seq<Uint32>>): Result<NodeValue> {
    if list.None? then Err(BadNumber) else Ok(OneList(list.value))
  }

  function TwoNodes(list1: Option<seq<Uint32>>, list2: Option<seq<Uint32>>): Result<NodeValue> {
    if list1.None? || list2.None? then Err(BadNumber)
    else if |list1.value| != |list2.value| then Err(InvalidCpuList)
    else Ok(TwoLists(list1.value, list2.value))
  }

  function ParseNodeList(cpulist: string): Result<NodeValue> {
    var pieces := Split(cpulist, ',');
    if |pieces| == 1 then OneNode(ExtractCoreID(pieces[0]))
    else if |pieces| == 2 then TwoNodes(ExtractCoreID(pieces[0]), ExtractCoreID(pieces[1]))
    else Err(InvalidNumaTopology)
  }

  // ---------- soundness for every text ----------

  /** `list` counts up from `start`, within the 31 bits that ParseInt lets through. */
  ghost predicate CountsFrom(list: seq<Uint32>, start: nat) {
    && start < 0x8000_0000 && start + |list| <= 0x8000_0000
    && forall i :: 0 <= i < |list| ==> list[i] == start + i
  }

  lemma {:induction false} SplitOnAbsent(s: string, sep: char)
    ensures sep !in s <==> |Split(s, sep)| == 1
    ensures sep !in s ==> Split(s, sep) == [s]
  {
    if s != [] {
      SplitOnAbsent(s[1..], sep);
      assert s == [s[0]] + s[1..];
    }
  }

  lemma {:induction false} PiecesLackSeparator(s: string, sep: char, i: nat)
    requires i < |Split(s, sep)|
    ensures sep !in Split(s, sep)[i]
  {
    if s != [] {
      var rest := Split(s[1..], sep);
      if s[0] == sep {
        if i > 0 { PiecesLackSeparator(s[1..], sep, i - 1); }
      } else {
        PiecesLackSeparator(s[1..], sep, i);
      }
    }
  }

  /** No piece has a minus sign, so the bounds are not negative. */
  lemma BoundsAreNatural(s: string)
    ensures var r := CoreBounds(s); r.Some? ==> 0 <= r.value.0 < 0x8000_0000 && 0 <= r.value.1 < 0x8000_0000
  {
    var t := TrimSpace(s);
    var num := Split(t, '-');
    SplitOnAbsent(t, '-');
    PiecesLackSeparator(t, '-', 0);
    if |num| >= 2 {
      PiecesLackSeparator(t, '-', 1);
    }
  }

  lemma RangeCounts(start: nat, end: int)
    requires start < 0x8000_0000 && end < 0x8000_0000
    ensures CountsFrom(Range(start, end), start)
  {
  }

  function First(list: seq<Uint32>): nat { if list == [] then 0 else list[0] }

  /** Whatever the text, an extracted list counts up from its first element, and
      the conversion to 32 bits loses nothing. */
  lemma {:induction false} ExtractedCounts(s: string)
    ensures var r := ExtractCoreID(s); r.Some? ==> CountsFrom(r.value, First(r.value))
  {
    var r := CoreBounds(s);
    BoundsAreNatural(s);
    if r.Some? {
      RangeCounts(r.value.0, r.value.1);
    }
  }

  lemma CountingBounds(list: seq<Uint32>, start: nat)
    requires CountsFrom(list, start)
    ensures list == [] ==> MinOf(list) == MAX_UINT32 && MaxOf(list) == 0
    ensures list != [] ==> MinOf(list) == start && MaxOf(list) == start + |list| - 1
  {
    if list != [] {
      assert list[0] in list && list[|list| - 1] in list;
    }
  }

  /** The node of the ids from `p` on, paired with those from `l` on if there is
      a second list.  The physical bounds are the first and the last physical
      id; both logical bounds are the last logical id. */
  ghost predicate NodeCounts(v: NodeValue, paired: bool, p: nat, l: nat) {
    var n := |v.pairs|;
    && p + n <= 0x8000_0000
    && (paired ==> l + n <= 0x8000_0000)
    && (forall i :: 0 <= i < n ==> v.pairs[i].0 == p + i && v.pairs[i].1 == if paired then Some(l + i) else None)
    && (if n == 0 then v.physicalMin == MAX_UINT32 && v.physicalMax == 0
        else v.physicalMin == p && v.physicalMax == p + n - 1)
    && (if !paired then v.logicalMin == v.logicalMax == None
        else if n == 0 then v.logicalMin == Some(MAX_UINT32) && v.logicalMax == Some(0)
        else v.logicalMin == v.logicalMax == Some(l + n - 1))
  }

  lemma OneListCounts(physical: seq<Uint32>, p: nat)
    requires CountsFrom(physical, p)
    ensures NodeCounts(OneList(physical), false, p, 0)
  {
    CountingBounds(physical, p);
  }

  lemma TwoListsCount(physical: seq<Uint32>, logical: seq<Uint32>, p: nat, l: nat)
    requires CountsFrom(physical, p) && CountsFrom(logical, l) && |physical| == |logical|
    ensures NodeCounts(TwoLists(physical, logical), true, p, l)
  {
    CountingBounds(physical, p);
  }

  /** Soundness for every text: a parsed node is made of one or two lists that
      count up from the ids of its first pair, and of two lists exactly when the
      text has two pieces. */
  lemma {:induction false} ParsedNode(cpulist: string)
    ensures var r, paired := ParseNodeList(cpulist), |Split(cpulist, ',')| == 2;
            r.Ok? ==> NodeCounts(r.value, paired, FirstPhysical(r.value), FirstLogical(r.value))
  {
    var pieces := Split(cpulist, ',');
    var list1 := ExtractCoreID(pieces[0]);
    ExtractedCounts(pieces[0]);
    if |pieces| == 1 {
      OneNodeCounts(list1);
    } else if |pieces| == 2 {
      ExtractedCounts(pieces[1]);
      TwoNodesCount(list1, ExtractCoreID(pieces[1]));
    }
  }

  function FirstPhysical(v: NodeValue): nat { if v.pairs == [] then 0 else v.pairs[0].0 }

  function FirstLogical(v: NodeValue): nat {
    if v.pairs == [] || v.pairs[0].1.None? then 0 else v.pairs[0].1.value
  }

  lemma OneNodeCounts(list: Option<seq<Uint32>>)
    requires list.Some? ==> CountsFrom(list.value, First(list.value))
    ensures var r := OneNode(list); r.Ok? ==> NodeCounts(r.value, false, FirstPhysical(r.value), FirstLogical(r.value))
  {
    if list.Some? {
      OneListCounts(list.value, First(list.value));
    }
  }

  lemma TwoNodesCount(list1: Option<seq<Uint32>>, list2: Option<seq<Uint32>>)
    requires list1.Some? ==> CountsFrom(list1.value, First(list1.value))
    requires list2.Some? ==> CountsFrom(list2.value, First(list2.value))
    ensures var r := TwoNodes(list1, list2);
            r.Ok? ==> NodeCounts(r.value, true, FirstPhysical(r.value), FirstLogical(r.value))
  {
    if TwoNodes(list1, list2).Ok? {
      TwoListsCount(list1.value, list2.value, First(list1.value), First(list2.value));
    }
  }

  // ---------- the logical bounds ----------

  /** The logical ids of a node's pairs; 0 for a missing one. */
  function Logicals(v: NodeValue): seq<Uint32> {
    seq(|v.pairs|, (i: nat) requires i < |v.pairs| => if v.pairs[i].1.Some? then v.pairs[i].1.value else 0)
  }

  /** For every accepted text with two lists: the reported least logical core is
      the least one if and only if the second range does not go up, so that it has
      one id or none; the reported greatest one always is the greatest. */
  lemma {:induction false} LogicalMinIsLeastIff(cpulist: string)
    ensures var r, pieces := ParseNodeList(cpulist), Split(cpulist, ',');
            r.Ok? && |pieces| == 2 ==>
              var v, bounds := r.value, CoreBounds(pieces[1]);
              && bounds.Some?
              && (forall i :: 0 <= i < |v.pairs| ==> v.pairs[i].1 == Some(Logicals(v)[i]))
              && (v.logicalMin == Some(MinOf(Logicals(v))) <==> bounds.value.0 >= bounds.value.1)
              && v.logicalMax == Some(MaxOf(Logicals(v)))
  {
    var r, pieces := ParseNodeList(cpulist), Split(cpulist, ',');
    ParsedNode(cpulist);
    if r.Ok? && |pieces| == 2 {
      LogicalBounds(r.value, FirstPhysical(r.value));
      PairsOfBounds(pieces);
    }
  }

  /** There are as many pairs as ids in the second range. */
  lemma PairsOfBounds(pieces: seq<string>)
    requires |pieces| == 2 && TwoNodes(ExtractCoreID(pieces[0]), ExtractCoreID(pieces[1])).Ok?
    ensures var bounds := CoreBounds(pieces[1]);
            var n := |TwoNodes(ExtractCoreID(pieces[0]), ExtractCoreID(pieces[1])).value.pairs|;
            bounds.Some? && (n <= 1 <==> bounds.value.0 >= bounds.value.1)
  {
  }

  lemma {:induction false} LogicalBounds(v: NodeValue, p: nat)
    requires NodeCounts(v, true, p, FirstLogical(v))
    ensures forall i :: 0 <= i < |v.pairs| ==> v.pairs[i].1 == Some(Logicals(v)[i])
    ensures v.logicalMin == Some(MinOf(Logicals(v))) <==> |v.pairs| <= 1
    ensures v.logicalMax == Some(MaxOf(Logicals(v)))
  {
    CountingBounds(Logicals(v), FirstLogical(v));
  }

  // ---------- printing and parsing ----------

  lemma {:induction false} TrimLeftPadded(w: string, s: string)
    requires AllSpace(w) && (s != [] ==> !IsSpace(s[0]))
    ensures TrimLeft(w + s) == s
  {
    if w == [] {
      assert w + s == s;
    } else {
      assert (w + s)[0] == w[0] && (w + s)[1..] == w[1..] + s;
      TrimLeftPadded(w[1..], s);
    }
  }

  lemma {:induction false} TrimRightPadded(s: string, w: string)
    requires AllSpace(w) && (s != [] ==> !IsSpace(s[|s| - 1]))
    ensures TrimRight(s + w) == s
  {
    if w == [] {
      assert s + w == s;
    } else {
      var front := w[..|w| - 1];
      assert (s + w)[..|s + w| - 1] == s + front;
      TrimRightPadded(s, front);
    }
  }

  lemma TrimPadded(w1: string, s: string, w2: string)
    requires AllSpace(w1) && AllSpace(w2) && s != [] && !IsSpace(s[0]) && !IsSpace(s[|s| - 1])
    ensures TrimSpace(w1 + s + w2) == s
  {
    assert w1 + s + w2 == w1 + (s + w2);
    TrimLeftPadded(w1, s + w2);
    TrimRightPadded(s, w2);
  }

  lemma {:induction false} SplitAt(a: string, sep: char, rest: string)
    requires sep !in a
    ensures Split(a + [sep] + rest, sep) == [a] + Split(rest, sep)
  {
    var s := a + [sep] + rest;
    if a == [] {
      assert s[1..] == rest;
    } else {
      assert s[0] == a[0] && s[1..] == a[1..] + [sep] + rest;
      SplitAt(a[1..], sep, rest);
      assert a == [a[0]] + a[1..];
    }
  }

  lemma PrintParses(n: nat)
    requires n < 0x8000_0000
    ensures ParseInt32(Print(n)) == Some(n)
  {
    ValueOfPrint(n);
  }

  /** The text of a range, with white space around it. */
  function RangeText(w1: string, a: nat, b: nat, w2: string): string {
    w1 + (Print(a) + "-" + Print(b)) + w2
  }

  lemma RangeTextBounds(w1: string, a: nat, b: nat, w2: string)
    requires AllSpace(w1) && AllSpace(w2)
    requires a < 0x8000_0000 && b < 0x8000_0000
    ensures CoreBounds(RangeText(w1, a, b, w2)) == Some((a, b))
  {
    var core := Print(a) + "-" + Print(b);
    TrimPadded(w1, core, w2);
    SplitAt(Print(a), '-', Print(b));
    SplitOnAbsent(Print(b), '-');
    PrintParses(a);
    PrintParses(b);
  }

  lemma {:induction false} RangeTextParses(w1: string, a: nat, b: nat, w2: string)
    requires AllSpace(w1) && AllSpace(w2)
    requires a < 0x8000_0000 && b < 0x8000_0000
    ensures ExtractCoreID(RangeText(w1, a, b, w2)) == Some(Range(a, b))
    ensures ',' !in RangeText(w1, a, b, w2)
  {
    RangeTextBounds(w1, a, b, w2);
  }

  lemma {:induction false} TwoTextsParse(a: nat, b: nat, c: nat, d: nat, w: seq<string>)
    requires a < 0x8000_0000 && b < 0x8000_0000 && c < 0x8000_0000 && d < 0x8000_0000
    requires |w| == 4 && forall i :: 0 <= i < 4 ==> AllSpace(w[i])
    ensures ParseNodeList(RangesText(a, b, c, d, w)) ==
            if |Range(a, b)| != |Range(c, d)| then Err(InvalidCpuList) else Ok(TwoLists(Range(a, b), Range(c, d)))
  {
    var left, right := RangeText(w[0], a, b, w[1]), RangeText(w[2], c, d, w[3]);
    RangeTextParses(w[0], a, b, w[1]);
    RangeTextParses(w[2], c, d, w[3]);
    SplitAt(left, ',', right);
    SplitOnAbsent(right, ',');
    assert [left] + [right] == [left, right];
  }

  /** The text of two ranges, with white space around each. */
  function RangesText(a: nat, b: nat, c: nat, d: nat, w: seq<string>): string
    requires |w| == 4
  {
    RangeText(w[0], a, b, w[1]) + [','] + RangeText(w[2], c, d, w[3])
  }

  /** Print/parse round trip: the text `a-b,c-d`, white space allowed around
      both ranges, gives back exactly the pairs, and is rejected exactly when
      the ranges have different lengths.  Ranges may be empty. */
  lemma {:induction false} PrintParseRoundTrip(a: nat, b: nat, c: nat, d: nat, w: seq<string>)
    requires a < 0x8000_0000 && b < 0x8000_0000 && c < 0x8000_0000 && d < 0x8000_0000
    requires |w| == 4 && forall i :: 0 <= i < 4 ==> AllSpace(w[i])
    ensures var r := ParseNodeList(RangesText(a, b, c, d, w));
            if |Range(a, b)| != |Range(c, d)| then r == Err(InvalidCpuList)
            else r.Ok? && |r.value.pairs| == |Range(a, b)| && NodeCounts(r.value, true, a, c)
  {
    TwoTextsParse(a, b, c, d, w);
    RangeCounts(a, b);
    RangeCounts(c, d);
    if |Range(a, b)| == |Range(c, d)| {
      TwoListsCount(Range(a, b), Range(c, d), a, c);
    }
  }

  /** For a text of two printed ranges: the reported least logical core is the
      true one exactly when the logical range has one element; the reported
      greatest one always is. */
  lemma LogicalMinIsTrueIff(a: nat, b: nat, c: nat, d: nat, w: seq<string>)
    requires a <= b < 0x8000_0000 && c <= d < 0x8000_0000 && b - a == d - c
    requires |w| == 4 && forall i :: 0 <= i < 4 ==> AllSpace(w[i])
    ensures var r := ParseNodeList(RangesText(a, b, c, d, w));
            && r.Ok?
            && r.value.logicalMin == Some(d)
            && (r.value.logicalMin == Some(MinOf(Range(c, d))) <==> c == d)
            && r.value.logicalMax == Some(MaxOf(Range(c, d)))
  {
    TwoTextsParse(a, b, c, d, w);
    LastOfRange(c, d);
    RangeBounds(c, d);
  }

  lemma LastOfRange(start: nat, end: nat)
    requires start <= end < 0x8000_0000
    ensures Range(start, end) != [] && LastOr(Range(start, end), 0) == LastOr(Range(start, end), MAX_UINT32) == end
  {
    RangeCounts(start, end);
  }

  lemma {:induction false} RangeBounds(start: nat, end: nat)
    requires start <= end < 0x8000_0000
    ensures MinOf(Range(start, end)) == start && MaxOf(Range(start, end)) == end
  {
    RangeCounts(start, end);
    CountingBounds(Range(start, end), start);
  }

  /** The repository's own example: its test wants 48 for the least logical core, the code reports 71. */
  lemma {:induction false} TestExpectationFails()
    ensures ParseNodeList("0-23,48-71").Ok?
    ensures ParseNodeList("0-23,48-71").value.logicalMin == Some(71)
  {
    var w := ["", "", "", ""];
    LogicalMinIsTrueIff(0, 23, 48, 71, w);
    ExampleText(w);
  }

  lemma ExampleText(w: seq<string>)
    requires w == ["", "", "", ""]
    ensures RangesText(0, 23, 48, 71, w) == "0-23,48-71"
  {
    TwoDigits(23);
    TwoDigits(48);
    TwoDigits(71);
    assert Print(0) == "0";
    assert RangeText("", 0, 23, "") == "0-23" && RangeText("", 48, 71, "") == "48-71";
  }

  lemma TwoDigits(n: nat)
    requires 10 <= n < 100
    ensures Print(n) == [Digit(n / 10), Digit(n % 10)]
  {
  }

  /** A text with one range is accepted, with no logical cores. */
  lemma {:induction false} OneRangeIsAccepted(w1: string, a: nat, b: nat, w2: string)
    requires AllSpace(w1) && AllSpace(w2) && a < 0x8000_0000 && b < 0x8000_0000
    ensures var r := ParseNodeList(RangeText(w1, a, b, w2));
            r.Ok? && |r.value.pairs| == |Range(a, b)| && NodeCounts(r.value, false, a, 0)
  {
    RangeTextParses(w1, a, b, w2);
    SplitOnAbsent(RangeText(w1, a, b, w2), ',');
    RangeCounts(a, b);
    OneListCounts(Range(a, b), a);
  }
}

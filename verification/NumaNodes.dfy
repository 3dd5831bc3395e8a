/** cpu.go with its pointers.

    A node of the agent's message keeps pointers: one in every pair of cores, to the
    id of the logical core, and two for the logical bounds.  Here a pointer is a
    `Cell`, an object with one field, and nil is null.  The pairs point to the
    elements of the slice of logical ids, one cell each, so they keep the ids apart.

    The bounds are taken in a loop over the ids: whenever the loop variable is below
    the least or above the greatest value seen so far, its address is stored.  A
    range loop of Go 1.15, the version that go.mod asks for, has one variable for all
    its rounds and overwrites it in each; so every address stored is that of the same
    cell, which holds the last id in the end.  From Go 1.22 on, with `go 1.22` in
    go.mod, each round has a variable of its own.  `LogicalBounds` is the loop as it
    runs, `LogicalBoundsPerRound` the loop with a variable for each round.

    Each method is proved against the function on values in `CpuList.dfy`, which
    describes what a reader of the message finds when the pointers are followed. */
module NumaNodes {
  import opened Basics
  import opened CpuList
  import opened CpuTexts

  class Cell {
    var v: Uint32

    constructor (v: Uint32)
      ensures this.v == v
    {
      this.v := v;
    }
  }

  datatype CorePair = CorePair(physical: Uint32, logical: Cell?)

  class NumaNode {
    var pairs: seq<CorePair>
    var physicalMin: Uint32
    var physicalMax: Uint32
    var logicalMin: Cell?
    var logicalMax: Cell?

    constructor (logicalMin: Cell?, logicalMax: Cell?)
      ensures pairs == [] && physicalMin == MAX_UINT32 && physicalMax == 0
      ensures this.logicalMin == logicalMin && this.logicalMax == logicalMax
    {
      pairs, physicalMin, physicalMax := [], MAX_UINT32, 0;
      this.logicalMin, this.logicalMax := logicalMin, logicalMax;
    }

    /** The cells of the logical cores. */
    function PairCells(): set<Cell>
      reads this
    {
      set p | p in pairs && p.logical != null :: p.logical
    }

    /** What a reader of the node sees. */
    function Value(): NodeValue
      reads this, logicalMin, logicalMax, PairCells()
    {
      NodeValue(
        seq(|pairs|, (i: nat) requires i < |pairs| reads this, PairCells() =>
          (pairs[i].physical, if pairs[i].logical == null then None else Some(pairs[i].logical.v))),
        physicalMin, physicalMax,
        if logicalMin == null then None else Some(logicalMin.v),
        if logicalMax == null then None else Some(logicalMax.v))
    }
  }

  function Values(cells: seq<Cell>): (r: seq<Uint32>)
    reads cells
    ensures |r| == |cells| && forall i :: 0 <= i < |cells| ==> r[i] == cells[i].v
  {
    if cells == [] then [] else Values(cells[..|cells| - 1]) + [cells[|cells| - 1].v]
  }

  /** One element more moves each bound to that element or not at all. */
  lemma BoundsStep(list: seq<Uint32>, i: nat)
    requires i < |list|
    ensures MinOf(list[..i + 1]) == if list[i] < MinOf(list[..i]) then list[i] else MinOf(list[..i])
    ensures MaxOf(list[..i + 1]) == if list[i] > MaxOf(list[..i]) then list[i] else MaxOf(list[..i])
  {
    assert list[..i + 1][..i] == list[..i];
  }

  /** The running minimum and maximum over the physical ids. */
  method PhysicalBounds(node: NumaNode, list: seq<Uint32>)
    requires node.physicalMin == MAX_UINT32 && node.physicalMax == 0
    modifies node`physicalMin, node`physicalMax
    ensures node.physicalMin == MinOf(list) && node.physicalMax == MaxOf(list)
  {
    for i := 0 to |list|
      invariant node.physicalMin == MinOf(list[..i]) && node.physicalMax == MaxOf(list[..i])
    {
      BoundsStep(list, i);
      if list[i] < node.physicalMin {
        node.physicalMin := list[i];
      }
      if list[i] > node.physicalMax {
        node.physicalMax := list[i];
      }
    }
    assert list[..|list|] == list;
  }

  /** The loop over the logical ids, which stores the address of the loop
      variable.  Go 1.15, which go.mod asks for, has one variable for the whole
      loop, so both bounds end up reading the last id. */
  method LogicalBounds(node: NumaNode, list: seq<Cell>)
    requires node.logicalMin != null && node.logicalMin.v == MAX_UINT32
    requires node.logicalMax != null && node.logicalMax.v == 0
    modifies node`logicalMin, node`logicalMax
    ensures node.logicalMin != null && node.logicalMax != null
    ensures node.logicalMin.v == LastOr(Values(list), MAX_UINT32)
    ensures node.logicalMax.v == LastOr(Values(list), 0)
    ensures list != [] ==> node.logicalMin.v == node.logicalMax.v == list[|list| - 1].v
  {
    ghost var min0, max0 := node.logicalMin, node.logicalMax;
    ghost var values := Values(list);
    var lc := new Cell(0);
    for i := 0 to |list|
      invariant fresh(lc) && values == Values(list) && min0.v == MAX_UINT32 && max0.v == 0
      invariant i > 0 ==> lc.v == values[i - 1]
      invariant node.logicalMin == lc || (node.logicalMin == min0 && (i > 0 ==> lc.v == MAX_UINT32))
      invariant node.logicalMax == lc || (node.logicalMax == max0 && (i > 0 ==> lc.v == 0))
      invariant i == 0 ==> node.logicalMin == min0 && node.logicalMax == max0
    {
      lc.v := list[i].v;
      if lc.v < node.logicalMin.v {
        node.logicalMin := lc;
      }
      if lc.v > node.logicalMax.v {
        node.logicalMax := lc;
      }
    }
  }

  /** The same loop with a variable per round: the bounds are the least and the greatest id. */
  method LogicalBoundsPerRound(node: NumaNode, list: seq<Cell>)
    requires node.logicalMin != null && node.logicalMin.v == MAX_UINT32
    requires node.logicalMax != null && node.logicalMax.v == 0
    modifies node`logicalMin, node`logicalMax
    ensures node.logicalMin != null && node.logicalMax != null
    ensures node.logicalMin.v == MinOf(Values(list)) && node.logicalMax.v == MaxOf(Values(list))
  {
    ghost var values := Values(list);
    for i := 0 to |list|
      invariant node.logicalMin != null && node.logicalMax != null && values == Values(list)
      invariant node.logicalMin.v == MinOf(values[..i]) && node.logicalMax.v == MaxOf(values[..i])
    {
      BoundsStep(values, i);
      var lc := new Cell(list[i].v);
      if lc.v < node.logicalMin.v {
        node.logicalMin := lc;
      }
      if lc.v > node.logicalMax.v {
        node.logicalMax := lc;
      }
    }
    assert values[..|list|] == values;
  }

  /** Each pair holds a physical id and the address of a logical one. */
  method PairUp(node: NumaNode, physical: seq<Uint32>, logical: seq<Cell?>)
    requires |physical| == |logical| && node.pairs == []
    modifies node`pairs
    ensures |node.pairs| == |physical|
    ensures forall i :: 0 <= i < |physical| ==> node.pairs[i] == CorePair(physical[i], logical[i])
  {
    for i := 0 to |physical|
      invariant |node.pairs| == i
      invariant forall j :: 0 <= j < i ==> node.pairs[j] == CorePair(physical[j], logical[j])
    {
      node.pairs := node.pairs + [CorePair(physical[i], logical[i])];
    }
  }

  method NewNode(physical: seq<Uint32>, logical: seq<Cell>) returns (ok: bool, node: NumaNode)
    ensures ok <==> |physical| == |logical|
    ensures fresh(node)
    ensures ok ==> node.Value() == TwoLists(physical, Values(logical))
    ensures ok ==> |node.pairs| == |logical|
                   && forall i :: 0 <= i < |logical| ==> node.pairs[i] == CorePair(physical[i], logical[i])
    ensures ok && logical != [] ==>
              && node.physicalMin in physical && node.physicalMax in physical
              && (forall x :: x in physical ==> node.physicalMin <= x <= node.physicalMax)
              && node.logicalMin != null && node.logicalMax != null
              && node.logicalMin.v == node.logicalMax.v == logical[|logical| - 1].v
  {
    var maxUint32 := new Cell(MAX_UINT32);
    var zero := new Cell(0);
    node := new NumaNode(maxUint32, zero);
    ok := |physical| == |logical|;
    if !ok { return; }
    PhysicalBounds(node, physical);
    LogicalBounds(node, logical);
    PairUp(node, physical, logical);
    assert node.Value().pairs == TwoLists(physical, Values(logical)).pairs;
  }

  method ExtractCoreIDs(s: string) returns (ok: bool, coreIDs: seq<Uint32>)
    ensures ok <==> ExtractCoreID(s).Some?
    ensures ok ==> coreIDs == ExtractCoreID(s).value
    ensures ok <==> Readable(s)
    ensures forall a: nat, b: nat :: Names(s, a, b) ==> |coreIDs| == Length(a, b) && CountsFrom(coreIDs, a)
  {
    ExtractedIff(s);
    coreIDs := [];
    var t := TrimSpace(s);
    var num := Split(t, '-');
    if |num| < 2 {
      var n := ParseInt32(t);
      ok := n.Some?;
      if ok {
        coreIDs := [ToUint32(n.value)];
        assert Range(n.value, n.value) == Range(n.value, n.value - 1) + coreIDs == coreIDs;
      }
      return;
    }
    var start := ParseInt32(num[0]);
    if start.None? { return false, []; }
    var end := ParseInt32(num[1]);
    if end.None? { return false, []; }
    ok := true;
    coreIDs := CollectRange(start.value, end.value);
  }

  /** The append loop over a range. */
  method CollectRange(start: int, end: int) returns (coreIDs: seq<Uint32>)
    ensures coreIDs == Range(start, end)
  {
    coreIDs := [];
    var i := start;
    while i <= end
      invariant start <= i && (i <= end + 1 || i == start)
      invariant coreIDs == Range(start, i - 1)
    {
      coreIDs := coreIDs + [ToUint32(i)];
      i := i + 1;
    }
  }

  /** The cells of a slice that holds `list`. */
  method MakeSlice(list: seq<Uint32>) returns (cells: seq<Cell>)
    ensures Values(cells) == list
    ensures forall c :: c in cells ==> fresh(c)
  {
    cells := [];
    for i := 0 to |list|
      invariant |cells| == i
      invariant forall j :: 0 <= j < i ==> fresh(cells[j]) && cells[j].v == list[j]
    {
      var c := new Cell(list[i]);
      cells := cells + [c];
    }
    assert Values(cells) == list;
  }

  method ParseOneNodeLine(coreIDs: seq<string>) returns (r: Result<NumaNode>)
    ensures |coreIDs| != 1 ==> r == Err(InvalidNumaTopology)
    ensures |coreIDs| == 1 ==> Follows(r, OneNode(ExtractCoreID(coreIDs[0])))
  {
    if |coreIDs| != 1 { return Err(InvalidNumaTopology); }
    var ok, list := ExtractCoreIDs(coreIDs[0]);
    if !ok { return Err(BadNumber); }
    var node := NewPhysicalNode(list);
    return Ok(node);
  }

  method NewPhysicalNode(list: seq<Uint32>) returns (node: NumaNode)
    ensures fresh(node) && node.Value() == OneList(list)
  {
    node := new NumaNode(null, null);
    PhysicalBounds(node, list);
    PairUp(node, list, seq(|list|, i => null));
    assert node.Value().pairs == OneList(list).pairs;
  }

  method ParseTwoNodeList(coreIDs: seq<string>) returns (r: Result<NumaNode>)
    ensures |coreIDs| != 2 ==> r == Err(InvalidNumaTopology)
    ensures |coreIDs| == 2 ==> Follows(r, TwoNodes(ExtractCoreID(coreIDs[0]), ExtractCoreID(coreIDs[1])))
  {
    if |coreIDs| != 2 { return Err(InvalidNumaTopology); }
    var ok, list1 := ExtractCoreIDs(coreIDs[0]);
    if !ok { return Err(BadNumber); }
    var list2;
    ok, list2 := ExtractCoreIDs(coreIDs[1]);
    if !ok { return Err(BadNumber); }
    if |list1| != |list2| { return Err(InvalidCpuList); }
    var cells := MakeSlice(list2);
    var node;
    ok, node := NewNode(list1, cells);
    return Ok(node);
  }

  /** A node, or the error, that the specification asks for. */
  ghost predicate Follows(r: Result<NumaNode>, spec: Result<NodeValue>)
    reads if r.Ok? then {r.value} else {}
    reads if r.Ok? && r.value.logicalMin != null then {r.value.logicalMin} else {}
    reads if r.Ok? && r.value.logicalMax != null then {r.value.logicalMax} else {}
    reads if r.Ok? then r.value.PairCells() else {}
  {
    match r
    case Ok(node) => spec.Ok? && node.Value() == spec.value
    case Err(e) => spec == Err(e)
  }

  method ParseCpuList(cpulist: string) returns (r: Result<NumaNode>)
    ensures Follows(r, ParseNodeList(cpulist))
    ensures r.Ok? <==> (',' !in cpulist && Readable(cpulist)) || exists left, right :: TwoReadable(cpulist, left, right)
    ensures r == Err(InvalidNumaTopology) <==> HasTwoCommas(cpulist)
  {
    AcceptedIff(cpulist);
    MoreListText(cpulist);
    var coreIDs := Split(cpulist, ',');
    if |coreIDs| == 1 {
      r := ParseOneNodeLine(coreIDs);
    } else if |coreIDs| == 2 {
      r := ParseTwoNodeList(coreIDs);
    } else {
      r := Err(InvalidNumaTopology);
    }
  }
}

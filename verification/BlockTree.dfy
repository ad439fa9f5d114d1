/** Packing of domain hosts into fixed-size base blocks (pkg/translate/block_tree.go).
    The functions describe the slot list a vertex occupies; the methods build the actual
    tree the way the source does and are proved to flatten to that list. */
module BlockTree {
  import opened Wrappers
  import opened Lex
  import opened Arithmetic
  import opened Domains

  datatype Leaf = Vacant | Occupied(host: HostInfo)

  datatype BaseBlock = BaseBlock(id: string, domain: string, leaves: seq<Leaf>, live: nat)

  datatype BlockNode =
    | Base(block: BaseBlock)
    | Aggregate(id: string, children: seq<BlockNode>, nodeCount: int)

  /** The base size and the last one are positive; the sizes between them are only compared. */
  ghost predicate UsableSizes(sizes: seq<int>) {
    sizes != [] && sizes[0] > 0 && Last(sizes) > 0
  }

  function Max(a: int, b: int): int { if a < b then b else a }
  function Min(a: int, b: int): int { if a < b then a else b }

  function Last(sizes: seq<int>): int
    requires sizes != []
  {
    sizes[|sizes| - 1]
  }

  /** The node count of `n` base blocks. */
  function Nodes(base: int, n: nat): (r: nat)
    requires base > 0
    ensures r > 0 <==> n > 0
  {
    base * n
  }

  // ---------------------------------------------------------------- block construction

  /** The part of a block id before the first '/', '#' or '+'. */
  function ExtractDomainID(id: string): string {
    if id == "" || id[0] == '/' || id[0] == '#' || id[0] == '+' then ""
    else [id[0]] + ExtractDomainID(id[1..])
  }

  function Decimal(n: nat): string {
    var digit := [(n % 10) as char + '0'];
    if n < 10 then digit else Decimal(n / 10) + digit
  }

  /** The first block carries the vertex id, block k (counted from 0) carries "id#k+1". */
  function ChunkId(id: string, k: nat): string {
    if k == 0 then id else id + "#" + Decimal(k + 1)
  }

  function LiveCount(hosts: seq<HostInfo>): nat {
    if hosts == [] then 0
    else LiveCount(hosts[..|hosts| - 1]) + if hosts[|hosts| - 1].hostName != "" then 1 else 0
  }

  function FilledLeaves(hosts: seq<HostInfo>, base: nat): seq<Leaf>
    requires |hosts| <= base
  {
    seq(base, i requires 0 <= i < base => if i < |hosts| then Occupied(hosts[i]) else Vacant)
  }

  function Block(id: string, hosts: seq<HostInfo>, base: nat): BaseBlock
    requires |hosts| <= base
  {
    BaseBlock(id, ExtractDomainID(id), FilledLeaves(hosts, base), LiveCount(hosts))
  }

  function EmptyBlock(base: nat): BaseBlock {
    BaseBlock("", "", seq(base, _ => Vacant), 0)
  }

  function Empties(n: int, base: nat): seq<BaseBlock> {
    if n <= 0 then [] else seq(n, _ => EmptyBlock(base))
  }

  function Padded(blocks: seq<BaseBlock>, width: int, base: nat): seq<BaseBlock> {
    blocks + Empties(width - |blocks|, base)
  }

  /** Hosts cut into runs of `base`, numbered from `k`. */
  function Chunks(id: string, hosts: seq<HostInfo>, base: int, k: nat): seq<BaseBlock>
    requires base > 0
    decreases |hosts|
  {
    if hosts == [] then []
    else
      var n := Min(base, |hosts|);
      [Block(ChunkId(id, k), hosts[..n], base)] + Chunks(id, hosts[n..], base, k + 1)
  }

  function CeilDiv(n: int, d: int): int
    requires d > 0
  {
    (n + d - 1) / d
  }

  function Pack(id: string, hosts: seq<HostInfo>, width: int, base: int): seq<BaseBlock>
    requires base > 0
  {
    Padded(Chunks(id, hosts, base, 0), width, base)
  }

  /** A host map listed by host name. */
  function HostList(hosts: HostMap, names: seq<string>): seq<HostInfo>
    requires forall n :: n in names ==> n in hosts
  {
    seq(|names|, i requires 0 <= i < |names| => hosts[names[i]])
  }

  function SortedHosts(hosts: HostMap): seq<HostInfo> {
    HostList(hosts, Sorted(hosts.Keys))
  }

  // ---------------------------------------------------------------- widths

  /** Capacity counted in base blocks. */
  function SlotWidth(n: int, base: int): (w: int)
    requires base > 0
    ensures w >= 1 && Capacity(n, base) == base * w
  {
    CapacityWidth(n, base);
    Capacity(n, base) / base
  }

  function LeafWidth(actual: int, maxSibling: int, sizes: seq<int>): int
    requires sizes != [] && sizes[0] > 0
  {
    Max(1, if Last(sizes) < maxSibling then CeilDiv(actual, sizes[0])
           else SlotWidth(maxSibling, sizes[0]))
  }

  function SingleWidth(actual: int, maxSibling: int, sizes: seq<int>): int
    requires sizes != [] && sizes[0] > 0
  {
    Max(1, if |sizes| == 1 then CeilDiv(actual, sizes[0])
           else SlotWidth(maxSibling, sizes[0]))
  }

  function InteriorWidth(maxSibling: int, sizes: seq<int>): int
    requires sizes != [] && sizes[0] > 0
  {
    Max(1, SlotWidth(Min(Last(sizes), maxSibling), sizes[0]))
  }

  /** The first listed size that holds `nodes`, or `nodes` itself. */
  function AlignSize(nodes: int, sizes: seq<int>): (r: int)
    ensures r >= nodes
  {
    if sizes == [] then nodes
    else if sizes[0] >= nodes then sizes[0]
    else AlignSize(nodes, sizes[1..])
  }

  /** How many blocks an interior vertex ends up with when its children produced `actual`:
      on overflow the smallest configured level that holds them, rounded to a power of two. */
  function FilledWidth(actual: nat, width: int, sizes: seq<int>): int
    requires sizes != [] && sizes[0] > 0
  {
    if actual > width && |sizes| >= 2 then SlotWidth(AlignSize(Nodes(sizes[0], actual), sizes[1..]), sizes[0])
    else width
  }

  // ---------------------------------------------------------------- slots of a vertex

  function Slots(v: BlockVertex, maxSibling: int, sizes: seq<int>): seq<BaseBlock>
    requires sizes != [] && sizes[0] > 0
    decreases v, 1, 0
  {
    if v.hosts.Some? then
      Pack(v.id, SortedHosts(v.hosts.value), LeafWidth(v.actual, maxSibling, sizes), sizes[0])
    else
      var blocks := ChildSlots(v, Sorted(v.children.Keys), sizes);
      Padded(blocks, FilledWidth(|blocks|, InteriorWidth(maxSibling, sizes), sizes), sizes[0])
  }

  function ChildSlots(v: BlockVertex, names: seq<string>, sizes: seq<int>): seq<BaseBlock>
    requires sizes != [] && sizes[0] > 0
    requires forall n :: n in names ==> n in v.children
    decreases v, 0, |names|
  {
    if names == [] then []
    else
      var i := |names| - 1;
      ChildSlots(v, names[..i], sizes) + Slots(v.children[names[i]], v.maxChild, sizes)
  }

  lemma SlotsOfLeaf(v: BlockVertex, maxSibling: int, sizes: seq<int>)
    requires sizes != [] && sizes[0] > 0 && v.hosts.Some?
    ensures Slots(v, maxSibling, sizes) ==
            Pack(v.id, SortedHosts(v.hosts.value), LeafWidth(v.actual, maxSibling, sizes), sizes[0])
  {}

  lemma SlotsOfInterior(v: BlockVertex, maxSibling: int, sizes: seq<int>)
    requires sizes != [] && sizes[0] > 0 && v.hosts.None?
    ensures var blocks := ChildSlots(v, Sorted(v.children.Keys), sizes);
            Slots(v, maxSibling, sizes) ==
            Padded(blocks, FilledWidth(|blocks|, InteriorWidth(maxSibling, sizes), sizes), sizes[0])
  {}

  // ---------------------------------------------------------------- slots of the root

  /** Every domain keeps its hosts directly: the shape before sub-domains existed. */
  predicate SingleLevel(root: BlockVertex) {
    root.children != map[] &&
    forall c :: c in root.children ==> root.children[c].hosts.Some? && root.children[c].children == map[]
  }

  function RootPart(root: BlockVertex, name: string, sizes: seq<int>): seq<BaseBlock>
    requires sizes != [] && sizes[0] > 0 && name in root.children
  {
    var d := root.children[name];
    if SingleLevel(root) then
      Pack(d.id, SortedHosts(d.hosts.value), SingleWidth(d.actual, root.maxChild, sizes), sizes[0])
    else Slots(d, root.maxChild, sizes)
  }

  function RootParts(root: BlockVertex, names: seq<string>, sizes: seq<int>): seq<BaseBlock>
    requires sizes != [] && sizes[0] > 0 && forall n :: n in names ==> n in root.children
  {
    if names == [] then []
    else
      var i := |names| - 1;
      RootParts(root, names[..i], sizes) + RootPart(root, names[i], sizes)
  }

  /** The running greatest common divisor of the domain capacities. */
  function PadStep(root: BlockVertex, names: seq<string>, sizes: seq<int>): (c: int)
    requires sizes != [] && sizes[0] > 0 && forall n :: n in names ==> n in root.children
    ensures c >= 0
  {
    if names == [] then 0
    else
      var i := |names| - 1;
      var c := PadStep(root, names[..i], sizes);
      var n := Nodes(sizes[0], |RootPart(root, names[i], sizes)|);
      if c == 0 then n else Gcd(c, n)
  }

  /** The node count the root is padded to. */
  function PadTarget(total: int, step: int, desired: int): int
    requires total >= 0 && step >= 0 && desired > 0
  {
    if total > 0 && step > 0 && total % desired != 0 then
      LcmIsCommonMultiple(step, desired);
      CeilDiv(total, Lcm(step, desired)) * Lcm(step, desired)
    else total
  }

  function RootSlots(root: BlockVertex, sizes: seq<int>): seq<BaseBlock>
    requires UsableSizes(sizes)
  {
    var names := Sorted(root.children.Keys);
    var parts := RootParts(root, names, sizes);
    var total := Nodes(sizes[0], |parts|);
    Padded(parts, PadTarget(total, PadStep(root, names, sizes), Last(sizes)) / sizes[0], sizes[0])
  }

  // ---------------------------------------------------------------- the source's tree

  /** collectBaseBlockSlots: base blocks in left-to-right order. */
  function CollectSlots(n: BlockNode): seq<BaseBlock> {
    match n
    case Base(b) => [b]
    case Aggregate(_, children, _) => CollectAll(children)
  }

  function CollectAll(ns: seq<BlockNode>): seq<BaseBlock> {
    if ns == [] then []
    else
      var i := |ns| - 1;
      CollectAll(ns[..i]) + CollectSlots(ns[i])
  }

  function Bases(blocks: seq<BaseBlock>): seq<BlockNode> {
    seq(|blocks|, i requires 0 <= i < |blocks| => Base(blocks[i]))
  }

  lemma {:induction false} CollectBases(blocks: seq<BaseBlock>)
    ensures CollectAll(Bases(blocks)) == blocks
  {
    if blocks != [] {
      var i := |blocks| - 1;
      assert Bases(blocks)[..i] == Bases(blocks[..i]);
      CollectBases(blocks[..i]);
      assert blocks == blocks[..i] + [blocks[i]];
    }
  }

  /** An aggregate directly over base blocks. */
  function Flat(id: string, blocks: seq<BaseBlock>, base: int): BlockNode
    requires base > 0
  {
    Aggregate(id, Bases(blocks), Nodes(base, |blocks|))
  }

  lemma CollectFlat(id: string, blocks: seq<BaseBlock>, base: int)
    requires base > 0
    ensures CollectSlots(Flat(id, blocks, base)) == blocks
  {
    CollectBases(blocks);
  }

  lemma ChildSlotsStep(v: BlockVertex, names: seq<string>, i: nat, sizes: seq<int>)
    requires sizes != [] && sizes[0] > 0 && i < |names|
    requires forall n :: n in names ==> n in v.children
    ensures ChildSlots(v, names[..i + 1], sizes) ==
            ChildSlots(v, names[..i], sizes) + Slots(v.children[names[i]], v.maxChild, sizes)
  {
    assert names[..i + 1][..i] == names[..i];
  }

  lemma ChunksStep(id: string, hosts: seq<HostInfo>, base: int, start: nat, k: nat)
    requires base > 0 && start < |hosts|
    ensures var end := Min(start + base, |hosts|);
            Chunks(id, hosts[start..], base, k) ==
            [Block(ChunkId(id, k), hosts[start..end], base)] + Chunks(id, hosts[end..], base, k + 1)
  {
    var end := Min(start + base, |hosts|);
    assert hosts[start..][..end - start] == hosts[start..end];
    assert hosts[start..][end - start..] == hosts[end..];
  }

  lemma ChunksAdvance(id: string, hosts: seq<HostInfo>, base: int, start: nat, blocks: seq<BaseBlock>)
    requires base > 0 && start < |hosts|
    ensures var end := Min(start + base, |hosts|);
            blocks + Chunks(id, hosts[start..], base, |blocks|) ==
            (blocks + [Block(ChunkId(id, |blocks|), hosts[start..end], base)]) +
              Chunks(id, hosts[end..], base, |blocks| + 1)
  {
    ChunksStep(id, hosts, base, start, |blocks|);
  }

  /** Hosts beyond the block size are cut off. */
  method NewBaseBlock(id: string, hosts: seq<HostInfo>, base: nat) returns (b: BaseBlock)
    ensures b == Block(id, hosts[..Min(base, |hosts|)], base)
  {
    var leaves := seq(base, _ => Vacant);
    var live := 0;
    var i := 0;
    while i < |hosts|
      invariant 0 <= i <= Min(base, |hosts|) && |leaves| == base
      invariant forall j :: 0 <= j < base ==> leaves[j] == if j < i then Occupied(hosts[j]) else Vacant
      invariant live == LiveCount(hosts[..i])
    {
      if i >= base { break; }
      leaves := leaves[i := Occupied(hosts[i])];
      assert hosts[..i + 1][..i] == hosts[..i];
      if hosts[i].hostName != "" { live := live + 1; }
      i := i + 1;
    }
    assert leaves == FilledLeaves(hosts[..i], base);
    return BaseBlock(id, ExtractDomainID(id), leaves, live);
  }

  ghost predicate IsRest(id: string, hosts: seq<HostInfo>, base: int, start: nat, n: nat, rest: seq<BaseBlock>) {
    base > 0 && rest == Chunks(id, hosts[Min(start, |hosts|)..], base, n)
  }

  /** The blocks so far, followed by those of the hosts from `start` on, are all blocks. */
  ghost predicate Splits(id: string, hosts: seq<HostInfo>, base: int, start: nat,
                         blocks: seq<BaseBlock>, all: seq<BaseBlock>) {
    forall rest {:trigger IsRest(id, hosts, base, start, |blocks|, rest)} ::
      IsRest(id, hosts, base, start, |blocks|, rest) ==> blocks + rest == all
  }

  lemma SplitsStart(id: string, hosts: seq<HostInfo>, base: int)
    requires base > 0
    ensures Splits(id, hosts, base, 0, [], Chunks(id, hosts, base, 0))
  {
    assert hosts[0..] == hosts;
  }

  lemma SplitsEnd(id: string, hosts: seq<HostInfo>, base: int, start: nat, blocks: seq<BaseBlock>, all: seq<BaseBlock>)
    requires base > 0 && start >= |hosts| && Splits(id, hosts, base, start, blocks, all)
    ensures blocks == all
  {
    assert hosts[|hosts|..] == [];
    assert IsRest(id, hosts, base, start, |blocks|, []);
  }

  lemma SplitsNext(id: string, hosts: seq<HostInfo>, base: int, start: nat,
                   blocks: seq<BaseBlock>, all: seq<BaseBlock>, b: BaseBlock)
    requires base > 0 && start < |hosts| && Splits(id, hosts, base, start, blocks, all)
    requires b == Block(ChunkId(id, |blocks|), hosts[start..Min(start + base, |hosts|)], base)
    ensures Splits(id, hosts, base, start + base, blocks + [b], all)
  {
    ChunksAdvance(id, hosts, base, start, blocks);
    assert IsRest(id, hosts, base, start, |blocks|, Chunks(id, hosts[start..], base, |blocks|));
  }

  /** The next block of a split: up to `base` hosts, numbered from the second block on. */
  method NextBlock(id: string, hosts: seq<HostInfo>, base: int, start: nat, n: nat) returns (b: BaseBlock)
    requires base > 0 && start < |hosts|
    ensures b == Block(ChunkId(id, n), hosts[start..Min(start + base, |hosts|)], base)
  {
    var end := start + base;
    if end > |hosts| { end := |hosts|; }
    var blockID := id;
    if n > 0 { blockID := id + "#" + Decimal(n + 1); }
    b := NewBaseBlock(blockID, hosts[start..end], base);
    assert hosts[start..end][..end - start] == hosts[start..end];
  }

  method AppendBlock(id: string, hosts: seq<HostInfo>, base: int, start: nat,
                     blocks: seq<BaseBlock>, ghost all: seq<BaseBlock>)
      returns (blocks': seq<BaseBlock>)
    requires base > 0 && start < |hosts| && Splits(id, hosts, base, start, blocks, all)
    ensures Splits(id, hosts, base, start + base, blocks', all)
  {
    var b := NextBlock(id, hosts, base, start, |blocks|);
    SplitsNext(id, hosts, base, start, blocks, all, b);
    blocks' := blocks + [b];
  }

  method SplitLoop(id: string, hosts: seq<HostInfo>, base: int, ghost all: seq<BaseBlock>)
      returns (blocks: seq<BaseBlock>)
    requires base > 0 && Splits(id, hosts, base, 0, [], all)
    ensures blocks == all
  {
    blocks := [];
    var start := 0;
    while start < |hosts|
      invariant 0 <= start && Splits(id, hosts, base, start, blocks, all)
    {
      blocks := AppendBlock(id, hosts, base, start, blocks, all);
      start := start + base;
    }
    SplitsEnd(id, hosts, base, start, blocks, all);
  }

  method SplitIntoBaseBlocks(id: string, hosts: seq<HostInfo>, base: int) returns (blocks: seq<BaseBlock>)
    requires base > 0
    ensures blocks == Chunks(id, hosts, base, 0)
  {
    SplitsStart(id, hosts, base);
    blocks := SplitLoop(id, hosts, base, Chunks(id, hosts, base, 0));
  }

  method PackHostsIntoAggregate(id: string, hosts: seq<HostInfo>, width: int, base: int) returns (agg: BlockNode)
    requires base > 0
    ensures agg == Flat(id, Pack(id, hosts, width, base), base)
  {
    var blocks := SplitIntoBaseBlocks(id, hosts, base);
    blocks := PadTo(blocks, width, base);
    agg := Wrap(id, blocks, base);
  }

  /** Appends empty base blocks until there are at least `width`. */
  method PadTo(blocks: seq<BaseBlock>, width: int, base: nat) returns (padded: seq<BaseBlock>)
    ensures padded == Padded(blocks, width, base)
  {
    padded := blocks;
    while |padded| < width
      invariant |blocks| <= |padded| <= Max(width, |blocks|)
      invariant padded == blocks + Empties(|padded| - |blocks|, base)
    {
      padded := padded + [EmptyBlock(base)];
    }
  }

  /** Appends blocks one by one, bumping the node count. */
  method Wrap(id: string, blocks: seq<BaseBlock>, base: int) returns (agg: BlockNode)
    requires base > 0
    ensures agg == Flat(id, blocks, base)
  {
    var children: seq<BlockNode> := [];
    var nodeCount := 0;
    for i := 0 to |blocks|
      invariant children == Bases(blocks[..i]) && nodeCount == Nodes(base, i)
    {
      assert Bases(blocks[..i + 1]) == Bases(blocks[..i]) + [Base(blocks[i])];
      children := children + [Base(blocks[i])];
      nodeCount := nodeCount + base;
    }
    assert blocks[..|blocks|] == blocks;
    return Aggregate(id, children, nodeCount);
  }

  method AggregateSlotCapacity(maxSibling: int, base: int) returns (capacity: int)
    requires base > 0
    ensures capacity == Capacity(maxSibling, base)
  {
    capacity := base;
    while capacity < maxSibling
      invariant capacity > 0 && Capacity(maxSibling, capacity) == Capacity(maxSibling, base)
    {
      capacity := capacity * 2;
    }
  }

  method BlockTreeGCD(x: int, y: int) returns (g: int)
    requires x >= 0 && y >= 0
    ensures x + y > 0 ==> g == Gcd(x, y)
    ensures x == 0 ==> g == y
  {
    if x == 0 { return y; }
    var a, b := x, y;
    while b != 0
      invariant a > 0 && b >= 0 && Gcd(a, b) == Gcd(x, y)
      decreases b
    {
      a, b := b, a % b;
    }
    return a;
  }

  method ToDomainAggregate(src: BlockVertex, maxSibling: int, sizes: seq<int>) returns (agg: Option<BlockNode>)
    requires sizes == [] || sizes[0] > 0
    ensures sizes == [] ==> agg == None
    ensures sizes != [] ==> agg == Some(Flat(src.id, Slots(src, maxSibling, sizes), sizes[0]))
    decreases src, 1
  {
    if |sizes| == 0 { return None; }
    if src.hosts.Some? {
      var width := LeafSlotWidth(src.actual, maxSibling, sizes);
      var a := PackHostsIntoAggregate(src.id, SortedHosts(src.hosts.value), width, sizes[0]);
      SlotsOfLeaf(src, maxSibling, sizes);
      return Some(a);
    } else {
      var width := InteriorSlotWidth(maxSibling, sizes);
      var a := RecurseChildrenIntoAggregate(src, width, sizes);
      SlotsOfInterior(src, maxSibling, sizes);
      return Some(a);
    }
  }

  method LeafSlotWidth(actual: int, maxSibling: int, sizes: seq<int>) returns (width: int)
    requires sizes != [] && sizes[0] > 0
    ensures width == LeafWidth(actual, maxSibling, sizes)
  {
    var base, last := sizes[0], sizes[|sizes| - 1];
    if last < maxSibling {
      width := (actual + base - 1) / base;
    } else {
      var c := AggregateSlotCapacity(maxSibling, base);
      width := c / base;
    }
    width := Max(1, width);
  }

  method InteriorSlotWidth(maxSibling: int, sizes: seq<int>) returns (width: int)
    requires sizes != [] && sizes[0] > 0
    ensures width == InteriorWidth(maxSibling, sizes)
  {
    var nodeCount := AggregateSlotCapacity(Min(sizes[|sizes| - 1], maxSibling), sizes[0]);
    width := Max(1, nodeCount / sizes[0]);
  }

  method RecurseChildrenIntoAggregate(src: BlockVertex, minWidth: int, sizes: seq<int>) returns (agg: BlockNode)
    requires sizes != [] && sizes[0] > 0 && minWidth >= 1
    ensures var blocks := ChildSlots(src, Sorted(src.children.Keys), sizes);
            agg == Flat(src.id, Padded(blocks, FilledWidth(|blocks|, minWidth, sizes), sizes[0]), sizes[0])
    decreases src, 0, 1
  {
    var blocks := CollectChildren(src, sizes);
    var width := RoundedWidth(|blocks|, minWidth, sizes);
    blocks := PadTo(blocks, width, sizes[0]);
    agg := Wrap(src.id, blocks, sizes[0]);
  }

  method CollectChildren(src: BlockVertex, sizes: seq<int>) returns (blocks: seq<BaseBlock>)
    requires sizes != [] && sizes[0] > 0
    ensures blocks == ChildSlots(src, Sorted(src.children.Keys), sizes)
    decreases src, 0, 0
  {
    var names := Sorted(src.children.Keys);
    blocks := [];
    for i := 0 to |names|
      invariant blocks == ChildSlots(src, names[..i], sizes)
    {
      var name := names[i];
      assert name in names;
      var child := ToDomainAggregate(src.children[name], src.maxChild, sizes);
      CollectFlat(src.children[name].id, Slots(src.children[name], src.maxChild, sizes), sizes[0]);
      ChildSlotsStep(src, names, i, sizes);
      blocks := blocks + CollectSlots(child.value);
    }
    assert names[..|names|] == names;
  }

  lemma CancelAtMost(d: int, x: int, y: int)
    requires d > 0 && d * x <= d * y
    ensures x <= y
  {
    if y < x { ScaleAtLeast(d, x - y); }
  }

  /** Rounding up to a width that already holds everything gives that width. */
  lemma RoundUpWithin(n: int, w: int)
    requires 0 < n <= w
    ensures ((n + w - 1) / w) * w == w
  {
    assert (n + w - 1) / w == 1 by {
      DividesIntro(w, 1);
    }
  }

  /** The overflow rounding of recurseChildrenIntoAggregate. */
  method RoundedWidth(actual: nat, minWidth: int, sizes: seq<int>) returns (width: int)
    requires sizes != [] && sizes[0] > 0 && minWidth >= 1
    ensures width == FilledWidth(actual, minWidth, sizes)
  {
    var base := sizes[0];
    width := minWidth;
    if actual > minWidth && |sizes| >= 2 {
      var actualNodes := actual * base;
      var alignSize := actualNodes;
      var rest := sizes[1..];
      var k := 0;
      while k < |rest|
        invariant 0 <= k <= |rest| && alignSize == actualNodes
        invariant AlignSize(actualNodes, rest[k..]) == AlignSize(actualNodes, rest)
      {
        if rest[k] >= actualNodes {
          alignSize := rest[k];
          break;
        }
        assert rest[k..][1..] == rest[k + 1..];
        k := k + 1;
      }
      var c := AggregateSlotCapacity(alignSize, base);
      var w := c / base;
      assert w == SlotWidth(alignSize, base);
      CancelAtMost(base, actual, w);
      RoundUpWithin(actual, w);
      width := ((actual + w - 1) / w) * w;
    }
  }
}

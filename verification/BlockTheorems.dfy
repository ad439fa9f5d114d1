/** What the packing promises: hosts are conserved, domains start on aligned slots, positions are stable. */
module BlockTheorems {
  import opened Wrappers
  import opened Lex
  import opened Arithmetic
  import opened Domains
  import opened BlockTree
  import opened RootPadding

  // ---------------------------------------------------------------- conservation

  ghost function LeafHosts(leaves: seq<Leaf>): seq<HostInfo> {
    if leaves == [] then []
    else (if leaves[0].Occupied? then [leaves[0].host] else []) + LeafHosts(leaves[1..])
  }

  ghost function BlockHosts(blocks: seq<BaseBlock>): seq<HostInfo> {
    if blocks == [] then []
    else BlockHosts(blocks[..|blocks| - 1]) + LeafHosts(blocks[|blocks| - 1].leaves)
  }

  /** A slot has exactly `base` leaves, counts its live hosts, and is the anonymous placeholder when it has none. */
  ghost predicate Shaped(b: BaseBlock, base: nat) {
    && |b.leaves| == base
    && b.live == LiveCount(LeafHosts(b.leaves))
    && (LeafHosts(b.leaves) == [] ==> b == EmptyBlock(base))
  }

  ghost predicate AllShaped(blocks: seq<BaseBlock>, base: nat) {
    forall i :: 0 <= i < |blocks| ==> Shaped(blocks[i], base)
  }

  lemma {:induction false} VacantHosts(leaves: seq<Leaf>)
    requires forall i :: 0 <= i < |leaves| ==> leaves[i].Vacant?
    ensures LeafHosts(leaves) == []
  {
    if leaves != [] { VacantHosts(leaves[1..]); }
  }

  lemma {:induction false} FilledHosts(hosts: seq<HostInfo>, base: nat)
    requires |hosts| <= base
    ensures LeafHosts(FilledLeaves(hosts, base)) == hosts
    decreases |hosts|
  {
    var leaves := FilledLeaves(hosts, base);
    if hosts == [] {
      VacantHosts(leaves);
    } else {
      assert leaves[1..] == FilledLeaves(hosts[1..], base - 1);
      FilledHosts(hosts[1..], base - 1);
      assert hosts == [hosts[0]] + hosts[1..];
    }
  }

  lemma {:induction false} BlockHostsConcat(a: seq<BaseBlock>, b: seq<BaseBlock>)
    ensures BlockHosts(a + b) == BlockHosts(a) + BlockHosts(b)
    decreases |b|
  {
    if b == [] {
      assert a + b == a;
    } else {
      var i := |b| - 1;
      assert (a + b)[..|a + b| - 1] == a + b[..i] && (a + b)[|a + b| - 1] == b[i];
      BlockHostsConcat(a, b[..i]);
      Reassociate(BlockHosts(a), BlockHosts(b[..i]), LeafHosts(b[i].leaves));
    }
  }

  lemma EmptyBlockShaped(base: nat)
    ensures Shaped(EmptyBlock(base), base) && LeafHosts(EmptyBlock(base).leaves) == []
  {
    VacantHosts(EmptyBlock(base).leaves);
  }

  lemma {:induction false} EmptiesHosts(n: nat, base: nat)
    ensures BlockHosts(Empties(n, base)) == [] && AllShaped(Empties(n, base), base)
  {
    EmptyBlockShaped(base);
    if n > 0 {
      assert Empties(n, base)[..n - 1] == Empties(n - 1, base);
      EmptiesHosts(n - 1, base);
    }
  }

  lemma PaddedConserves(blocks: seq<BaseBlock>, width: int, base: nat)
    requires AllShaped(blocks, base)
    ensures BlockHosts(Padded(blocks, width, base)) == BlockHosts(blocks)
            && AllShaped(Padded(blocks, width, base), base)
  {
    var n := Max(0, width - |blocks|);
    assert Padded(blocks, width, base) == blocks + Empties(n, base);
    EmptiesHosts(n, base);
    BlockHostsConcat(blocks, Empties(n, base));
  }

  lemma BlockShaped(id: string, hosts: seq<HostInfo>, base: nat)
    requires 0 < |hosts| <= base
    ensures Shaped(Block(id, hosts, base), base) && BlockHosts([Block(id, hosts, base)]) == hosts
  {
    FilledHosts(hosts, base);
  }

  lemma ConsConserves(head: BaseBlock, tail: seq<BaseBlock>, base: nat)
    requires Shaped(head, base) && AllShaped(tail, base)
    ensures AllShaped([head] + tail, base) && BlockHosts([head] + tail) == BlockHosts([head]) + BlockHosts(tail)
  {
    BlockHostsConcat([head], tail);
  }

  lemma {:induction false} ChunksConserve(id: string, hosts: seq<HostInfo>, base: int, k: nat)
    requires base > 0
    ensures BlockHosts(Chunks(id, hosts, base, k)) == hosts && AllShaped(Chunks(id, hosts, base, k), base)
    decreases |hosts|
  {
    if hosts != [] {
      var n := Min(base, |hosts|);
      ChunksConserve(id, hosts[n..], base, k + 1);
      ChunkConserves(id, hosts, base, k, n);
    }
  }

  lemma ChunkConserves(id: string, hosts: seq<HostInfo>, base: int, k: nat, n: nat)
    requires base > 0 && hosts != [] && n == Min(base, |hosts|)
    requires BlockHosts(Chunks(id, hosts[n..], base, k + 1)) == hosts[n..]
             && AllShaped(Chunks(id, hosts[n..], base, k + 1), base)
    ensures BlockHosts(Chunks(id, hosts, base, k)) == hosts && AllShaped(Chunks(id, hosts, base, k), base)
  {
    ChunksUnfold(id, hosts, base, k);
    BlockShaped(ChunkId(id, k), hosts[..n], base);
    HeadConserves(Block(ChunkId(id, k), hosts[..n], base), Chunks(id, hosts[n..], base, k + 1), hosts, n, base);
  }

  /** A first block with the first `n` hosts, before blocks with the others. */
  lemma HeadConserves(head: BaseBlock, tail: seq<BaseBlock>, hosts: seq<HostInfo>, n: nat, base: nat)
    requires n <= |hosts| && Shaped(head, base) && BlockHosts([head]) == hosts[..n]
    requires AllShaped(tail, base) && BlockHosts(tail) == hosts[n..]
    ensures BlockHosts([head] + tail) == hosts && AllShaped([head] + tail, base)
  {
    ConsConserves(head, tail, base);
    assert hosts == hosts[..n] + hosts[n..];
  }

  lemma ChunksUnfold(id: string, hosts: seq<HostInfo>, base: int, k: nat)
    requires base > 0 && hosts != []
    ensures var n := Min(base, |hosts|);
            Chunks(id, hosts, base, k) == [Block(ChunkId(id, k), hosts[..n], base)] +
              Chunks(id, hosts[n..], base, k + 1)
  {}

  lemma PackConserves(id: string, hosts: seq<HostInfo>, width: int, base: int)
    requires base > 0
    ensures BlockHosts(Pack(id, hosts, width, base)) == hosts && AllShaped(Pack(id, hosts, width, base), base)
  {
    ChunksConserve(id, hosts, base, 0);
    PaddedConserves(Chunks(id, hosts, base, 0), width, base);
  }

  /** The hosts below a vertex, depth first in name order. */
  ghost function VertexHosts(v: BlockVertex): seq<HostInfo>
    decreases v, 1, 0
  {
    if v.hosts.Some? then SortedHosts(v.hosts.value) else ChildHosts(v, Sorted(v.children.Keys))
  }

  ghost function ChildHosts(v: BlockVertex, names: seq<string>): seq<HostInfo>
    requires forall n :: n in names ==> n in v.children
    decreases v, 0, |names|
  {
    if names == [] then []
    else ChildHosts(v, names[..|names| - 1]) + VertexHosts(v.children[names[|names| - 1]])
  }

  lemma {:induction false} SlotsConserve(v: BlockVertex, maxSibling: int, sizes: seq<int>)
    requires sizes != [] && sizes[0] > 0
    ensures BlockHosts(Slots(v, maxSibling, sizes)) == VertexHosts(v)
            && AllShaped(Slots(v, maxSibling, sizes), sizes[0])
    decreases v, 1, 0
  {
    if v.hosts.Some? {
      SlotsOfLeaf(v, maxSibling, sizes);
      PackConserves(v.id, SortedHosts(v.hosts.value), LeafWidth(v.actual, maxSibling, sizes), sizes[0]);
    } else {
      SlotsOfInterior(v, maxSibling, sizes);
      var blocks := ChildSlots(v, Sorted(v.children.Keys), sizes);
      ChildSlotsConserve(v, Sorted(v.children.Keys), sizes);
      PaddedConserves(blocks, FilledWidth(|blocks|, InteriorWidth(maxSibling, sizes), sizes), sizes[0]);
    }
  }

  lemma {:induction false} ChildSlotsConserve(v: BlockVertex, names: seq<string>, sizes: seq<int>)
    requires sizes != [] && sizes[0] > 0 && forall n :: n in names ==> n in v.children
    ensures BlockHosts(ChildSlots(v, names, sizes)) == ChildHosts(v, names)
            && AllShaped(ChildSlots(v, names, sizes), sizes[0])
    decreases v, 0, |names|
  {
    if names != [] {
      var i := |names| - 1;
      ChildSlotsConserve(v, names[..i], sizes);
      SlotsConserve(v.children[names[i]], v.maxChild, sizes);
      BlockHostsConcat(ChildSlots(v, names[..i], sizes), Slots(v.children[names[i]], v.maxChild, sizes));
    }
  }

  lemma RootPartConserves(root: BlockVertex, name: string, sizes: seq<int>)
    requires sizes != [] && sizes[0] > 0 && name in root.children
    ensures BlockHosts(RootPart(root, name, sizes)) == VertexHosts(root.children[name])
    ensures AllShaped(RootPart(root, name, sizes), sizes[0])
  {
    var d := root.children[name];
    if SingleLevel(root) {
      PackConserves(d.id, SortedHosts(d.hosts.value), SingleWidth(d.actual, root.maxChild, sizes), sizes[0]);
    } else {
      SlotsConserve(d, root.maxChild, sizes);
    }
  }

  lemma {:induction false} RootPartsConserve(root: BlockVertex, names: seq<string>, sizes: seq<int>)
    requires sizes != [] && sizes[0] > 0 && forall n :: n in names ==> n in root.children
    ensures BlockHosts(RootParts(root, names, sizes)) == ChildHosts(root, names)
    ensures AllShaped(RootParts(root, names, sizes), sizes[0])
    decreases |names|
  {
    if names != [] {
      var i := |names| - 1;
      RootPartsConserve(root, names[..i], sizes);
      RootPartConserves(root, names[i], sizes);
      BlockHostsConcat(RootParts(root, names[..i], sizes), RootPart(root, names[i], sizes));
    }
  }

  /** The emitted slots carry exactly the hosts of the tree, in order. */
  lemma RootSlotsConserve(root: BlockVertex, sizes: seq<int>)
    requires UsableSizes(sizes)
    ensures BlockHosts(RootSlots(root, sizes)) == ChildHosts(root, Sorted(root.children.Keys))
    ensures AllShaped(RootSlots(root, sizes), sizes[0])
  {
    var names := Sorted(root.children.Keys);
    var parts := RootParts(root, names, sizes);
    var total := Nodes(sizes[0], |parts|);
    RootPartsConserve(root, names, sizes);
    PaddedConserves(parts, PadTarget(total, PadStep(root, names, sizes), Last(sizes)) / sizes[0], sizes[0]);
  }

  // ---------------------------------------------------------------- every host exactly once

  lemma DistinctConcat<T>(a: seq<T>, b: seq<T>)
    requires Distinct(a) && Distinct(b) && forall x :: x in a ==> x !in b
    ensures Distinct(a + b)
  {
    forall i, j | 0 <= i < j < |a + b| ensures (a + b)[i] != (a + b)[j] {
      if i < |a| <= j {
        assert a[i] in a && b[j - |a|] in b;
      }
    }
  }

  ghost predicate SelfNamed(hosts: HostMap) {
    forall k :: k in hosts ==> hosts[k].hostName == k
  }

  ghost predicate Holds(hosts: HostMap, h: HostInfo) {
    h.hostName in hosts && hosts[h.hostName] == h
  }

  lemma SortedHostsDistinct(hosts: HostMap)
    requires SelfNamed(hosts)
    ensures Distinct(SortedHosts(hosts))
    ensures forall h :: h in SortedHosts(hosts) <==> Holds(hosts, h)
  {
    var names := Sorted(hosts.Keys);
    var list := SortedHosts(hosts);
    forall i, j | 0 <= i < j < |list| ensures list[i] != list[j] {
      assert names[i] in names && names[j] in names;
      LessAsymmetric(names[i], names[j]);
    }
    forall h ensures h in list <==> Holds(hosts, h) {
      if h in list {
        var i :| 0 <= i < |list| && list[i] == h;
        assert names[i] in names;
      }
      if Holds(hosts, h) {
        assert h.hostName in names;
        var i :| 0 <= i < |names| && names[i] == h.hostName;
        assert list[i] == h;
      }
    }
  }

  ghost predicate Below(v: BlockVertex, n: string, h: HostInfo)
    requires n in v.children
  {
    h in VertexHosts(v.children[n])
  }

  ghost predicate BelowSome(v: BlockVertex, names: seq<string>, h: HostInfo)
    requires forall n :: n in names ==> n in v.children
  {
    exists n :: n in names && Below(v, n, h)
  }

  /** Listing children whose host lists are repetition-free and pairwise disjoint. */
  lemma {:induction false} ChildHostsDistinct(v: BlockVertex, names: seq<string>)
    requires Ascending(names) && forall n :: n in names ==> n in v.children
    requires forall n :: n in names ==> Distinct(VertexHosts(v.children[n]))
    requires forall m, n, h :: m in names && n in names && Below(v, m, h) && Below(v, n, h) ==> m == n
    ensures Distinct(ChildHosts(v, names))
    ensures forall h :: h in ChildHosts(v, names) <==> BelowSome(v, names, h)
    decreases |names|
  {
    if names != [] {
      var i := |names| - 1;
      var rest, last := names[..i], names[i];
      ChildHostsDistinct(v, rest);
      var a, b := ChildHosts(v, rest), VertexHosts(v.children[last]);
      forall h | h in a ensures h !in b {
        var n :| n in rest && Below(v, n, h);
        var j :| 0 <= j < i && names[j] == n;
        LessAsymmetric(names[j], names[i]);
        if h in b { assert Below(v, last, h); }
      }
      DistinctConcat(a, b);
      forall h ensures h in a + b <==> BelowSome(v, names, h) {
        BelowSplit(v, names, h);
      }
    }
  }

  lemma BelowSplit(v: BlockVertex, names: seq<string>, h: HostInfo)
    requires names != [] && forall n :: n in names ==> n in v.children
    ensures BelowSome(v, names, h) <==> BelowSome(v, names[..|names| - 1], h) || Below(v, names[|names| - 1], h)
  {
    var rest, last := names[..|names| - 1], names[|names| - 1];
    assert names == rest + [last];
    if BelowSome(v, names, h) {
      var n :| n in names && Below(v, n, h);
      assert n in rest || n == last;
    }
    if BelowSome(v, rest, h) {
      var n :| n in rest && Below(v, n, h);
      assert n in names;
    }
    assert last in names;
  }

  lemma SubVertexHosts(d: string, hosts: HostMap, g: string)
    requires SelfNamed(hosts) && g in SubNames(d, hosts)
    ensures var hs := VertexHosts(SubVertices(d, hosts)[g]);
            Distinct(hs) && forall h :: h in hs <==> Holds(hosts, h) && SubName(d, h) == g
  {
    SortedHostsDistinct(SubHosts(d, hosts, g));
  }

  /** A domain vertex lists each of its hosts once, with or without sub-domains. */
  lemma DomainVertexHosts(d: string, hosts: HostMap)
    requires SelfNamed(hosts)
    ensures Distinct(VertexHosts(DomainVertex(d, hosts)))
    ensures forall h :: h in VertexHosts(DomainVertex(d, hosts)) <==> Holds(hosts, h)
  {
    var v := DomainVertex(d, hosts);
    if !SomeSubDomain(hosts) {
      SortedHostsDistinct(hosts);
    } else {
      var names := Sorted(v.children.Keys);
      forall g | g in names
        ensures Distinct(VertexHosts(v.children[g]))
        ensures forall h :: Below(v, g, h) <==> Holds(hosts, h) && SubName(d, h) == g
      {
        SubVertexHosts(d, hosts, g);
      }
      ChildHostsDistinct(v, names);
      forall h ensures BelowSome(v, names, h) <==> Holds(hosts, h) {
        if Holds(hosts, h) {
          assert SubName(d, h) in SubNames(d, hosts);
          assert SubName(d, h) in names;
          assert Below(v, SubName(d, h), h);
        }
      }
    }
  }

  /** Host conservation: over the whole pipeline every host of the map sits in exactly one leaf of one
      slot, every slot has exactly `sizes[0]` leaves, and a slot without hosts is an anonymous placeholder. */
  lemma HostsConserved(m: DomainTable, sizes: seq<int>)
    requires WellKeyed(m) && UsableSizes(sizes)
    ensures var slots := RootSlots(DomainTree(m), sizes);
            && AllShaped(slots, sizes[0])
            && Distinct(BlockHosts(slots))
            && forall h :: h in BlockHosts(slots) <==> HasHost(m, h)
  {
    var root := DomainTree(m);
    var names := Sorted(root.children.Keys);
    RootSlotsConserve(root, sizes);
    forall d | d in names
      ensures Distinct(VertexHosts(root.children[d]))
      ensures forall h :: Below(root, d, h) <==> HasHost(m, h) && h.domain == d
    {
      DomainVertexHosts(d, m[d]);
      forall h ensures Below(root, d, h) <==> HasHost(m, h) && h.domain == d {
        DomainOf(m, d, h);
      }
    }
    ChildHostsDistinct(root, names);
    forall h ensures BelowSome(root, names, h) <==> HasHost(m, h) {
      if HasHost(m, h) {
        assert h.domain in names;
        assert Below(root, h.domain, h);
      }
    }
  }

  lemma DomainOf(m: DomainTable, d: string, h: HostInfo)
    requires WellKeyed(m) && d in m
    ensures Holds(m[d], h) <==> HasHost(m, h) && h.domain == d
  {}

  // ---------------------------------------------------------------- no slot mixes domains

  lemma {:induction false} SlotHostsIn(slots: seq<BaseBlock>, i: nat, h: HostInfo)
    requires i < |slots| && h in LeafHosts(slots[i].leaves)
    ensures h in BlockHosts(slots)
    decreases |slots|
  {
    var last := |slots| - 1;
    if i < last {
      assert slots[..last][i] == slots[i];
      SlotHostsIn(slots[..last], i, h);
    }
  }

  lemma {:induction false} SlotOfDomain(root: BlockVertex, names: seq<string>, sizes: seq<int>, i: nat)
      returns (d: string)
    requires sizes != [] && sizes[0] > 0 && forall n :: n in names ==> n in root.children
    requires i < |RootParts(root, names, sizes)|
    ensures d in names && RootParts(root, names, sizes)[i] in RootPart(root, d, sizes)
    decreases |names|
  {
    var last := |names| - 1;
    if i < |RootParts(root, names[..last], sizes)| {
      d := SlotOfDomain(root, names[..last], sizes, i);
    } else {
      d := names[last];
    }
  }

  lemma {:induction false} SlotOfChild(v: BlockVertex, names: seq<string>, sizes: seq<int>, i: nat) returns (c: string)
    requires sizes != [] && sizes[0] > 0 && forall n :: n in names ==> n in v.children
    requires i < |ChildSlots(v, names, sizes)|
    ensures c in names && ChildSlots(v, names, sizes)[i] in Slots(v.children[c], v.maxChild, sizes)
    decreases |names|
  {
    var last := |names| - 1;
    if i < |ChildSlots(v, names[..last], sizes)| {
      c := SlotOfChild(v, names[..last], sizes, i);
    } else {
      c := names[last];
    }
  }

  /** What `Padded` adds holds no host. */
  lemma PaddedSlot(blocks: seq<BaseBlock>, width: int, base: nat, b: BaseBlock)
    requires b in Padded(blocks, width, base) && LeafHosts(b.leaves) != []
    ensures b in blocks
  {
    EmptyBlockShaped(base);
  }

  lemma HostOfSlots(blocks: seq<BaseBlock>, b: BaseBlock, h: HostInfo)
    requires b in blocks && h in LeafHosts(b.leaves)
    ensures h in BlockHosts(blocks)
  {
    var i :| 0 <= i < |blocks| && blocks[i] == b;
    SlotHostsIn(blocks, i, h);
  }

  /** Hosts of one domain and, where that domain has sub-domains, of one sub-domain. */
  ghost predicate SameGroup(m: DomainTable, g: HostInfo, h: HostInfo) {
    && g.domain == h.domain
    && (g.domain in m && SomeSubDomain(m[g.domain]) ==> SubName(g.domain, g) == SubName(g.domain, h))
  }

  lemma DomainSlot(m: DomainTable, sizes: seq<int>, d: string, b: BaseBlock, h: HostInfo)
    requires WellKeyed(m) && sizes != [] && sizes[0] > 0 && d in m && d in DomainTree(m).children
    requires b in RootPart(DomainTree(m), d, sizes) && h in LeafHosts(b.leaves)
    ensures h.domain == d && Holds(m[d], h)
  {
    var root := DomainTree(m);
    RootPartConserves(root, d, sizes);
    HostOfSlots(RootPart(root, d, sizes), b, h);
    DomainVertexHosts(d, m[d]);
    DomainOf(m, d, h);
  }

  /** A slot of a domain with sub-domains belongs to one of them. */
  lemma SubDomainSlot(m: DomainTable, sizes: seq<int>, d: string, b: BaseBlock) returns (c: string)
    requires WellKeyed(m) && sizes != [] && sizes[0] > 0 && d in m && SomeSubDomain(m[d]) && d in DomainTree(m).children
    requires b in RootPart(DomainTree(m), d, sizes) && LeafHosts(b.leaves) != []
    ensures c in SubNames(d, m[d]) && forall h :: h in LeafHosts(b.leaves) ==> SubName(d, h) == c
  {
    var v, max := DomainVertex(d, m[d]), DomainTree(m).maxChild;
    SlotsOfInterior(v, max, sizes);
    var names := Sorted(v.children.Keys);
    var blocks := ChildSlots(v, names, sizes);
    PaddedSlot(blocks, FilledWidth(|blocks|, InteriorWidth(max, sizes), sizes), sizes[0], b);
    var i :| 0 <= i < |blocks| && blocks[i] == b;
    c := SlotOfChild(v, names, sizes, i);
    SlotsConserve(v.children[c], v.maxChild, sizes);
    SubVertexHosts(d, m[d], c);
    forall h | h in LeafHosts(b.leaves) ensures SubName(d, h) == c {
      HostOfSlots(Slots(v.children[c], v.maxChild, sizes), b, h);
    }
  }

  /** A root slot that holds a host belongs to one domain. */
  lemma SlotDomain(root: BlockVertex, sizes: seq<int>, b: BaseBlock) returns (d: string)
    requires UsableSizes(sizes) && b in RootSlots(root, sizes) && LeafHosts(b.leaves) != []
    ensures d in root.children && b in RootPart(root, d, sizes)
  {
    var names := Sorted(root.children.Keys);
    var parts := RootParts(root, names, sizes);
    var target := PadTarget(Nodes(sizes[0], |parts|), PadStep(root, names, sizes), Last(sizes));
    PaddedSlot(parts, target / sizes[0], sizes[0], b);
    var j :| 0 <= j < |parts| && parts[j] == b;
    d := SlotOfDomain(root, names, sizes, j);
  }

  /** No slot mixes hosts of different domains, nor of different sub-domains of one. */
  lemma NoMixedSlot(m: DomainTable, sizes: seq<int>, i: nat, g: HostInfo, h: HostInfo)
    requires WellKeyed(m) && UsableSizes(sizes) && i < |RootSlots(DomainTree(m), sizes)|
    requires g in LeafHosts(RootSlots(DomainTree(m), sizes)[i].leaves)
             && h in LeafHosts(RootSlots(DomainTree(m), sizes)[i].leaves)
    ensures SameGroup(m, g, h)
  {
    var b := RootSlots(DomainTree(m), sizes)[i];
    var d := SlotDomain(DomainTree(m), sizes, b);
    DomainSlot(m, sizes, d, b, g);
    DomainSlot(m, sizes, d, b, h);
    if SomeSubDomain(m[d]) { var c := SubDomainSlot(m, sizes, d, b); }
  }

  // ---------------------------------------------------------------- alignment

  lemma SlotWidthPow2(n: int, base: int)
    requires base > 0
    ensures IsPow2(SlotWidth(n, base))
  {
    CapacityWidth(n, base);
  }

  /** Widths over one base divide each other as soon as one reaches past the other. */
  lemma SlotWidthChain(m: int, n: int, base: int)
    requires base > 0 && m <= n
    ensures Divides(SlotWidth(m, base), SlotWidth(n, base))
  {
    var w, w' := SlotWidth(m, base), SlotWidth(n, base);
    CapacityDivides(m, n, base);
    DividesElim(base * w, base * w');
    var k := (base * w') / (base * w);
    Associate(base, w, k);
    CancelFactor(base, w', w * k);
    DividesIntro(w, k);
  }

  /** N0 in base blocks: the slot every interior sibling is sized for. */
  ghost function UnitWidth(maxSibling: int, sizes: seq<int>): (w: int)
    requires sizes != [] && sizes[0] > 0
    ensures w >= 1 && Capacity(Min(Last(sizes), maxSibling), sizes[0]) == sizes[0] * w
  {
    SlotWidth(Min(Last(sizes), maxSibling), sizes[0])
  }

  lemma FilledWidthAligned(actual: nat, maxSibling: int, sizes: seq<int>)
    requires UsableSizes(sizes)
    ensures var w := UnitWidth(maxSibling, sizes);
            var r := Max(actual, FilledWidth(actual, InteriorWidth(maxSibling, sizes), sizes));
            && Divides(w, r)
            && (|sizes| >= 2 ==> IsPow2(r) && r == FilledWidth(actual, InteriorWidth(maxSibling, sizes), sizes))
  {
    var base, unit := sizes[0], Min(Last(sizes), maxSibling);
    var w := UnitWidth(maxSibling, sizes);
    SlotWidthPow2(unit, base);
    DividesIntro(w, 1);
    if actual > w && |sizes| >= 2 {
      var align := AlignSize(Nodes(base, actual), sizes[1..]);
      CancelAtMost(base, actual, SlotWidth(align, base));
      SlotWidthPow2(align, base);
      ScaleMonotone(base, w, actual);
      SlotWidthChain(unit, align, base);
    } else if actual > w {
      assert Capacity(unit, base) == base;
      CancelFactor(base, w, 1);
    }
  }

  /** A domain with sub-domains occupies a multiple of N0; with two or more block sizes, a power of two. */
  lemma InteriorAligned(v: BlockVertex, maxSibling: int, sizes: seq<int>)
    requires UsableSizes(sizes) && v.hosts.None?
    ensures Divides(UnitWidth(maxSibling, sizes), |Slots(v, maxSibling, sizes)|)
    ensures |sizes| >= 2 ==> IsPow2(|Slots(v, maxSibling, sizes)|)
  {
    SlotsOfInterior(v, maxSibling, sizes);
    var blocks := ChildSlots(v, Sorted(v.children.Keys), sizes);
    PaddedLength(blocks, FilledWidth(|blocks|, InteriorWidth(maxSibling, sizes), sizes), sizes[0]);
    FilledWidthAligned(|blocks|, maxSibling, sizes);
  }

  /** When every domain has sub-domains, each one starts on an N0 boundary. */
  lemma {:induction false} DomainsAligned(root: BlockVertex, names: seq<string>, sizes: seq<int>)
    requires UsableSizes(sizes) && forall n :: n in names ==> n in root.children
    requires root.children != map[] && forall c :: c in root.children ==> root.children[c].hosts.None?
    ensures Divides(UnitWidth(root.maxChild, sizes), |RootParts(root, names, sizes)|)
    decreases |names|
  {
    if names == [] {
      DividesIntro(UnitWidth(root.maxChild, sizes), 0);
    } else {
      var i := |names| - 1;
      DomainsAligned(root, names[..i], sizes);
      DomainIsUnits(root, names[i], sizes);
      RootCount(root, names, sizes);
      UnitsSum(UnitWidth(root.maxChild, sizes), |RootParts(root, names[..i], sizes)|, |RootPart(root, names[i], sizes)|,
               |RootParts(root, names, sizes)|);
    }
  }

  lemma UnitsSum(w: int, a: int, b: int, sum: int)
    requires w > 0 && Divides(w, a) && Divides(w, b) && sum == a + b
    ensures Divides(w, sum)
  {
    DividesSum(w, a, b);
  }

  // ---------------------------------------------------------------- stable positions

  lemma ChunksCount(id: string, hosts: seq<HostInfo>, base: int, k: nat)
    requires base > 0 && hosts != []
    ensures |Chunks(id, hosts, base, k)| == 1 + |Chunks(id, hosts[Min(base, |hosts|)..], base, k + 1)|
  {}

  lemma {:induction false} ChunksFit(id: string, hosts: seq<HostInfo>, base: int, k: nat, width: nat)
    requires base > 0 && |hosts| <= Nodes(base, width)
    ensures |Chunks(id, hosts, base, k)| <= width
    decreases |hosts|
  {
    if hosts != [] {
      FewerHosts(base, width, |hosts|);
      ChunksFit(id, hosts[Min(base, |hosts|)..], base, k + 1, width - 1);
      ChunksCount(id, hosts, base, k);
    }
  }

  lemma FewerHosts(base: int, width: nat, n: nat)
    requires base > 0 && 0 < n <= Nodes(base, width)
    ensures width > 0 && n - Min(base, n) <= Nodes(base, width - 1)
  {
    if width > 0 { OneMoreWidth(base, width - 1); }
  }

  lemma PackFits(id: string, hosts: seq<HostInfo>, base: int, width: nat)
    requires base > 0 && |hosts| <= Nodes(base, width)
    ensures |Pack(id, hosts, width, base)| == width
  {
    ChunksFit(id, hosts, base, 0, width);
    PaddedLength(Chunks(id, hosts, base, 0), width, base);
  }

  ghost predicate NoSubDomains(m: DomainTable) {
    m != map[] && forall d :: d in m ==> !SomeSubDomain(m[d])
  }

  /** The common slot width of a single-level map. */
  ghost function CommonWidth(m: DomainTable, sizes: seq<int>): (w: int)
    requires sizes != [] && sizes[0] > 0
    ensures w >= 1
  {
    SlotWidth(DomainTree(m).maxChild, sizes[0])
  }

  lemma SingleLevelPart(m: DomainTable, d: string, sizes: seq<int>)
    requires NoSubDomains(m) && d in m && |sizes| >= 2 && sizes[0] > 0
    ensures SingleLevel(DomainTree(m))
    ensures RootPart(DomainTree(m), d, sizes) == Pack(d, SortedHosts(m[d]), CommonWidth(m, sizes), sizes[0])
    ensures |RootPart(DomainTree(m), d, sizes)| == CommonWidth(m, sizes)
  {
    var root := DomainTree(m);
    assert root.children == DomainVertices(m);
    assert root.children[d] == DomainVertex(d, m[d]);
    assert SortedHosts(m[d]) == HostList(m[d], Sorted(m[d].Keys));
    PackFits(d, SortedHosts(m[d]), sizes[0], CommonWidth(m, sizes));
  }

  lemma RootPartsUnfold(root: BlockVertex, names: seq<string>, sizes: seq<int>)
    requires sizes != [] && sizes[0] > 0 && names != [] && forall n :: n in names ==> n in root.children
    ensures var i := |names| - 1;
            RootParts(root, names, sizes) == RootParts(root, names[..i], sizes) + RootPart(root, names[i], sizes)
  {}

  lemma {:induction false} SingleLevelPrefix(m: DomainTable, names: seq<string>, sizes: seq<int>)
    requires NoSubDomains(m) && |sizes| >= 2 && sizes[0] > 0 && forall n :: n in names ==> n in m
    ensures |RootParts(DomainTree(m), names, sizes)| == Nodes(CommonWidth(m, sizes), |names|)
    decreases |names|
  {
    if names != [] {
      var i := |names| - 1;
      RootPartsUnfold(DomainTree(m), names, sizes);
      SingleLevelPrefix(m, names[..i], sizes);
      SingleLevelPart(m, names[i], sizes);
      OneMoreWidth(CommonWidth(m, sizes), i);
    }
  }

  lemma OneMoreWidth(w: int, i: nat)
    requires w > 0
    ensures Nodes(w, i + 1) == Nodes(w, i) + w
  {}

  /** `part` occupies the slots from `at` on. */
  ghost predicate SitsAt(slots: seq<BaseBlock>, at: nat, part: seq<BaseBlock>) {
    at + |part| <= |slots| && slots[at..at + |part|] == part
  }

  lemma SitsInLarger(slots: seq<BaseBlock>, more: seq<BaseBlock>, at: nat, part: seq<BaseBlock>)
    requires SitsAt(slots, at, part)
    ensures SitsAt(slots + more, at, part)
  {
    assert (slots + more)[at..at + |part|] == slots[at..at + |part|];
  }

  ghost function Flatten(parts: seq<seq<BaseBlock>>): seq<BaseBlock> {
    if parts == [] then [] else Flatten(parts[..|parts| - 1]) + parts[|parts| - 1]
  }

  lemma {:induction false} FlattenPosition(parts: seq<seq<BaseBlock>>, i: nat)
    requires i < |parts|
    ensures SitsAt(Flatten(parts), |Flatten(parts[..i])|, parts[i])
    decreases |parts|
  {
    var last := |parts| - 1;
    if i < last {
      FlattenPosition(parts[..last], i);
      assert parts[..last][..i] == parts[..i];
      SitsInLarger(Flatten(parts[..last]), parts[last], |Flatten(parts[..i])|, parts[i]);
    }
  }

  ghost function PartList(root: BlockVertex, names: seq<string>, sizes: seq<int>): seq<seq<BaseBlock>>
    requires sizes != [] && sizes[0] > 0 && forall n :: n in names ==> n in root.children
  {
    seq(|names|, i requires 0 <= i < |names| => RootPart(root, names[i], sizes))
  }

  lemma {:induction false} RootPartsFlatten(root: BlockVertex, names: seq<string>, sizes: seq<int>)
    requires sizes != [] && sizes[0] > 0 && forall n :: n in names ==> n in root.children
    ensures RootParts(root, names, sizes) == Flatten(PartList(root, names, sizes))
    decreases |names|
  {
    if names != [] {
      var i := |names| - 1;
      RootPartsFlatten(root, names[..i], sizes);
      PartListPrefix(root, names, i, sizes);
      RootPartsUnfold(root, names, sizes);
    }
  }

  lemma PartListPrefix(root: BlockVertex, names: seq<string>, i: nat, sizes: seq<int>)
    requires sizes != [] && sizes[0] > 0 && i <= |names| && forall n :: n in names ==> n in root.children
    ensures PartList(root, names, sizes)[..i] == PartList(root, names[..i], sizes)
  {}

  lemma PartPosition(root: BlockVertex, names: seq<string>, i: nat, sizes: seq<int>)
    requires sizes != [] && sizes[0] > 0 && i < |names| && forall n :: n in names ==> n in root.children
    ensures SitsAt(RootParts(root, names, sizes), |RootParts(root, names[..i], sizes)|, RootPart(root, names[i], sizes))
  {
    var parts := PartList(root, names, sizes);
    RootPartsFlatten(root, names, sizes);
    RootPartsFlatten(root, names[..i], sizes);
    PartListPrefix(root, names, i, sizes);
    FlattenPosition(parts, i);
  }

  lemma PaddedExtends(blocks: seq<BaseBlock>, width: int, base: nat)
    ensures Padded(blocks, width, base) == blocks + Empties(width - |blocks|, base)
  {}

  lemma RootSlotsExtendParts(root: BlockVertex, sizes: seq<int>) returns (pad: seq<BaseBlock>)
    requires UsableSizes(sizes)
    ensures RootSlots(root, sizes) == RootParts(root, Sorted(root.children.Keys), sizes) + pad
  {
    var names := Sorted(root.children.Keys);
    var parts := RootParts(root, names, sizes);
    var width := PadTarget(Nodes(sizes[0], |parts|), PadStep(root, names, sizes), Last(sizes)) / sizes[0];
    PaddedExtends(parts, width, sizes[0]);
    pad := Empties(width - |parts|, sizes[0]);
  }

  /** With two or more block sizes the i-th domain of a single-level map, in name order, starts at slot
      i times the common width. */
  lemma DomainPosition(m: DomainTable, i: nat, sizes: seq<int>)
    requires NoSubDomains(m) && |sizes| >= 2 && UsableSizes(sizes) && i < |Sorted(m.Keys)|
    ensures var w := CommonWidth(m, sizes);
            var d := Sorted(m.Keys)[i];
            d in m && SitsAt(RootSlots(DomainTree(m), sizes), Nodes(w, i), Pack(d, SortedHosts(m[d]), w, sizes[0]))
  {
    var root, names, w := DomainTree(m), Sorted(m.Keys), CommonWidth(m, sizes);
    assert root.children.Keys == m.Keys;
    assert names[i] in names;
    SingleLevelPart(m, names[i], sizes);
    SingleLevelPrefix(m, names[..i], sizes);
    PartPosition(root, names, i, sizes);
    var pad := RootSlotsExtendParts(root, sizes);
    SitsInLarger(RootParts(root, names, sizes), pad, Nodes(w, i), RootPart(root, names[i], sizes));
  }

  ghost predicate AllSubDomains(m: DomainTable) {
    m != map[] && forall d :: d in m ==> SomeSubDomain(m[d])
  }

  /** When every domain has a sub-domain, the i-th domain in name order occupies whole units of N0, from an N0 boundary
      on, and its slots hold exactly its hosts. */
  lemma DomainStartsAligned(m: DomainTable, i: nat, sizes: seq<int>) returns (at: nat)
    requires AllSubDomains(m) && WellKeyed(m) && UsableSizes(sizes) && i < |Sorted(m.Keys)|
    ensures var d := Sorted(m.Keys)[i];
            var root := DomainTree(m);
            && d in m && d in root.children && Divides(UnitWidth(root.maxChild, sizes), at)
            && Divides(UnitWidth(root.maxChild, sizes), |RootPart(root, d, sizes)|)
            && SitsAt(RootSlots(root, sizes), at, RootPart(root, d, sizes))
            && BlockHosts(RootPart(root, d, sizes)) == VertexHosts(DomainVertex(d, m[d]))
  {
    var root, names := DomainTree(m), Sorted(m.Keys);
    assert root.children.Keys == m.Keys && names[i] in names;
    forall c | c in root.children
      ensures root.children[c].hosts.None?
    {
      assert root.children[c] == DomainVertex(c, m[c]);
    }
    DomainsAligned(root, names[..i], sizes);
    DomainIsUnits(root, names[i], sizes);
    RootPartConserves(root, names[i], sizes);
    PartPosition(root, names, i, sizes);
    at := |RootParts(root, names[..i], sizes)|;
    var pad := RootSlotsExtendParts(root, sizes);
    SitsInLarger(RootParts(root, names, sizes), pad, at, RootPart(root, names[i], sizes));
  }

  lemma DomainIsUnits(root: BlockVertex, d: string, sizes: seq<int>)
    requires UsableSizes(sizes) && d in root.children && root.children[d].hosts.None?
    ensures Divides(UnitWidth(root.maxChild, sizes), |RootPart(root, d, sizes)|)
  {
    assert !SingleLevel(root);
    InteriorAligned(root.children[d], root.maxChild, sizes);
  }

  /** Changing other domains moves no host of a domain as long as the common width is unchanged. */
  lemma PositionsStable(m: DomainTable, m': DomainTable, d: string, i: nat, sizes: seq<int>)
    requires NoSubDomains(m) && NoSubDomains(m') && m.Keys == m'.Keys
    requires |sizes| >= 2 && UsableSizes(sizes) && i < |Sorted(m.Keys)| && d == Sorted(m.Keys)[i]
    requires CommonWidth(m, sizes) == CommonWidth(m', sizes)
    requires d in m && m[d] == m'[d]
    ensures exists part :: BlockHosts(part) == SortedHosts(m[d])
                           && SitsAt(RootSlots(DomainTree(m), sizes), Nodes(CommonWidth(m, sizes), i), part)
                           && SitsAt(RootSlots(DomainTree(m'), sizes), Nodes(CommonWidth(m, sizes), i), part)
  {
    var part := Pack(d, SortedHosts(m[d]), CommonWidth(m, sizes), sizes[0]);
    PackConserves(d, SortedHosts(m[d]), CommonWidth(m, sizes), sizes[0]);
    DomainPosition(m, i, sizes);
    DomainPosition(m', i, sizes);
    assert SitsAt(RootSlots(DomainTree(m), sizes), Nodes(CommonWidth(m, sizes), i), part);
  }
}

/** From domain maps to the emitted block list (pkg/translate/block_complement.go and the
    block-size inference of pkg/topology/domain.go). */
module Complement {
  import opened Wrappers
  import opened Lex
  import opened Arithmetic
  import opened Domains
  import opened BlockTree
  import opened RootPadding
  import opened BlockTheorems
  import BlockSizes

  datatype BlockInfo = BlockInfo(id: string, name: string, nodes: seq<string>)

  // ---------------------------------------------------------------- inferred block sizes

  ghost function SubGroup(hosts: HostMap, g: string): set<string> {
    set k | k in hosts && hosts[k].subDomain == g
  }

  /** `sizes` counts, per named sub-domain, the hosts among `keys`. */
  ghost predicate Counts(hosts: HostMap, keys: set<string>, sizes: map<string, nat>)
    requires keys <= hosts.Keys
  {
    forall g :: g != "" ==> CountAt(hosts, keys, sizes, g)
  }

  ghost predicate CountAt(hosts: HostMap, keys: set<string>, sizes: map<string, nat>, g: string) {
    |SubGroup(hosts, g) * keys| == if g in sizes then sizes[g] else 0
  }

  lemma CountStep(hosts: HostMap, keys: set<string>, k: string, g: string)
    requires k in hosts && k !in keys
    ensures |SubGroup(hosts, g) * (keys + {k})| ==
            |SubGroup(hosts, g) * keys| + if hosts[k].subDomain == g then 1 else 0
  {
    var group := SubGroup(hosts, g);
    if hosts[k].subDomain == g {
      assert group * (keys + {k}) == group * keys + {k};
    } else {
      assert group * (keys + {k}) == group * keys;
    }
  }

  method CountHost(hosts: HostMap, ghost done: set<string>, k: string, before: map<string, nat>)
      returns (sizes: map<string, nat>)
    requires done <= hosts.Keys && k in hosts && k !in done && "" !in before && Counts(hosts, done, before)
    ensures "" !in sizes && Counts(hosts, done + {k}, sizes)
  {
    sizes := before;
    var sub := hosts[k].subDomain;
    if sub != "" {
      sizes := sizes[sub := (if sub in sizes then sizes[sub] else 0) + 1];
    }
    forall g | g != "" ensures CountAt(hosts, done + {k}, sizes, g) {
      assert CountAt(hosts, done, before, g);
      CountStep(hosts, done, k, g);
    }
  }

  /** The number of hosts per named sub-domain. */
  ghost predicate IsSubCount(hosts: HostMap, sizes: map<string, nat>) {
    "" !in sizes && forall g :: g != "" ==> |SubGroup(hosts, g)| == if g in sizes then sizes[g] else 0
  }

  lemma CountsComplete(hosts: HostMap, sizes: map<string, nat>)
    requires "" !in sizes && Counts(hosts, hosts.Keys, sizes)
    ensures IsSubCount(hosts, sizes)
  {
    forall g | g != "" ensures |SubGroup(hosts, g)| == if g in sizes then sizes[g] else 0 {
      assert CountAt(hosts, hosts.Keys, sizes, g);
      assert SubGroup(hosts, g) * hosts.Keys == SubGroup(hosts, g);
    }
  }

  method CountSubDomains(hosts: HostMap) returns (sizes: map<string, nat>)
    ensures IsSubCount(hosts, sizes)
  {
    sizes := map[];
    var todo := hosts.Keys;
    while todo != {}
      invariant todo <= hosts.Keys
      invariant "" !in sizes && Counts(hosts, hosts.Keys - todo, sizes)
      decreases |todo|
    {
      var k :| k in todo;
      sizes := CountHost(hosts, hosts.Keys - todo, k, sizes);
      assert hosts.Keys - (todo - {k}) == hosts.Keys - todo + {k};
      todo := todo - {k};
    }
    assert hosts.Keys - todo == hosts.Keys;
    CountsComplete(hosts, sizes);
  }

  method LargestCount(sizes: map<string, nat>) returns (x: nat)
    ensures forall g :: g in sizes ==> sizes[g] <= x
    ensures x == 0 || exists g :: g in sizes && sizes[g] == x
  {
    x := 0;
    var todo := sizes.Keys;
    while todo != {}
      invariant todo <= sizes.Keys
      invariant forall g :: g in sizes && g !in todo ==> sizes[g] <= x
      invariant x == 0 || exists g :: g in sizes && sizes[g] == x
      decreases |todo|
    {
      var g :| g in todo;
      todo := todo - {g};
      if sizes[g] > x { x := sizes[g]; }
    }
  }

  /** `x` bounds every named sub-domain of the map and is attained when positive. */
  ghost predicate LargestSub(m: DomainTable, keys: set<string>, x: nat)
    requires keys <= m.Keys
  {
    && (forall d, g :: d in keys && g != "" ==> |SubGroup(m[d], g)| <= x)
    && (x > 0 ==> exists d, g :: d in keys && g != "" && |SubGroup(m[d], g)| == x)
  }

  ghost predicate LargestDomain(m: DomainTable, keys: set<string>, x: nat)
    requires keys <= m.Keys
  {
    && (forall d :: d in keys ==> |m[d]| <= x)
    && (x > 0 ==> exists d :: d in keys && |m[d]| == x)
  }

  /** One domain's contribution to the running maxima. */
  lemma LargestSubStep(m: DomainTable, keys: set<string>, d: string, x: nat, sizes: map<string, nat>, y: nat)
    requires keys <= m.Keys && d in m && LargestSub(m, keys, x)
    requires IsSubCount(m[d], sizes)
    requires forall g :: g in sizes ==> sizes[g] <= y
    requires y == 0 || exists g :: g in sizes && sizes[g] == y
    ensures LargestSub(m, keys + {d}, if y > x then y else x)
  {
    var z := if y > x then y else x;
    forall e, g | e in keys + {d} && g != "" ensures |SubGroup(m[e], g)| <= z {
      if e in keys { assert |SubGroup(m[e], g)| <= x; }
    }
    if z > 0 {
      if y > x {
        var g :| g in sizes && sizes[g] == y;
        assert d in keys + {d} && g != "" && |SubGroup(m[d], g)| == z;
      } else {
        var e, g :| e in keys && g != "" && |SubGroup(m[e], g)| == x;
        assert e in keys + {d} && g != "" && |SubGroup(m[e], g)| == z;
      }
    }
  }

  method VisitDomain(m: DomainTable, ghost done: set<string>, d: string, x: nat, y: nat)
      returns (maxDomain: nat, maxSub: nat)
    requires done <= m.Keys && d in m && LargestDomain(m, done, x) && LargestSub(m, done, y)
    ensures LargestDomain(m, done + {d}, maxDomain) && LargestSub(m, done + {d}, maxSub)
  {
    maxDomain, maxSub := x, y;
    var sizes := CountSubDomains(m[d]);
    var z := LargestCount(sizes);
    LargestSubStep(m, done, d, y, sizes, z);
    if |m[d]| > maxDomain { maxDomain := |m[d]|; }
    if z > maxSub { maxSub := z; }
  }

  method Largest(m: DomainTable) returns (maxDomain: nat, maxSub: nat)
    ensures LargestDomain(m, m.Keys, maxDomain) && LargestSub(m, m.Keys, maxSub)
  {
    maxDomain, maxSub := 0, 0;
    var todo := m.Keys;
    while todo != {}
      invariant todo <= m.Keys
      invariant LargestDomain(m, m.Keys - todo, maxDomain) && LargestSub(m, m.Keys - todo, maxSub)
      decreases |todo|
    {
      var d :| d in todo;
      maxDomain, maxSub := VisitDomain(m, m.Keys - todo, d, maxDomain, maxSub);
      assert m.Keys - (todo - {d}) == m.Keys - todo + {d};
      todo := todo - {d};
    }
    assert m.Keys - todo == m.Keys;
  }

  ghost predicate TwoLevel(m: DomainTable) {
    exists d :: d in m && SomeSubDomain(m[d])
  }

  lemma TwoLevelIffSub(m: DomainTable, x: nat)
    requires LargestSub(m, m.Keys, x)
    ensures TwoLevel(m) <==> x > 0
  {
    if TwoLevel(m) {
      var d :| d in m && SomeSubDomain(m[d]);
      var k :| k in m[d] && m[d][k].subDomain != "";
      assert k in SubGroup(m[d], m[d][k].subDomain);
    }
    if x > 0 {
      var d, g :| d in m && g != "" && |SubGroup(m[d], g)| == x;
      var k :| k in SubGroup(m[d], g);
      assert k in m[d] && m[d][k].subDomain != "";
    }
  }

  /** The sizes inferred for a map. */
  ghost predicate Inferred(m: DomainTable, sizes: seq<int>) {
    && (sizes == [] <==> !TwoLevel(m))
    && (sizes != [] ==>
          && UsableSizes(sizes) && LargestSub(m, m.Keys, sizes[0])
          && (forall d :: d in m ==> |m[d]| <= Last(sizes))
          && (|sizes| == 1 || (|sizes| == 2 && BlockSizes.LegalStep(sizes[0], sizes[1])
                               && exists d :: d in m && Capacity(|m[d]|, sizes[0]) == sizes[1])))
  }

  /** InferTwoLevelBlockSizes: empty for maps without sub-domains; otherwise the largest sub-domain and,
      if a domain does not fit it, its smallest power-of-two multiple that holds the largest domain. */
  method InferTwoLevelBlockSizes(m: DomainTable) returns (sizes: seq<int>)
    ensures Inferred(m, sizes)
  {
    var maxDomain, maxSub := Largest(m);
    TwoLevelIffSub(m, maxSub);
    if maxSub == 0 { return []; }
    var aggregate := maxSub;
    while aggregate < maxDomain
      invariant aggregate > 0 && Capacity(maxDomain, aggregate) == Capacity(maxDomain, maxSub)
    {
      aggregate := aggregate * 2;
    }
    if aggregate == maxSub {
      return [maxSub];
    }
    var k := CapacityExponent(maxDomain, maxSub);
    assert maxSub * Pow2(0) == maxSub;
    assert BlockSizes.LegalStep(maxSub, aggregate);
    return [maxSub, aggregate];
  }

  // ---------------------------------------------------------------- emitted blocks

  function HostNames(leaves: seq<Leaf>): seq<string> {
    if leaves == [] then []
    else (if leaves[0].Occupied? && leaves[0].host.hostName != "" then [leaves[0].host.hostName] else []) +
         HostNames(leaves[1..])
  }

  function LeafDomains(leaves: seq<Leaf>): seq<string> {
    Sorted(set i | 0 <= i < |leaves| && leaves[i].Occupied? && leaves[i].host.domain != "" :: leaves[i].host.domain)
  }

  function DisplayName(blockID: string, domain: string): string {
    if domain != "" then domain else blockID
  }

  function FirstKnown(domains: seq<string>, byName: map<string, BlockInfo>): Option<string> {
    if domains == [] then None
    else if domains[0] in byName then Some(domains[0])
    else FirstKnown(domains[1..], byName)
  }

  /** "block%03d". */
  function BlockNumber(n: nat): string {
    var s := Decimal(n);
    "block" + (if |s| == 1 then "00" else if |s| == 2 then "0" else "") + s
  }

  /** The fallback chain: live host names, a known block of a leaf's domain, the bare domain, nothing. */
  function ToBlockInfo(bb: BaseBlock, byName: map<string, BlockInfo>, n: nat): BlockInfo {
    var nodes := HostNames(bb.leaves);
    var known := FirstKnown(LeafDomains(bb.leaves), byName);
    if nodes != [] then BlockInfo(BlockNumber(n), DisplayName(bb.id, bb.domain), nodes)
    else if known.Some? && known.value in byName then
      BlockInfo(BlockNumber(n), DisplayName(bb.id, known.value), byName[known.value].nodes)
    else if bb.domain != "" then BlockInfo(BlockNumber(n), DisplayName(bb.id, bb.domain), [])
    else BlockInfo(BlockNumber(n), "", [])
  }

  ghost function Names(hosts: seq<HostInfo>): seq<string> {
    seq(|hosts|, i requires 0 <= i < |hosts| => hosts[i].hostName)
  }

  lemma {:induction false} OccupiedIsHost(leaves: seq<Leaf>, i: nat)
    requires i < |leaves| && leaves[i].Occupied?
    ensures leaves[i].host in LeafHosts(leaves)
  {
    if i > 0 {
      OccupiedIsHost(leaves[1..], i - 1);
    }
  }

  lemma {:induction false} OccupiedNames(leaves: seq<Leaf>)
    requires forall i :: 0 <= i < |leaves| && leaves[i].Occupied? ==> leaves[i].host.hostName != ""
    ensures HostNames(leaves) == Names(LeafHosts(leaves))
  {
    if leaves != [] {
      OccupiedNames(leaves[1..]);
      if leaves[0].Occupied? { NamesCons(leaves[0].host, LeafHosts(leaves[1..])); }
    }
  }

  lemma HostNamesAreNames(leaves: seq<Leaf>)
    requires forall h :: h in LeafHosts(leaves) ==> h.hostName != ""
    ensures HostNames(leaves) == Names(LeafHosts(leaves))
  {
    forall i | 0 <= i < |leaves| && leaves[i].Occupied?
      ensures leaves[i].host.hostName != ""
    {
      OccupiedIsHost(leaves, i);
    }
    OccupiedNames(leaves);
  }

  lemma NamesCons(h: HostInfo, rest: seq<HostInfo>)
    ensures Names([h] + rest) == [h.hostName] + Names(rest)
  {}

  lemma {:induction false} NoDomainsWithoutHosts(leaves: seq<Leaf>)
    requires LeafHosts(leaves) == []
    ensures forall i :: 0 <= i < |leaves| ==> leaves[i].Vacant?
  {
    if leaves != [] {
      NoDomainsWithoutHosts(leaves[1..]);
      forall i | 0 <= i < |leaves| ensures leaves[i].Vacant? {
        if i > 0 { assert leaves[i] == leaves[1..][i - 1]; }
      }
    }
  }

  /** A slot of named hosts emits exactly their names; a placeholder emits neither name nor nodes. */
  lemma SlotEmits(bb: BaseBlock, base: nat, byName: map<string, BlockInfo>, n: nat)
    requires Shaped(bb, base) && forall h :: h in LeafHosts(bb.leaves) ==> h.hostName != ""
    ensures ToBlockInfo(bb, byName, n).nodes == Names(LeafHosts(bb.leaves))
    ensures LeafHosts(bb.leaves) == [] ==> ToBlockInfo(bb, byName, n).name == ""
  {
    HostNamesAreNames(bb.leaves);
    if LeafHosts(bb.leaves) == [] {
      NoDomainsWithoutHosts(bb.leaves);
      assert LeafDomains(bb.leaves) == [];
    }
  }

  // ---------------------------------------------------------------- partition-local domains

  ghost predicate OwnedBy(b: BlockInfo, h: HostInfo) {
    b.name == h.domain && h.hostName in b.nodes
  }

  ghost predicate Owned(blocks: seq<Option<BlockInfo>>, h: HostInfo) {
    exists i :: 0 <= i < |blocks| && blocks[i].Some? && OwnedBy(blocks[i].value, h)
  }

  ghost predicate SubTable(m: DomainTable, all: DomainTable) {
    forall h :: HasHost(m, h) ==> HasHost(all, h)
  }

  /** The inner loop of domainsForBlocks: copies the hosts a block owns into the local map. */
  method AddOwned(all: DomainTable, b: BlockInfo, local: DomainMap)
    requires WellKeyed(all) && "" !in all && b.name in all && local.Valid() && SubTable(local.m, all)
    modifies local
    ensures local.Valid() && SubTable(local.m, all)
    ensures forall h :: HasHost(local.m, h) <==> HasHost(old(local.m), h) || (HasHost(all, h) && OwnedBy(b, h))
  {
    var hosts := all[b.name];
    var todo := hosts.Keys;
    while todo != {}
      invariant todo <= hosts.Keys && local.Valid() && SubTable(local.m, all)
      invariant forall h :: HasHost(local.m, h) <==>
                            HasHost(old(local.m), h) || (HasHost(all, h) && OwnedBy(b, h) && h.hostName !in todo)
      decreases |todo|
    {
      var k :| k in todo;
      todo := todo - {k};
      var hi := hosts[k];
      assert HasHost(all, hi);
      if hi.hostName in b.nodes {
        local.AddHostInfo(Some(hi));
      }
    }
  }

  lemma OwnedStep(blocks: seq<Option<BlockInfo>>, i: nat, h: HostInfo)
    requires i < |blocks|
    ensures Owned(blocks[..i + 1], h) <==> Owned(blocks[..i], h) || (blocks[i].Some? && OwnedBy(blocks[i].value, h))
  {
    var longer, shorter := blocks[..i + 1], blocks[..i];
    if Owned(longer, h) {
      var j :| 0 <= j < |longer| && longer[j].Some? && OwnedBy(longer[j].value, h);
      if j < i { assert shorter[j] == longer[j]; }
    }
    if Owned(shorter, h) {
      var j :| 0 <= j < |shorter| && shorter[j].Some? && OwnedBy(shorter[j].value, h);
      assert longer[j] == shorter[j];
    }
    if blocks[i].Some? && OwnedBy(blocks[i].value, h) {
      assert longer[i] == blocks[i];
    }
  }

  /** domainsForBlocks: exactly the hosts of the cluster map that some given block names and lists. */
  method DomainsForBlocks(all: DomainTable, blocks: seq<Option<BlockInfo>>) returns (local: DomainMap)
    requires WellKeyed(all) && "" !in all
    ensures fresh(local) && local.Valid()
    ensures forall h :: HasHost(local.m, h) <==> HasHost(all, h) && Owned(blocks, h)
  {
    local := new DomainMap();
    for i := 0 to |blocks|
      invariant fresh(local) && local.Valid() && SubTable(local.m, all)
      invariant forall h :: HasHost(local.m, h) <==> HasHost(all, h) && Owned(blocks[..i], h)
    {
      forall h
        ensures Owned(blocks[..i + 1], h) <==> Owned(blocks[..i], h) || (blocks[i].Some? && OwnedBy(blocks[i].value, h))
      {
        OwnedStep(blocks, i, h);
      }
      var b := blocks[i];
      if b.None? || b.value.name == "" || b.value.name !in all { continue; }
      AddOwned(all, b.value, local);
    }
    assert blocks[..|blocks|] == blocks;
  }

  /** Block `i` has a name that no later block before `n` has. */
  ghost predicate IsLastNamed(blocks: seq<Option<BlockInfo>>, n: nat, i: nat)
    requires n <= |blocks|
  {
    && i < n && blocks[i].Some? && blocks[i].value.name != ""
    && forall j :: i < j < n && blocks[j].Some? ==> blocks[j].value.name != blocks[i].value.name
  }

  /** blocksByName: the last named block wins. */
  method BlocksByName(blocks: seq<Option<BlockInfo>>) returns (byName: map<string, BlockInfo>)
    ensures "" !in byName
    ensures forall n :: n in byName ==> byName[n].name == n && Some(byName[n]) in blocks
    ensures forall i :: 0 <= i < |blocks| && blocks[i].Some? && blocks[i].value.name != "" ==>
              blocks[i].value.name in byName
    ensures forall i :: 0 <= i < |blocks| && IsLastNamed(blocks, |blocks|, i) ==>
              byName[blocks[i].value.name] == blocks[i].value
  {
    byName := map[];
    for i := 0 to |blocks|
      invariant "" !in byName
      invariant forall n :: n in byName ==> byName[n].name == n && Some(byName[n]) in blocks
      invariant forall j :: 0 <= j < i && blocks[j].Some? && blocks[j].value.name != "" ==>
                  blocks[j].value.name in byName
      invariant forall j :: 0 <= j < i && IsLastNamed(blocks, i, j) ==> byName[blocks[j].value.name] == blocks[j].value
    {
      var b := blocks[i];
      if b.None? || b.value.name == "" { continue; }
      byName := byName[b.value.name := b.value];
    }
  }

  // ---------------------------------------------------------------- the whole pipeline

  ghost function EmittedNames(out: seq<BlockInfo>): seq<string> {
    if out == [] then [] else EmittedNames(out[..|out| - 1]) + out[|out| - 1].nodes
  }

  /** Slot by slot, the emitted blocks name the hosts packed into them and are numbered from 1. */
  ghost predicate Emits(slots: seq<BaseBlock>, out: seq<BlockInfo>) {
    && |out| == |slots|
    && forall i :: 0 <= i < |out| ==>
         && out[i].nodes == Names(LeafHosts(slots[i].leaves))
         && out[i].id == BlockNumber(i + 1)
         && (LeafHosts(slots[i].leaves) == [] ==> out[i].name == "")
  }

  lemma {:induction false} EmittedInOrder(slots: seq<BaseBlock>, out: seq<BlockInfo>)
    requires Emits(slots, out)
    ensures EmittedNames(out) == Names(BlockHosts(slots))
    decreases |out|
  {
    if out != [] {
      var i := |out| - 1;
      assert Emits(slots[..i], out[..i]);
      EmittedInOrder(slots[..i], out[..i]);
      var a, b := BlockHosts(slots[..i]), LeafHosts(slots[i].leaves);
      assert Names(a + b) == Names(a) + Names(b);
    }
  }

  ghost predicate NamedHosts(slots: seq<BaseBlock>) {
    forall i, h :: 0 <= i < |slots| && h in LeafHosts(slots[i].leaves) ==> h.hostName != ""
  }

  method EmitSlots(slots: seq<BaseBlock>, byName: map<string, BlockInfo>) returns (out: seq<BlockInfo>)
    ensures |out| == |slots| && forall i :: 0 <= i < |out| ==> out[i] == ToBlockInfo(slots[i], byName, i + 1)
  {
    out := [];
    for i := 0 to |slots|
      invariant |out| == i && forall j :: 0 <= j < i ==> out[j] == ToBlockInfo(slots[j], byName, j + 1)
    {
      out := out + [ToBlockInfo(slots[i], byName, i + 1)];
    }
  }

  lemma NamedSlotsEmit(slots: seq<BaseBlock>, base: nat, byName: map<string, BlockInfo>, out: seq<BlockInfo>)
    requires AllShaped(slots, base) && NamedHosts(slots)
    requires |out| == |slots| && forall i :: 0 <= i < |out| ==> out[i] == ToBlockInfo(slots[i], byName, i + 1)
    ensures Emits(slots, out)
  {
    forall i | 0 <= i < |out|
      ensures out[i].nodes == Names(LeafHosts(slots[i].leaves)) && out[i].id == BlockNumber(i + 1)
      ensures LeafHosts(slots[i].leaves) == [] ==> out[i].name == ""
    {
      SlotEmits(slots[i], base, byName, i + 1);
    }
  }

  /** buildBlockTree on a domain map: the tree flattens to the slots of the map's domain tree. */
  method BuildBlockTree(domains: DomainMap, sizes: seq<int>) returns (tree: Option<BlockNode>)
    requires domains.Valid() && (sizes == [] || sizes[0] <= 0 || UsableSizes(sizes))
    ensures tree.None? <==> sizes == [] || sizes[0] <= 0
    ensures tree.Some? ==> CollectSlots(tree.value) == RootSlots(DomainTree(domains.m), sizes)
  {
    if |sizes| == 0 || sizes[0] <= 0 { return None; }
    var root := domains.GetDomainTree();
    tree := ToRootAggregate(root, sizes);
  }

  /** An emitted block fits a base block, carries its number, and has no name without nodes. */
  ghost predicate Fits(b: BlockInfo, base: int, number: nat) {
    |b.nodes| <= base && b.id == BlockNumber(number) && (b.nodes == [] ==> b.name == "")
  }

  ghost predicate AllFit(out: seq<BlockInfo>, base: int) {
    forall i :: 0 <= i < |out| ==> Fits(out[i], base, i + 1)
  }

  lemma EmittedFit(slots: seq<BaseBlock>, base: nat, out: seq<BlockInfo>)
    requires AllShaped(slots, base) && Emits(slots, out)
    ensures AllFit(out, base)
  {
    forall i | 0 <= i < |out| ensures Fits(out[i], base, i + 1) {
      assert Shaped(slots[i], base);
      LeafHostsFit(slots[i].leaves);
    }
  }

  lemma {:induction false} LeafHostsFit(leaves: seq<Leaf>)
    ensures |LeafHosts(leaves)| <= |leaves|
  {
    if leaves != [] { LeafHostsFit(leaves[1..]); }
  }

  /** What complementBlocks emits when it does rebuild the block list: each owned host of the cluster map
      is named in exactly one position, nothing else is named, every block fits `sizes[0]`, and the list fills whole
      `Last(sizes)` groups. */
  ghost predicate Complemented(all: DomainTable, blocks: seq<Option<BlockInfo>>, sizes: seq<int>, out: seq<BlockInfo>) {
    && UsableSizes(sizes) && AllFit(out, sizes[0]) && |out| > 0 && Divides(Last(sizes), Nodes(sizes[0], |out|))
    && exists hosts: seq<HostInfo> ::
         && Distinct(hosts)
         && (forall h :: h in hosts <==> HasHost(all, h) && Owned(blocks, h))
         && EmittedNames(out) == Names(hosts)
  }

  ghost predicate AllNamed(m: DomainTable) {
    forall h :: HasHost(m, h) ==> h.hostName != ""
  }

  lemma SlotsAreNamed(all: DomainTable, m: DomainTable, sizes: seq<int>)
    requires WellKeyed(m) && UsableSizes(sizes) && SubTable(m, all)
    requires AllNamed(all)
    ensures var slots := RootSlots(DomainTree(m), sizes); AllShaped(slots, sizes[0]) && NamedHosts(slots)
  {
    HostsConserved(m, sizes);
    var slots := RootSlots(DomainTree(m), sizes);
    forall i, h | 0 <= i < |slots| && h in LeafHosts(slots[i].leaves) ensures h.hostName != "" {
      SlotHostsIn(slots, i, h);
    }
  }

  lemma PipelineConserves(all: DomainTable, blocks: seq<Option<BlockInfo>>, m: DomainTable,
                          sizes: seq<int>, out: seq<BlockInfo>)
    requires WellKeyed(m) && m != map[] && UsableSizes(sizes)
    requires forall h :: HasHost(m, h) <==> HasHost(all, h) && Owned(blocks, h)
    requires Emits(RootSlots(DomainTree(m), sizes), out)
    ensures Complemented(all, blocks, sizes, out)
  {
    var slots := RootSlots(DomainTree(m), sizes);
    HostsConserved(m, sizes);
    EmittedInOrder(slots, out);
    EmittedFit(slots, sizes[0], out);
    WholeGroups(m, sizes);
    ComplementedBy(all, blocks, sizes, out, BlockHosts(slots));
  }

  lemma WholeGroups(m: DomainTable, sizes: seq<int>)
    requires WellKeyed(m) && m != map[] && UsableSizes(sizes)
    ensures var n := |RootSlots(DomainTree(m), sizes)|; n > 0 && Divides(Last(sizes), Nodes(sizes[0], n))
  {
    var d :| d in m;
    assert d in DomainTree(m).children;
    RootCapacity(DomainTree(m), sizes);
  }

  lemma ComplementedBy(all: DomainTable,
                       blocks: seq<Option<BlockInfo>>, sizes: seq<int>, out: seq<BlockInfo>, hosts: seq<HostInfo>)
    requires Distinct(hosts) && (forall h :: h in hosts <==> HasHost(all, h) && Owned(blocks, h))
             && EmittedNames(out) == Names(hosts)
    requires UsableSizes(sizes) && AllFit(out, sizes[0]) && |out| > 0 && Divides(Last(sizes), Nodes(sizes[0], |out|))
    ensures Complemented(all, blocks, sizes, out)
  {}

  /** Some host of the cluster map is owned by the given blocks; `sub` asks for one with a sub-domain. */
  ghost predicate SomeOwned(all: DomainTable, blocks: seq<Option<BlockInfo>>, sub: bool) {
    exists h :: HasHost(all, h) && Owned(blocks, h) && (sub ==> h.subDomain != "")
  }

  /** `m` holds exactly the owned hosts of the cluster map. */
  ghost predicate OwnedPart(all: DomainTable, blocks: seq<Option<BlockInfo>>, m: DomainTable) {
    && WellKeyed(m) && (forall d :: d in m ==> m[d] != map[])
    && forall h :: HasHost(m, h) <==> HasHost(all, h) && Owned(blocks, h)
  }

  lemma OwnedPartSize(all: DomainTable, blocks: seq<Option<BlockInfo>>, m: DomainTable)
    requires OwnedPart(all, blocks, m)
    ensures m != map[] <==> SomeOwned(all, blocks, false)
    ensures TwoLevel(m) <==> SomeOwned(all, blocks, true)
  {
    if m != map[] {
      var d :| d in m;
      var k :| k in m[d];
      assert HasHost(m, m[d][k]);
    }
    if TwoLevel(m) {
      var d :| d in m && SomeSubDomain(m[d]);
      var k :| k in m[d] && m[d][k].subDomain != "";
      assert HasHost(m, m[d][k]);
    }
    if SomeOwned(all, blocks, true) {
      var h :| HasHost(all, h) && Owned(blocks, h) && h.subDomain != "";
      assert HasHost(m, h) && SomeSubDomain(m[h.domain]);
    }
    if SomeOwned(all, blocks, false) {
      var h :| HasHost(all, h) && Owned(blocks, h);
      assert HasHost(m, h);
    }
  }

  /** When the block list is rebuilt: some host is owned, and the first given size is positive, or none is given and
      some owned host has a sub-domain. */
  ghost predicate Rebuilds(domains: Option<DomainTable>, blocks: seq<Option<BlockInfo>>, sizes: seq<int>) {
    domains.Some? && SomeOwned(domains.value, blocks, false)
      && if sizes == [] then SomeOwned(domains.value, blocks, true) else sizes[0] > 0
  }

  /** complementBlocks; `out` is absent where the source hands the given blocks back unchanged. Given sizes are kept;
      missing ones are inferred from the owned part of the cluster map, if there is one. */
  method ComplementBlocks(domains: Option<DomainTable>, blocks: seq<Option<BlockInfo>>, sizes: seq<int>)
      returns (out: Option<seq<BlockInfo>>, sizes': seq<int>)
    requires sizes == [] || sizes[0] <= 0 || UsableSizes(sizes)
    requires domains.Some? ==> WellKeyed(domains.value) && "" !in domains.value
    ensures out.Some? <==> Rebuilds(domains, blocks, sizes)
    ensures out.Some? && AllNamed(domains.value) ==> Complemented(domains.value, blocks, sizes', out.value)
    ensures sizes != [] ==> sizes' == sizes
    ensures sizes == [] ==> if domains.None? then sizes' == []
                            else exists m :: && OwnedPart(domains.value, blocks, m)
                                             && if m == map[] then sizes' == [] else Inferred(m, sizes')
  {
    out, sizes' := None, sizes;
    if domains.None? { return; }
    var local := DomainsForBlocks(domains.value, blocks);
    assert OwnedPart(domains.value, blocks, local.m);
    OwnedPartSize(domains.value, blocks, local.m);
    if local.m == map[] {
      return;
    }
    if |sizes| < 1 {
      sizes' := InferTwoLevelBlockSizes(local.m);
      if |sizes'| == 0 { return; }
    }
    out := Rebuild(domains.value, blocks, local, sizes');
  }

  /** The rest of complementBlocks, once there are hosts and sizes. */
  method Rebuild(ghost all: DomainTable, blocks: seq<Option<BlockInfo>>, local: DomainMap, sizes: seq<int>)
      returns (out: Option<seq<BlockInfo>>)
    requires local.Valid() && local.m != map[] && OwnedPart(all, blocks, local.m)
    requires sizes != [] && (sizes[0] <= 0 || UsableSizes(sizes))
    ensures out.Some? <==> sizes[0] > 0
    ensures out.Some? && AllNamed(all) ==> Complemented(all, blocks, sizes, out.value)
  {
    var byName := BlocksByName(blocks);
    var tree := BuildBlockTree(local, sizes);
    if tree.None? { return None; }
    var slots := CollectSlots(tree.value);
    var blockList := EmitSlots(slots, byName);
    if AllNamed(all) {
      SlotsAreNamed(all, local.m, sizes);
      NamedSlotsEmit(slots, sizes[0], byName, blockList);
      PipelineConserves(all, blocks, local.m, sizes, blockList);
    }
    out := Some(blockList);
  }
}

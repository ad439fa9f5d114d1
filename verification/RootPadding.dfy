/** The root aggregate and its GCD/LCM padding (toRootAggregate). */
module RootPadding {
  import opened Wrappers
  import opened Lex
  import opened Arithmetic
  import opened Domains
  import opened BlockTree

  lemma PaddedLength(blocks: seq<BaseBlock>, width: int, base: nat)
    ensures |Padded(blocks, width, base)| == Max(|blocks|, width)
  {}

  lemma RootPartNonEmpty(root: BlockVertex, name: string, sizes: seq<int>)
    requires sizes != [] && sizes[0] > 0 && name in root.children
    ensures |RootPart(root, name, sizes)| >= 1
  {
    var d := root.children[name];
    if SingleLevel(root) {
      PaddedLength(Chunks(d.id, SortedHosts(d.hosts.value), sizes[0], 0), SingleWidth(d.actual, root.maxChild, sizes),
                   sizes[0]);
    } else {
      SlotsNonEmpty(d, root.maxChild, sizes);
    }
  }

  lemma SlotsNonEmpty(v: BlockVertex, maxSibling: int, sizes: seq<int>)
    requires sizes != [] && sizes[0] > 0
    ensures |Slots(v, maxSibling, sizes)| >= 1
  {
    if v.hosts.Some? {
      SlotsOfLeaf(v, maxSibling, sizes);
      PaddedLength(Chunks(v.id, SortedHosts(v.hosts.value), sizes[0], 0), LeafWidth(v.actual, maxSibling, sizes),
                   sizes[0]);
    } else {
      SlotsOfInterior(v, maxSibling, sizes);
      var blocks := ChildSlots(v, Sorted(v.children.Keys), sizes);
      PaddedLength(blocks, FilledWidth(|blocks|, InteriorWidth(maxSibling, sizes), sizes), sizes[0]);
    }
  }

  lemma NodesDivides(base: int, n: nat)
    requires base > 0
    ensures Divides(base, Nodes(base, n)) && Nodes(base, n) / base == n
  {
    DividesIntro(base, n);
  }

  lemma NodesSum(base: int, m: nat, n: nat)
    requires base > 0
    ensures Nodes(base, m + n) == Nodes(base, m) + Nodes(base, n)
  {}

  lemma GcdStep(base: int, c: int, n: int)
    requires base > 0 && c > 0 && n > 0 && Divides(base, c) && Divides(base, n)
    ensures var g := Gcd(c, n); Divides(g, c) && Divides(g, n) && Divides(base, g)
  {
    GcdDivides(c, n);
    GcdGreatest(c, n, base);
  }

  /** The invariant of the running gcd: it divides the node count so far and keeps whole base blocks. */
  ghost predicate StepFits(base: int, c: int, blocks: nat)
    requires base > 0
  {
    if blocks == 0 then c == 0
    else c > 0 && Divides(base, c) && Divides(c, Nodes(base, blocks))
  }

  lemma StepFitsNext(base: int, c: int, blocks: nat, more: nat)
    requires base > 0 && more >= 1 && StepFits(base, c, blocks)
    ensures StepFits(base, if c == 0 then Nodes(base, more) else Gcd(c, Nodes(base, more)), blocks + more)
  {
    var n := Nodes(base, more);
    NodesDivides(base, more);
    if c == 0 {
      DividesIntro(n, 1);
    } else {
      GcdStep(base, c, n);
      NodesSum(base, blocks, more);
      DividesTransitive(Gcd(c, n), c, Nodes(base, blocks));
      DividesSum(Gcd(c, n), Nodes(base, blocks), n);
    }
  }

  lemma RootUnfold(root: BlockVertex, names: seq<string>, sizes: seq<int>)
    requires sizes != [] && sizes[0] > 0 && names != [] && forall n :: n in names ==> n in root.children
    ensures var i := |names| - 1;
            var part := RootPart(root, names[i], sizes);
            var c := PadStep(root, names[..i], sizes);
            && RootParts(root, names, sizes) == RootParts(root, names[..i], sizes) + part
            && PadStep(root, names, sizes) == if c == 0 then Nodes(sizes[0], |part|)
               else Gcd(c, Nodes(sizes[0], |part|))
  {}

  /** The padding step is a common divisor of all domain capacities and keeps whole base blocks. */
  lemma {:induction false} PadStepFits(root: BlockVertex, names: seq<string>, sizes: seq<int>)
    requires sizes != [] && sizes[0] > 0 && forall n :: n in names ==> n in root.children
    ensures StepFits(sizes[0], PadStep(root, names, sizes), |RootParts(root, names, sizes)|)
    ensures names != [] ==> |RootParts(root, names, sizes)| > 0
    decreases |names|
  {
    if names != [] {
      var i := |names| - 1;
      PadStepFits(root, names[..i], sizes);
      PadStepNext(root, names, sizes);
    }
  }

  lemma PadStepNext(root: BlockVertex, names: seq<string>, sizes: seq<int>)
    requires sizes != [] && sizes[0] > 0 && names != [] && forall n :: n in names ==> n in root.children
    requires StepFits(sizes[0], PadStep(root, names[..|names| - 1], sizes),
                      |RootParts(root, names[..|names| - 1], sizes)|)
    ensures StepFits(sizes[0], PadStep(root, names, sizes), |RootParts(root, names, sizes)|)
            && |RootParts(root, names, sizes)| > 0
  {
    var i := |names| - 1;
    var c, rest, part := PadStep(root, names[..i], sizes), |RootParts(root, names[..i], sizes)|,
      |RootPart(root, names[i], sizes)|;
    RootPartNonEmpty(root, names[i], sizes);
    RootCount(root, names, sizes);
    RootStep(root, names, sizes);
    StepFitsGrown(sizes[0], c, rest, part, PadStep(root, names, sizes), |RootParts(root, names, sizes)|);
  }

  lemma StepFitsGrown(base: int, c: int, blocks: nat, more: nat, c': int, blocks': nat)
    requires base > 0 && more >= 1 && StepFits(base, c, blocks) && blocks' == blocks + more
    requires c' == if c == 0 then Nodes(base, more) else Gcd(c, Nodes(base, more))
    ensures StepFits(base, c', blocks') && blocks' > 0
  {
    StepFitsNext(base, c, blocks, more);
  }

  lemma RootCount(root: BlockVertex, names: seq<string>, sizes: seq<int>)
    requires sizes != [] && sizes[0] > 0 && names != [] && forall n :: n in names ==> n in root.children
    ensures |RootParts(root, names, sizes)| ==
            |RootParts(root, names[..|names| - 1], sizes)| + |RootPart(root, names[|names| - 1], sizes)|
  {
    RootUnfold(root, names, sizes);
  }

  lemma RootStep(root: BlockVertex, names: seq<string>, sizes: seq<int>)
    requires sizes != [] && sizes[0] > 0 && names != [] && forall n :: n in names ==> n in root.children
    ensures var c, n := PadStep(root, names[..|names| - 1], sizes),
            Nodes(sizes[0], |RootPart(root, names[|names| - 1], sizes)|);
            PadStep(root, names, sizes) == if c == 0 then n else Gcd(c, n)
  {
    RootUnfold(root, names, sizes);
  }

  /** `t` can be reached from `total` by whole steps and ends on a boundary of `desired`. */
  ghost predicate Reachable(total: int, step: int, desired: int, t: int)
    requires step > 0 && desired > 0
  {
    t >= total && Divides(step, t - total) && Divides(desired, t)
  }

  lemma CeilDivBounds(n: int, d: int)
    requires d > 0
    ensures n <= CeilDiv(n, d) * d < n + d
  {
    var q := (n + d - 1) / d;
    assert n + d - 1 == d * q + (n + d - 1) % d;
  }

  /** No multiple of `d` lies strictly between `n` and its round-up. */
  lemma CeilDivLeast(n: int, d: int, t: int)
    requires d > 0 && t >= n && Divides(d, t)
    ensures CeilDiv(n, d) * d <= t
  {
    CeilDivBounds(n, d);
    var q, k := CeilDiv(n, d), t / d;
    DividesElim(d, t);
    if k < q {
      ScaleMonotone(d, k, q - 1);
    } else {
      ScaleMonotone(d, q, k);
    }
  }

  /** The target is a positive multiple of the last block size, reachable in whole steps, and the least such total. */
  lemma PadTargetIsLeast(total: int, step: int, desired: int)
    requires total > 0 && step > 0 && desired > 0 && Divides(step, total)
    ensures Reachable(total, step, desired, PadTarget(total, step, desired))
    ensures forall t :: Reachable(total, step, desired, t) ==> PadTarget(total, step, desired) <= t
  {
    var target := PadTarget(total, step, desired);
    if total % desired == 0 {
      DividesIntro(step, 0);
    } else {
      var m := Lcm(step, desired);
      LcmIsCommonMultiple(step, desired);
      CeilDivBounds(total, m);
      DividesIntro(m, CeilDiv(total, m));
      DividesTransitive(step, m, target);
      DividesTransitive(desired, m, target);
      DividesSum(step, target, total);
      forall t | Reachable(total, step, desired, t) ensures target <= t {
        DividesSum(step, t - total, total);
        LcmIsLeast(step, desired, t);
        CeilDivLeast(total, m, t);
      }
    }
  }

  /** `capacity` is on a boundary of `desired`, and is the least such total reachable in whole steps. */
  ghost predicate LeastBoundary(total: int, step: int, desired: int, capacity: int)
    requires step > 0 && desired > 0
  {
    Reachable(total, step, desired, capacity) && forall t :: Reachable(total, step, desired, t) ==> capacity <= t
  }

  lemma PaddedCapacity(blocks: seq<BaseBlock>, step: int, desired: int, base: int)
    requires base > 0 && desired > 0 && |blocks| > 0 && StepFits(base, step, |blocks|)
    ensures var total := Nodes(base, |blocks|);
            var target := PadTarget(total, step, desired);
            LeastBoundary(total, step, desired, target) &&
            Nodes(base, |Padded(blocks, target / base, base)|) == target
  {
    var total := Nodes(base, |blocks|);
    var target := PadTarget(total, step, desired);
    PadTargetIsLeast(total, step, desired);
    TargetWidth(base, |blocks|, step, target);
    PaddedLength(blocks, target / base, base);
  }

  /** Size of the padded root: base size times the number of slots, a positive multiple of the last
      size, and no smaller total can be reached by appending whole padding aggregates. */
  lemma RootCapacity(root: BlockVertex, sizes: seq<int>)
    requires UsableSizes(sizes) && root.children != map[]
    ensures var names := Sorted(root.children.Keys);
            var step := PadStep(root, names, sizes);
            var capacity := Nodes(sizes[0], |RootSlots(root, sizes)|);
            step > 0 && capacity > 0 &&
            LeastBoundary(Nodes(sizes[0], |RootParts(root, names, sizes)|), step, Last(sizes), capacity)
  {
    var names := Sorted(root.children.Keys);
    var n :| n in root.children;
    assert n in names;
    PadStepFits(root, names, sizes);
    PaddedCapacity(RootParts(root, names, sizes), PadStep(root, names, sizes), Last(sizes), sizes[0]);
  }

  lemma TargetWidth(base: int, n: nat, step: int, target: int)
    requires base > 0 && step > 0 && Divides(base, step) && Divides(step, Nodes(base, n))
    requires target >= Nodes(base, n) && Divides(step, target - Nodes(base, n))
    ensures target / base >= n && Nodes(base, target / base) == target
  {
    DividesSum(step, target - Nodes(base, n), Nodes(base, n));
    DividesTransitive(base, step, target);
    DividesElim(base, target);
    NodesDivides(base, n);
    CancelAtMost(base, n, target / base);
  }

  // ---------------------------------------------------------------- the source's method

  lemma CollectAllAppend(ns: seq<BlockNode>, n: BlockNode)
    ensures CollectAll(ns + [n]) == CollectAll(ns) + CollectSlots(n)
  {
    assert (ns + [n])[..|ns|] == ns;
  }

  /** newEmptyChildAggregate: as many empty base blocks as the capacity holds. */
  method NewEmptyChildAggregate(capacity: int, base: int) returns (agg: BlockNode)
    requires base > 0
    ensures agg == Flat("", Empties(capacity / base, base), base)
    ensures capacity >= 0 && Divides(base, capacity) ==> agg.nodeCount == capacity
  {
    var blocks := PadTo([], capacity / base, base);
    assert blocks == Empties(capacity / base, base);
    agg := Wrap("", blocks, base);
  }

  lemma EmptiesSum(m: nat, n: nat, base: nat)
    ensures Empties(m + n, base) == Empties(m, base) + Empties(n, base)
  {}

  /** `n` padding aggregates appended one by one. */
  lemma PadAgain(blocks: seq<BaseBlock>, width: nat, k: nat, base: nat)
    ensures (blocks + Empties(width * k, base)) + Empties(width, base) == blocks + Empties(width * (k + 1), base)
  {
    assert width * (k + 1) == width * k + width;
    EmptiesSum(width * k, width, base);
  }

  lemma StepsLeft(step: int, k: nat, q: nat)
    requires step > 0
    ensures step * k < step * q <==> k < q
    ensures step * k == step * q <==> k == q
    ensures step * (k + 1) == step * k + step
  {
    if k < q { ScaleAtLeast(step, q - k); }
    if q < k { ScaleAtLeast(step, k - q); }
  }

  method PadRoot(children: seq<BlockNode>, total: int, step: int, target: int, base: int, ghost q: nat)
      returns (padded: seq<BlockNode>, nodeCount: int)
    requires base > 0 && step > 0 && Divides(base, step) && target == total + step * q
    ensures nodeCount == target
    ensures CollectAll(padded) == CollectAll(children) + Empties((step / base) * q, base)
  {
    padded, nodeCount := children, total;
    ghost var k: nat := 0;
    while nodeCount < target
      invariant k <= q && nodeCount == total + step * k
      invariant CollectAll(padded) == CollectAll(children) + Empties((step / base) * k, base)
      decreases q - k
    {
      StepsLeft(step, k, q);
      var agg := NewEmptyChildAggregate(step, base);
      CollectFlat("", Empties(step / base, base), base);
      CollectAllAppend(padded, agg);
      PadAgain(CollectAll(children), step / base, k, base);
      padded := padded + [agg];
      nodeCount := nodeCount + step;
      k := k + 1;
    }
    StepsLeft(step, k, q);
  }

  method DomainAggregate(root: BlockVertex, name: string, singleLevel: bool, sizes: seq<int>) returns (agg: BlockNode)
    requires sizes != [] && sizes[0] > 0 && name in root.children && singleLevel == SingleLevel(root)
    ensures agg == Flat(root.children[name].id, RootPart(root, name, sizes), sizes[0])
  {
    var domain := root.children[name];
    if singleLevel {
      var width := SingleSlotWidth(domain.actual, root.maxChild, sizes);
      agg := PackHostsIntoAggregate(domain.id, SortedHosts(domain.hosts.value), width, sizes[0]);
    } else {
      var a := ToDomainAggregate(domain, root.maxChild, sizes);
      agg := a.value;
    }
  }

  method SingleSlotWidth(actual: int, maxSibling: int, sizes: seq<int>) returns (width: int)
    requires sizes != [] && sizes[0] > 0
    ensures width == SingleWidth(actual, maxSibling, sizes)
  {
    var base := sizes[0];
    if |sizes| == 1 {
      width := (actual + base - 1) / base;
    } else {
      var c := AggregateSlotCapacity(maxSibling, base);
      width := c / base;
    }
    width := Max(1, width);
  }

  /** What the domain loop has built after the listed domains. */
  ghost predicate Appended(root: BlockVertex, names: seq<string>, sizes: seq<int>,
                           children: seq<BlockNode>, nodeCount: int, childCapacity: int)
    requires sizes != [] && sizes[0] > 0 && forall n :: n in names ==> n in root.children
  {
    && CollectAll(children) == RootParts(root, names, sizes)
    && nodeCount == Nodes(sizes[0], |RootParts(root, names, sizes)|)
    && childCapacity == PadStep(root, names, sizes)
  }

  method AppendDomain(root: BlockVertex, ghost names: seq<string>, i: nat, name: string, singleLevel: bool,
                      sizes: seq<int>,
                      children: seq<BlockNode>, nodeCount: int, childCapacity: int)
      returns (children': seq<BlockNode>, nodeCount': int, childCapacity': int)
    requires sizes != [] && sizes[0] > 0 && singleLevel == SingleLevel(root)
    requires i < |names| && name == names[i] && forall n :: n in names ==> n in root.children
    requires Appended(root, names[..i], sizes, children, nodeCount, childCapacity)
    ensures Appended(root, names[..i + 1], sizes, children', nodeCount', childCapacity')
  {
    ghost var part := RootPart(root, name, sizes);
    var agg := DomainAggregate(root, name, singleLevel, sizes);
    CollectAllAppend(children, agg);
    CollectFlat(root.children[name].id, part, sizes[0]);
    children' := children + [agg];
    nodeCount' := nodeCount + agg.nodeCount;
    if childCapacity == 0 {
      childCapacity' := agg.nodeCount;
    } else {
      childCapacity' := BlockTreeGCD(childCapacity, agg.nodeCount);
    }
    AppendedNext(root, names, i, sizes, children, nodeCount, childCapacity, children', agg.nodeCount, childCapacity');
  }

  lemma AppendedNext(root: BlockVertex, names: seq<string>, i: nat,
                     sizes: seq<int>, children: seq<BlockNode>, nodeCount: int, childCapacity: int,
                     children': seq<BlockNode>, count: int, childCapacity': int)
    requires sizes != [] && sizes[0] > 0 && i < |names| && forall n :: n in names ==> n in root.children
    requires Appended(root, names[..i], sizes, children, nodeCount, childCapacity)
    requires CollectAll(children') == CollectAll(children) + RootPart(root, names[i], sizes)
    requires count == Nodes(sizes[0], |RootPart(root, names[i], sizes)|) && childCapacity >= 0
    requires childCapacity' == if childCapacity == 0 then count else Gcd(childCapacity, count)
    ensures Appended(root, names[..i + 1], sizes, children', nodeCount + count, childCapacity')
  {
    PartsAt(root, names, i, sizes);
    StepAt(root, names, i, sizes);
    CountAt(root, names, i, sizes);
  }

  lemma CountAt(root: BlockVertex, names: seq<string>, i: nat, sizes: seq<int>)
    requires sizes != [] && sizes[0] > 0 && i < |names| && forall n :: n in names ==> n in root.children
    ensures Nodes(sizes[0], |RootParts(root, names[..i + 1], sizes)|) ==
            Nodes(sizes[0], |RootParts(root, names[..i], sizes)|) + Nodes(sizes[0], |RootPart(root, names[i], sizes)|)
  {
    PartsAt(root, names, i, sizes);
    NodesTotal(sizes[0], |RootParts(root, names[..i], sizes)|, |RootPart(root, names[i], sizes)|,
               |RootParts(root, names[..i + 1], sizes)|);
  }

  lemma NodesTotal(base: int, m: nat, n: nat, sum: nat)
    requires base > 0 && sum == m + n
    ensures Nodes(base, sum) == Nodes(base, m) + Nodes(base, n)
  {
    NodesSum(base, m, n);
  }

  /** The domain loop: aggregates in name order, their total, and the running gcd. */
  method AppendDomains(root: BlockVertex, sizes: seq<int>)
      returns (children: seq<BlockNode>, nodeCount: int, childCapacity: int)
    requires sizes != [] && sizes[0] > 0
    ensures Appended(root, Sorted(root.children.Keys), sizes, children, nodeCount, childCapacity)
  {
    children, nodeCount, childCapacity := [], 0, 0;
    var names := Sorted(root.children.Keys);
    var singleLevel := SingleLevel(root);
    for i := 0 to |names|
      invariant Appended(root, names[..i], sizes, children, nodeCount, childCapacity)
    {
      children, nodeCount, childCapacity :=
        AppendDomain(root, names, i, names[i], singleLevel, sizes, children, nodeCount, childCapacity);
    }
    assert names[..|names|] == names;
  }

  lemma PartsAt(root: BlockVertex, names: seq<string>, i: nat, sizes: seq<int>)
    requires sizes != [] && sizes[0] > 0 && i < |names| && forall n :: n in names ==> n in root.children
    ensures RootParts(root, names[..i + 1], sizes) ==
            RootParts(root, names[..i], sizes) + RootPart(root, names[i], sizes)
  {
    assert names[..i + 1][..i] == names[..i];
  }

  lemma StepAt(root: BlockVertex, names: seq<string>, i: nat, sizes: seq<int>)
    requires sizes != [] && sizes[0] > 0 && i < |names| && forall n :: n in names ==> n in root.children
    ensures var c, n := PadStep(root, names[..i], sizes), Nodes(sizes[0], |RootPart(root, names[i], sizes)|);
            PadStep(root, names[..i + 1], sizes) == if c == 0 then n else Gcd(c, n)
  {
    assert names[..i + 1][..i] == names[..i];
    RootStep(root, names[..i + 1], sizes);
  }

  lemma PadSteps(blocks: seq<BaseBlock>, step: int, desired: int, base: int) returns (q: nat)
    requires base > 0 && desired > 0 && |blocks| > 0 && StepFits(base, step, |blocks|)
    ensures var total := Nodes(base, |blocks|);
            var target := PadTarget(total, step, desired);
            target == total + step * q &&
            Padded(blocks, target / base, base) == blocks + Empties((step / base) * q, base)
  {
    var total := Nodes(base, |blocks|);
    var target := PadTarget(total, step, desired);
    PaddedCapacity(blocks, step, desired, base);
    q := Quotient(step, target - total);
    TargetWidth(base, |blocks|, step, target);
    StepBlocks(base, |blocks|, step, q, target);
  }

  lemma Quotient(d: int, n: int) returns (q: nat)
    requires d > 0 && n >= 0 && Divides(d, n)
    ensures n == d * q
  {
    DividesElim(d, n);
    var k := n / d;
    CancelAtMost(d, 0, k);
    q := k;
  }

  lemma StepBlocks(base: int, n: nat, step: int, q: int, target: nat)
    requires base > 0 && step > 0 && Divides(base, step)
    requires target == Nodes(base, n) + step * q && target / base >= 0 && Nodes(base, target / base) == target
    ensures target / base - n == (step / base) * q
  {
    DividesElim(base, step);
    Associate(base, step / base, q);
    CancelFactor(base, target / base - n, (step / base) * q);
  }

  /** The padding branch; nothing is appended when the total already ends on a boundary. */
  method PadToBoundary(children: seq<BlockNode>, total: int, step: int, desired: int, base: int,
                       ghost blocks: seq<BaseBlock>)
      returns (padded: seq<BlockNode>, nodeCount: int)
    requires base > 0 && desired > 0 && StepFits(base, step, |blocks|)
    requires CollectAll(children) == blocks && total == Nodes(base, |blocks|)
    ensures nodeCount == PadTarget(total, step, desired)
    ensures CollectAll(padded) == Padded(blocks, PadTarget(total, step, desired) / base, base)
  {
    padded, nodeCount := children, total;
    if total > 0 && step > 0 && total % desired != 0 {
      var g := BlockTreeGCD(step, desired);
      var lcm := step / g * desired;
      LcmIsCommonMultiple(step, desired);
      var target := ((total + lcm - 1) / lcm) * lcm;
      ghost var q := PadSteps(blocks, step, desired, base);
      padded, nodeCount := PadRoot(children, total, step, target, base, q);
    } else {
      NodesDivides(base, |blocks|);
    }
  }

  lemma PadTargetGrows(blocks: seq<BaseBlock>, step: int, desired: int, base: int)
    requires base > 0 && desired > 0 && StepFits(base, step, |blocks|)
    ensures var target := PadTarget(Nodes(base, |blocks|), step, desired);
            target == Nodes(base, |Padded(blocks, target / base, base)|)
  {
    if |blocks| > 0 { PaddedCapacity(blocks, step, desired, base); }
  }

  /** toRootAggregate: nil for unusable sizes; otherwise the tree flattens to the root's slots and
      its node count is the base size times their number. */
  method ToRootAggregate(root: BlockVertex, sizes: seq<int>) returns (result: Option<BlockNode>)
    requires sizes == [] || sizes[0] <= 0 || UsableSizes(sizes)
    ensures result.None? <==> sizes == [] || sizes[0] <= 0
    ensures result.Some? ==>
              && result.value.Aggregate? && result.value.id == root.id
              && CollectSlots(result.value) == RootSlots(root, sizes)
              && result.value.nodeCount == Nodes(sizes[0], |RootSlots(root, sizes)|)
  {
    if |sizes| == 0 || sizes[0] <= 0 { return None; }
    ghost var names := Sorted(root.children.Keys);
    ghost var parts := RootParts(root, names, sizes);
    var children, nodeCount, step := AppendDomains(root, sizes);
    PadStepFits(root, names, sizes);
    PadTargetGrows(parts, step, Last(sizes), sizes[0]);
    children, nodeCount := PadToBoundary(children, nodeCount, step, sizes[|sizes| - 1], sizes[0], parts);
    result := Some(Aggregate(root.id, children, nodeCount));
  }
}

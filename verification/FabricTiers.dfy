/** switchDepths: the multi-source breadth-first search that assigns switch tiers. */
module FabricTiers {
  import opened Wrappers
  import opened Lex
  import opened Fabric

  type Depths = map<string, nat>

  /** Every recorded depth is the exact tier. */
  ghost predicate Sound(inv: Inventory, depth: Depths) {
    forall s :: s in depth ==> s in Level(inv, depth[s])
  }

  ghost predicate Covers(inv: Inventory, depth: Depths, n: nat) {
    forall s :: s in Ball(inv, n) ==> s in depth && depth[s] <= n
  }

  /** The switch neighbours of processed switches have been recorded. */
  ghost predicate Explored(inv: Inventory, depth: Depths, done: set<string>) {
    forall p, s :: p in done && s in Adjacent(inv, p) && s in inv.switches ==>
                   p in depth && s in depth && depth[s] <= depth[p] + 1
  }

  /** Once every switch below tier `n` is processed, all switches up to tier `n` are recorded. */
  lemma {:induction false} BallCovered(inv: Inventory, depth: Depths, done: set<string>, n: nat)
    requires Covers(inv, depth, 0) && Explored(inv, depth, done)
    requires forall s :: s in depth && depth[s] < n ==> s in done
    ensures Covers(inv, depth, n)
  {
    if n > 0 {
      BallCovered(inv, depth, done, n - 1);
      forall s | s in Ball(inv, n) ensures s in depth && depth[s] <= n {
        if s !in Ball(inv, n - 1) {
          var t :| t in Ball(inv, n - 1) && s in Adjacent(inv, t);
          assert t in done;
        }
      }
    }
  }

  /** Recorded switches in queue order: no repetition, depths never decrease and never run more than one ahead. */
  ghost predicate Queued(queue: seq<string>, depth: Depths, bound: nat) {
    && (forall s :: s in depth <==> s in queue)
    && (forall i, j :: 0 <= i < j < |queue| ==> queue[i] != queue[j])
    && (forall i, j :: 0 <= i < j < |queue| ==> depth[queue[i]] <= depth[queue[j]])
    && (forall i :: 0 <= i < |queue| ==> depth[queue[i]] <= bound)
  }

  lemma QueuedAppend(queue: seq<string>, depth: Depths, s: string, d: nat)
    requires Queued(queue, depth, d) && s !in depth
    ensures Queued(queue + [s], depth[s := d], d)
  {
    var q, m := queue + [s], depth[s := d];
    assert forall i :: 0 <= i < |queue| ==> q[i] in queue && m[q[i]] == depth[q[i]];
    assert q[|queue|] == s;
  }

  /** A newly seen neighbour of a tier-d switch is exactly one tier higher. */
  lemma NewNeighbour(inv: Inventory, depth: Depths, id: string, d: nat, s: string)
    requires id in Level(inv, d) && Covers(inv, depth, d)
    requires s in Adjacent(inv, id) && s in inv.switches && s !in depth
    ensures s in Level(inv, d + 1)
  {
    assert id in Ball(inv, d);
    assert s in Next(inv, Ball(inv, d));
  }

  ghost predicate Extends(depth: Depths, depth': Depths) {
    forall s :: s in depth ==> s in depth' && depth'[s] == depth[s]
  }

  /** State of the inner loop for a tier-d switch `id`. */
  ghost predicate Expanding(inv: Inventory, id: string, d: nat, queue: seq<string>, depth: Depths) {
    Sound(inv, depth) && Queued(queue, depth, d + 1) && Covers(inv, depth, d) && id in Level(inv, d)
  }

  method VisitPeer(inv: Inventory, id: string, d: nat, peer: string, queue: seq<string>, depth: Depths)
      returns (queue': seq<string>, depth': Depths)
    requires Expanding(inv, id, d, queue, depth) && peer in Adjacent(inv, id)
    ensures Expanding(inv, id, d, queue', depth') && queue <= queue' && Extends(depth, depth')
    ensures peer in inv.switches ==> peer in depth'
  {
    queue', depth' := queue, depth;
    if peer in inv.switches && peer !in depth {
      NewNeighbour(inv, depth, id, d, peer);
      QueuedAppend(queue, depth, peer, d + 1);
      Record(inv, depth, peer, d + 1, d);
      depth' := depth[peer := d + 1];
      queue' := queue + [peer];
    }
  }

  lemma Record(inv: Inventory, depth: Depths, s: string, d: nat, n: nat)
    requires Sound(inv, depth) && Covers(inv, depth, n) && s !in depth && s in Level(inv, d)
    ensures Sound(inv, depth[s := d]) && Covers(inv, depth[s := d], n) && Extends(depth, depth[s := d])
  {}

  lemma QueuedBound(queue: seq<string>, depth: Depths, bound: nat, s: string)
    requires Queued(queue, depth, bound) && s in depth
    ensures depth[s] <= bound
  {
    assert s in queue;
  }

  /** The inner loop over the neighbours of one switch, in any order. */
  method Expand(inv: Inventory, id: string, d: nat, queue: seq<string>, depth: Depths)
      returns (queue': seq<string>, depth': Depths)
    requires Expanding(inv, id, d, queue, depth)
    ensures Expanding(inv, id, d, queue', depth') && queue <= queue' && Extends(depth, depth')
    ensures forall s :: s in Adjacent(inv, id) && s in inv.switches ==> s in depth' && depth'[s] <= d + 1
  {
    queue', depth' := queue, depth;
    var todo := Adjacent(inv, id);
    while todo != {}
      invariant Expanding(inv, id, d, queue', depth') && queue <= queue' && Extends(depth, depth')
      invariant todo <= Adjacent(inv, id)
      invariant forall s :: s in Adjacent(inv, id) && s in inv.switches && s !in todo ==> s in depth'
      decreases |todo|
    {
      var peer :| peer in todo;
      queue', depth' := VisitPeer(inv, id, d, peer, queue', depth');
      todo := todo - {peer};
    }
    forall s | s in Adjacent(inv, id) && s in inv.switches ensures s in depth' && depth'[s] <= d + 1 {
      QueuedBound(queue', depth', d + 1, s);
    }
  }

  /** The seeding loop: every switch linked to a host, in any order. */
  method Seed(inv: Inventory) returns (queue: seq<string>, depth: Depths)
    requires Valid(inv)
    ensures Sound(inv, depth) && Queued(queue, depth, 0) && Covers(inv, depth, 0)
  {
    queue, depth := [], map[];
    var hosts := inv.hosts;
    while hosts != {}
      invariant hosts <= inv.hosts && Sound(inv, depth) && Queued(queue, depth, 0)
      invariant forall h, s :: h in inv.hosts && h !in hosts && s in Adjacent(inv, h) ==> s in depth
      decreases |hosts|
    {
      var host :| host in hosts;
      hosts := hosts - {host};
      queue, depth := SeedHost(inv, host, queue, depth);
    }
    forall s | s in Ball(inv, 0) ensures s in depth && depth[s] <= 0 {
      var h :| h in inv.hosts && s in Adjacent(inv, h);
      assert s in depth && s in queue;
    }
  }

  method SeedHost(inv: Inventory, host: string, queue: seq<string>, depth: Depths)
      returns (queue': seq<string>, depth': Depths)
    requires Valid(inv) && host in inv.hosts && Sound(inv, depth) && Queued(queue, depth, 0)
    ensures Sound(inv, depth') && Queued(queue', depth', 0)
    ensures depth.Keys <= depth'.Keys && Adjacent(inv, host) <= depth'.Keys
  {
    queue', depth' := queue, depth;
    var todo := Adjacent(inv, host);
    while todo != {}
      invariant Sound(inv, depth') && Queued(queue', depth', 0) && depth.Keys <= depth'.Keys
      invariant todo <= Adjacent(inv, host) && Adjacent(inv, host) - todo <= depth'.Keys
      decreases |todo|
    {
      var sw :| sw in todo;
      todo := todo - {sw};
      if sw !in depth' {
        assert LinkOk(inv, host, sw);
        assert sw in Edge(inv);
        QueuedAppend(queue', depth', sw, 0);
        depth' := depth'[sw := 0];
        queue' := queue' + [sw];
      }
    }
  }

  // ---------------------------------------------------------------- layers

  /** `layers` files the processed switches by depth, without repetition. */
  ghost predicate Filed(layers: seq<seq<string>>, depth: Depths, done: set<string>) {
    && (forall p :: p in done ==> p in depth && depth[p] < |layers| && p in layers[depth[p]])
    && (forall d, i :: 0 <= d < |layers| && 0 <= i < |layers[d]| ==>
          layers[d][i] in done && layers[d][i] in depth && depth[layers[d][i]] == d)
    && (forall d, i, j :: 0 <= d < |layers| && 0 <= i < j < |layers[d]| ==> layers[d][i] != layers[d][j])
  }

  method File(layers: seq<seq<string>>, ghost depth: Depths, ghost done: set<string>, id: string, d: nat)
      returns (layers': seq<seq<string>>)
    requires Filed(layers, depth, done) && id in depth && depth[id] == d && id !in done && d <= |layers|
    ensures Filed(layers', depth, done + {id}) && |layers'| == if d < |layers| then |layers| else d + 1
    ensures forall k :: 0 <= k < |layers'| && (k >= |layers| || layers[k] != []) ==> layers'[k] != []
  {
    layers' := layers;
    if |layers'| <= d { layers' := layers' + [[]]; }
    ghost var mid := layers';
    assert Filed(mid, depth, done);
    layers' := layers'[d := layers'[d] + [id]];
    assert forall p :: p in done ==> p in mid[depth[p]] && mid[depth[p]] <= layers'[depth[p]];
  }

  // ---------------------------------------------------------------- the search

  ghost function Done(queue: seq<string>, offset: nat): set<string>
    requires offset <= |queue|
  {
    set i | 0 <= i < offset :: queue[i]
  }

  lemma DoneStep(queue: seq<string>, queue': seq<string>, offset: nat)
    requires offset < |queue| && queue <= queue'
    ensures Done(queue', offset) == Done(queue, offset)
    ensures Done(queue', offset + 1) == Done(queue, offset) + {queue[offset]}
  {
    assert forall i :: 0 <= i < |queue| ==> queue'[i] == queue[i];
  }

  /** The depth of the switch processed last bounds all recorded depths. */
  ghost function Bound(queue: seq<string>, offset: nat, depth: Depths): nat
    requires offset <= |queue| && forall s :: s in queue ==> s in depth
  {
    if offset == 0 then 0 else depth[queue[offset - 1]] + 1
  }

  /** State of the search before position `offset` of the queue is processed. */
  ghost predicate Searching(inv: Inventory, queue: seq<string>, offset: nat, depth: Depths, layers: seq<seq<string>>) {
    && offset <= |queue| && Sound(inv, depth) && Covers(inv, depth, 0)
    && (forall s :: s in queue ==> s in depth) && Queued(queue, depth, Bound(queue, offset, depth))
    && Explored(inv, depth, Done(queue, offset))
    && Filed(layers, depth, Done(queue, offset)) && |layers| == Bound(queue, offset, depth)
    && forall d :: 0 <= d < |layers| ==> layers[d] != []
  }

  lemma LowerAreDone(queue: seq<string>, offset: nat, depth: Depths, bound: nat)
    requires offset < |queue| && Queued(queue, depth, bound)
    ensures queue[offset] in depth
    ensures forall s :: s in depth && depth[s] < depth[queue[offset]] ==> s in Done(queue, offset)
    ensures queue[offset] !in Done(queue, offset)
  {
    assert queue[offset] in queue;
    forall s | s in depth && depth[s] < depth[queue[offset]] ensures s in Done(queue, offset) {
      assert s in queue;
      var i :| 0 <= i < |queue| && queue[i] == s;
      assert i < offset;
    }
  }

  method Step(inv: Inventory, queue: seq<string>, offset: nat, depth: Depths, layers: seq<seq<string>>)
      returns (queue': seq<string>, depth': Depths, layers': seq<seq<string>>)
    requires Searching(inv, queue, offset, depth, layers) && offset < |queue|
    ensures Searching(inv, queue', offset + 1, depth', layers') && queue <= queue'
  {
    var id := queue[offset];
    var d := BeforeStep(inv, queue, offset, depth, layers);
    layers' := File(layers, depth, Done(queue, offset), id, d);
    queue', depth' := Expand(inv, id, d, queue, depth);
    DoneStep(queue, queue', offset);
    AfterStep(inv, queue, queue', offset, depth, depth', layers');
  }

  method BeforeStep(inv: Inventory, queue: seq<string>, offset: nat, depth: Depths, ghost layers: seq<seq<string>>)
      returns (d: nat)
    requires Searching(inv, queue, offset, depth, layers) && offset < |queue|
    ensures queue[offset] in depth && d == depth[queue[offset]] && |layers| <= d + 1 && d <= |layers|
    ensures queue[offset] !in Done(queue, offset)
    ensures Expanding(inv, queue[offset], d, queue, depth)
  {
    assert queue[offset] in queue;
    d := depth[queue[offset]];
    LowerAreDone(queue, offset, depth, Bound(queue, offset, depth));
    BallCovered(inv, depth, Done(queue, offset), d);
    QueueBound(queue, offset, depth);
    QueuedBound(queue, depth, Bound(queue, offset, depth), queue[offset]);
  }

  lemma QueueBound(queue: seq<string>, offset: nat, depth: Depths)
    requires offset < |queue| && (forall s :: s in queue ==> s in depth)
             && Queued(queue, depth, Bound(queue, offset, depth))
    ensures queue[offset] in queue && Bound(queue, offset, depth) <= depth[queue[offset]] + 1
    ensures Queued(queue, depth, depth[queue[offset]] + 1)
  {
    if offset > 0 { assert depth[queue[offset - 1]] <= depth[queue[offset]]; }
  }

  lemma AfterStep(inv: Inventory, queue: seq<string>, queue': seq<string>, offset: nat, depth: Depths, depth': Depths,
                  layers: seq<seq<string>>)
    requires offset < |queue| && queue <= queue' && queue[offset] in depth && Extends(depth, depth')
    requires Done(queue', offset + 1) == Done(queue, offset) + {queue[offset]}
    requires Explored(inv, depth, Done(queue, offset)) && Covers(inv, depth, 0)
    requires Filed(layers, depth, Done(queue', offset + 1))
    requires Expanding(inv, queue[offset], depth[queue[offset]], queue', depth')
    requires forall s :: s in Adjacent(inv, queue[offset]) && s in inv.switches ==>
               s in depth' && depth'[s] <= depth[queue[offset]] + 1
    requires |layers| == depth[queue[offset]] + 1 && forall d :: 0 <= d < |layers| ==> layers[d] != []
    ensures Searching(inv, queue', offset + 1, depth', layers)
  {
    assert queue'[offset] == queue[offset];
    FiledExtends(layers, depth, depth', Done(queue', offset + 1));
    ExploredExtends(inv, depth, depth', Done(queue, offset), queue[offset]);
  }

  lemma FiledExtends(layers: seq<seq<string>>, depth: Depths, depth': Depths, done: set<string>)
    requires Filed(layers, depth, done) && Extends(depth, depth')
    ensures Filed(layers, depth', done)
  {}

  lemma ExploredExtends(inv: Inventory, depth: Depths, depth': Depths, done: set<string>, id: string)
    requires Explored(inv, depth, done) && Extends(depth, depth') && id in depth
    requires forall s :: s in Adjacent(inv, id) && s in inv.switches ==> s in depth' && depth'[s] <= depth[id] + 1
    ensures Explored(inv, depth', done + {id})
  {}

  ghost predicate IsTier(inv: Inventory, d: nat, layer: seq<string>) {
    (forall x :: x in layer <==> x in Level(inv, d)) && Ascending(layer) && layer != []
  }

  ghost predicate AllTiers(inv: Inventory, layers: seq<seq<string>>) {
    forall d :: 0 <= d < |layers| ==> IsTier(inv, d, layers[d])
  }

  lemma AppendTier(inv: Inventory, layers: seq<seq<string>>, layer: seq<string>)
    requires AllTiers(inv, layers) && IsTier(inv, |layers|, layer)
    ensures AllTiers(inv, layers + [layer])
  {}

  /** Exactly the switches that can be reached from some host are recorded, each with its tier, and the
      layers list the tiers from the bottom, sorted and non-empty. */
  ghost predicate Tiers(inv: Inventory, depth: Depths, layers: seq<seq<string>>) {
    && Sound(inv, depth)
    && (forall n: nat :: Ball(inv, n) <= depth.Keys)
    && (forall s :: s in depth ==> depth[s] < |layers|)
    && AllTiers(inv, layers)
  }

  lemma FiledIsLevel(inv: Inventory, depth: Depths, layers: seq<seq<string>>, d: nat, x: string)
    requires Sound(inv, depth) && Filed(layers, depth, depth.Keys) && d < |layers| && Ball(inv, d) <= depth.Keys
    ensures x in layers[d] <==> x in Level(inv, d)
  {
    if x in layers[d] {
      var i :| 0 <= i < |layers[d]| && layers[d][i] == x;
    }
    if x in Level(inv, d) {
      assert x in depth;
      LevelsDisjoint(inv, d, depth[x], x);
    }
  }

  method SwitchDepths(inv: Inventory) returns (depth: Depths, layers: seq<seq<string>>)
    requires Valid(inv)
    ensures Tiers(inv, depth, layers)
  {
    var queue;
    queue, depth := Seed(inv);
    layers := [];
    var offset := 0;
    while offset < |queue|
      invariant Searching(inv, queue, offset, depth, layers)
      decreases |inv.switches| - offset
    {
      QueueWithinSwitches(inv, queue, depth, Bound(queue, offset, depth));
      queue, depth, layers := Step(inv, queue, offset, depth, layers);
      offset := offset + 1;
    }
    SearchComplete(inv, queue, depth, layers);
    layers := SortLayers(inv, depth, layers);
  }

  lemma QueueWithinSwitches(inv: Inventory, queue: seq<string>, depth: Depths, bound: nat)
    requires Sound(inv, depth) && Queued(queue, depth, bound)
    ensures |queue| <= |inv.switches|
  {
    var elements := Done(queue, |queue|);
    forall s | s in elements ensures s in inv.switches {
      assert s in depth;
      BallsAreSwitches(inv, depth[s]);
    }
    DistinctCount(queue, |queue|);
    SubsetSize(elements, inv.switches);
  }

  lemma {:induction false} DistinctCount(queue: seq<string>, n: nat)
    requires n <= |queue| && forall i, j :: 0 <= i < j < |queue| ==> queue[i] != queue[j]
    ensures |Done(queue, n)| == n
  {
    if n > 0 {
      DistinctCount(queue, n - 1);
      assert Done(queue, n) == Done(queue, n - 1) + {queue[n - 1]};
    }
  }

  lemma SearchComplete(inv: Inventory, queue: seq<string>, depth: Depths, layers: seq<seq<string>>)
    requires Searching(inv, queue, |queue|, depth, layers)
    ensures Filed(layers, depth, depth.Keys) && forall n: nat :: Ball(inv, n) <= depth.Keys
  {
    var done := Done(queue, |queue|);
    assert done == depth.Keys;
    forall n: nat ensures Ball(inv, n) <= depth.Keys {
      BallCovered(inv, depth, done, n);
    }
  }

  method SortLayers(inv: Inventory, ghost depth: Depths, layers: seq<seq<string>>) returns (sorted: seq<seq<string>>)
    requires Sound(inv, depth) && Filed(layers, depth, depth.Keys) && forall n: nat :: Ball(inv, n) <= depth.Keys
    requires forall d :: 0 <= d < |layers| ==> layers[d] != []
    ensures Tiers(inv, depth, sorted)
  {
    sorted := [];
    for d := 0 to |layers|
      invariant |sorted| == d && AllTiers(inv, sorted)
    {
      var layer := SortLayer(inv, depth, layers, d);
      AppendTier(inv, sorted, layer);
      sorted := sorted + [layer];
    }
    assert forall s :: s in depth ==> depth[s] < |sorted|;
  }

  method SortLayer(inv: Inventory, ghost depth: Depths, layers: seq<seq<string>>, d: nat) returns (layer: seq<string>)
    requires Sound(inv, depth) && Filed(layers, depth, depth.Keys) && d < |layers| && Ball(inv, d) <= depth.Keys
    requires layers[d] != []
    ensures IsTier(inv, d, layer)
  {
    LayerIsLevel(inv, depth, layers, d);
    layer := Sorted(set x | x in layers[d]);
    assert layers[d][0] in layer;
  }

  lemma LayerIsLevel(inv: Inventory, depth: Depths, layers: seq<seq<string>>, d: nat)
    requires Sound(inv, depth) && Filed(layers, depth, depth.Keys) && d < |layers| && Ball(inv, d) <= depth.Keys
    requires layers[d] != []
    ensures forall x :: x in layers[d] <==> x in Level(inv, d)
  {
    forall x ensures x in layers[d] <==> x in Level(inv, d) { FiledIsLevel(inv, depth, layers, d, x); }
  }

  // ---------------------------------------------------------------- tiers are hop distances

  /** A walk over links that starts at a compute host; it may pass through any devices. */
  ghost predicate Walk(inv: Inventory, p: seq<string>) {
    && p != [] && p[0] in inv.hosts
    && forall i :: 0 < i < |p| ==> p[i] in Adjacent(inv, p[i - 1])
  }

  ghost predicate WalkTo(inv: Inventory, p: seq<string>, s: string) {
    Walk(inv, p) && p[|p| - 1] == s
  }

  lemma {:induction false} WalkReaches(inv: Inventory, p: seq<string>)
    requires Valid(inv) && Walk(inv, p) && p[|p| - 1] in inv.switches
    ensures |p| >= 2 && p[|p| - 1] in Ball(inv, |p| - 2)
    decreases |p|
  {
    var n := |p| - 1;
    assert n > 0;
    var s, t, q := p[n], p[n - 1], p[..n];
    assert LinkOk(inv, t, s);
    assert Walk(inv, q) && q[|q| - 1] == t;
    if t in inv.hosts {
      assert s in Ball(inv, 0);
      BallMonotone(inv, 0, n - 1);
    } else {
      WalkReaches(inv, q);
      assert s in Next(inv, Ball(inv, n - 2));
    }
  }

  lemma NeighbourInBall(inv: Inventory, n: nat, t: string, s: string)
    requires s in Adjacent(inv, t) && s in inv.switches
    ensures t in Ball(inv, n) ==> s in Ball(inv, n + 1)
  {}

  lemma {:induction false} LevelHasWalk(inv: Inventory, d: nat, s: string) returns (p: seq<string>)
    requires Valid(inv) && s in Level(inv, d)
    ensures WalkTo(inv, p, s) && |p| == d + 2
  {
    if d == 0 {
      var h :| h in inv.hosts && s in Adjacent(inv, h);
      p := [h, s];
    } else {
      var t :| t in Ball(inv, d - 1) && s in Adjacent(inv, t);
      if d > 1 { NeighbourInBall(inv, d - 2, t, s); }
      var q := LevelHasWalk(inv, d - 1, t);
      p := q + [s];
    }
  }

  lemma NoShorterWalk(inv: Inventory, d: nat, s: string, q: seq<string>)
    requires Valid(inv) && s in inv.switches && s in Level(inv, d) && WalkTo(inv, q, s)
    ensures |q| >= d + 2
  {
    WalkReaches(inv, q);
    var e := BallIsLevels(inv, |q| - 2, s);
    LevelsDisjoint(inv, d, e, s);
  }

  lemma ShortestWalkLevel(inv: Inventory, d: nat, s: string, p: seq<string>)
    requires Valid(inv) && s in inv.switches && WalkTo(inv, p, s) && |p| == d + 2 && forall q :: WalkTo(inv, q, s) ==>
               |q| >= d + 2
    ensures s in Level(inv, d)
  {
    WalkReaches(inv, p);
    var e := BallIsLevels(inv, d, s);
    var q := LevelHasWalk(inv, e, s);
  }

  /** The recorded depth is the shortest hop distance from any compute host, not counting the first hop. */
  lemma TierIsDistance(inv: Inventory, d: nat, s: string)
    requires Valid(inv) && s in inv.switches
    ensures s in Level(inv, d) <==>
            (exists p :: WalkTo(inv, p, s) && |p| == d + 2) && (forall p :: WalkTo(inv, p, s) ==> |p| >= d + 2)
  {
    if s in Level(inv, d) {
      var p := LevelHasWalk(inv, d, s);
      assert WalkTo(inv, p, s) && |p| == d + 2;
      forall q | WalkTo(inv, q, s) ensures |q| >= d + 2 { NoShorterWalk(inv, d, s, q); }
    }
    if (exists p :: WalkTo(inv, p, s) && |p| == d + 2) && (forall p :: WalkTo(inv, p, s) ==> |p| >= d + 2) {
      var p :| WalkTo(inv, p, s) && |p| == d + 2;
      ShortestWalkLevel(inv, d, s, p);
    }
  }
}

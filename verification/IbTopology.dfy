/** From a parsed InfiniBand fabric to the merged top tier (GenerateTopologyConfig, pkg/ib/ib.go). */
module IbTopology {
  import opened Merger
  import opened MergerTheorems
  import opened IbTree

  /** Node names below the switches; they are no switch IDs. */
  function Names(vertices: Graph): set<string> {
    set s, n | s in vertices && n in vertices[s].children && n !in vertices :: n
  }

  /** The vertices with a childless vertex per node name. */
  function FullGraph(vertices: Graph): Graph {
    vertices + map n | n in Names(vertices) :: Vertex(n, {})
  }

  ghost function Depth(net: Net, h: nat, s: string): nat {
    if h == 0 || s !in Ball(net, h - 1) then h else Depth(net, h - 1, s)
  }

  lemma {:induction false} DepthIsLevel(net: Net, h: nat, s: string, k: nat)
    requires s in Ball(net, h)
    ensures s in Level(net, Depth(net, h, s)) && Depth(net, h, s) <= h
    ensures s in Level(net, k) ==> k == Depth(net, h, s)
  {
    if h > 0 && s in Ball(net, h - 1) {
      DepthIsLevel(net, h - 1, s, k);
    }
    if s in Level(net, k) {
      LevelsDisjoint(net, k, Depth(net, h, s), s);
    }
  }

  /** Node names rank 0; a switch one above its level. */
  ghost function RankOf(net: Net, vertices: Graph, h: nat): map<string, nat> {
    map v | v in FullGraph(vertices) :: if v in Ball(net, h) then Depth(net, h, v) + 1 else 0
  }

  /** No cluster node is named like a switch. */
  ghost predicate NamesApart(net: Net) {
    forall s, n :: s in net.holds && n in net.holds[s] ==> n !in net.links
  }

  /** A switch of level `k` in the full graph. */
  ghost predicate SwitchShape(net: Net, g: Graph, rank: map<string, nat>, k: nat, s: string) {
    && s in g && s in rank && rank[s] == k + 1 && s in net.holds && s in net.links
    && g[s].children == ChildrenAt(net, k, s) && g[s].children != {}
  }

  ghost predicate NodeShape(g: Graph, rank: map<string, nat>, n: string) {
    n in g && n in rank && rank[n] == 0 && g[n].children == {}
  }

  /** The full graph consists of the switches, level by level, and the nodes of the leaf switches. */
  ghost predicate Shape(net: Net, g: Graph, rank: map<string, nat>, h: nat) {
    && (forall k: nat, s {:trigger SwitchShape(net, g, rank, k, s)} :: k <= h && s in Level(net, k) ==>
          SwitchShape(net, g, rank, k, s))
    && (forall s, n {:trigger HeldBy(net, s, n)} :: HeldBy(net, s, n) ==> NodeShape(g, rank, n))
    && (forall v {:trigger NodeShape(g, rank, v)} :: v in g ==> v in Ball(net, h) || NodeShape(g, rank, v))
  }

  ghost predicate HeldBy(net: Net, s: string, n: string) {
    s in net.holds && n in net.holds[s]
  }

  lemma SwitchHasShape(net: Net, vertices: Graph, h: nat, k: nat, s: string)
    requires Layers(net, vertices, h) && k <= h && s in Level(net, k)
    ensures SwitchShape(net, FullGraph(vertices), RankOf(net, vertices, h), k, s)
  {
    assert Placed(net, vertices, k, s);
    BallMonotone(net, k, h);
    DepthIsLevel(net, h, s, k);
    if k > 0 { LevelStep(net, k - 1, s); }
  }

  lemma NodeHasShape(net: Net, vertices: Graph, h: nat, s: string, n: string)
    requires Layers(net, vertices, h) && NamesApart(net) && HeldBy(net, s, n) && net.holds.Keys == net.links.Keys
    ensures NodeShape(FullGraph(vertices), RankOf(net, vertices, h), n)
  {
    assert s in Level(net, 0);
    assert Placed(net, vertices, 0, s);
    BallInNet(net, h);
    assert n in vertices[s].children && n !in vertices;
    assert n in Names(vertices);
  }

  lemma TreeHasShape(net: Net, level: set<string>, vertices: Graph, h: nat)
    requires Tree(net, level, vertices, h) && NamesApart(net)
    ensures Shape(net, FullGraph(vertices), RankOf(net, vertices, h), h)
  {
    var g, rank := FullGraph(vertices), RankOf(net, vertices, h);
    forall k: nat, s | k <= h && s in Level(net, k)
      ensures SwitchShape(net, g, rank, k, s)
    {
      SwitchHasShape(net, vertices, h, k, s);
    }
    forall s, n | HeldBy(net, s, n) ensures NodeShape(g, rank, n) { NodeHasShape(net, vertices, h, s, n); }
    forall v | v in g ensures v in Ball(net, h) || NodeShape(g, rank, v) {}
  }

  lemma SwitchLayered(net: Net, g: Graph, rank: map<string, nat>, h: nat, k: nat, s: string)
    requires Shape(net, g, rank, h) && k <= h && s in Level(net, k)
    ensures RankOk(g, rank, s)
  {
    assert SwitchShape(net, g, rank, k, s);
    forall c | c in g[s].children ensures c in g && c in rank && rank[c] == k {
      if k == 0 {
        assert HeldBy(net, s, c);
      } else {
        assert SwitchShape(net, g, rank, k - 1, c);
      }
    }
  }

  lemma ShapeIsLayered(net: Net, g: Graph, rank: map<string, nat>, h: nat)
    requires Shape(net, g, rank, h)
    ensures Layered(g, rank)
  {
    forall v | v in g ensures RankOk(g, rank, v) {
      if v in Ball(net, h) {
        var k := BallIsLevels(net, h, v);
        SwitchLayered(net, g, rank, h, k, v);
      } else {
        assert NodeShape(g, rank, v);
      }
    }
  }

  /** What the layering builds is exactly what the merger needs: uniformly layered, roots all on one rank. */
  lemma TreeIsLayered(net: Net, level: set<string>, vertices: Graph, h: nat, top: seq<string>)
    requires Tree(net, level, vertices, h) && NamesApart(net)
    requires (forall v :: v in top <==> v in level) && forall i, j :: 0 <= i < j < |top| ==> top[i] != top[j]
    ensures Layered(FullGraph(vertices), RankOf(net, vertices, h))
    ensures AtRank(FullGraph(vertices), RankOf(net, vertices, h), top, h + 1)
  {
    var g, rank := FullGraph(vertices), RankOf(net, vertices, h);
    TreeHasShape(net, level, vertices, h);
    ShapeIsLayered(net, g, rank, h);
    forall i | 0 <= i < |top| ensures top[i] in g && top[i] in rank && rank[top[i]] == h + 1 {
      assert top[i] in level;
      assert SwitchShape(net, g, rank, h, top[i]);
    }
  }

  /** Every path from a root down to a node has the same length. */
  lemma EqualPaths(net: Net, level: set<string>, vertices: Graph, h: nat, v: string, n: string, k: nat)
    requires Tree(net, level, vertices, h) && NamesApart(net) && v in level && Under(FullGraph(vertices), k, v, n)
    ensures k == h + 1
  {
    var g, rank := FullGraph(vertices), RankOf(net, vertices, h);
    TreeHasShape(net, level, vertices, h);
    ShapeIsLayered(net, g, rank, h);
    assert SwitchShape(net, g, rank, h, v);
    DepthIsRank(g, rank, k, v, n);
  }

  /** Node `n` hangs off a leaf switch from which a walk of `k` links leads up to `s`. */
  ghost predicate HangsBelow(net: Net, k: nat, s: string, n: string) {
    exists p :: Walk(net, p, s) && |p| == k + 1 && HeldBy(net, p[0], n)
  }

  /** A switch exactly `k` up that reports something at most `k - 1` up reports it at exactly `k - 1`. */
  lemma StepDown(net: Net, k: nat, s: string, t: string)
    requires s !in Ball(net, k) && s in net.links && t in net.links[s] && t in Ball(net, k)
    ensures t in Level(net, k)
  {
    if k > 0 { OuterRing(net, Ball(net, k - 1), Ball(net, k), s, t); }
  }

  /** What a switch outside the ball reports inside it lies on its rim. */
  lemma OuterRing(net: Net, inner: set<string>, ball: set<string>, s: string, t: string)
    requires ball == inner + Next(net, inner) && s !in ball && s in net.links && t in net.links[s] && t in ball
    ensures t in ball - inner
  {
    NeighbourInNext(net, inner, t, s);
  }

  lemma {:induction false} TreeHolds(net: Net, g: Graph, rank: map<string, nat>, h: nat, k: nat, s: string,
                                     p: seq<string>, n: string)
    requires Shape(net, g, rank, h) && k <= h && s in Level(net, k) && Walk(net, p, s) && |p| == k + 1
             && HeldBy(net, p[0], n)
    ensures Under(g, k + 1, s, n)
  {
    assert SwitchShape(net, g, rank, k, s);
    if k == 0 {
      assert NodeShape(g, rank, n);
      assert n in g[s].children && Under(g, 0, n, n);
    } else {
      var t, q := p[k - 1], p[..k];
      WalkReaches(net, q, t);
      StepDown(net, k - 1, s, t);
      TreeHolds(net, g, rank, h, k - 1, t, q, n);
      assert t in g[s].children && Under(g, k, t, n);
    }
  }

  lemma {:induction false} HoldsInTree(net: Net, g: Graph, rank: map<string, nat>, h: nat, k: nat, s: string, n: string)
      returns (p: seq<string>)
    requires Shape(net, g, rank, h) && k <= h && s in Level(net, k) && Under(g, k + 1, s, n)
    ensures Walk(net, p, s) && |p| == k + 1 && HeldBy(net, p[0], n)
  {
    assert SwitchShape(net, g, rank, k, s);
    var c :| c in g[s].children && Under(g, k, c, n);
    if k == 0 {
      p := [s];
    } else {
      var q := HoldsInTree(net, g, rank, h, k - 1, c, n);
      p := q + [s];
    }
  }

  /** The nodes below a switch in the tree are those of the leaf switches at its distance. */
  lemma NodesBelow(net: Net, level: set<string>, vertices: Graph, h: nat, k: nat, s: string, n: string)
    requires Tree(net, level, vertices, h) && NamesApart(net) && k <= h && s in Level(net, k)
    ensures Under(FullGraph(vertices), k + 1, s, n) <==> HangsBelow(net, k, s, n)
  {
    var g, rank := FullGraph(vertices), RankOf(net, vertices, h);
    TreeHasShape(net, level, vertices, h);
    if HangsBelow(net, k, s, n) {
      var p :| Walk(net, p, s) && |p| == k + 1 && HeldBy(net, p[0], n);
      TreeHolds(net, g, rank, h, k, s, p, n);
    }
    if Under(g, k + 1, s, n) {
      var p := HoldsInTree(net, g, rank, h, k, s, n);
    }
  }

  method ListRoots(roots: set<string>) returns (top: seq<string>)
    ensures forall v :: v in top <==> v in roots
    ensures forall i, j :: 0 <= i < j < |top| ==> top[i] != top[j]
  {
    top := [];
    var todo := roots;
    while todo != {}
      invariant forall v :: v in roots <==> v in top || v in todo
      invariant forall i :: 0 <= i < |top| ==> top[i] !in todo
      invariant forall i, j :: 0 <= i < j < |top| ==> top[i] != top[j]
      decreases |todo|
    {
      var v :| v in todo;
      top := top + [v];
      todo := todo - {v};
    }
  }

  /** Nodes below the vertex `r` of the result are the nodes hanging below the root switch `v`. */
  ghost predicate SameNodes(net: Net, h: nat, v: string, nodes: Graph, r: string) {
    forall n :: HangsBelow(net, h, v, n) <==> Reaches(nodes, r, n)
  }

  /** Every root switch is represented in the result with its nodes, and the result holds nothing else. */
  ghost predicate RootsKept(net: Net, h: nat, refs: map<string, string>, nodes: Graph, top: seq<string>) {
    && (forall v :: v in Level(net, h) ==> Rep(refs, v) in top && SameNodes(net, h, v, nodes, Rep(refs, v)))
    && (forall r :: r in top ==> r in Level(net, h))
  }

  /** Layering, then merging: each switch at the greatest distance is represented in the result, with its nodes. */
  method GenerateTopology(f: map<string, Switch>, hca: map<string, string>, cluster: set<string>)
      returns (top: seq<string>, merger: FabricMerger, ghost h: nat)
    requires NamesApart(NetOf(f, hca, cluster))
    ensures Level(NetOf(f, hca, cluster), h + 1) == {}
    ensures Level(NetOf(f, hca, cluster), h) == {} ==> Leaves(NetOf(f, hca, cluster)) == {}
    ensures RootsKept(NetOf(f, hca, cluster), h, merger.refs, merger.nodes, top)
  {
    var level, vertices;
    level, vertices, h := BuildTree(f, hca, cluster);
    var roots := ListRoots(level);
    top, merger := MergeRoots(NetOf(f, hca, cluster), level, vertices, h, roots);
  }

  method MergeRoots(ghost net: Net, ghost level: set<string>, vertices: Graph, ghost h: nat, roots: seq<string>)
      returns (top: seq<string>, merger: FabricMerger)
    requires Tree(net, level, vertices, h) && NamesApart(net)
    requires (forall v :: v in roots <==> v in level) && forall i, j :: 0 <= i < j < |roots| ==> roots[i] != roots[j]
    ensures RootsKept(net, h, merger.refs, merger.nodes, top)
  {
    TreeIsLayered(net, level, vertices, h, roots);
    top, merger := RunMerger(FullGraph(vertices), RankOf(net, vertices, h), roots, h + 1);
    if roots == [] {
      EmptyResult(net, h, roots, merger.refs, merger.nodes, top);
    } else {
      ghost var ts :| && MergerTheorems.Outcome(FullGraph(vertices), RankOf(net, vertices, h), merger.refs,
                                                merger.nodes, ts, merger.tiers)
                      && |ts| == h + 2 && SameElements(ts[h + 1], roots) && top == merger.tiers[h + 1];
      RootsRepresented(net, level, vertices, h, RankOf(net, vertices, h), merger.refs, merger.nodes, ts, merger.tiers,
                       roots);
    }
  }

  /** NewMerger, Merge and TopTier on a layered graph. */
  method RunMerger(g: Graph, ghost rank: map<string, nat>, roots: seq<string>, ghost h: nat)
      returns (top: seq<string>, merger: FabricMerger)
    requires Layered(g, rank) && AtRank(g, rank, roots, h)
    ensures roots == [] ==> top == []
    ensures roots != [] ==> exists ts :: && MergerTheorems.Outcome(g, rank, merger.refs, merger.nodes, ts, merger.tiers)
                                         && |ts| == h + 1 && SameElements(ts[h], roots) && top == merger.tiers[h]
  {
    merger := new FabricMerger(g, rank, roots, h);
    ghost var ts := merger.tiers;
    merger.Merge();
    top := merger.TopTier();
  }

  lemma EmptyResult(net: Net, h: nat, roots: seq<string>, refs: map<string, string>, nodes: Graph, top: seq<string>)
    requires (forall v :: v in roots <==> v in Level(net, h)) && roots == [] && top == []
    ensures RootsKept(net, h, refs, nodes, top)
  {}

  lemma RootsRepresented(net: Net, level: set<string>, vertices: Graph, h: nat, rank: map<string, nat>,
                         refs: map<string, string>, nodes: Graph,
                         ts: seq<seq<string>>, rs: seq<seq<string>>, roots: seq<string>)
    requires Tree(net, level, vertices, h) && NamesApart(net) && (forall v :: v in roots <==> v in level)
    requires MergerTheorems.Outcome(FullGraph(vertices), rank, refs, nodes, ts, rs) && |ts| == h + 2
             && SameElements(ts[h + 1], roots)
    ensures RootsKept(net, h, refs, nodes, rs[h + 1])
  {
    forall v | v in level ensures Rep(refs, v) in rs[h + 1] && SameNodes(net, h, v, nodes, Rep(refs, v)) {
      assert v in roots;
      Represents(net, level, vertices, h, rank, refs, nodes, ts, rs, v);
    }
    forall r | r in rs[h + 1] ensures r in level {
      TopIsRoot(FullGraph(vertices), rank, refs, nodes, ts, rs, h + 1, roots, r);
    }
    KeptBy(net, h, level, refs, nodes, rs[h + 1]);
  }

  lemma TopIsRoot(g: Graph, rank: map<string, nat>, refs: map<string, string>, nodes: Graph,
                  ts: seq<seq<string>>, rs: seq<seq<string>>, k: nat, roots: seq<string>, r: string)
    requires MergerTheorems.Outcome(g, rank, refs, nodes, ts, rs) && k < |ts| && SameElements(ts[k], roots)
             && r in rs[k]
    ensures r in roots
  {
    Survivor(g, rank, refs, nodes, ts, rs, k, r);
  }

  lemma KeptBy(net: Net, h: nat, level: set<string>, refs: map<string, string>, nodes: Graph, top: seq<string>)
    requires level == Level(net, h)
    requires forall v :: v in level ==> Rep(refs, v) in top && SameNodes(net, h, v, nodes, Rep(refs, v))
    requires forall r :: r in top ==> r in level
    ensures RootsKept(net, h, refs, nodes, top)
  {}

  lemma Represents(net: Net, level: set<string>, vertices: Graph, h: nat, rank: map<string, nat>,
                   refs: map<string, string>, nodes: Graph,
                   ts: seq<seq<string>>, rs: seq<seq<string>>, v: string)
    requires Tree(net, level, vertices, h) && NamesApart(net) && v in level
    requires MergerTheorems.Outcome(FullGraph(vertices), rank, refs, nodes, ts, rs) && |ts| == h + 2 && v in ts[h + 1]
    ensures Rep(refs, v) in rs[h + 1] && SameNodes(net, h, v, nodes, Rep(refs, v))
  {
    var g := FullGraph(vertices);
    Representative(g, rank, refs, nodes, ts, rs, h + 1, v);
    forall n ensures HangsBelow(net, h, v, n) <==> Reaches(nodes, Rep(refs, v), n) {
      ReachabilityPreserved(g, rank, refs, nodes, ts, rs, h + 1, v, n);
      NodesBelow(net, level, vertices, h, h, v, n);
      if Reaches(g, v, n) {
        var k: nat :| Under(g, k, v, n);
        EqualPaths(net, level, vertices, h, v, n, k);
      }
    }
  }
}

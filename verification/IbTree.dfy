/** Layering an InfiniBand fabric from the switches that hold cluster nodes (pkg/ib/ib.go). */
module IbTree {
  import opened Wrappers
  import opened Merger

  /** A parsed switch: IDs of the devices on its ports, and the cluster nodes found so far (HCA ID to node name). */
  datatype Switch = Switch(conn: set<string>, nodes: map<string, string>)

  /** What layering depends on: node names per switch, and the switch-to-switch links each switch reports. */
  datatype Net = Net(holds: map<string, set<string>>, links: map<string, set<string>>)

  // ---------------------------------------------------------------- what a switch holds

  ghost predicate ClusterNode(hca: map<string, string>, cluster: set<string>, c: string) {
    c in hca && hca[c] != "" && hca[c] in cluster
  }

  ghost function NodesOf(sw: Switch, hca: map<string, string>,
                         cluster: set<string>, seen: set<string>): map<string, string> {
    sw.nodes + map c | c in seen && c in hca && ClusterNode(hca, cluster, c) :: hca[c]
  }

  ghost function NetOf(f: map<string, Switch>, hca: map<string, string>, cluster: set<string>): Net {
    Net(map s | s in f :: NodesOf(f[s], hca, cluster, f[s].conn).Values, map s | s in f :: f[s].conn - hca.Keys)
  }

  // ---------------------------------------------------------------- distance from the leaf switches

  ghost function Leaves(net: Net): set<string> {
    set s | s in net.holds && net.holds[s] != {}
  }

  ghost function Next(net: Net, from: set<string>): set<string> {
    set s | s in net.links && net.links[s] * from != {}
  }

  /** Switches at most `n` links above a leaf switch. */
  ghost function Ball(net: Net, n: nat): set<string> {
    if n == 0 then Leaves(net) else Ball(net, n - 1) + Next(net, Ball(net, n - 1))
  }

  ghost function Level(net: Net, n: nat): set<string> {
    if n == 0 then Ball(net, 0) else Ball(net, n) - Ball(net, n - 1)
  }

  lemma {:induction false} BallMonotone(net: Net, m: nat, n: nat)
    requires m <= n
    ensures Ball(net, m) <= Ball(net, n)
    decreases n
  {
    if m < n { BallMonotone(net, m, n - 1); }
  }

  lemma LevelsDisjoint(net: Net, m: nat, n: nat, s: string)
    requires s in Level(net, m) && s in Level(net, n)
    ensures m == n
  {
    if m < n { BallMonotone(net, m, n - 1); }
    if n < m { BallMonotone(net, n, m - 1); }
  }

  lemma {:induction false} BallIsLevels(net: Net, n: nat, s: string) returns (d: nat)
    requires s in Ball(net, n)
    ensures d <= n && s in Level(net, d)
  {
    if n == 0 || s !in Ball(net, n - 1) {
      d := n;
    } else {
      d := BallIsLevels(net, n - 1, s);
    }
  }

  lemma InNextBall(net: Net, k: nat, s: string)
    ensures s in Ball(net, k + 1) <==> s in Ball(net, k) || s in Next(net, Ball(net, k))
  {}

  lemma NeighbourInBall(net: Net, k: nat, t: string, s: string)
    requires s in net.links && t in net.links[s]
    ensures t in Ball(net, k) ==> s in Ball(net, k + 1)
  {
    InNextBall(net, k, s);
    NeighbourInNext(net, Ball(net, k), t, s);
  }

  lemma NeighbourInNext(net: Net, from: set<string>, t: string, s: string)
    requires s in net.links && t in net.links[s]
    ensures t in from ==> s in Next(net, from)
  {
    if t in from { assert t in net.links[s] * from; }
  }

  /** A switch is on the next level iff it is new and reports a switch of the current level. */
  lemma LevelStep(net: Net, k: nat, s: string)
    requires s in net.links
    ensures s in Level(net, k + 1) <==> s !in Ball(net, k) && net.links[s] * Level(net, k) != {}
  {
    if s in Level(net, k + 1) {
      var t :| t in net.links[s] * Ball(net, k);
      if k > 0 { NeighbourInBall(net, k - 1, t, s); }
      assert t in net.links[s] * Level(net, k);
    }
    if net.links[s] * Level(net, k) != {} {
      var t :| t in net.links[s] * Level(net, k);
      assert t in net.links[s] * Ball(net, k);
    }
  }

  lemma BallStops(net: Net, k: nat)
    requires Level(net, k + 1) == {}
    ensures Ball(net, k + 1) == Ball(net, k)
  {
    BallMonotone(net, k, k + 1);
    forall s | s in Ball(net, k + 1) ensures s in Ball(net, k) {
      assert s !in Level(net, k + 1);
    }
  }

  /** Equal balls stay equal one step further. */
  lemma BallRepeats(net: Net, k: nat, n: nat)
    requires Ball(net, n) == Ball(net, k)
    ensures Ball(net, n + 1) == Ball(net, k + 1)
  {}

  /** Sets number k and n are followed by equal sets if they are equal. */
  ghost predicate Repeats(b: nat -> set<string>, k: nat, n: nat) {
    b(n) == b(k) ==> b(n + 1) == b(k + 1)
  }

  /** A sequence of sets in which equal sets are followed by equal sets stays where it first repeats. */
  lemma {:induction false} Stays(b: nat -> set<string>, k: nat, n: nat)
    requires b(k + 1) == b(k) && k <= n && forall i: nat :: Repeats(b, k, i)
    ensures b(n) == b(k)
    decreases n
  {
    if k < n {
      Stays(b, k, n - 1);
      assert Repeats(b, k, n - 1);
    }
  }

  lemma BallsStay(net: Net, k: nat, n: nat)
    requires Ball(net, k + 1) == Ball(net, k) && k <= n
    ensures Ball(net, n) == Ball(net, k)
  {
    var b := (i: nat) => Ball(net, i);
    forall i: nat ensures Repeats(b, k, i) {
      if b(i) == b(k) { BallRepeats(net, k, i); }
    }
    Stays(b, k, n);
  }

  lemma LevelsStayEmpty(net: Net, k: nat, n: nat)
    requires Level(net, k + 1) == {} && k <= n
    ensures Ball(net, n) == Ball(net, k) && Level(net, n + 1) == {}
  {
    BallStops(net, k);
    BallsStay(net, k, n);
    BallsStay(net, k, n + 1);
  }

  /** A walk up from a leaf switch: each switch reports the one before it. */
  ghost predicate Walk(net: Net, p: seq<string>, s: string) {
    && |p| > 0 && p[0] in Leaves(net) && p[|p| - 1] == s
    && forall i :: 0 < i < |p| ==> p[i] in net.links && p[i - 1] in net.links[p[i]]
  }

  lemma {:induction false} WalkReaches(net: Net, p: seq<string>, s: string)
    requires Walk(net, p, s)
    ensures s in Ball(net, |p| - 1)
    decreases |p|
  {
    if |p| > 1 {
      var t := p[|p| - 2];
      WalkReaches(net, p[..|p| - 1], t);
      assert t in net.links[s] * Ball(net, |p| - 2);
    }
  }

  lemma {:induction false} LevelHasWalk(net: Net, d: nat, s: string) returns (p: seq<string>)
    requires net.holds.Keys == net.links.Keys && s in Level(net, d)
    ensures Walk(net, p, s) && |p| == d + 1
  {
    if d == 0 {
      p := [s];
    } else {
      assert s in Next(net, Ball(net, d - 1));
      LevelStep(net, d - 1, s);
      var t :| t in net.links[s] * Level(net, d - 1);
      var q := LevelHasWalk(net, d - 1, t);
      p := q + [s];
    }
  }

  lemma NoShorterWalk(net: Net, d: nat, s: string, q: seq<string>)
    requires s in Level(net, d) && Walk(net, q, s)
    ensures |q| >= d + 1
  {
    WalkReaches(net, q, s);
    var e := BallIsLevels(net, |q| - 1, s);
    LevelsDisjoint(net, d, e, s);
  }

  lemma ShortestWalkLevel(net: Net, d: nat, s: string, p: seq<string>)
    requires net.holds.Keys == net.links.Keys && Walk(net, p, s) && |p| == d + 1 && forall q :: Walk(net, q, s) ==>
               |q| >= d + 1
    ensures s in Level(net, d)
  {
    WalkReaches(net, p, s);
    var e := BallIsLevels(net, d, s);
    var q := LevelHasWalk(net, e, s);
  }

  /** The level of a switch is its shortest distance from a switch that holds cluster nodes. */
  lemma LevelIsDistance(net: Net, d: nat, s: string)
    requires net.holds.Keys == net.links.Keys
    ensures s in Level(net, d) <==>
              (exists p :: Walk(net, p, s) && |p| == d + 1) && (forall p :: Walk(net, p, s) ==> |p| >= d + 1)
  {
    if s in Level(net, d) {
      var p := LevelHasWalk(net, d, s);
      assert Walk(net, p, s) && |p| == d + 1;
      forall q | Walk(net, q, s) ensures |q| >= d + 1 { NoShorterWalk(net, d, s, q); }
    }
    if (exists p :: Walk(net, p, s) && |p| == d + 1) && (forall p :: Walk(net, p, s) ==> |p| >= d + 1) {
      var p :| Walk(net, p, s) && |p| == d + 1;
      ShortestWalkLevel(net, d, s, p);
    }
  }

  // ---------------------------------------------------------------- the vertices

  /** What a switch on level `k` points at: its nodes, or the switches it reports one level down. */
  ghost function ChildrenAt(net: Net, k: nat, s: string): set<string>
    requires s in net.holds && s in net.links
  {
    if k == 0 then net.holds[s] else net.links[s] * Level(net, k - 1)
  }

  ghost predicate Placed(net: Net, vertices: Graph, k: nat, s: string) {
    s in net.holds && s in net.links && s in vertices && vertices[s] == Vertex("", ChildrenAt(net, k, s))
  }

  /** Vertices for exactly the switches up to level `k`. */
  ghost predicate Layers(net: Net, vertices: Graph, k: nat) {
    && vertices.Keys == Ball(net, k)
    && forall j: nat, s {:trigger Placed(net, vertices, j, s)} :: j <= k && s in Level(net, j) ==>
         Placed(net, vertices, j, s)
  }

  // ---------------------------------------------------------------- first pass

  /** After the ports in `done`: their HCA ports have left the connections, those of cluster nodes are recorded. */
  ghost predicate PortsSplit(sw: Switch, r: Switch, hca: map<string, string>, cluster: set<string>, done: set<string>) {
    && (forall c :: c in r.conn <==> c in sw.conn && !(c in done && c in hca))
    && (forall c :: c in r.nodes <==> c in sw.nodes || (c in done && ClusterNode(hca, cluster, c)))
    && (forall c :: c in r.nodes ==>
          r.nodes[c] == if c in done && ClusterNode(hca, cluster, c) then hca[c] else sw.nodes[c])
  }

  lemma PortsDone(sw: Switch, r: Switch, hca: map<string, string>, cluster: set<string>)
    requires PortsSplit(sw, r, hca, cluster, sw.conn)
    ensures r.conn == sw.conn - hca.Keys && r.nodes == NodesOf(sw, hca, cluster, sw.conn)
  {}

  method SplitPort(ghost sw: Switch, r: Switch, hca: map<string, string>,
                   cluster: set<string>, ghost done: set<string>, c: string) returns (r': Switch)
    requires PortsSplit(sw, r, hca, cluster, done) && c in sw.conn && c !in done
    ensures PortsSplit(sw, r', hca, cluster, done + {c})
  {
    r' := r;
    if c in hca {
      if |hca[c]| != 0 && hca[c] in cluster {
        r' := r'.(nodes := r'.nodes[c := hca[c]]);
      }
      r' := r'.(conn := r'.conn - {c});
    }
  }

  method SplitPorts(sw: Switch, hca: map<string, string>, cluster: set<string>) returns (r: Switch)
    ensures r.conn == sw.conn - hca.Keys
    ensures r.nodes == NodesOf(sw, hca, cluster, sw.conn)
  {
    r := sw;
    var todo := sw.conn;
    while todo != {}
      invariant todo <= sw.conn && PortsSplit(sw, r, hca, cluster, sw.conn - todo)
      decreases |todo|
    {
      var c :| c in todo;
      r := SplitPort(sw, r, hca, cluster, sw.conn - todo, c);
      assert sw.conn - (todo - {c}) == sw.conn - todo + {c};
      todo := todo - {c};
    }
    assert sw.conn - todo == sw.conn;
    PortsDone(sw, r, hca, cluster);
  }

  /** The net records what the ports of switch `s` say. */
  ghost predicate Describes(net: Net, s: string, sw: Switch, hca: map<string, string>, cluster: set<string>) {
    && s in net.holds && net.holds[s] == NodesOf(sw, hca, cluster, sw.conn).Values
    && s in net.links && net.links[s] == sw.conn - hca.Keys
  }

  ghost predicate Describing(net: Net, f: map<string, Switch>, hca: map<string, string>, cluster: set<string>) {
    && net.links.Keys == net.holds.Keys == f.Keys
    && forall s {:trigger Describes(net, s, f[s], hca, cluster)} :: s in f ==> Describes(net, s, f[s], hca, cluster)
  }

  lemma NetDescribes(f: map<string, Switch>, hca: map<string, string>, cluster: set<string>)
    ensures Describing(NetOf(f, hca, cluster), f, hca, cluster)
  {}

  ghost predicate FirstPass(f: map<string, Switch>, net: Net, switches: map<string, Switch>, vertices: Graph,
                            level: set<string>, done: set<string>) {
    && switches.Keys == f.Keys == net.links.Keys == net.holds.Keys
    && (forall s :: s in level <==> s in done && s in f && net.holds[s] != {})
    && (forall s :: s in vertices <==> s in level)
    && (forall s :: s in f && s !in done ==> switches[s] == f[s])
    && (forall s :: s in done && s in f && s !in level ==> switches[s].conn == net.links[s])
    && (forall s :: s in level ==> vertices[s] == Vertex("", net.holds[s]))
  }

  lemma EmptyValues(m: map<string, string>)
    ensures |m| == 0 <==> m.Values == {}
  {
    if |m| != 0 {
      var k :| k in m;
      assert m[k] in m.Values;
    }
  }

  /** Splits the ports of one switch; `names` are the cluster nodes it holds. */
  method Examine(ghost net: Net, ghost f: map<string, Switch>, hca: map<string, string>,
                 cluster: set<string>, ghost s: string, sw: Switch)
      returns (r: Switch, names: set<string>)
    requires Describing(net, f, hca, cluster) && s in f && sw == f[s]
    ensures r.conn == net.links[s] && names == net.holds[s] && (|r.nodes| == 0 <==> names == {})
  {
    assert Describes(net, s, f[s], hca, cluster);
    r := SplitPorts(sw, hca, cluster);
    names := r.nodes.Values;
    EmptyValues(r.nodes);
  }

  method FindLeaf(ghost net: Net, ghost f: map<string, Switch>, ghost done: set<string>, s: string, sw: Switch,
                  names: set<string>,
                  switches: map<string, Switch>, vertices: Graph, level: set<string>)
      returns (switches': map<string, Switch>, vertices': Graph, level': set<string>)
    requires FirstPass(f, net, switches, vertices, level, done) && s in f && s !in done
    requires sw.conn == net.links[s] && names == net.holds[s] && (|sw.nodes| == 0 <==> names == {})
    ensures FirstPass(f, net, switches', vertices', level', done + {s})
  {
    if |sw.nodes| != 0 {
      vertices' := vertices[s := Vertex("", names)];
      level' := level + {s};
      switches' := switches[s := sw.(conn := {})];
    } else {
      switches', vertices', level' := switches[s := sw], vertices, level;
    }
  }

  method FindLeaves(ghost net: Net, f: map<string, Switch>, hca: map<string, string>, cluster: set<string>)
      returns (switches: map<string, Switch>, vertices: Graph, level: set<string>)
    requires Describing(net, f, hca, cluster)
    ensures FirstPass(f, net, switches, vertices, level, f.Keys)
  {
    switches, vertices, level := f, map[], {};
    var todo := f.Keys;
    while todo != {}
      invariant todo <= f.Keys && FirstPass(f, net, switches, vertices, level, f.Keys - todo)
      decreases |todo|
    {
      var s :| s in todo;
      Advance(f.Keys, todo, s);
      var sw, names := Examine(net, f, hca, cluster, s, switches[s]);
      switches, vertices, level := FindLeaf(net, f, f.Keys - todo, s, sw, names, switches, vertices, level);
      todo := todo - {s};
    }
    assert f.Keys - todo == f.Keys;
  }

  // ---------------------------------------------------------------- level by level

  /** Switches not yet placed still have all their links. */
  ghost predicate Unplaced(net: Net, switches: map<string, Switch>, vertices: Graph) {
    && switches.Keys == net.links.Keys == net.holds.Keys
    && forall s :: s in switches && s !in vertices ==> switches[s].conn == net.links[s]
  }

  /** `next` is the level after `level`, when the switches in `ball` are placed. */
  ghost predicate Follows(net: Net, ball: set<string>, level: set<string>, next: set<string>) {
    forall s :: s in next <==> s in net.links && s !in ball && net.links[s] * level != {}
  }

  ghost predicate UpperPass(net: Net, switches: map<string, Switch>, vertices0: Graph, vertices: Graph,
                            level: set<string>, upper: set<string>,
                            next: set<string>, done: set<string>)
  {
    && Unplaced(net, switches, vertices)
    && (forall s :: s in upper <==> s in next && s in done)
    && (forall s :: s in vertices <==> s in vertices0 || s in upper)
    && (forall s :: s in vertices0 ==> vertices[s] == vertices0[s])
    && (forall s :: s in upper ==> s in net.links && vertices[s] == Vertex("", net.links[s] * level))
  }

  method PlaceSwitch(ghost net: Net, switches: map<string, Switch>, ghost vertices0: Graph, vertices: Graph,
                     level: set<string>, upper: set<string>,
                     ghost next: set<string>, ghost done: set<string>, s: string)
      returns (switches': map<string, Switch>, vertices': Graph, upper': set<string>)
    requires UpperPass(net, switches, vertices0, vertices, level, upper, next, done) && s in switches && s !in done
    requires Follows(net, vertices0.Keys, level, next)
    ensures UpperPass(net, switches', vertices0, vertices', level, upper', next, done + {s})
  {
    switches', vertices', upper' := switches, vertices, upper;
    if s in vertices { return; }
    var children := set c | c in switches[s].conn && c in level;
    assert children == net.links[s] * level;
    if |children| != 0 {
      vertices' := vertices[s := Vertex("", children)];
      upper' := upper + {s};
      switches' := switches[s := switches[s].(conn := {})];
    }
  }

  method NextLevel(ghost net: Net, switches0: map<string, Switch>, vertices0: Graph,
                   level: set<string>, ghost next: set<string>)
      returns (switches: map<string, Switch>, vertices: Graph, upper: set<string>)
    requires Unplaced(net, switches0, vertices0) && Follows(net, vertices0.Keys, level, next)
    ensures UpperPass(net, switches, vertices0, vertices, level, upper, next, net.links.Keys)
  {
    switches, vertices, upper := switches0, vertices0, {};
    var todo := switches0.Keys;
    while todo != {}
      invariant todo <= net.links.Keys
                && UpperPass(net, switches, vertices0, vertices, level, upper, next, net.links.Keys - todo)
      decreases |todo|
    {
      var s :| s in todo;
      Advance(net.links.Keys, todo, s);
      switches, vertices, upper := PlaceSwitch(net, switches, vertices0, vertices, level, upper, next,
                                               net.links.Keys - todo, s);
      todo := todo - {s};
    }
    assert net.links.Keys - todo == net.links.Keys;
  }

  lemma LevelFollows(net: Net, k: nat)
    ensures Follows(net, Ball(net, k), Level(net, k), Level(net, k + 1))
  {
    forall s
      ensures s in Level(net, k + 1) <==> s in net.links && s !in Ball(net, k) && net.links[s] * Level(net, k) != {}
    {
      if s in net.links {
        LevelStep(net, k, s);
      }
    }
  }

  lemma LevelInNet(net: Net, k: nat, s: string)
    requires s in Level(net, k + 1)
    ensures s in net.links && s in Ball(net, k + 1) && s !in Ball(net, k)
  {
    assert s in Next(net, Ball(net, k));
  }

  lemma PlacedKept(net: Net, switches: map<string, Switch>, vertices0: Graph, vertices: Graph,
                   upper: set<string>, k: nat, j: nat, s: string)
    requires Layers(net, vertices0, k)
             && UpperPass(net, switches, vertices0, vertices, Level(net, k), upper, Level(net, k + 1), net.links.Keys)
    requires j <= k && s in Level(net, j)
    ensures Placed(net, vertices, j, s)
  {
    assert Placed(net, vertices0, j, s);
  }

  lemma PlacedNew(net: Net, switches: map<string, Switch>, vertices0: Graph, vertices: Graph,
                  upper: set<string>, k: nat, s: string)
    requires UpperPass(net, switches, vertices0, vertices, Level(net, k), upper, Level(net, k + 1), net.links.Keys)
    requires s in Level(net, k + 1)
    ensures s in upper && Placed(net, vertices, k + 1, s)
  {
    LevelInNet(net, k, s);
  }

  lemma VerticesAre(net: Net, switches: map<string, Switch>, vertices0: Graph, vertices: Graph,
                    upper: set<string>, k: nat)
    requires vertices0.Keys == Ball(net, k)
             && UpperPass(net, switches, vertices0, vertices, Level(net, k), upper, Level(net, k + 1), net.links.Keys)
    ensures upper == Level(net, k + 1) && vertices.Keys == Ball(net, k + 1)
  {
    forall s | s in Level(net, k + 1) ensures s in net.links { LevelInNet(net, k, s); }
    BallMonotone(net, k, k + 1);
  }

  lemma LayersExtend(net: Net, switches: map<string, Switch>, vertices0: Graph, vertices: Graph,
                     upper: set<string>, k: nat)
    requires Layers(net, vertices0, k)
             && UpperPass(net, switches, vertices0, vertices, Level(net, k), upper, Level(net, k + 1), net.links.Keys)
    ensures Layers(net, vertices, k + 1) && upper == Level(net, k + 1)
  {
    VerticesAre(net, switches, vertices0, vertices, upper, k);
    forall j: nat, s | j <= k + 1 && s in Level(net, j) ensures Placed(net, vertices, j, s) {
      if j <= k {
        PlacedKept(net, switches, vertices0, vertices, upper, k, j, s);
      } else {
        PlacedNew(net, switches, vertices0, vertices, upper, k, s);
      }
    }
  }

  /** The switches at the greatest distance, on layers that cover everything reachable; empty only without cluster
      nodes. */
  ghost predicate Tree(net: Net, level: set<string>, vertices: Graph, h: nat) {
    && net.holds.Keys == net.links.Keys
    && Layers(net, vertices, h) && level == Level(net, h) && Level(net, h + 1) == {}
    && (level == {} ==> Leaves(net) == {})
  }

  lemma FirstLayer(f: map<string, Switch>, net: Net, switches: map<string, Switch>, vertices: Graph, level: set<string>)
    requires FirstPass(f, net, switches, vertices, level, f.Keys)
    ensures Unplaced(net, switches, vertices) && Layers(net, vertices, 0) && level == Level(net, 0)
  {
    assert Leaves(net) * f.Keys == Leaves(net);
    forall j: nat, s | j <= 0 && s in Level(net, j) ensures Placed(net, vertices, j, s) {
      assert s in level;
    }
  }

  method BuildTree(f: map<string, Switch>, hca: map<string, string>, cluster: set<string>)
      returns (level: set<string>, vertices: Graph, ghost h: nat)
    ensures Tree(NetOf(f, hca, cluster), level, vertices, h)
  {
    NetDescribes(f, hca, cluster);
    level, vertices, h := BuildLevels(NetOf(f, hca, cluster), f, hca, cluster);
  }

  method BuildLevels(ghost net: Net, f: map<string, Switch>, hca: map<string, string>, cluster: set<string>)
      returns (level: set<string>, vertices: Graph, ghost h: nat)
    requires Describing(net, f, hca, cluster)
    ensures Tree(net, level, vertices, h)
  {
    var switches;
    switches, vertices, level := FindLeaves(net, f, hca, cluster);
    h := 0;
    FirstLayer(f, net, switches, vertices, level);
    ghost var left := net.links.Keys - vertices.Keys;
    while true
      invariant Unplaced(net, switches, vertices) && Layers(net, vertices, h) && level == Level(net, h)
      invariant level == {} ==> Leaves(net) == {}
      invariant left == net.links.Keys - vertices.Keys
      decreases |left|
    {
      LevelFollows(net, h);
      ghost var vertices0 := vertices;
      var upper;
      switches, vertices, upper := NextLevel(net, switches, vertices, level, Level(net, h + 1));
      LayersExtend(net, switches, vertices0, vertices, upper, h);
      if |upper| == 0 {
        SameLayers(net, vertices, h);
        break;
      }
      Progress(net, vertices, h, left);
      left := net.links.Keys - vertices.Keys;
      level := upper;
      h := h + 1;
    }
  }

  lemma SameLayers(net: Net, vertices: Graph, h: nat)
    requires Layers(net, vertices, h + 1) && Level(net, h + 1) == {}
    ensures Layers(net, vertices, h)
  {
    LevelsStayEmpty(net, h, h + 1);
  }

  lemma Progress(net: Net, vertices: Graph, h: nat, left: set<string>)
    requires Layers(net, vertices, h + 1) && Level(net, h + 1) != {} && net.links.Keys == net.holds.Keys
             && left == net.links.Keys - Ball(net, h)
    ensures |net.links.Keys - vertices.Keys| < |left|
  {
    BallInNet(net, h + 1);
    BallMonotone(net, h, h + 1);
    var s :| s in Level(net, h + 1);
    assert net.links.Keys - vertices.Keys <= left - {s};
    SubsetSize(net.links.Keys - vertices.Keys, left - {s});
  }

  lemma {:induction false} BallInNet(net: Net, n: nat)
    requires net.links.Keys == net.holds.Keys
    ensures Ball(net, n) <= net.links.Keys
  {
    if n > 0 { BallInNet(net, n - 1); }
  }
}

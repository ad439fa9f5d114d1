/** Building the graph and flattening it again: ToGraph, initTree and the walk of deriveInstances
    (pkg/engines/graph/engine.go). */
module GraphRoundTrip {
  import opened Wrappers
  import opened GraphTree
  import opened CanonicalGraph
  import opened GraphWalk

  // ---------------------------------------------------------------- the graph is a tree

  ghost function UpOf(up: map<string, string>, rest: map<string, string>): map<string, string> {
    map v | v in up.Keys + rest.Keys + (if rest == map[] then {} else {NO_TOPOLOGY}) ::
      if v in up then up[v] else if v in rest then NO_TOPOLOGY else ""
  }

  ghost function RankOf(plan: Plan, g: Graph): map<string, nat> {
    map v | v in g ::
      if v == "" then plan.height + 2
      else if v in plan.level then plan.level[v] + 1
      else if v == NO_TOPOLOGY then 1
      else 0
  }

  /** IDs of the parts of the graph do not clash. */
  ghost predicate PartsApart(plan: Plan, f: Forest, up: map<string, string>, leaves: map<string, string>,
                             rest: map<string, string>, v: string) {
    && (v in leaves ==> v !in plan.level && v !in rest && v != "" && v != NO_TOPOLOGY)
    && (v in rest ==> v !in plan.level && v !in up && v != "" && v != NO_TOPOLOGY)
    && (v in plan.level ==> v != "" && v != NO_TOPOLOGY && plan.level[v] < plan.height)
    && (v in up ==> v != "" && v != NO_TOPOLOGY && (v in leaves || IsSwitch(plan, f, v)))
    && (v in leaves || IsSwitch(plan, f, v) ==> v in up)
  }

  ghost predicate Apart(plan: Plan, f: Forest, up: map<string, string>, leaves: map<string, string>,
                        rest: map<string, string>) {
    forall v {:trigger PartsApart(plan, f, up, leaves, rest, v)} :: PartsApart(plan, f, up, leaves, rest, v)
  }

  lemma BuiltApart(plan: Plan, records: seq<Record>, requested: map<string, string>, trim: int,
                   f: Forest, up: map<string, string>, leaves: map<string, string>, rest: map<string, string>)
    requires Consistent(plan, records, requested, trim)
             && Building(plan, records, requested, trim, |records|, f, up, leaves, rest)
    ensures Apart(plan, f, up, leaves, rest)
  {
    var n := |records|;
    forall v ensures PartsApart(plan, f, up, leaves, rest, v) {
      assert SplitOk(records, requested, n, leaves, rest, v) && LeafOk(plan, up, leaves, v);
      assert PlacedOk(plan, f, up, v) && PendingOk(plan, f, up, "", v);
    }
  }

  lemma UpwardEdge(plan: Plan, f: Forest, up: map<string, string>, leaves: map<string, string>,
                   rest: map<string, string>, g: Graph, v: string)
    requires Growing(plan, f, up, "") && Apart(plan, f, up, leaves, rest) && Assembled(plan, f, leaves, rest, g)
    ensures VertexOk(g, UpOf(up, rest), RankOf(plan, g), v)
  {
    var upF := UpOf(up, rest);
    assert PartsApart(plan, f, up, leaves, rest, v) && VertexOf(plan, f, leaves, rest, g, v)
           && VertexOf(plan, f, leaves, rest, g, "");
    if v in upF {
      var u := upF[v];
      assert PlacedOk(plan, f, up, v) && PartsApart(plan, f, up, leaves, rest, u);
      assert VertexOf(plan, f, leaves, rest, g, u) && PartsApart(plan, f, up, leaves, rest, NO_TOPOLOGY);
    }
  }

  lemma DownwardEdge(plan: Plan, f: Forest, up: map<string, string>, leaves: map<string, string>,
                     rest: map<string, string>, g: Graph, u: string, c: string)
    requires Growing(plan, f, up, "") && Apart(plan, f, up, leaves, rest) && Assembled(plan, f, leaves, rest, g)
    ensures EdgeOk(g, UpOf(up, rest), u, c)
  {
    assert PartsApart(plan, f, up, leaves, rest, u) && PartsApart(plan, f, up, leaves, rest, c)
           && VertexOf(plan, f, leaves, rest, g, u);
    assert ChildOk(plan, f, up, u, c) && RootOk(f, up, c);
  }

  lemma VertexKnown(plan: Plan, f: Forest, up: map<string, string>, leaves: map<string, string>,
                    rest: map<string, string>, g: Graph, v: string)
    requires Apart(plan, f, up, leaves, rest) && Assembled(plan, f, leaves, rest, g)
    ensures v in g <==> v == "" || v in UpOf(up, rest)
    ensures v == "" ==> v !in UpOf(up, rest)
  {
    assert PartsApart(plan, f, up, leaves, rest, v) && VertexOf(plan, f, leaves, rest, g, v);
  }

  lemma AssembledShape(plan: Plan, f: Forest, up: map<string, string>, leaves: map<string, string>,
                       rest: map<string, string>, g: Graph)
    requires Growing(plan, f, up, "") && Apart(plan, f, up, leaves, rest) && Assembled(plan, f, leaves, rest, g)
    ensures Shape(g, UpOf(up, rest), RankOf(plan, g))
  {
    var upF, rank := UpOf(up, rest), RankOf(plan, g);
    forall v ensures v in g <==> v in upF.Keys + {""} { VertexKnown(plan, f, up, leaves, rest, g, v); }
    VertexKnown(plan, f, up, leaves, rest, g, "");
    forall v ensures VertexOk(g, upF, rank, v) { UpwardEdge(plan, f, up, leaves, rest, g, v); }
    forall u, c ensures EdgeOk(g, upF, u, c) { DownwardEdge(plan, f, up, leaves, rest, g, u, c); }
  }

  // ---------------------------------------------------------------- what the leaves say

  ghost predicate Placement(plan: Plan, f: Forest, up: map<string, string>, leaves: map<string, string>,
                            rest: map<string, string>, g: Graph) {
    Growing(plan, f, up, "") && Apart(plan, f, up, leaves, rest) && Assembled(plan, f, leaves, rest, g)
  }

  /** The vertices without children, other than the root, are the requested instances. */
  lemma LeavesAreInstances(plan: Plan, f: Forest, up: map<string, string>, leaves: map<string, string>,
                           rest: map<string, string>, g: Graph, x: string)
    requires Placement(plan, f, up, leaves, rest, g)
    ensures x != "" && IsLeaf(g, x) <==> x in leaves || x in rest
  {
    assert PartsApart(plan, f, up, leaves, rest, x) && VertexOf(plan, f, leaves, rest, g, x);
    if IsSwitch(plan, f, x) { assert NodeOk(plan, f, (plan.level[x], x)); }
    if x == NO_TOPOLOGY && rest != map[] {
      var d :| d in rest;
      assert d in rest.Keys;
    }
  }

  lemma TopHasNoLayers(g: Graph, up: Up, rank: Rank, v: string)
    requires Shape(g, up, rank) && v in up && up[v] == ""
    ensures Above(g, up, rank, v) == []
  {
    assert !Rises(up, rank, "");
    assert Label(g, "") == [];
  }

  /** A switch in the tree carries its planned name and parent. */
  lemma SwitchFacts(plan: Plan, f: Forest, up: map<string, string>, leaves: map<string, string>,
                    rest: map<string, string>, g: Graph, v: string, s: string)
    requires Placement(plan, f, up, leaves, rest, g) && v in UpOf(up, rest) && UpOf(up, rest)[v] == s && s in plan.level
    ensures s in g && s in plan.name && g[s].name == plan.name[s] && s in UpOf(up, rest) && s in plan.parent
            && UpOf(up, rest)[s] == plan.parent[s]
    ensures s != NO_TOPOLOGY && s != ""
  {
    assert PartsApart(plan, f, up, leaves, rest, v) && PartsApart(plan, f, up, leaves, rest, s)
           && PlacedOk(plan, f, up, v);
    assert PartsApart(plan, f, up, leaves, rest, NO_TOPOLOGY) && PartsApart(plan, f, up, leaves, rest, "");
    assert VertexOf(plan, f, leaves, rest, g, s) && PlacedOk(plan, f, up, s) && NodeOk(plan, f, (plan.level[s], s));
  }

  lemma NextLayers(tiers: seq<Tier>, k: nat)
    requires k < |tiers|
    ensures NetworkLayers(tiers[k..]) == Shown(tiers[k].id, tiers[k].name) + NetworkLayers(tiers[k + 1..])
  {
    assert tiers[k..][0] == tiers[k] && tiers[k..][1..] == tiers[k + 1..];
  }

  /** A vertex that hangs below the tiers from `k` on has exactly their layers above it. */
  lemma {:induction false} LayersAbove(plan: Plan, f: Forest, up: map<string, string>, leaves: map<string, string>,
                                       rest: map<string, string>, g: Graph,
                                       tiers: seq<Tier>, k: nat, v: string)
    requires Placement(plan, f, up, leaves, rest, g) && Shape(g, UpOf(up, rest), RankOf(plan, g))
             && RecordOk(plan, tiers) && k <= |tiers|
    requires v in UpOf(up, rest) && UpOf(up, rest)[v] == NextUp(tiers, k)
    ensures Above(g, UpOf(up, rest), RankOf(plan, g), v) == NetworkLayers(tiers[k..])
    decreases |tiers| - k
  {
    if k == |tiers| {
      TopHasNoLayers(g, UpOf(up, rest), RankOf(plan, g), v);
    } else {
      NextLayers(tiers, k);
      assert TierOk(plan, tiers, k);
      if tiers[k].id == "" {
        LayersAbove(plan, f, up, leaves, rest, g, tiers, k + 1, v);
      } else {
        var s := tiers[k].id;
        SwitchFacts(plan, f, up, leaves, rest, g, v, s);
        LayersAbove(plan, f, up, leaves, rest, g, tiers, k + 1, s);
        ShapeRises(g, UpOf(up, rest), RankOf(plan, g), v);
      }
    }
  }

  lemma MissingHasNoLayers(plan: Plan, f: Forest, up: map<string, string>, leaves: map<string, string>,
                           rest: map<string, string>, g: Graph, d: string)
    requires Placement(plan, f, up, leaves, rest, g) && Shape(g, UpOf(up, rest), RankOf(plan, g)) && d in rest
    ensures Above(g, UpOf(up, rest), RankOf(plan, g), d) == []
  {
    var upF, rank := UpOf(up, rest), RankOf(plan, g);
    assert PartsApart(plan, f, up, leaves, rest, d) && PartsApart(plan, f, up, leaves, rest, NO_TOPOLOGY);
    ShapeRises(g, upF, rank, d);
    TopHasNoLayers(g, upF, rank, NO_TOPOLOGY);
  }

  // ---------------------------------------------------------------- ToGraph and back

  /** The graph holds each requested instance as exactly one leaf, with its name. */
  ghost predicate Holds(g: Graph, requested: map<string, string>, x: string) {
    (x != "" && IsLeaf(g, x) <==> x in requested) && (x in requested ==> x in g && g[x].name == requested[x])
  }

  /** The layers above each instance are those of its record, or none. */
  ghost predicate LayersOf(g: Graph, up: Up, rank: Rank, records: seq<Record>, requested: map<string, string>,
                           trim: int) {
    && (forall i: nat {:trigger Counts(records, requested, i)} ::
          Counts(records, requested, i) ==>
            Above(g, up, rank, records[i].id) == NetworkLayers(Trimmed(records[i], trim)))
    && (forall d :: d in requested && !Named(records, |records|, d) ==> Above(g, up, rank, d) == [])
  }

  lemma GraphLayers(plan: Plan, records: seq<Record>, requested: map<string, string>, trim: int,
                    f: Forest, up: map<string, string>, leaves: map<string, string>, rest: map<string, string>,
                      g: Graph)
    requires Consistent(plan, records, requested, trim)
             && Building(plan, records, requested, trim, |records|, f, up, leaves, rest)
    requires Placement(plan, f, up, leaves, rest, g) && Shape(g, UpOf(up, rest), RankOf(plan, g))
    ensures LayersOf(g, UpOf(up, rest), RankOf(plan, g), records, requested, trim)
  {
    var upF, rank, n := UpOf(up, rest), RankOf(plan, g), |records|;
    forall i: nat | Counts(records, requested, i)
      ensures Above(g, upF, rank, records[i].id) == NetworkLayers(Trimmed(records[i], trim))
    {
      assert HungOk(records, requested, trim, up, n, i);
      var tiers := Trimmed(records[i], trim);
      LayersAbove(plan, f, up, leaves, rest, g, tiers, 0, records[i].id);
      assert tiers[0..] == tiers;
    }
    forall d | d in requested && !Named(records, |records|, d) ensures Above(g, upF, rank, d) == [] {
      assert SplitOk(records, requested, n, leaves, rest, d);
      MissingHasNoLayers(plan, f, up, leaves, rest, g, d);
    }
  }

  lemma GraphLeaves(plan: Plan, records: seq<Record>, requested: map<string, string>, trim: int,
                    f: Forest, up: map<string, string>, leaves: map<string, string>, rest: map<string, string>,
                      g: Graph, x: string)
    requires Building(plan, records, requested, trim, |records|, f, up, leaves, rest)
             && Placement(plan, f, up, leaves, rest, g)
    ensures Holds(g, requested, x)
  {
    var n := |records|;
    assert SplitOk(records, requested, n, leaves, rest, x) && VertexOf(plan, f, leaves, rest, g, x)
           && PartsApart(plan, f, up, leaves, rest, x);
    LeavesAreInstances(plan, f, up, leaves, rest, g, x);
  }

  method ToGraph(ghost plan: Plan, records: seq<Record>, requested: map<string, string>, trim: int)
      returns (g: Graph, ghost up: Up, ghost rank: Rank)
    requires Consistent(plan, records, requested, trim)
    ensures Shape(g, up, rank)
    ensures forall x {:trigger Holds(g, requested, x)} :: Holds(g, requested, x)
    ensures LayersOf(g, up, rank, records, requested, trim)
  {
    var nodes, roots, leaves, rest;
    ghost var placed;
    nodes, roots, leaves, rest, placed := PlaceRecords(plan, records, requested, trim);
    ghost var f := Forest(nodes, roots);
    BuiltApart(plan, records, requested, trim, f, placed, leaves, rest);
    ReadyToAssemble(plan, f, placed, leaves, rest);
    g := Assemble(plan, nodes, roots, leaves, rest);
    up, rank := UpOf(placed, rest), RankOf(plan, g);
    AssembledShape(plan, f, placed, leaves, rest, g);
    GraphLayers(plan, records, requested, trim, f, placed, leaves, rest, g);
    forall x
      ensures Holds(g, requested, x)
    {
      GraphLeaves(plan, records, requested, trim, f, placed, leaves, rest, g, x);
    }
  }

  lemma ReadyToAssemble(plan: Plan, f: Forest, up: map<string, string>, leaves: map<string, string>,
                        rest: map<string, string>)
    requires Growing(plan, f, up, "") && Apart(plan, f, up, leaves, rest)
    ensures forall k {:trigger NodeOk(plan, f, k)} :: NodeOk(plan, f, k)
    ensures "" !in plan.level && NO_TOPOLOGY !in plan.level && leaves.Keys !! rest.Keys
    ensures forall d :: d in leaves || d in rest ==> d != "" && d != NO_TOPOLOGY && d !in plan.level
  {
    assert PartsApart(plan, f, up, leaves, rest, "") && PartsApart(plan, f, up, leaves, rest, NO_TOPOLOGY);
    forall d | d in leaves || d in rest
      ensures d != "" && d != NO_TOPOLOGY && d !in plan.level && !(d in leaves && d in rest)
    {
      assert PartsApart(plan, f, up, leaves, rest, d);
    }
  }

  /** No other requested instance has this node name. */
  ghost predicate OnlyName(requested: map<string, string>, d: string) {
    d in requested && forall x :: x in requested && requested[x] == requested[d] ==> x == d
  }

  lemma InfoOfInstance(g: Graph, up: Up, rank: Rank, requested: map<string, string>,
                       done: set<string>, info: map<string, NodeInfo>, d: string)
    requires Shape(g, up, rank) && InfoListed(g, "", info, done) && d in requested && (forall v :: v in g ==> v in done)
    requires forall x {:trigger Holds(g, requested, x)} :: Holds(g, requested, x)
    ensures requested[d] in info && (OnlyName(requested, d) ==> info[requested[d]].instanceID == d)
  {
    assert Holds(g, requested, d);
    var name := requested[d];
    assert InfoOk(g, "", info, name);
    var x := info[name].instanceID;
    assert Holds(g, requested, x);
    RootWithin(g, up, rank, d);
    if IsLeaf(g, "") { LeafWithin(g, up, rank, "", d); }
  }

  /** The filter lets the instance through, by ID or by node name. */
  predicate Asked(requested: map<string, string>, filter: Option<set<string>>, d: string) {
    d in requested && (filter.None? || d in filter.value || requested[d] in filter.value)
  }

  /** Build and flatten: the graph is accepted as a tree, and flattening it, under any filter, gives every requested
      instance that passes the filter its own layers back, and nothing else. */
  method BuildAndFlatten(ghost plan: Plan, records: seq<Record>, requested: map<string, string>, trim: int,
                         filter: Option<set<string>>)
      returns (ok: bool, info: map<string, NodeInfo>, instances: Instances)
    requires Consistent(plan, records, requested, trim)
    ensures ok && forall d :: d in instances <==> Asked(requested, filter, d)
    ensures forall d :: d in requested ==> requested[d] in info
    ensures forall d :: d in requested && OnlyName(requested, d) ==>
              requested[d] in info && info[requested[d]].instanceID == d
    ensures forall i: nat {:trigger Counts(records, requested, i)} ::
              Counts(records, requested, i) && records[i].id in instances ==>
                instances[records[i].id] == NetworkLayers(Trimmed(records[i], trim))
    ensures forall d :: d in instances && !Named(records, |records|, d) ==> instances[d] == []
  {
    var g;
    ghost var up, rank;
    g, up, rank := ToGraph(plan, records, requested, trim);
    ShapeIsTree(g, up, rank);
    var tree;
    ok, tree, info := InitTree(g, "");
    forall d | d in requested
      ensures requested[d] in info && (OnlyName(requested, d) ==> info[requested[d]].instanceID == d)
    {
      InfoOfInstance(g, up, rank, requested, tree.Keys, info, d);
    }
    instances := DeriveInstances(g, up, rank, filter);
    forall x ensures x in instances <==> Asked(requested, filter, x) { assert Holds(g, requested, x); }
    forall i: nat | Counts(records, requested, i) && records[i].id in instances
      ensures instances[records[i].id] == NetworkLayers(Trimmed(records[i], trim))
    {
      assert Derived(g, up, rank, instances, records[i].id);
    }
    forall d | d in instances && !Named(records, |records|, d) ensures instances[d] == [] {
      assert Derived(g, up, rank, instances, d);
    }
  }
}

/** Building the canonical graph from per-instance tier lists (ClusterTopology.ToGraph, pkg/topology/graph.go). */
module CanonicalGraph {
  import opened GraphTree

  const NO_TOPOLOGY := "no-topology"

  datatype Tier = Tier(id: string, name: string)

  /** A provider's record of one instance: its switches, closest first. */
  datatype Record = Record(id: string, tiers: seq<Tier>)

  type Key = (nat, string)

  // ---------------------------------------------------------------- tier lists

  function Trimmed(r: Record, trim: int): seq<Tier> {
    var cut := if trim <= 0 then 0 else if trim > |r.tiers| then |r.tiers| else trim;
    r.tiers[..|r.tiers| - cut]
  }

  /** The ID of the first named tier from `k` on; empty if there is none. */
  function NextUp(tiers: seq<Tier>, k: nat): string
    decreases |tiers| - k
  {
    if k >= |tiers| then "" else if tiers[k].id != "" then tiers[k].id else NextUp(tiers, k + 1)
  }

  /** The display names of the tiers, closest first. */
  function NetworkLayers(tiers: seq<Tier>): seq<string> {
    if tiers == [] then []
    else Shown(tiers[0].id, tiers[0].name) + NetworkLayers(tiers[1..])
  }

  function Shown(id: string, name: string): seq<string> {
    if id == "" then [] else if name != "" then [name] else [id]
  }

  // ---------------------------------------------------------------- consistency

  /** One level, one name and one parent per switch; a switch without parent is a root. */
  datatype Plan = Plan(level: map<string, nat>, name: map<string, string>, parent: map<string, string>, height: nat)

  ghost predicate TierOk(plan: Plan, tiers: seq<Tier>, k: nat)
    requires k < |tiers|
  {
    var id := tiers[k].id;
    id != "" ==> && id in plan.level && plan.level[id] == k
                 && id in plan.name && plan.name[id] == tiers[k].name
                 && id in plan.parent && plan.parent[id] == NextUp(tiers, k + 1)
  }

  ghost predicate RecordOk(plan: Plan, tiers: seq<Tier>) {
    forall k: nat {:trigger TierOk(plan, tiers, k)} :: k < |tiers| ==> TierOk(plan, tiers, k)
  }

  /** The record that counts for its instance: requested, and the first with that ID. */
  ghost predicate Counts(records: seq<Record>, requested: map<string, string>, i: nat) {
    i < |records| && records[i].id in requested && forall j :: 0 <= j < i ==> records[j].id != records[i].id
  }

  /** IDs of switches and instances are not empty, not the no-topology marker, and disjoint. */
  ghost predicate IdsApart(plan: Plan, requested: map<string, string>) {
    && plan.level.Keys == plan.name.Keys == plan.parent.Keys
    && (forall s :: s in plan.level ==> s != "" && s != NO_TOPOLOGY && s !in requested && plan.level[s] < plan.height)
    && (forall d :: d in requested ==> d != "" && d != NO_TOPOLOGY)
  }

  ghost predicate Consistent(plan: Plan, records: seq<Record>, requested: map<string, string>, trim: int) {
    && IdsApart(plan, requested)
    && forall i: nat {:trigger Counts(records, requested, i)} :: Counts(records, requested, i) ==>
         RecordOk(plan, Trimmed(records[i], trim))
  }

  // ---------------------------------------------------------------- the forest under construction

  /** Switches by level and ID, and the roots found so far. */
  datatype Forest = Forest(nodes: map<Key, Node>, roots: set<string>)

  ghost predicate IsSwitch(plan: Plan, f: Forest, s: string) {
    s in plan.level && (plan.level[s], s) in f.nodes
  }

  ghost predicate IsChild(plan: Plan, f: Forest, s: string, c: string) {
    IsSwitch(plan, f, s) && c in f.nodes[(plan.level[s], s)].children
  }

  ghost predicate NodeOk(plan: Plan, f: Forest, k: Key) {
    k in f.nodes ==> && k.1 in plan.level && plan.level[k.1] == k.0 && k.1 in plan.name
                     && f.nodes[k].name == plan.name[k.1] && f.nodes[k].children != {}
  }

  ghost predicate PlacedOk(plan: Plan, f: Forest, up: map<string, string>, v: string) {
    v in up ==> && (if up[v] == "" then v in f.roots else IsChild(plan, f, up[v], v))
                && (v in plan.level ==> IsSwitch(plan, f, v) && v in plan.parent && up[v] == plan.parent[v])
                && (v in plan.level && up[v] in plan.level ==> plan.level[v] < plan.level[up[v]])
  }

  ghost predicate ChildOk(plan: Plan, f: Forest, up: map<string, string>, s: string, c: string) {
    IsChild(plan, f, s, c) ==> c in up && up[c] == s
  }

  ghost predicate RootOk(f: Forest, up: map<string, string>, c: string) {
    c in f.roots ==> c in up && up[c] == ""
  }

  /** Every switch but the pending one has been placed. */
  ghost predicate PendingOk(plan: Plan, f: Forest, up: map<string, string>, cur: string, s: string) {
    IsSwitch(plan, f, s) ==> s in up || s == cur
  }

  ghost predicate Growing(plan: Plan, f: Forest, up: map<string, string>, cur: string) {
    && (forall k {:trigger NodeOk(plan, f, k)} :: NodeOk(plan, f, k))
    && (forall v {:trigger PlacedOk(plan, f, up, v)} :: PlacedOk(plan, f, up, v))
    && (forall s, c {:trigger ChildOk(plan, f, up, s, c)} :: ChildOk(plan, f, up, s, c))
    && (forall c {:trigger RootOk(f, up, c)} :: RootOk(f, up, c))
    && (forall s {:trigger PendingOk(plan, f, up, cur, s)} :: PendingOk(plan, f, up, cur, s))
  }

  // ---------------------------------------------------------------- one tier

  function Attach(nodes: map<Key, Node>, k: Key, name: string, c: string): map<Key, Node> {
    nodes[k := if k in nodes then Node(nodes[k].name, nodes[k].children + {c}) else Node(name, {c})]
  }

  lemma AttachChild(plan: Plan, f: Forest, s: string, name: string, c: string, t: string, d: string)
    requires s in plan.level
    ensures var f' := f.(nodes := Attach(f.nodes, (plan.level[s], s), name, c));
            && (IsSwitch(plan, f', t) <==> IsSwitch(plan, f, t) || t == s)
            && (IsChild(plan, f', t, d) <==> IsChild(plan, f, t, d) || (t == s && d == c))
  {}

  /** What the vertex in hand must satisfy for `s` to become its parent. */
  ghost predicate MayAttach(plan: Plan, up: map<string, string>, cur: string, s: string) {
    && s in plan.level && s in plan.name && s != "" && cur != s
    && (cur in plan.level ==> cur in plan.parent && plan.parent[cur] == s && plan.level[cur] < plan.level[s])
    && (cur in up ==> up[cur] == s)
  }

  lemma AttachKeeps(plan: Plan, f: Forest, up: map<string, string>, cur: string, s: string)
    requires Growing(plan, f, up, cur) && MayAttach(plan, up, cur, s) && (cur in plan.level ==> IsSwitch(plan, f, cur))
    ensures Growing(plan, f.(nodes := Attach(f.nodes, (plan.level[s], s), plan.name[s], cur)), up[cur := s], s)
  {
    var name := plan.name[s];
    var f', up' := f.(nodes := Attach(f.nodes, (plan.level[s], s), name, cur)), up[cur := s];
    forall k ensures NodeOk(plan, f', k) { assert NodeOk(plan, f, k); }
    forall v ensures PlacedOk(plan, f', up', v) {
      assert PlacedOk(plan, f, up, v);
      AttachChild(plan, f, s, name, cur, v, v);
      if v in up' { AttachChild(plan, f, s, name, cur, up'[v], v); }
    }
    forall t, d ensures ChildOk(plan, f', up', t, d) {
      assert ChildOk(plan, f, up, t, d);
      AttachChild(plan, f, s, name, cur, t, d);
    }
    forall c ensures RootOk(f', up', c) { assert RootOk(f, up, c); }
    forall t ensures PendingOk(plan, f', up', s, t) {
      assert PendingOk(plan, f, up, cur, t);
      AttachChild(plan, f, s, name, cur, t, t);
    }
  }

  lemma RootKeeps(plan: Plan, f: Forest, up: map<string, string>, cur: string)
    requires Growing(plan, f, up, cur) && (cur in up ==> up[cur] == "")
    requires cur in plan.level ==> IsSwitch(plan, f, cur) && cur in plan.parent && plan.parent[cur] == ""
    requires cur != "" && "" !in plan.level
    ensures Growing(plan, f.(roots := f.roots + {cur}), up[cur := ""], "")
  {
    var f', up' := f.(roots := f.roots + {cur}), up[cur := ""];
    forall k ensures NodeOk(plan, f', k) { assert NodeOk(plan, f, k); }
    forall v ensures PlacedOk(plan, f', up', v) { assert PlacedOk(plan, f, up, v); }
    forall t, d ensures ChildOk(plan, f', up', t, d) { assert ChildOk(plan, f, up, t, d); }
    forall c ensures RootOk(f', up', c) { assert RootOk(f, up, c); }
    forall t ensures PendingOk(plan, f', up', "", t) { assert PendingOk(plan, f, up, cur, t); }
  }

  // ---------------------------------------------------------------- one record

  /** The vertex in hand before tier `k`: the instance, or a switch whose parent the tiers from `k` on decide. */
  ghost predicate InHand(plan: Plan, f: Forest, up: map<string, string>, tiers: seq<Tier>, k: nat, id: string,
                         cur: string) {
    && cur != ""
    && (cur in plan.level ==>
          IsSwitch(plan, f, cur) && plan.level[cur] < k && cur in plan.parent && plan.parent[cur] == NextUp(tiers, k))
    && (cur !in plan.level ==> cur == id && cur !in up && NextUp(tiers, 0) == NextUp(tiers, k))
    && (cur in up ==> up[cur] == NextUp(tiers, k))
  }

  /** Only the instance and switches are added, and the instance below its closest named tier. */
  ghost predicate Extends(plan: Plan, up: map<string, string>, up': map<string, string>, tiers: seq<Tier>, id: string,
                          cur: string) {
    && (forall v :: v in up ==> v in up' && up'[v] == up[v])
    && (forall v :: v in up' ==> v in up || v in plan.level || v == id)
    && (cur != id ==> id in up' && up'[id] == NextUp(tiers, 0))
    && (cur == id ==> id !in up')
  }

  lemma HandStep(plan: Plan, f: Forest, up: map<string, string>, tiers: seq<Tier>, k: nat, id: string, cur: string)
    requires Growing(plan, f, up, cur) && InHand(plan, f, up, tiers, k, id, cur) && id !in plan.level
    requires k < |tiers| && TierOk(plan, tiers, k) && tiers[k].id != ""
    ensures var s := tiers[k].id;
            && MayAttach(plan, up, cur, s) && plan.level[s] == k && plan.name[s] == tiers[k].name
            && InHand(plan, f.(nodes := Attach(f.nodes, (k, s), plan.name[s], cur)), up[cur := s], tiers, k + 1, id, s)
  {
    var s := tiers[k].id;
    assert NextUp(tiers, k) == s;
    var f' := f.(nodes := Attach(f.nodes, (k, s), plan.name[s], cur));
    AttachChild(plan, f, s, plan.name[s], cur, s, s);
    assert PlacedOk(plan, f, up, s);
  }

  lemma ExtendStep(plan: Plan, up0: map<string, string>, up: map<string, string>, tiers: seq<Tier>, id: string,
                   cur: string, s: string)
    requires Extends(plan, up0, up, tiers, id, cur) && s in plan.level && id !in plan.level
             && (cur in up ==> up[cur] == s)
    requires cur == id || cur in plan.level
    requires cur == id ==> s == NextUp(tiers, 0)
    ensures Extends(plan, up0, up[cur := s], tiers, id, s)
  {}

  method PlaceRecord(ghost plan: Plan, nodes: map<Key, Node>, roots: set<string>, ghost up: map<string, string>,
                     tiers: seq<Tier>, id: string)
      returns (nodes': map<Key, Node>, roots': set<string>, ghost up': map<string, string>)
    requires Growing(plan, Forest(nodes, roots), up, "") && RecordOk(plan, tiers) && "" !in plan.level
    requires id != "" && id !in plan.level && id !in up
    ensures Growing(plan, Forest(nodes', roots'), up', "")
    ensures id in up' && up'[id] == NextUp(tiers, 0)
    ensures forall v :: v in up ==> v in up' && up'[v] == up[v]
    ensures forall v :: v in up' ==> v in up || v in plan.level || v == id
  {
    nodes', roots', up' := nodes, roots, up;
    var cur := id;
    StartRecord(plan, Forest(nodes, roots), up, tiers, id);
    for k := 0 to |tiers|
      invariant Growing(plan, Forest(nodes', roots'), up', cur)
                && InHand(plan, Forest(nodes', roots'), up', tiers, k, id, cur)
      invariant Extends(plan, up, up', tiers, id, cur)
    {
      var s := tiers[k].id;
      if |s| == 0 { continue; }
      assert TierOk(plan, tiers, k);
      HandStep(plan, Forest(nodes', roots'), up', tiers, k, id, cur);
      AttachKeeps(plan, Forest(nodes', roots'), up', cur, s);
      ExtendStep(plan, up, up', tiers, id, cur, s);
      var key := (k, s);
      ghost var before := nodes';
      if key !in nodes' {
        nodes' := nodes'[key := Node(tiers[k].name, {})];
      }
      nodes' := nodes'[key := Node(nodes'[key].name, nodes'[key].children + {cur})];
      assert {} + {cur} == {cur};
      assert nodes' == Attach(before, key, tiers[k].name, cur);
      up' := up'[cur := s];
      cur := s;
    }
    RootKeeps(plan, Forest(nodes', roots'), up', cur);
    // A root already in the forest under this ID is this very vertex.
    roots' := roots' + {cur};
    up' := up'[cur := ""];
  }

  lemma StartRecord(plan: Plan, f: Forest, up: map<string, string>, tiers: seq<Tier>, id: string)
    requires Growing(plan, f, up, "") && id != "" && id !in plan.level && id !in up && "" !in plan.level
    ensures Growing(plan, f, up, id) && InHand(plan, f, up, tiers, 0, id, id) && Extends(plan, up, up, tiers, id, id)
  {
    forall k ensures NodeOk(plan, f, k) { assert NodeOk(plan, f, k); }
    forall s ensures PendingOk(plan, f, up, id, s) { assert PendingOk(plan, f, up, "", s); }
  }

  // ---------------------------------------------------------------- all records

  ghost predicate Named(records: seq<Record>, n: nat, d: string) {
    exists j :: 0 <= j < n && j < |records| && records[j].id == d
  }

  /** The requested instances split into those placed and those still without a record. */
  ghost predicate SplitOk(records: seq<Record>, requested: map<string, string>, n: nat, leaves: map<string, string>,
                          rest: map<string, string>, d: string) {
    && (d in leaves <==> d in requested && Named(records, n, d)) && (d in leaves ==> leaves[d] == requested[d])
    && (d in rest <==> d in requested && !Named(records, n, d)) && (d in rest ==> rest[d] == requested[d])
  }

  ghost predicate LeafOk(plan: Plan, up: map<string, string>, leaves: map<string, string>, v: string) {
    (v in up ==> v in plan.level || v in leaves) && (v in leaves ==> v in up)
  }

  ghost predicate HungOk(records: seq<Record>, requested: map<string, string>, trim: int, up: map<string, string>,
                         n: nat, i: nat) {
    i < n && Counts(records, requested, i) ==>
      records[i].id in up && up[records[i].id] == NextUp(Trimmed(records[i], trim), 0)
  }

  ghost predicate Building(plan: Plan, records: seq<Record>, requested: map<string, string>, trim: int, n: nat,
                           f: Forest, up: map<string, string>, leaves: map<string, string>, rest: map<string, string>)
  {
    && Growing(plan, f, up, "") && n <= |records|
    && (forall d {:trigger SplitOk(records, requested, n, leaves, rest, d)} ::
        SplitOk(records, requested, n, leaves, rest, d))
    && (forall v {:trigger LeafOk(plan, up, leaves, v)} :: LeafOk(plan, up, leaves, v))
    && (forall i: nat {:trigger HungOk(records, requested, trim, up, n, i)} ::
        HungOk(records, requested, trim, up, n, i))
  }

  lemma NamedStep(records: seq<Record>, n: nat, d: string)
    requires n < |records|
    ensures Named(records, n + 1, d) <==> Named(records, n, d) || d == records[n].id
  {}

  lemma SkipRecord(plan: Plan, records: seq<Record>, requested: map<string, string>, trim: int, n: nat,
                   f: Forest, up: map<string, string>, leaves: map<string, string>, rest: map<string, string>)
    requires Building(plan, records, requested, trim, n, f, up, leaves, rest) && n < |records| && records[n].id !in rest
    ensures Building(plan, records, requested, trim, n + 1, f, up, leaves, rest)
  {
    var m := n + 1;
    forall d ensures SplitOk(records, requested, m, leaves, rest, d) {
      assert SplitOk(records, requested, n, leaves, rest, d)
             && SplitOk(records, requested, n, leaves, rest, records[n].id);
      NamedStep(records, n, d);
    }
    forall i: nat ensures HungOk(records, requested, trim, up, m, i) {
      assert HungOk(records, requested, trim, up, n, i);
      if i == n {
        assert SplitOk(records, requested, n, leaves, rest, records[n].id);
      }
    }
  }

  lemma FirstOfName(records: seq<Record>, requested: map<string, string>, n: nat, leaves: map<string, string>,
                    rest: map<string, string>)
    requires n < |records| && records[n].id in rest && SplitOk(records, requested, n, leaves, rest, records[n].id)
    ensures Counts(records, requested, n) && records[n].id !in leaves
  {}

  lemma PlaceKeeps(plan: Plan, records: seq<Record>, requested: map<string, string>, trim: int, n: nat, f: Forest,
                   f': Forest,
                   up: map<string, string>, up': map<string, string>, leaves: map<string, string>,
                     rest: map<string, string>)
    requires Building(plan, records, requested, trim, n, f, up, leaves, rest) && n < |records| && records[n].id in rest
    requires Growing(plan, f', up', "") && records[n].id in up'
             && up'[records[n].id] == NextUp(Trimmed(records[n], trim), 0)
    requires forall v :: v in up ==> v in up' && up'[v] == up[v]
    requires forall v :: v in up' ==> v in up || v in plan.level || v == records[n].id
    ensures var d := records[n].id;
            Building(plan, records, requested, trim, n + 1, f', up', leaves[d := rest[d]], rest - {d})
  {
    var id := records[n].id;
    var m, leaves', rest' := n + 1, leaves[id := rest[id]], rest - {id};
    forall d ensures SplitOk(records, requested, m, leaves', rest', d) {
      assert SplitOk(records, requested, n, leaves, rest, d) && SplitOk(records, requested, n, leaves, rest, id);
      NamedStep(records, n, d);
    }
    forall v ensures LeafOk(plan, up', leaves', v) { assert LeafOk(plan, up, leaves, v); }
    forall i: nat
      ensures HungOk(records, requested, trim, up', m, i)
    {
      assert HungOk(records, requested, trim, up, n, i);
    }
  }

  /** Places every record that counts; what remains has no record. */
  method PlaceRecords(ghost plan: Plan, records: seq<Record>, requested: map<string, string>, trim: int)
      returns (nodes: map<Key, Node>, roots: set<string>, leaves: map<string, string>, rest: map<string, string>,
               ghost up: map<string, string>)
    requires Consistent(plan, records, requested, trim)
    ensures Building(plan, records, requested, trim, |records|, Forest(nodes, roots), up, leaves, rest)
  {
    nodes, roots, leaves, rest, up := map[], {}, map[], requested, map[];
    StartRecords(plan, records, requested, trim);
    for n := 0 to |records|
      invariant Building(plan, records, requested, trim, n, Forest(nodes, roots), up, leaves, rest)
    {
      var id := records[n].id;
      if id !in rest {
        SkipRecord(plan, records, requested, trim, n, Forest(nodes, roots), up, leaves, rest);
        continue;
      }
      NewInstance(plan, records, requested, trim, n, Forest(nodes, roots), up, leaves, rest);
      var nodes', roots';
      ghost var up';
      nodes', roots', up' := PlaceRecord(plan, nodes, roots, up, Trimmed(records[n], trim), id);
      PlaceKeeps(plan, records, requested, trim, n, Forest(nodes, roots), Forest(nodes', roots'), up, up', leaves,
                 rest);
      nodes, roots, up := nodes', roots', up';
      leaves, rest := leaves[id := rest[id]], rest - {id};
    }
  }

  lemma StartRecords(plan: Plan, records: seq<Record>, requested: map<string, string>, trim: int)
    requires Consistent(plan, records, requested, trim)
    ensures Building(plan, records, requested, trim, 0, Forest(map[], {}), map[], map[], requested)
  {
    forall d ensures SplitOk(records, requested, 0, map[], requested, d) {}
  }

  lemma NewInstance(plan: Plan, records: seq<Record>, requested: map<string, string>, trim: int, n: nat,
                    f: Forest, up: map<string, string>, leaves: map<string, string>, rest: map<string, string>)
    requires Consistent(plan, records, requested, trim)
             && Building(plan, records, requested, trim, n, f, up, leaves, rest)
    requires n < |records| && records[n].id in rest
    ensures RecordOk(plan, Trimmed(records[n], trim)) && "" !in plan.level
    ensures records[n].id != "" && records[n].id !in plan.level && records[n].id !in up
  {
    assert SplitOk(records, requested, n, leaves, rest, records[n].id) && LeafOk(plan, up, leaves, records[n].id);
    FirstOfName(records, requested, n, leaves, rest);
  }

  // ---------------------------------------------------------------- the graph

  /** The root above the forest; instances without a record hang below the no-topology marker. */
  ghost predicate VertexOf(plan: Plan, f: Forest, leaves: map<string, string>, rest: map<string, string>, g: Graph,
                           v: string) {
    if v == "" then v in g && g[v] == Node("", f.roots + if rest == map[] then {} else {NO_TOPOLOGY})
    else if v == NO_TOPOLOGY then (v in g <==> rest != map[]) && (v in g ==> g[v] == Node("", rest.Keys))
    else if v in leaves then v in g && g[v] == Node(leaves[v], {})
    else if v in rest then v in g && g[v] == Node(rest[v], {})
    else (v in g <==> IsSwitch(plan, f, v)) && (v in g ==> g[v] == f.nodes[(plan.level[v], v)])
  }

  ghost predicate Assembled(plan: Plan, f: Forest, leaves: map<string, string>, rest: map<string, string>, g: Graph) {
    forall v {:trigger VertexOf(plan, f, leaves, rest, g, v)} :: VertexOf(plan, f, leaves, rest, g, v)
  }

  ghost predicate SwitchAt(plan: Plan, f: Forest, g: Graph, todo: set<Key>, s: string) {
    && (s in g <==> IsSwitch(plan, f, s) && (plan.level[s], s) !in todo)
    && (s in g ==> IsSwitch(plan, f, s) && g[s] == f.nodes[(plan.level[s], s)])
  }

  /** The switches by ID; their levels make the keys unique. */
  method ByID(ghost plan: Plan, nodes: map<Key, Node>, ghost roots: set<string>) returns (g: Graph)
    requires forall k {:trigger NodeOk(plan, Forest(nodes, roots), k)} :: NodeOk(plan, Forest(nodes, roots), k)
    ensures forall s {:trigger SwitchAt(plan, Forest(nodes, roots), g, {}, s)} ::
            SwitchAt(plan, Forest(nodes, roots), g, {}, s)
  {
    g := map[];
    var todo := nodes.Keys;
    ghost var f := Forest(nodes, roots);
    while todo != {}
      invariant todo <= nodes.Keys
      invariant forall s {:trigger SwitchAt(plan, f, g, todo, s)} :: SwitchAt(plan, f, g, todo, s)
      decreases |todo|
    {
      var k :| k in todo;
      ghost var before, left := g, todo;
      assert NodeOk(plan, f, k);
      g := g[k.1 := nodes[k]];
      todo := todo - {k};
      forall s ensures SwitchAt(plan, f, g, todo, s) { assert SwitchAt(plan, f, before, left, s); }
    }
  }

  function WithLeaves(g: Graph, leaves: map<string, string>): (r: Graph)
    ensures forall v :: v in r <==> v in g || v in leaves
    ensures forall v :: v in r ==> r[v] == if v in leaves then Node(leaves[v], {}) else g[v]
  {
    g + map d | d in leaves :: Node(leaves[d], {})
  }

  function Whole(switches: Graph, roots: set<string>, leaves: map<string, string>, rest: map<string, string>): Graph {
    var g := WithLeaves(WithLeaves(switches, leaves), rest);
    if |rest| == 0 then g["" := Node("", roots)]
    else g[NO_TOPOLOGY := Node("", rest.Keys)]["" := Node("", roots + {NO_TOPOLOGY})]
  }

  lemma WholeVertex(plan: Plan, f: Forest, switches: Graph, leaves: map<string, string>, rest: map<string, string>,
                    v: string)
    requires SwitchAt(plan, f, switches, {}, v) && leaves.Keys !! rest.Keys && "" !in plan.level
             && NO_TOPOLOGY !in plan.level
    requires v in leaves || v in rest ==> v != "" && v != NO_TOPOLOGY && v !in plan.level
    ensures VertexOf(plan, f, leaves, rest, Whole(switches, f.roots, leaves, rest), v)
  {
    assert f.roots + {} == f.roots;
    assert |rest| == 0 <==> rest == map[];
  }

  method Assemble(ghost plan: Plan, nodes: map<Key, Node>, roots: set<string>, leaves: map<string, string>,
                  rest: map<string, string>) returns (g: Graph)
    requires forall k {:trigger NodeOk(plan, Forest(nodes, roots), k)} :: NodeOk(plan, Forest(nodes, roots), k)
    requires "" !in plan.level && NO_TOPOLOGY !in plan.level && leaves.Keys !! rest.Keys
    requires forall d :: d in leaves || d in rest ==> d != "" && d != NO_TOPOLOGY && d !in plan.level
    ensures Assembled(plan, Forest(nodes, roots), leaves, rest, g)
  {
    var switches := ByID(plan, nodes, roots);
    g := Whole(switches, roots, leaves, rest);
    forall v ensures VertexOf(plan, Forest(nodes, roots), leaves, rest, g, v) {
      assert SwitchAt(plan, Forest(nodes, roots), switches, {}, v);
      WholeVertex(plan, Forest(nodes, roots), switches, leaves, rest, v);
    }
  }
}

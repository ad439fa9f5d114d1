/** Accepting a topology graph as a tree (initTree, pkg/translate/topology.go). Vertices are identified by ID. */
module GraphTree {
  import opened Lex

  datatype Node = Node(name: string, children: set<string>)

  type Graph = map<string, Node>

  datatype NodeInfo = NodeInfo(instanceID: string, switches: seq<string>)

  /** The root is there, and children are vertices. */
  ghost predicate Closed(g: Graph, root: string) {
    root in g && forall v, c :: v in g && c in g[v].children ==> c in g
  }

  // ---------------------------------------------------------------- paths from the root

  predicate Edge(g: Graph, u: string, c: string) {
    u in g && c in g[u].children
  }

  /** `f` is a path from the root to `v`, both included. */
  ghost predicate Path(g: Graph, root: string, f: seq<string>, v: string) {
    && |f| > 0 && f[0] == root && f[|f| - 1] == v
    && forall i :: 0 < i < |f| ==> Edge(g, f[i - 1], f[i])
  }

  ghost predicate Reachable(g: Graph, root: string, v: string) {
    exists f :: Path(g, root, f, v)
  }

  /** The switches recorded for a child: those of its parent and the parent itself, none below a vertex without ID. */
  function Below(p: seq<string>, u: string): seq<string> {
    if u == "" then [] else p + [u]
  }

  /** The switches recorded for the vertex at the end of a path, outermost first. */
  function Recorded(f: seq<string>): seq<string> {
    if |f| <= 1 then [] else Below(Recorded(f[..|f| - 1]), f[|f| - 2])
  }

  /** `p` is what is recorded along a path to `v`. */
  ghost predicate LeadsTo(g: Graph, root: string, p: seq<string>, v: string) {
    exists f :: Path(g, root, f, v) && Recorded(f) == p
  }

  /** The reachable part is a tree: the root is nobody's child, and every vertex has one parent. */
  ghost predicate IsTree(g: Graph, root: string) {
    && (forall u :: Reachable(g, root, u) ==> !Edge(g, u, root))
    && (forall u, w, c :: Reachable(g, root, u) && Reachable(g, root, w) && Edge(g, u, c) && Edge(g, w, c) ==> u == w)
  }

  lemma PathBelow(g: Graph, root: string, f: seq<string>, u: string, c: string)
    requires Path(g, root, f, u) && Edge(g, u, c)
    ensures Path(g, root, f + [c], c) && Recorded(f + [c]) == Below(Recorded(f), u)
  {
    assert (f + [c])[..|f|] == f;
  }

  // ---------------------------------------------------------------- the search

  /** What the search has found: visited vertices, waiting ones, the parent through which each was
      found, the switches recorded for it, and the path it was found by. */
  datatype Search = Search(done: set<string>, queue: seq<string>, seen: set<string>, up: map<string, string>,
                           paths: map<string, seq<string>>, trails: map<string, seq<string>>)

  function PathOf(paths: map<string, seq<string>>, v: string): seq<string> {
    if v in paths then paths[v] else []
  }

  ghost predicate SeenOk(g: Graph, root: string, s: Search, v: string) {
    && (v in s.seen <==> v in s.done || v in s.queue)
    && (v in s.seen ==>
          v in g && v in s.trails && Path(g, root, s.trails[v], v) && Recorded(s.trails[v]) == PathOf(s.paths, v))
    && (v in s.seen && v != root ==> v in s.up && s.up[v] in s.done && Edge(g, s.up[v], v))
    && (v in s.done ==> v !in s.queue)
    && (v in s.up ==> v in s.seen && v != root && s.up[v] != v)
    && (v in s.paths ==> v in s.seen)
  }

  ghost predicate VisitedOk(g: Graph, root: string, s: Search, u: string) {
    u in s.done ==> forall c :: Edge(g, u, c) ==> c != root && c in s.seen && c in s.up && s.up[c] == u
  }

  ghost predicate SearchOk(g: Graph, root: string, s: Search) {
    && root in s.seen
    && (forall v {:trigger SeenOk(g, root, s, v)} :: SeenOk(g, root, s, v))
    && (forall u {:trigger VisitedOk(g, root, s, u)} :: VisitedOk(g, root, s, u))
    && (forall i, j :: 0 <= i < j < |s.queue| ==> s.queue[i] != s.queue[j])
  }

  /** While the children of `v` are being looked at; those in `todo` are still to come. */
  ghost predicate Visiting(g: Graph, root: string, s: Search, v: string, todo: set<string>) {
    && root in s.seen && v in s.done && v in g && todo <= g[v].children
    && (forall x {:trigger SeenOk(g, root, s, x)} :: SeenOk(g, root, s, x))
    && (forall u {:trigger VisitedOk(g, root, s, u)} :: u != v ==> VisitedOk(g, root, s, u))
    && (forall c :: c in g[v].children && c !in todo ==> c != root && c in s.seen && c in s.up && s.up[c] == v)
    && (forall c :: c in todo && c in s.up ==> s.up[c] != v)
    && (forall i, j :: 0 <= i < j < |s.queue| ==> s.queue[i] != s.queue[j])
  }

  function Found(s: Search, v: string, c: string): Search {
    s.(seen := s.seen + {c}, queue := s.queue + [c], up := s.up[c := v],
       paths := if v == "" then s.paths else s.paths[c := PathOf(s.paths, v) + [v]],
       trails := if v in s.trails then s.trails[c := s.trails[v] + [c]] else s.trails)
  }

  /** A child that was seen before has two parents, or is the root. */
  lemma SeenTwice(g: Graph, root: string, s: Search, v: string, todo: set<string>, c: string)
    requires Visiting(g, root, s, v, todo) && c in todo && c in s.seen
    ensures !IsTree(g, root)
  {
    assert SeenOk(g, root, s, v) && SeenOk(g, root, s, c);
    assert Path(g, root, s.trails[v], v) && Edge(g, v, c);
    if c != root {
      assert SeenOk(g, root, s, s.up[c]);
      assert Reachable(g, root, s.up[c]);
    }
  }

  lemma FoundSeen(g: Graph, root: string, s: Search, v: string, todo: set<string>, c: string, x: string)
    requires Closed(g, root) && Visiting(g, root, s, v, todo) && c in todo && c !in s.seen
    ensures SeenOk(g, root, Found(s, v, c), x)
  {
    assert SeenOk(g, root, s, x) && SeenOk(g, root, s, v) && SeenOk(g, root, s, c);
    if x == c {
      assert Edge(g, v, c);
      PathBelow(g, root, s.trails[v], v, c);
    }
  }

  lemma FoundVisited(g: Graph, root: string, s: Search, v: string, todo: set<string>, c: string, u: string)
    requires Visiting(g, root, s, v, todo) && c in todo && c !in s.seen && u != v
    ensures VisitedOk(g, root, Found(s, v, c), u)
  {
    assert VisitedOk(g, root, s, u);
  }

  lemma FoundKeeps(g: Graph, root: string, s: Search, v: string, todo: set<string>, c: string)
    requires Closed(g, root) && Visiting(g, root, s, v, todo) && c in todo && c !in s.seen && c != root
    ensures Visiting(g, root, Found(s, v, c), v, todo - {c})
  {
    var s' := Found(s, v, c);
    forall x ensures SeenOk(g, root, s', x) { FoundSeen(g, root, s, v, todo, c, x); }
    forall u | u != v ensures VisitedOk(g, root, s', u) { FoundVisited(g, root, s, v, todo, c, u); }
    assert SeenOk(g, root, s, c);
    assert c !in s.queue;
  }

  /** Looks at the children of one vertex: queues each, unless one is reached a second time. */
  method VisitChildren(g: Graph, root: string, v: string,
                       queue: seq<string>, seen: set<string>, paths: map<string, seq<string>>, ghost s: Search)
      returns (ok: bool, queue': seq<string>, seen': set<string>, paths': map<string, seq<string>>, ghost s': Search)
    requires Closed(g, root) && v in g && Visiting(g, root, s, v, g[v].children) && s.queue == queue && s.seen == seen
             && s.paths == paths
    ensures ok ==>
              Visiting(g, root, s', v, {}) && s'.queue == queue' && s'.seen == seen' && s'.paths == paths'
                && s'.done == s.done
    ensures PathOf(paths', v) == PathOf(paths, v)
    ensures !ok ==> !IsTree(g, root)
  {
    queue', seen', paths', s' := queue, seen, paths, s;
    ok := true;
    var todo := g[v].children;
    while todo != {}
      invariant Visiting(g, root, s', v, todo) && s'.queue == queue' && s'.seen == seen' && s'.paths == paths'
                && s'.done == s.done
      invariant PathOf(paths', v) == PathOf(paths, v)
      decreases |todo|
    {
      var c :| c in todo;
      if c == v || c in seen' {
        assert SeenOk(g, root, s', v);
        SeenTwice(g, root, s', v, todo, c);
        return false, queue', seen', paths', s';
      }
      FoundKeeps(g, root, s', v, todo, c);
      s' := Found(s', v, c);
      seen' := seen' + {c};
      if |v| != 0 { paths' := paths'[c := PathOf(paths', v) + [v]]; }
      queue' := queue' + [c];
      todo := todo - {c};
    }
  }

  // ---------------------------------------------------------------- the result

  /** Taking the next vertex from the queue. */
  lemma Pop(g: Graph, root: string, s: Search)
    requires SearchOk(g, root, s) && s.queue != []
    ensures var v := s.queue[0];
            v in g && v in s.seen && v !in s.done
              && Visiting(g, root, s.(queue := s.queue[1..], done := s.done + {v}), v, g[v].children)
  {
    var v := s.queue[0];
    var s' := s.(queue := s.queue[1..], done := s.done + {v});
    assert v in s.queue && SeenOk(g, root, s, v);
    forall x ensures SeenOk(g, root, s', x) {
      assert SeenOk(g, root, s, x);
      assert s.queue == [v] + s.queue[1..];
    }
    forall u | u != v ensures VisitedOk(g, root, s', u) { assert VisitedOk(g, root, s, u); }
    forall c | c in g[v].children && c in s.up ensures s.up[c] != v { assert SeenOk(g, root, s, c); }
  }

  lemma Visited(g: Graph, root: string, s: Search, v: string)
    requires Visiting(g, root, s, v, {})
    ensures SearchOk(g, root, s)
  {
    forall u ensures VisitedOk(g, root, s, u) {}
  }

  lemma {:induction false} AllVisited(g: Graph, root: string, s: Search, p: seq<string>, v: string)
    requires SearchOk(g, root, s) && s.queue == [] && Path(g, root, p, v)
    ensures v in s.done
    decreases |p|
  {
    assert SeenOk(g, root, s, v);
    if |p| > 1 {
      var u := p[|p| - 2];
      AllVisited(g, root, s, p[..|p| - 1], u);
      assert VisitedOk(g, root, s, u) && Edge(g, u, v);
    }
  }

  lemma SearchFindsTree(g: Graph, root: string, s: Search)
    requires SearchOk(g, root, s) && s.queue == []
    ensures IsTree(g, root) && forall v :: v in s.done <==> Reachable(g, root, v)
  {
    forall v ensures v in s.done <==> Reachable(g, root, v) {
      assert SeenOk(g, root, s, v);
      if Reachable(g, root, v) {
        var p :| Path(g, root, p, v);
        AllVisited(g, root, s, p, v);
      }
    }
    forall u | Reachable(g, root, u) ensures !Edge(g, u, root) { assert VisitedOk(g, root, s, u); }
    forall u, w, c | Reachable(g, root, u) && Reachable(g, root, w) && Edge(g, u, c) && Edge(g, w, c) ensures u == w {
      assert VisitedOk(g, root, s, u) && VisitedOk(g, root, s, w);
    }
  }

  predicate IsLeaf(g: Graph, v: string) {
    v in g && g[v].children == {}
  }

  /** Each recorded name is that of a childless vertex, with the switches above it, outermost first. */
  ghost predicate InfoOk(g: Graph, root: string, info: map<string, NodeInfo>, n: string) {
    n in info ==>
      IsLeaf(g, info[n].instanceID) && g[info[n].instanceID].name == n
        && LeadsTo(g, root, info[n].switches, info[n].instanceID)
  }

  ghost predicate ChildrenListed(g: Graph, tree: map<string, seq<string>>, v: string) {
    v in g && v in tree && tree[v] == Sorted(g[v].children)
  }

  ghost predicate TreeListed(g: Graph, tree: map<string, seq<string>>, done: set<string>) {
    tree.Keys == done && forall v {:trigger ChildrenListed(g, tree, v)} :: v in done ==> ChildrenListed(g, tree, v)
  }

  ghost predicate InfoListed(g: Graph, root: string, info: map<string, NodeInfo>, done: set<string>) {
    && (forall v :: v in done && IsLeaf(g, v) ==> g[v].name in info)
    && (forall n {:trigger InfoOk(g, root, info, n)} :: InfoOk(g, root, info, n))
  }

  /** Accepts the graph iff what is reachable is a tree; then lists every vertex's children, and every compute node's
      switches. */
  method InitTree(g: Graph, root: string)
      returns (ok: bool, tree: map<string, seq<string>>, info: map<string, NodeInfo>)
    requires Closed(g, root)
    ensures ok <==> IsTree(g, root)
    ensures ok ==>
              (forall v :: v in tree <==> Reachable(g, root, v)) && TreeListed(g, tree, tree.Keys)
                && InfoListed(g, root, info, tree.Keys)
  {
    tree, info := map[], map[];
    var queue, seen := [root], {root};
    var paths: map<string, seq<string>> := map[];
    ghost var s := Search({}, [root], {root}, map[], map[], map[root := [root]]);
    Start(g, root);
    while |queue| > 0
      invariant SearchOk(g, root, s) && s.queue == queue && s.seen == seen && s.paths == paths
      invariant TreeListed(g, tree, s.done) && InfoListed(g, root, info, s.done) && s.done <= g.Keys
      decreases |g.Keys - s.done|
    {
      ok, queue, seen, paths, tree, info, s := Visit(g, root, queue, seen, paths, tree, info, s);
      if !ok { return; }
    }
    ok := true;
    SearchFindsTree(g, root, s);
  }

  /** One round: the vertex at the head of the queue. */
  method Visit(g: Graph, root: string, queue: seq<string>, seen: set<string>, paths: map<string, seq<string>>,
               tree: map<string, seq<string>>, info: map<string, NodeInfo>, ghost s: Search)
      returns (ok: bool, queue': seq<string>, seen': set<string>, paths': map<string, seq<string>>,
               tree': map<string, seq<string>>, info': map<string, NodeInfo>, ghost s': Search)
    requires Closed(g, root) && SearchOk(g, root, s) && s.queue == queue && s.seen == seen && s.paths == paths
             && queue != []
    requires TreeListed(g, tree, s.done) && InfoListed(g, root, info, s.done) && s.done <= g.Keys
    ensures !ok ==> !IsTree(g, root)
    ensures ok ==> SearchOk(g, root, s') && s'.queue == queue' && s'.seen == seen' && s'.paths == paths'
    ensures ok ==> TreeListed(g, tree', s'.done) && InfoListed(g, root, info', s'.done) && s'.done <= g.Keys
    ensures ok ==> |g.Keys - s'.done| < |g.Keys - s.done|
  {
    var v := queue[0];
    Pop(g, root, s);
    ghost var visiting := s.(queue := queue[1..], done := s.done + {v});
    HeadPath(g, root, visiting, v);
    tree' := tree[v := Sorted(g[v].children)];
    info' := info;
    if |g[v].children| == 0 {
      info' := info[g[v].name := NodeInfo(v, PathOf(paths, v))];
    }
    TreeStep(g, tree, s.done, v);
    InfoStep(g, root, info, s.done, v, PathOf(paths, v));
    ok, queue', seen', paths', s' := VisitChildren(g, root, v, queue[1..], seen, paths, visiting);
    if ok {
      Visited(g, root, s', v);
      Fewer(g.Keys, s.done, v);
    }
  }

  lemma HeadPath(g: Graph, root: string, s: Search, v: string)
    requires v in g && Visiting(g, root, s, v, g[v].children)
    ensures LeadsTo(g, root, PathOf(s.paths, v), v)
  {
    assert SeenOk(g, root, s, v);
  }

  lemma TreeStep(g: Graph, tree: map<string, seq<string>>, done: set<string>, v: string)
    requires v in g && TreeListed(g, tree, done)
    ensures TreeListed(g, tree[v := Sorted(g[v].children)], done + {v})
  {
    var tree' := tree[v := Sorted(g[v].children)];
    forall x | x in done + {v} ensures ChildrenListed(g, tree', x) {
      assert x != v ==> ChildrenListed(g, tree, x);
    }
  }

  lemma InfoStep(g: Graph, root: string, info: map<string, NodeInfo>, done: set<string>, v: string, p: seq<string>)
    requires v in g && InfoListed(g, root, info, done) && LeadsTo(g, root, p, v)
    ensures InfoListed(g, root, if g[v].children == {} then info[g[v].name := NodeInfo(v, p)] else info, done + {v})
  {
    var info' := if g[v].children == {} then info[g[v].name := NodeInfo(v, p)] else info;
    forall n ensures InfoOk(g, root, info', n) { assert InfoOk(g, root, info, n); }
  }

  lemma Start(g: Graph, root: string)
    requires Closed(g, root)
    ensures SearchOk(g, root, Search({}, [root], {root}, map[], map[], map[root := [root]]))
  {
    var s := Search({}, [root], {root}, map[], map[], map[root := [root]]);
    forall v ensures SeenOk(g, root, s, v) {}
  }

  lemma Fewer(keys: set<string>, done: set<string>, v: string)
    requires v in keys && v !in done
    ensures |keys - (done + {v})| < |keys - done|
  {
    assert keys - (done + {v}) == (keys - done) - {v};
  }

  // ---------------------------------------------------------------- graphs given with their parents

  ghost predicate VertexOk(g: Graph, up: map<string, string>, rank: map<string, nat>, v: string) {
    v in up ==> Edge(g, up[v], v) && "" in rank && v in rank && up[v] in rank && rank[v] < rank[up[v]] <= rank[""]
  }

  ghost predicate EdgeOk(g: Graph, up: map<string, string>, u: string, c: string) {
    Edge(g, u, c) ==> c in up && up[c] == u
  }

  /** Every vertex but the root has one parent, of higher rank. */
  ghost predicate Shape(g: Graph, up: map<string, string>, rank: map<string, nat>) {
    && "" in g && "" in rank && "" !in up && g.Keys == up.Keys + {""}
    && (forall v {:trigger VertexOk(g, up, rank, v)} :: VertexOk(g, up, rank, v))
    && (forall u, c {:trigger EdgeOk(g, up, u, c)} :: EdgeOk(g, up, u, c))
  }

  lemma {:induction false} ShapeReaches(g: Graph, up: map<string, string>, rank: map<string, nat>, v: string)
      returns (f: seq<string>)
    requires Shape(g, up, rank) && v in g
    ensures Path(g, "", f, v)
    decreases if v in up && v in rank && rank[v] <= rank[""] then 1 + rank[""] - rank[v] else 0
  {
    if v == "" {
      f := [""];
    } else {
      assert VertexOk(g, up, rank, v) && VertexOk(g, up, rank, up[v]);
      var q := ShapeReaches(g, up, rank, up[v]);
      f := q + [v];
    }
  }

  /** Such a graph is a tree, and all of it is reachable. */
  lemma ShapeIsTree(g: Graph, up: map<string, string>, rank: map<string, nat>)
    requires Shape(g, up, rank)
    ensures Closed(g, "") && IsTree(g, "") && forall v :: v in g ==> Reachable(g, "", v)
  {
    forall v, c | v in g && c in g[v].children ensures c in g { assert EdgeOk(g, up, v, c); }
    forall v | v in g ensures Reachable(g, "", v) { var p := ShapeReaches(g, up, rank, v); }
    forall u | Reachable(g, "", u) ensures !Edge(g, u, "") { assert EdgeOk(g, up, u, ""); }
    forall u, w, c | Reachable(g, "", u) && Reachable(g, "", w) && Edge(g, u, c) && Edge(g, w, c) ensures u == w {
      assert EdgeOk(g, up, u, c) && EdgeOk(g, up, w, c);
    }
  }
}

/** Flattening a topology tree into instances with their network layers (deriveInstances,
    pkg/engines/graph/engine.go). */
module GraphWalk {
  import opened Wrappers
  import opened Lex
  import opened GraphTree
  import opened CanonicalGraph

  type Up = map<string, string>
  type Rank = map<string, nat>

  /** What a vertex adds to the layers below it: nothing for the root and the no-topology marker. */
  function Label(g: Graph, u: string): seq<string> {
    if u == NO_TOPOLOGY || u !in g then [] else Shown(u, g[u].name)
  }

  /** The parent of `x` is there and ranks higher. */
  predicate Rises(up: Up, rank: Rank, x: string) {
    x in up && x in rank && up[x] in rank && "" in rank && rank[x] < rank[up[x]] <= rank[""]
  }

  ghost function Left(rank: Rank, x: string): nat {
    if "" in rank && x in rank && rank[x] <= rank[""] then rank[""] - rank[x] else 0
  }

  /** The layers above a vertex, closest first. */
  ghost function Above(g: Graph, up: Up, rank: Rank, v: string): seq<string>
    decreases Left(rank, v)
  {
    if Rises(up, rank, v) then Label(g, up[v]) + Above(g, up, rank, up[v]) else []
  }

  /** `v` is `x` or one of its ancestors. */
  ghost predicate Within(up: Up, rank: Rank, v: string, x: string)
    decreases Left(rank, x)
  {
    x == v || (Rises(up, rank, x) && Within(up, rank, v, up[x]))
  }

  lemma ShapeRises(g: Graph, up: Up, rank: Rank, x: string)
    requires Shape(g, up, rank) && x in up
    ensures Rises(up, rank, x) && Edge(g, up[x], x)
  {
    assert VertexOk(g, up, rank, x);
  }

  lemma {:induction false} WithinChild(g: Graph, up: Up, rank: Rank, v: string, x: string) returns (c: string)
    requires Shape(g, up, rank) && Within(up, rank, v, x) && x != v
    ensures Edge(g, v, c) && Within(up, rank, c, x)
    decreases Left(rank, x)
  {
    ShapeRises(g, up, rank, x);
    if up[x] == v {
      c := x;
    } else {
      c := WithinChild(g, up, rank, v, up[x]);
    }
  }

  lemma {:induction false} ChildWithin(g: Graph, up: Up, rank: Rank, v: string, c: string, x: string)
    requires Shape(g, up, rank) && Edge(g, v, c) && Within(up, rank, c, x)
    ensures Within(up, rank, v, x) && x in rank && v in rank && rank[x] < rank[v]
    decreases Left(rank, x)
  {
    assert EdgeOk(g, up, v, c);
    ShapeRises(g, up, rank, c);
    if x != c {
      ChildWithin(g, up, rank, v, c, up[x]);
    }
  }

  lemma LeafWithin(g: Graph, up: Up, rank: Rank, c: string, x: string)
    requires Shape(g, up, rank) && IsLeaf(g, c) && Within(up, rank, c, x)
    ensures x == c
  {
    if x != c {
      var d := WithinChild(g, up, rank, c, x);
    }
  }

  lemma {:induction false} RootWithin(g: Graph, up: Up, rank: Rank, x: string)
    requires Shape(g, up, rank) && x in g
    ensures Within(up, rank, "", x)
    decreases Left(rank, x)
  {
    if x != "" {
      ShapeRises(g, up, rank, x);
      RootWithin(g, up, rank, up[x]);
    }
  }

  // ---------------------------------------------------------------- the walk

  function Reverse(s: seq<string>): (r: seq<string>)
    ensures |r| == |s| && forall i :: 0 <= i < |r| ==> r[i] == s[|s| - 1 - i]
  {
    seq(|s|, i requires 0 <= i < |s| => s[|s| - 1 - i])
  }

  lemma ReverseCons(a: string, s: seq<string>)
    ensures Reverse([a] + s) == Reverse(s) + [a]
  {
    var r, t := Reverse([a] + s), Reverse(s) + [a];
    forall i | 0 <= i < |r| ensures r[i] == t[i] {
      assert i < |s| ==> ([a] + s)[|s| - i] == s[|s| - 1 - i];
    }
  }

  lemma ReverseTwice(s: seq<string>)
    ensures Reverse(Reverse(s)) == s
  {}

  predicate Wanted(g: Graph, requested: Option<set<string>>, x: string) {
    requested.None? || x in requested.value || (x in g && g[x].name in requested.value)
  }

  type Instances = map<string, seq<string>>

  ghost predicate Derived(g: Graph, up: Up, rank: Rank, instances: Instances, x: string) {
    x in instances ==> instances[x] == Above(g, up, rank, x)
  }

  ghost predicate AllDerived(g: Graph, up: Up, rank: Rank, instances: Instances) {
    forall x {:trigger Derived(g, up, rank, instances, x)} :: Derived(g, up, rank, instances, x)
  }

  /** A leaf below `v` that is to be reported. */
  ghost predicate Reported(g: Graph, up: Up, rank: Rank, requested: Option<set<string>>, v: string, x: string) {
    Within(up, rank, v, x) && IsLeaf(g, x) && Wanted(g, requested, x)
  }

  /** The path handed to a child, root first, is the reverse of the layers above the child's children. */
  ghost predicate PathOk(g: Graph, up: Up, rank: Rank, v: string, path: seq<string>) {
    path == Reverse(Label(g, v) + Above(g, up, rank, v))
  }

  lemma ChildPath(g: Graph, up: Up, rank: Rank, v: string, c: string, path: seq<string>)
    requires Shape(g, up, rank) && Edge(g, v, c) && PathOk(g, up, rank, v, path)
    ensures c in g && PathOk(g, up, rank, c, path + Label(g, c)) && Reverse(path) == Above(g, up, rank, c) && c in rank
            && v in rank && rank[c] < rank[v] && c != ""
  {
    assert EdgeOk(g, up, v, c);
    ShapeRises(g, up, rank, c);
    var layers := Label(g, v) + Above(g, up, rank, v);
    assert Above(g, up, rank, c) == layers;
    ReverseTwice(layers);
    if Label(g, c) == [] {
      assert [] + layers == layers && path + [] == path;
    } else {
      ReverseCons(Label(g, c)[0], layers);
    }
  }

  method ReversedPath(path: seq<string>) returns (layers: seq<string>)
    ensures layers == Reverse(path)
  {
    layers := [];
    var i := |path|;
    while i > 0
      invariant 0 <= i <= |path| && |layers| == |path| - i
      invariant forall j :: 0 <= j < |layers| ==> layers[j] == path[|path| - 1 - j]
    {
      i := i - 1;
      layers := layers + [path[i]];
    }
  }

  /** A childless vertex becomes an instance, once. */
  method AddLeaf(g: Graph, ghost up: Up, ghost rank: Rank, c: string, path: seq<string>, instances: Instances,
                 requested: Option<set<string>>)
      returns (instances': Instances)
    requires Shape(g, up, rank) && IsLeaf(g, c) && AllDerived(g, up, rank, instances)
             && Reverse(path) == Above(g, up, rank, c)
    ensures AllDerived(g, up, rank, instances')
    ensures forall x :: x in instances' <==> x in instances || Reported(g, up, rank, requested, c, x)
  {
    instances' := instances;
    forall x ensures Reported(g, up, rank, requested, c, x) <==> x == c && Wanted(g, requested, c) {
      if Within(up, rank, c, x) { LeafWithin(g, up, rank, c, x); }
    }
    if c in instances || !Wanted(g, requested, c) { return; }
    var layers := ReversedPath(path);
    instances' := instances[c := layers];
    forall x ensures Derived(g, up, rank, instances', x) { assert Derived(g, up, rank, instances, x); }
  }

  ghost predicate FromOne(g: Graph, up: Up, rank: Rank, requested: Option<set<string>>, keys: seq<string>, x: string) {
    exists j :: 0 <= j < |keys| && Reported(g, up, rank, requested, keys[j], x)
  }

  lemma FromOneStep(g: Graph, up: Up, rank: Rank, requested: Option<set<string>>, keys: seq<string>, i: nat, x: string)
    requires i < |keys|
    ensures FromOne(g, up, rank, requested, keys[..i + 1], x) <==>
            FromOne(g, up, rank, requested, keys[..i], x) || Reported(g, up, rank, requested, keys[i], x)
  {
    var longer, shorter := keys[..i + 1], keys[..i];
    assert longer[i] == keys[i];
    if FromOne(g, up, rank, requested, shorter, x) {
      var j :| 0 <= j < |shorter| && Reported(g, up, rank, requested, shorter[j], x);
      assert longer[j] == shorter[j];
    }
    if FromOne(g, up, rank, requested, longer, x) {
      var j :| 0 <= j < |longer| && Reported(g, up, rank, requested, longer[j], x);
      assert j < i ==> shorter[j] == longer[j];
    }
  }

  lemma FromChildren(g: Graph, up: Up, rank: Rank, requested: Option<set<string>>, v: string,
                     keys: seq<string>, x: string)
    requires Shape(g, up, rank) && v in g && forall c :: c in keys <==> c in g[v].children
    ensures FromOne(g, up, rank, requested, keys, x) <==> x != v && Reported(g, up, rank, requested, v, x)
  {
    if FromOne(g, up, rank, requested, keys, x) {
      var j :| 0 <= j < |keys| && Reported(g, up, rank, requested, keys[j], x);
      assert keys[j] in keys;
      ChildWithin(g, up, rank, v, keys[j], x);
    }
    if x != v && Reported(g, up, rank, requested, v, x) {
      var c := WithinChild(g, up, rank, v, x);
      assert c in keys;
      var j :| 0 <= j < |keys| && keys[j] == c;
    }
  }

  /** Adds every reported leaf strictly below `v`, with the layers above it. */
  method Walk(g: Graph, ghost up: Up, ghost rank: Rank, v: string, path: seq<string>, instances: Instances,
              requested: Option<set<string>>)
      returns (instances': Instances)
    requires Shape(g, up, rank) && v in g && v in rank && PathOk(g, up, rank, v, path)
             && AllDerived(g, up, rank, instances)
    ensures AllDerived(g, up, rank, instances')
    ensures forall x :: x in instances' <==> x in instances || (x != v && Reported(g, up, rank, requested, v, x))
    decreases rank[v]
  {
    instances' := instances;
    var keys := Sorted(g[v].children);
    for i := 0 to |keys|
      invariant AllDerived(g, up, rank, instances')
      invariant forall x :: x in instances' <==> x in instances || FromOne(g, up, rank, requested, keys[..i], x)
    {
      var c := keys[i];
      assert c in keys && Edge(g, v, c);
      ChildPath(g, up, rank, v, c, path);
      forall x { FromOneStep(g, up, rank, requested, keys, i, x); }
      if |g[c].children| != 0 {
        instances' := Walk(g, up, rank, c, path + Label(g, c), instances', requested);
      } else {
        instances' := AddLeaf(g, up, rank, c, path, instances', requested);
      }
    }
    assert keys[..|keys|] == keys;
    forall x { FromChildren(g, up, rank, requested, v, keys, x); }
  }

  /** Every compute node of the tree that is asked for, with the layers above it. */
  method DeriveInstances(g: Graph, ghost up: Up, ghost rank: Rank, requested: Option<set<string>>)
      returns (instances: Instances)
    requires Shape(g, up, rank)
    ensures AllDerived(g, up, rank, instances)
    ensures forall x :: x in instances <==> x != "" && IsLeaf(g, x) && Wanted(g, requested, x)
  {
    assert Shown("", g[""].name) == [];
    assert !Rises(up, rank, "");
    instances := Walk(g, up, rank, "", [], map[], requested);
    forall x | x in g ensures Within(up, rank, "", x) { RootWithin(g, up, rank, x); }
  }
}

/** Merging equivalent switches of a layered fabric graph (pkg/topology/merger.go). */
module Merger {
  import opened Lex

  /** Children are identified by ID; a vertex without children is a compute node. */
  datatype Vertex = Vertex(name: string, children: set<string>)

  type Graph = map<string, Vertex>

  // ---------------------------------------------------------------- layered graphs

  /** All children of `v` are vertices one rank lower; only rank 0 has none. */
  ghost predicate RankOk(g: Graph, rank: map<string, nat>, v: string) {
    && v in g && v in rank
    && (rank[v] == 0 <==> g[v].children == {})
    && forall c :: c in g[v].children ==> c in g && c in rank && rank[c] + 1 == rank[v]
  }

  ghost predicate Layered(g: Graph, rank: map<string, nat>) {
    forall v {:trigger RankOk(g, rank, v)} :: v in g ==> RankOk(g, rank, v)
  }

  ghost predicate AtRank(g: Graph, rank: map<string, nat>, layer: seq<string>, k: nat) {
    && (forall i :: 0 <= i < |layer| ==> layer[i] in g && layer[i] in rank && rank[layer[i]] == k)
    && forall i, j :: 0 <= i < j < |layer| ==> layer[i] != layer[j]
  }

  ghost predicate ChildOfSome(g: Graph, layer: seq<string>, c: string) {
    exists i :: 0 <= i < |layer| && layer[i] in g && c in g[layer[i]].children
  }

  /** `lower` lists exactly the children of `upper`. */
  ghost predicate NextTier(g: Graph, upper: seq<string>, lower: seq<string>) {
    forall c :: c in lower <==> ChildOfSome(g, upper, c)
  }

  /** Tiers from the leaves up: rank by rank, each listing exactly the children of the one above. */
  ghost predicate TierList(g: Graph, rank: map<string, nat>, ts: seq<seq<string>>) {
    && (forall k :: 0 <= k < |ts| ==> AtRank(g, rank, ts[k], k))
    && forall k :: 0 < k < |ts| ==> NextTier(g, ts[k], ts[k - 1])
  }

  // ---------------------------------------------------------------- representatives

  function Rep(refs: map<string, string>, v: string): string {
    if v in refs then refs[v] else v
  }

  /** The merged child set of `v`. */
  function Signature(g: Graph, refs: map<string, string>, v: string): set<string> {
    if v in g then set c | c in g[v].children :: Rep(refs, c) else {}
  }

  /** No earlier vertex of the layer has the same signature. */
  ghost predicate First(g: Graph, refs: map<string, string>, layer: seq<string>, j: int)
    requires 0 <= j < |layer|
  {
    forall i :: 0 <= i < j ==> Signature(g, refs, layer[i]) != Signature(g, refs, layer[j])
  }

  ghost predicate Survives(g: Graph, refs: map<string, string>, nodes: Graph, r: string) {
    r !in refs && r in nodes && r in g && nodes[r] == Vertex(g[r].name, Signature(g, refs, r))
  }

  /** The vertices of the layer that no other vertex represents, in layer order. */
  function Kept(refs: map<string, string>, layer: seq<string>): seq<string> {
    if layer == [] then []
    else
      var v := layer[|layer| - 1];
      Kept(refs, layer[..|layer| - 1]) + if v in refs then [] else [v]
  }

  lemma {:induction false} KeptFrame(refs: map<string, string>, refs': map<string, string>, layer: seq<string>)
    requires forall i :: 0 <= i < |layer| ==> (layer[i] in refs <==> layer[i] in refs')
    ensures Kept(refs, layer) == Kept(refs', layer)
  {
    if layer != [] {
      KeptFrame(refs, refs', layer[..|layer| - 1]);
    }
  }

  /** Recording a representative for a vertex of the layer that comes later. */
  lemma KeptSeen(g: Graph, rank: map<string, nat>, refs: map<string, string>, layer: seq<string>, i: nat, k: nat,
                 r: string)
    requires AtRank(g, rank, layer, k) && i < |layer|
    ensures Kept(refs[layer[i] := r], layer[..i + 1]) == Kept(refs, layer[..i])
  {
    KeptFrame(refs, refs[layer[i] := r], layer[..i]);
    KeptStep(refs[layer[i] := r], layer, i);
  }

  lemma KeptStep(refs: map<string, string>, layer: seq<string>, i: nat)
    requires i < |layer|
    ensures Kept(refs, layer[..i + 1]) == Kept(refs, layer[..i]) + if layer[i] in refs then [] else [layer[i]]
  {
    assert layer[..i + 1][..i] == layer[..i];
  }

  /** `result` keeps the first vertex per signature; every vertex is represented by a survivor with its signature. */
  ghost predicate TierMerged(g: Graph, refs: map<string, string>, nodes: Graph,
                             layer: seq<string>, result: seq<string>) {
    && (forall j :: 0 <= j < |layer| ==> (layer[j] in result <==> First(g, refs, layer, j)))
    && (forall r :: r in result ==> r in layer && Survives(g, refs, nodes, r))
    && (forall v :: v in layer ==> Represented(g, refs, result, v))
  }

  ghost predicate Represented(g: Graph, refs: map<string, string>, result: seq<string>, v: string) {
    Rep(refs, v) in result && Signature(g, refs, Rep(refs, v)) == Signature(g, refs, v)
  }

  ghost predicate LeavesKept(g: Graph, refs: map<string, string>, nodes: Graph, layer: seq<string>) {
    forall v :: v in layer ==> v !in refs && v in nodes && v in g && nodes[v] == g[v]
  }

  /** The outcome of merging the tiers `ts` into `rs`, up to tier `n`. */
  ghost predicate MergedUpTo(g: Graph, refs: map<string, string>, nodes: Graph,
                             ts: seq<seq<string>>, rs: seq<seq<string>>, n: nat) {
    && |ts| == |rs| && n <= |ts|
    && (n > 0 ==> LeavesKept(g, refs, nodes, ts[0]) && rs[0] == ts[0])
    && (forall k :: 0 < k < n ==> TierMerged(g, refs, nodes, ts[k], rs[k]))
    && forall k :: 0 < k < n ==> rs[k] == Kept(refs, ts[k])
  }

  lemma SignatureFrame(g: Graph, refs: map<string, string>, refs': map<string, string>, v: string)
    requires v in g ==> forall c :: c in g[v].children ==> Rep(refs, c) == Rep(refs', c)
    ensures Signature(g, refs, v) == Signature(g, refs', v)
  {}

  /** Recording representatives for rank-k vertices changes no signature of rank k or below. */
  lemma SignatureStable(g: Graph, rank: map<string, nat>, refs: map<string, string>, refs': map<string, string>, k: nat,
                        v: string)
    requires Layered(g, rank) && v in g && v in rank && rank[v] <= k
    requires forall c :: c in rank && rank[c] < k ==> Rep(refs, c) == Rep(refs', c)
    ensures Signature(g, refs, v) == Signature(g, refs', v)
  {
    assert RankOk(g, rank, v);
    SignatureFrame(g, refs, refs', v);
  }

  lemma TierMergedFrame(g: Graph, rank: map<string, nat>, refs: map<string, string>, refs': map<string, string>,
                        nodes: Graph, nodes': Graph, layer: seq<string>, result: seq<string>, j: nat, k: nat)
    requires Layered(g, rank) && AtRank(g, rank, layer, j) && j < k && TierMerged(g, refs, nodes, layer, result)
    requires forall c :: c in rank && rank[c] < k ==> Rep(refs, c) == Rep(refs', c) && (c in refs <==> c in refs')
    requires forall c :: c in rank && rank[c] < k && c in nodes ==> c in nodes' && nodes'[c] == nodes[c]
    ensures TierMerged(g, refs', nodes', layer, result)
  {
    forall v | v in layer
      ensures v in g && v in rank && rank[v] == j && Signature(g, refs, v) == Signature(g, refs', v)
    {
      var i :| 0 <= i < |layer| && layer[i] == v;
      SignatureStable(g, rank, refs, refs', k, v);
    }
    forall i | 0 <= i < |layer| ensures First(g, refs, layer, i) <==> First(g, refs', layer, i) {
      assert forall h :: 0 <= h < |layer| ==> layer[h] in layer;
    }
    forall v | v in layer ensures Represented(g, refs', result, v) {
      assert Represented(g, refs, result, v);
    }
  }

  // ---------------------------------------------------------------- merging one layer

  /** What the layer loop maintains after `i` vertices. */
  ghost predicate Prefix(g: Graph, rank: map<string, nat>, refs: map<string, string>, nodes: Graph,
                         layer: seq<string>, i: nat, result: seq<string>, k: nat)
  {
    && i <= |layer| && Layered(g, rank) && AtRank(g, rank, layer, k)
    && TierMerged(g, refs, nodes, layer[..i], result)
    && forall j :: i <= j < |layer| ==> layer[j] !in refs
  }

  lemma SameSignatures(g: Graph, rank: map<string, nat>, refs: map<string, string>, layer: seq<string>, k: nat,
                       v: string, r: string)
    requires Layered(g, rank) && AtRank(g, rank, layer, k) && v in layer
    ensures forall x :: x in layer ==> Signature(g, refs[v := r], x) == Signature(g, refs, x)
  {
    var j :| 0 <= j < |layer| && layer[j] == v;
    forall x | x in layer ensures Signature(g, refs[v := r], x) == Signature(g, refs, x) {
      var i :| 0 <= i < |layer| && layer[i] == x;
      SignatureStable(g, rank, refs, refs[v := r], k, x);
    }
  }

  /** A vertex whose signature is known is represented by the survivor that has it. */
  lemma MergeSeen(g: Graph, rank: map<string, nat>, refs: map<string, string>, nodes: Graph,
                  layer: seq<string>, i: nat, result: seq<string>, k: nat, r: string)
    requires Prefix(g, rank, refs, nodes, layer, i, result, k) && i < |layer|
    requires r in result && Signature(g, refs, r) == Signature(g, refs, layer[i])
    ensures Prefix(g, rank, refs[layer[i] := r], nodes, layer, i + 1, result, k)
  {
    var v, refs' := layer[i], refs[layer[i] := r];
    SameSignatures(g, rank, refs, layer, k, v, r);
    var before, after := layer[..i], layer[..i + 1];
    assert after == before + [v];
    forall j | 0 <= j < |after| ensures after[j] in result <==> First(g, refs', after, j) {
      SeenFirst(g, refs, refs', layer, i, result, r, j);
    }
    forall x | x in after ensures Represented(g, refs', result, x) {
      SeenRepresented(g, refs, refs', layer, i, result, r, x);
    }
    forall x | x in result ensures x in after && Survives(g, refs', nodes, x) {
      SeenSurvives(g, rank, refs, nodes, layer, i, result, k, r, x);
    }
  }

  lemma SeenSurvives(g: Graph, rank: map<string, nat>, refs: map<string, string>, nodes: Graph,
                     layer: seq<string>, i: nat, result: seq<string>, k: nat, r: string, x: string)
    requires Prefix(g, rank, refs, nodes, layer, i, result, k) && i < |layer| && x in result
    ensures x in layer[..i + 1] && Survives(g, refs[layer[i] := r], nodes, x)
  {
    assert x in layer[..i] && Survives(g, refs, nodes, x);
    var h :| 0 <= h < i && layer[h] == x;
    SameSignatures(g, rank, refs, layer, k, layer[i], r);
    assert layer[..i + 1][h] == x && x in layer;
  }

  lemma SeenFirst(g: Graph, refs: map<string, string>, refs': map<string, string>, layer: seq<string>, i: nat,
                  result: seq<string>, r: string, j: nat)
    requires i < |layer| && j <= i && r in result && Signature(g, refs, r) == Signature(g, refs, layer[i])
    requires forall h, j :: 0 <= h < j < |layer| ==> layer[h] != layer[j]
    requires forall x :: x in layer ==> Signature(g, refs', x) == Signature(g, refs, x)
    requires forall h :: 0 <= h < i ==> (layer[..i][h] in result <==> First(g, refs, layer[..i], h))
    requires forall x :: x in result ==> x in layer[..i]
    ensures layer[..i + 1][j] in result <==> First(g, refs', layer[..i + 1], j)
  {
    var before, after := layer[..i], layer[..i + 1];
    if j < i {
      forall h | 0 <= h <= j ensures Signature(g, refs, before[h]) == Signature(g, refs', after[h]) {
        assert after[h] in layer;
      }
      FirstFrame(g, refs, refs', before, after, j);
    } else {
      var h :| 0 <= h < i && layer[h] == r;
      assert after[h] in layer && after[j] in layer;
    }
  }

  lemma SeenRepresented(g: Graph, refs: map<string, string>, refs': map<string, string>, layer: seq<string>, i: nat,
                        result: seq<string>, r: string, x: string)
    requires i < |layer| && refs' == refs[layer[i] := r] && r in result
             && Signature(g, refs, r) == Signature(g, refs, layer[i])
    requires forall y :: y in layer ==> Signature(g, refs', y) == Signature(g, refs, y)
    requires forall y :: y in result ==> y in layer[..i]
    requires forall y :: y in layer[..i] ==> Represented(g, refs, result, y)
    requires x in layer[..i + 1]
    ensures Represented(g, refs', result, x)
  {
    assert forall y :: y in layer[..i] ==> y in layer;
    if x != layer[i] {
      assert x in layer[..i] && Represented(g, refs, result, x);
    }
  }

  lemma FirstFrame(g: Graph, refs: map<string, string>, refs': map<string, string>,
                   before: seq<string>, after: seq<string>, j: nat)
    requires j < |before| && before <= after
    requires forall h :: 0 <= h <= j ==> Signature(g, refs, before[h]) == Signature(g, refs', after[h])
    ensures First(g, refs, before, j) <==> First(g, refs', after, j)
  {}

  /** A vertex with a new signature survives. */
  lemma MergeNew(g: Graph, rank: map<string, nat>, refs: map<string, string>, nodes: Graph,
                 layer: seq<string>, i: nat, result: seq<string>, k: nat)
    requires Prefix(g, rank, refs, nodes, layer, i, result, k) && i < |layer|
    requires forall r :: r in result ==> Signature(g, refs, r) != Signature(g, refs, layer[i])
    ensures layer[i] in g
    ensures Prefix(g, rank, refs, nodes[layer[i] := Vertex(g[layer[i]].name, Signature(g, refs, layer[i]))],
                   layer, i + 1, result + [layer[i]], k)
  {
    var v := layer[i];
    var nodes', result' := nodes[v := Vertex(g[v].name, Signature(g, refs, v))], result + [v];
    var before, after := layer[..i], layer[..i + 1];
    assert after == before + [v];
    forall x | x in before ensures x != v {
      var h :| 0 <= h < i && layer[h] == x;
    }
    forall j | 0 <= j < |after| ensures after[j] in result' <==> First(g, refs, after, j) {
      if j < i {
        assert after[j] == before[j] && after[j] in before;
        FirstFrame(g, refs, refs, before, after, j);
      } else {
        forall h | 0 <= h < i ensures Signature(g, refs, after[h]) != Signature(g, refs, v) {
          assert after[h] in before;
          assert Represented(g, refs, result, after[h]);
        }
      }
    }
    forall x | x in after ensures Represented(g, refs, result', x) {
      if x != v { assert Represented(g, refs, result, x); }
    }
    forall x | x in result' ensures x in after && Survives(g, refs, nodes', x) {
      if x != v { assert x in before && Survives(g, refs, nodes, x); }
    }
  }

  // ---------------------------------------------------------------- the Merger object

  lemma TopRankNonLeaf(g: Graph, rank: map<string, nat>, layer: seq<string>, k: nat, i: nat)
    requires Layered(g, rank) && AtRank(g, rank, layer, k) && i < |layer|
    ensures g[layer[i]].children == {} <==> k == 0
  {
    assert RankOk(g, rank, layer[i]);
  }

  /** Listing the children of one more vertex. */
  ghost predicate Collected(g: Graph, rank: map<string, nat>, layer: seq<string>, i: nat, next: seq<string>, k: nat) {
    i <= |layer| && AtRank(g, rank, next, k) && forall c :: c in next <==> ChildOfSome(g, layer[..i], c)
  }

  class FabricMerger {
    const g: Graph
    ghost const rank: map<string, nat>
    var tiers: seq<seq<string>>
    var nodes: Graph
    var refs: map<string, string>

    /** NewMerger: the layers below the sorted top vertices; nothing for an empty top. */
    constructor (g: Graph, ghost rank: map<string, nat>, top: seq<string>, ghost h: nat)
      requires Layered(g, rank) && AtRank(g, rank, top, h)
      ensures this.g == g && this.rank == rank && refs == map[]
      ensures top == [] ==> tiers == [] && nodes == map[]
      ensures top != [] ==> && TierList(g, rank, tiers) && |tiers| == h + 1
                            && (forall v :: v in tiers[h] <==> v in top) && Ascending(tiers[h])
                            && LeavesKept(g, refs, nodes, tiers[0])
    {
      this.g, this.rank := g, rank;
      tiers, nodes, refs := [], map[], map[];
      new;
      if top != [] {
        var sorted := Sorted(set v | v in top);
        SortedAtRank(g, rank, top, sorted, h);
        Traverse(sorted, h);
      }
    }

    /** Marks leaves; true when the layer contains one. */
    method RecordLeaves(layer: seq<string>, ghost k: nat) returns (isLeaf: bool)
      requires Layered(g, rank) && AtRank(g, rank, layer, k) && layer != []
      modifies this`nodes
      ensures isLeaf <==> k == 0
      ensures if k == 0 then forall v :: v in layer ==> v in nodes && v in g && nodes[v] == g[v]
              else nodes == old(nodes)
    {
      isLeaf := false;
      for i := 0 to |layer|
        invariant isLeaf <==> k == 0 && i > 0
        invariant k > 0 ==> nodes == old(nodes)
        invariant k == 0 ==> forall j :: 0 <= j < i ==> layer[j] in nodes && nodes[layer[j]] == g[layer[j]]
      {
        TopRankNonLeaf(g, rank, layer, k, i);
        if |g[layer[i]].children| == 0 {
          isLeaf := true;
          nodes := nodes[layer[i] := g[layer[i]]];
        }
      }
    }

    /** The children of one vertex that have not been listed yet, in sorted order. */
    method CollectChildren(v: string, ghost layer: seq<string>, ghost i: nat,
                           next: seq<string>, visited: set<string>, ghost k: nat)
        returns (next': seq<string>, visited': set<string>)
      requires Layered(g, rank) && AtRank(g, rank, layer, k + 1) && i < |layer| && v == layer[i]
      requires Collected(g, rank, layer, i, next, k)
      requires forall x :: x in visited <==> x in layer || x in next
      ensures Collected(g, rank, layer, i + 1, next', k)
      ensures forall x :: x in visited' <==> x in layer || x in next'
    {
      var keys := Sorted(g[v].children);
      next', visited' := next, visited;
      for j := 0 to |keys|
        invariant AtRank(g, rank, next', k)
        invariant Taken(next, keys, j, next')
        invariant forall x :: x in visited' <==> x in layer || x in next'
      {
        var id := keys[j];
        assert id in keys;
        ChildApart(g, rank, layer, i, k, id);
        TakenNext(next, keys, j, next');
        if id !in visited' {
          AtRankNext(g, rank, next', k, id);
          visited' := visited' + {id};
          next' := next' + [id];
        }
      }
      TakenAll(next, keys, next');
      CollectedNext(g, rank, layer, i, next, next', k);
    }

    method NextLayer(layer: seq<string>, ghost k: nat) returns (next: seq<string>)
      requires Layered(g, rank) && AtRank(g, rank, layer, k + 1)
      ensures AtRank(g, rank, next, k) && NextTier(g, layer, next)
    {
      next := [];
      var visited := set v | v in layer;
      for i := 0 to |layer|
        invariant Collected(g, rank, layer, i, next, k)
        invariant forall x :: x in visited <==> x in layer || x in next
      {
        next, visited := CollectChildren(layer[i], layer, i, next, visited, k);
      }
      assert layer[..|layer|] == layer;
    }

    method Traverse(layer: seq<string>, ghost k: nat)
      requires Layered(g, rank) && AtRank(g, rank, layer, k) && layer != [] && tiers == [] && refs == map[]
      modifies this`tiers, this`nodes
      ensures TierList(g, rank, tiers) && |tiers| == k + 1 && tiers[k] == layer && LeavesKept(g, refs, nodes, tiers[0])
      decreases k
    {
      var isLeaf := RecordLeaves(layer, k);
      if !isLeaf {
        var next := NextLayer(layer, k - 1);
        NextNonEmpty(g, rank, layer, next, k - 1);
        Traverse(next, k - 1);
      }
      tiers := tiers + [layer];
    }

    /** The filter search: the first recorded survivor with this signature. */
    method FindFilter(filters: seq<(set<string>, string)>, signature: set<string>) returns (seen: bool, id: string)
      ensures seen ==> (signature, id) in filters
      ensures !seen ==> forall f :: f in filters ==> f.0 != signature
    {
      for i := 0 to |filters|
        invariant forall j :: 0 <= j < i ==> filters[j].0 != signature
      {
        if filters[i].0 == signature { return true, filters[i].1; }
      }
      return false, "";
    }

    /** Everything recorded for lower ranks is left alone. */
    ghost predicate LowerKept(k: nat, refs0: map<string, string>, nodes0: Graph)
      reads this
    {
      && (forall c :: c in rank && rank[c] < k ==> Rep(refs0, c) == Rep(refs, c) && (c in refs0 <==> c in refs))
      && (forall c :: c in rank && rank[c] < k && c in nodes0 ==> c in nodes && nodes[c] == nodes0[c])
    }

    ghost predicate Filters(filters: seq<(set<string>, string)>, result: seq<string>)
      reads this
    {
      && (forall f :: f in filters ==> f.1 in result && f.0 == Signature(g, refs, f.1))
      && (forall r :: r in result ==> (Signature(g, refs, r), r) in filters)
    }

    ghost predicate RefsBelow(k: nat)
      reads this
    {
      forall v :: v in refs ==> v in rank && rank[v] < k
    }

    method MergeVertex(layer: seq<string>, i: nat, filters: seq<(set<string>, string)>,
                       result: seq<string>, ghost k: nat)
        returns (filters': seq<(set<string>, string)>, result': seq<string>)
      requires Prefix(g, rank, refs, nodes, layer, i, result, k) && i < |layer| && Filters(filters, result)
               && RefsBelow(k + 1)
      requires result == Kept(refs, layer[..i])
      modifies this`refs, this`nodes
      ensures Prefix(g, rank, refs, nodes, layer, i + 1, result', k) && Filters(filters', result') && RefsBelow(k + 1)
      ensures result' == Kept(refs, layer[..i + 1])
      ensures LowerKept(k, old(refs), old(nodes))
    {
      filters', result' := filters, result;
      var v := layer[i];
      var signature := Signature(g, refs, v);
      var seen, id := FindFilter(filters, signature);
      if seen {
        assert (signature, id) in filters;
        MergeSeen(g, rank, refs, nodes, layer, i, result, k, id);
        SignaturesKept(g, rank, refs, layer, i, result, k, id);
        KeptSeen(g, rank, refs, layer, i, k, id);
        refs := refs[v := id];
      } else {
        forall r | r in result ensures Signature(g, refs, r) != signature {
          assert (Signature(g, refs, r), r) in filters;
        }
        MergeNew(g, rank, refs, nodes, layer, i, result, k);
        KeptStep(refs, layer, i);
        nodes := nodes[v := Vertex(g[v].name, signature)];
        filters' := filters + [(signature, v)];
        result' := result + [v];
      }
    }

    method MergeLayer(layer: seq<string>, ghost k: nat) returns (result: seq<string>)
      requires Layered(g, rank) && AtRank(g, rank, layer, k) && RefsBelow(k)
      modifies this`refs, this`nodes
      ensures TierMerged(g, refs, nodes, layer, result) && result == Kept(refs, layer) && RefsBelow(k + 1)
      ensures LowerKept(k, old(refs), old(nodes))
    {
      result := [];
      var filters: seq<(set<string>, string)> := [];
      for i := 0 to |layer|
        invariant Prefix(g, rank, refs, nodes, layer, i, result, k) && Filters(filters, result) && RefsBelow(k + 1)
        invariant LowerKept(k, old(refs), old(nodes)) && result == Kept(refs, layer[..i])
      {
        filters, result := MergeVertex(layer, i, filters, result, k);
      }
      assert layer[..|layer|] == layer;
    }

    /** Merge: every tier above the leaves, bottom up. */
    method Merge()
      requires Layered(g, rank) && TierList(g, rank, tiers) && refs == map[]
      requires tiers != [] ==> LeavesKept(g, refs, nodes, tiers[0])
      modifies this
      ensures MergedUpTo(g, refs, nodes, old(tiers), tiers, |tiers|)
    {
      ghost var ts := tiers;
      if |tiers| == 0 { return; }
      var i := 1;
      while i < |tiers|
        invariant 1 <= i <= |tiers| == |ts| && RefsBelow(i)
        invariant forall j :: i <= j < |ts| ==> tiers[j] == ts[j]
        invariant MergedUpTo(g, refs, nodes, ts, tiers, i)
      {
        ghost var refs0, nodes0 := refs, nodes;
        assert AtRank(g, rank, ts[i], i);
        var result := MergeLayer(tiers[i], i);
        MergedTiersKept(g, rank, refs0, refs, nodes0, nodes, ts, tiers, i);
        tiers := tiers[i := result];
        i := i + 1;
      }
    }

    /** The vertices at the top, or none. */
    method TopTier() returns (top: seq<string>)
      ensures top == if tiers == [] then [] else tiers[|tiers| - 1]
    {
      if |tiers| == 0 { return []; }
      return tiers[|tiers| - 1];
    }
  }

  lemma SortedAtRank(g: Graph, rank: map<string, nat>, top: seq<string>, sorted: seq<string>, h: nat)
    requires AtRank(g, rank, top, h) && top != [] && Ascending(sorted) && forall v :: v in sorted <==> v in top
    ensures AtRank(g, rank, sorted, h) && sorted != []
  {
    assert top[0] in sorted;
    forall i, j | 0 <= i < j < |sorted| ensures sorted[i] != sorted[j] { LessAsymmetric(sorted[i], sorted[j]); }
    forall i | 0 <= i < |sorted| ensures sorted[i] in g && sorted[i] in rank && rank[sorted[i]] == h {
      assert sorted[i] in top;
    }
  }

  /** The first `j` keys have joined the list. */
  ghost predicate Taken(list: seq<string>, keys: seq<string>, j: nat, list': seq<string>)
    requires j <= |keys|
  {
    forall x :: x in list' <==> x in list || x in keys[..j]
  }

  lemma TakenNext(list: seq<string>, keys: seq<string>, j: nat, list': seq<string>)
    requires j < |keys| && Taken(list, keys, j, list')
    ensures Taken(list, keys, j + 1, if keys[j] in list' then list' else list' + [keys[j]])
  {
    assert keys[..j + 1] == keys[..j] + [keys[j]];
  }

  lemma TakenAll(list: seq<string>, keys: seq<string>, list': seq<string>)
    requires Taken(list, keys, |keys|, list')
    ensures forall x :: x in list' <==> x in list || x in keys
  {
    assert keys[..|keys|] == keys;
  }

  lemma AtRankNext(g: Graph, rank: map<string, nat>, layer: seq<string>, k: nat, v: string)
    requires AtRank(g, rank, layer, k) && v !in layer && v in g && v in rank && rank[v] == k
    ensures AtRank(g, rank, layer + [v], k)
  {}

  /** A child of the layer is one rank lower, hence not on it. */
  lemma ChildApart(g: Graph, rank: map<string, nat>, layer: seq<string>, i: nat, k: nat, c: string)
    requires Layered(g, rank) && AtRank(g, rank, layer, k + 1) && i < |layer| && c in g[layer[i]].children
    ensures c in g && c in rank && rank[c] == k && c !in layer
  {
    assert RankOk(g, rank, layer[i]);
  }

  lemma CollectedNext(g: Graph, rank: map<string, nat>, layer: seq<string>, i: nat, next: seq<string>,
                      next': seq<string>, k: nat)
    requires Collected(g, rank, layer, i, next, k) && i < |layer| && layer[i] in g && AtRank(g, rank, next', k)
    requires forall x :: x in next' <==> x in next || x in g[layer[i]].children
    ensures Collected(g, rank, layer, i + 1, next', k)
  {
    forall c ensures c in next' <==> ChildOfSome(g, layer[..i + 1], c) {
      ChildStep(g, layer, i, c);
    }
  }

  lemma ChildStep(g: Graph, layer: seq<string>, i: nat, c: string)
    requires i < |layer| && layer[i] in g
    ensures ChildOfSome(g, layer[..i + 1], c) <==> ChildOfSome(g, layer[..i], c) || c in g[layer[i]].children
  {
    var longer, shorter := layer[..i + 1], layer[..i];
    if ChildOfSome(g, longer, c) {
      var h :| 0 <= h < |longer| && longer[h] in g && c in g[longer[h]].children;
      if h < i { assert shorter[h] == longer[h]; }
    }
    if ChildOfSome(g, shorter, c) {
      var h :| 0 <= h < |shorter| && shorter[h] in g && c in g[shorter[h]].children;
      assert longer[h] == shorter[h];
    }
    assert longer[i] == layer[i];
  }

  lemma NextNonEmpty(g: Graph, rank: map<string, nat>, layer: seq<string>, next: seq<string>, k: nat)
    requires Layered(g, rank) && AtRank(g, rank, layer, k + 1) && layer != [] && NextTier(g, layer, next)
    ensures next != []
  {
    assert RankOk(g, rank, layer[0]);
    var c :| c in g[layer[0]].children;
    assert ChildOfSome(g, layer, c);
  }

  lemma SignaturesKept(g: Graph, rank: map<string, nat>, refs: map<string, string>, layer: seq<string>, i: nat,
                       result: seq<string>, k: nat, r: string)
    requires Layered(g, rank) && AtRank(g, rank, layer, k) && i < |layer| && forall x :: x in result ==> x in layer[..i]
    ensures forall x :: x in result ==> Signature(g, refs[layer[i] := r], x) == Signature(g, refs, x)
  {
    SameSignatures(g, rank, refs, layer, k, layer[i], r);
    forall x | x in result ensures x in layer { assert x in layer[..i]; }
  }

  lemma MergedTiersKept(g: Graph, rank: map<string, nat>, refs: map<string, string>, refs': map<string, string>,
                        nodes: Graph, nodes': Graph, ts: seq<seq<string>>, rs: seq<seq<string>>, n: nat)
    requires Layered(g, rank) && TierList(g, rank, ts) && n > 0 && MergedUpTo(g, refs, nodes, ts, rs, n)
    requires forall c :: c in rank && rank[c] < n ==> Rep(refs, c) == Rep(refs', c) && (c in refs <==> c in refs')
    requires forall c :: c in rank && rank[c] < n && c in nodes ==> c in nodes' && nodes'[c] == nodes[c]
    ensures MergedUpTo(g, refs', nodes', ts, rs, n)
  {
    forall k | 0 < k < n ensures TierMerged(g, refs', nodes', ts[k], rs[k]) {
      TierMergedFrame(g, rank, refs, refs', nodes, nodes', ts[k], rs[k], k, n);
    }
    forall k | 0 < k < n ensures rs[k] == Kept(refs', ts[k]) {
      assert AtRank(g, rank, ts[k], k);
      KeptFrame(refs, refs', ts[k]);
    }
    assert AtRank(g, rank, ts[0], 0);
    forall v | v in ts[0] ensures v !in refs' && v in nodes' && nodes'[v] == g[v] {
      var i :| 0 <= i < |ts[0]| && ts[0][i] == v;
    }
  }
}

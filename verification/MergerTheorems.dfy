/** What merging preserves: reachability, closure, distinct child sets, and that it is a fixed point. */
module MergerTheorems {
  import opened Lex
  import opened Merger

  /** The graph `g`, its tiers `ts`, and the outcome of Merge: representatives, nodes and merged tiers. */
  ghost predicate Outcome(g: Graph, rank: map<string, nat>, refs: map<string, string>, nodes: Graph,
                          ts: seq<seq<string>>, rs: seq<seq<string>>) {
    Layered(g, rank) && TierList(g, rank, ts) && MergedUpTo(g, refs, nodes, ts, rs, |ts|)
  }

  /** Compute node `n` lies `k` levels below `v`. */
  ghost predicate Under(g: Graph, k: nat, v: string, n: string)
    decreases k
  {
    v in g && if k == 0 then n == v && g[v].children == {} else exists c :: c in g[v].children && Under(g, k - 1, c, n)
  }

  /** Compute node `n` lies below `v`, at any depth. */
  ghost predicate Reaches(g: Graph, v: string, n: string) {
    exists k: nat :: Under(g, k, v, n)
  }

  // ---------------------------------------------------------------- one tier at a time

  lemma Children(g: Graph, rank: map<string, nat>, ts: seq<seq<string>>, k: nat, v: string, c: string)
    requires TierList(g, rank, ts) && 0 < k < |ts| && v in ts[k]
    ensures v in g && (c in g[v].children ==> c in ts[k - 1])
  {
    assert AtRank(g, rank, ts[k], k) && NextTier(g, ts[k], ts[k - 1]);
    var i :| 0 <= i < |ts[k]| && ts[k][i] == v;
    if c in g[v].children { assert ChildOfSome(g, ts[k], c); }
  }

  lemma Representative(g: Graph, rank: map<string, nat>, refs: map<string, string>, nodes: Graph,
                       ts: seq<seq<string>>, rs: seq<seq<string>>, k: nat, v: string)
    requires Outcome(g, rank, refs, nodes, ts, rs) && k < |ts| && v in ts[k]
    ensures Rep(refs, v) in rs[k] && Rep(refs, v) in ts[k] && Rep(refs, v) in nodes
    ensures k > 0 ==> nodes[Rep(refs, v)].children == Signature(g, refs, v)
  {
    if k > 0 {
      assert TierMerged(g, refs, nodes, ts[k], rs[k]);
      assert Represented(g, refs, rs[k], v);
      assert Survives(g, refs, nodes, Rep(refs, v));
    }
  }

  lemma Survivor(g: Graph, rank: map<string, nat>, refs: map<string, string>, nodes: Graph,
                 ts: seq<seq<string>>, rs: seq<seq<string>>, k: nat, r: string)
    requires Outcome(g, rank, refs, nodes, ts, rs) && k < |ts| && r in rs[k]
    ensures r in ts[k] && r !in refs && r in nodes && r in g && nodes[r].name == g[r].name
    ensures nodes[r].children == if k == 0 then g[r].children else Signature(g, refs, r)
  {
    if k > 0 { assert TierMerged(g, refs, nodes, ts[k], rs[k]); }
  }

  lemma LeafTier(g: Graph, rank: map<string, nat>, ts: seq<seq<string>>, k: nat, v: string)
    requires Layered(g, rank) && TierList(g, rank, ts) && k < |ts| && v in ts[k]
    ensures v in g && v in rank && rank[v] == k && (g[v].children == {} <==> k == 0)
  {
    assert AtRank(g, rank, ts[k], k);
    var i :| 0 <= i < |ts[k]| && ts[k][i] == v;
    assert RankOk(g, rank, v);
  }

  // ---------------------------------------------------------------- the merged graph

  /** Every child of a survivor is a survivor of the tier below; above the leaves there is at least one. */
  lemma ChildrenSurvive(g: Graph, rank: map<string, nat>, refs: map<string, string>, nodes: Graph,
                        ts: seq<seq<string>>, rs: seq<seq<string>>, k: nat, r: string)
    requires Outcome(g, rank, refs, nodes, ts, rs) && 0 < k < |ts| && r in rs[k]
    ensures r in nodes && nodes[r].children != {}
    ensures forall c :: c in nodes[r].children ==> c in rs[k - 1]
  {
    Survivor(g, rank, refs, nodes, ts, rs, k, r);
    LeafTier(g, rank, ts, k, r);
    var d :| d in g[r].children;
    assert Rep(refs, d) in Signature(g, refs, r);
    forall c | c in nodes[r].children ensures c in rs[k - 1] {
      var d :| d in g[r].children && Rep(refs, d) == c;
      Children(g, rank, ts, k, r, d);
      Representative(g, rank, refs, nodes, ts, rs, k - 1, d);
    }
  }

  /** No two survivors of a tier above the leaves have the same children. */
  lemma DistinctChildSets(g: Graph, rank: map<string, nat>, refs: map<string, string>, nodes: Graph,
                          ts: seq<seq<string>>, rs: seq<seq<string>>, k: nat, r: string, s: string)
    requires Outcome(g, rank, refs, nodes, ts, rs) && 0 < k < |ts| && r in rs[k] && s in rs[k] && r != s
    ensures r in nodes && s in nodes && nodes[r].children != nodes[s].children
  {
    Survivor(g, rank, refs, nodes, ts, rs, k, r);
    Survivor(g, rank, refs, nodes, ts, rs, k, s);
    assert TierMerged(g, refs, nodes, ts[k], rs[k]);
    var i :| 0 <= i < |ts[k]| && ts[k][i] == r;
    var j :| 0 <= j < |ts[k]| && ts[k][j] == s;
    assert First(g, refs, ts[k], i) && First(g, refs, ts[k], j);
  }

  /** The compute nodes below a vertex are the compute nodes below its representative in the merged graph, level by
      level. */
  lemma {:induction false} ReachesThroughRepresentative(g: Graph, rank: map<string, nat>, refs: map<string, string>,
                                                        nodes: Graph,
                                                        ts: seq<seq<string>>, rs: seq<seq<string>>, k: nat, v: string,
                                                        n: string)
    requires Outcome(g, rank, refs, nodes, ts, rs) && k < |ts| && v in ts[k]
    ensures Under(g, k, v, n) <==> Under(nodes, k, Rep(refs, v), n)
  {
    Representative(g, rank, refs, nodes, ts, rs, k, v);
    if k > 0 {
      if Under(g, k, v, n) {
        var c :| c in g[v].children && Under(g, k - 1, c, n);
        Children(g, rank, ts, k, v, c);
        ReachesThroughRepresentative(g, rank, refs, nodes, ts, rs, k - 1, c, n);
        assert Rep(refs, c) in Signature(g, refs, v);
      }
      if Under(nodes, k, Rep(refs, v), n) {
        var x :| x in nodes[Rep(refs, v)].children && Under(nodes, k - 1, x, n);
        Children(g, rank, ts, k, v, x);
        var c :| c in g[v].children && Rep(refs, c) == x;
        Children(g, rank, ts, k, v, c);
        ReachesThroughRepresentative(g, rank, refs, nodes, ts, rs, k - 1, c, n);
      }
    }
  }

  lemma {:induction false} DepthIsRank(g: Graph, rank: map<string, nat>, k: nat, v: string, n: string)
    requires Layered(g, rank) && Under(g, k, v, n)
    ensures v in rank && rank[v] == k
  {
    assert RankOk(g, rank, v);
    if k > 0 {
      var c :| c in g[v].children && Under(g, k - 1, c, n);
      DepthIsRank(g, rank, k - 1, c, n);
    }
  }

  /** A survivor of tier k: a leaf exactly at tier 0, otherwise with all children one tier lower. */
  ghost predicate LevelOk(nodes: Graph, rs: seq<seq<string>>, k: nat, r: string) {
    && k < |rs| && r in nodes
    && (nodes[r].children == {} <==> k == 0)
    && forall c :: c in nodes[r].children ==> k > 0 && c in rs[k - 1]
  }

  ghost predicate Levelled(nodes: Graph, rs: seq<seq<string>>) {
    forall k: nat, r {:trigger LevelOk(nodes, rs, k, r)} :: k < |rs| && r in rs[k] ==> LevelOk(nodes, rs, k, r)
  }

  lemma SurvivorsLevelled(g: Graph, rank: map<string, nat>, refs: map<string, string>, nodes: Graph,
                          ts: seq<seq<string>>, rs: seq<seq<string>>)
    requires Outcome(g, rank, refs, nodes, ts, rs)
    ensures Levelled(nodes, rs)
  {
    forall k: nat, r | k < |rs| && r in rs[k] ensures LevelOk(nodes, rs, k, r) {
      Survivor(g, rank, refs, nodes, ts, rs, k, r);
      LeafTier(g, rank, ts, k, r);
      if k > 0 { ChildrenSurvive(g, rank, refs, nodes, ts, rs, k, r); }
    }
  }

  lemma {:induction false} SurvivorDepth(nodes: Graph, rs: seq<seq<string>>, j: nat, k: nat, r: string, n: string)
    requires Levelled(nodes, rs) && k < |rs| && r in rs[k] && Under(nodes, j, r, n)
    ensures j == k
    decreases k
  {
    assert LevelOk(nodes, rs, k, r);
    if j > 0 {
      var c :| c in nodes[r].children && Under(nodes, j - 1, c, n);
      SurvivorDepth(nodes, rs, j - 1, k - 1, c, n);
    }
  }

  /** Merging preserves reachability. */
  lemma ReachabilityPreserved(g: Graph, rank: map<string, nat>, refs: map<string, string>, nodes: Graph,
                              ts: seq<seq<string>>, rs: seq<seq<string>>, k: nat, v: string, n: string)
    requires Outcome(g, rank, refs, nodes, ts, rs) && k < |ts| && v in ts[k]
    ensures Reaches(g, v, n) <==> Reaches(nodes, Rep(refs, v), n)
  {
    Representative(g, rank, refs, nodes, ts, rs, k, v);
    LeafTier(g, rank, ts, k, v);
    ReachesThroughRepresentative(g, rank, refs, nodes, ts, rs, k, v, n);
    if Reaches(g, v, n) {
      var j: nat :| Under(g, j, v, n);
      DepthIsRank(g, rank, j, v, n);
    }
    if Reaches(nodes, Rep(refs, v), n) {
      var j: nat :| Under(nodes, j, Rep(refs, v), n);
      SurvivorsLevelled(g, rank, refs, nodes, ts, rs);
      SurvivorDepth(nodes, rs, j, k, Rep(refs, v), n);
    }
  }


  // ---------------------------------------------------------------- merging again

  ghost predicate Listed(rs: seq<seq<string>>, v: string) {
    exists k :: 0 <= k < |rs| && v in rs[k]
  }

  /** The merged graph: the survivors and nothing else. */
  ghost function MergedGraph(nodes: Graph, rs: seq<seq<string>>): Graph {
    map v | v in nodes && Listed(rs, v) :: nodes[v]
  }

  /** The merged graph is layered by the same ranks, so it can be merged again. */
  lemma MergedGraphLayered(g: Graph, rank: map<string, nat>, refs: map<string, string>, nodes: Graph,
                           ts: seq<seq<string>>, rs: seq<seq<string>>)
    requires Outcome(g, rank, refs, nodes, ts, rs)
    ensures Layered(MergedGraph(nodes, rs), rank)
  {
    var m := MergedGraph(nodes, rs);
    SurvivorsLevelled(g, rank, refs, nodes, ts, rs);
    forall v | v in m ensures RankOk(m, rank, v) {
      var k :| 0 <= k < |rs| && v in rs[k];
      SurvivorRank(g, rank, refs, nodes, ts, rs, k, v);
      assert LevelOk(nodes, rs, k, v);
      forall c | c in m[v].children ensures c in m && c in rank && rank[c] + 1 == rank[v] {
        SurvivorRank(g, rank, refs, nodes, ts, rs, k - 1, c);
      }
    }
  }

  lemma SurvivorRank(g: Graph, rank: map<string, nat>, refs: map<string, string>, nodes: Graph,
                     ts: seq<seq<string>>, rs: seq<seq<string>>, k: nat, r: string)
    requires Outcome(g, rank, refs, nodes, ts, rs) && k < |ts| && r in rs[k]
    ensures r in rank && rank[r] == k && r in nodes && r in MergedGraph(nodes, rs)
  {
    Survivor(g, rank, refs, nodes, ts, rs, k, r);
    LeafTier(g, rank, ts, k, r);
    assert Listed(rs, r);
  }

  /** Every survivor below the top is a child of a survivor one tier higher. */
  lemma ParentSurvives(g: Graph, rank: map<string, nat>, refs: map<string, string>, nodes: Graph,
                       ts: seq<seq<string>>, rs: seq<seq<string>>, k: nat, c: string)
      returns (p: string)
    requires Outcome(g, rank, refs, nodes, ts, rs) && k + 1 < |ts| && c in rs[k]
    ensures p in rs[k + 1] && p in nodes && c in nodes[p].children
  {
    Survivor(g, rank, refs, nodes, ts, rs, k, c);
    assert NextTier(g, ts[k + 1], ts[k + 1 - 1]);
    assert ChildOfSome(g, ts[k + 1], c);
    var i :| 0 <= i < |ts[k + 1]| && ts[k + 1][i] in g && c in g[ts[k + 1][i]].children;
    var v := ts[k + 1][i];
    Representative(g, rank, refs, nodes, ts, rs, k + 1, v);
    p := Rep(refs, v);
    assert Rep(refs, c) in Signature(g, refs, v);
  }

  ghost predicate SameElements(a: seq<string>, b: seq<string>) {
    forall v :: v in a <==> v in b
  }

  /** A second merge, of the merged graph. */
  ghost predicate Again(nodes: Graph, rank: map<string, nat>, rs: seq<seq<string>>,
                        refs2: map<string, string>, nodes2: Graph, ts2: seq<seq<string>>, rs2: seq<seq<string>>)
  {
    && Outcome(MergedGraph(nodes, rs), rank, refs2, nodes2, ts2, rs2)
    && |ts2| == |rs| && |rs| > 0 && SameElements(ts2[|rs| - 1], rs[|rs| - 1])
  }

  /** Tier by tier, the second traversal visits exactly the survivors of the first merge. */
  lemma {:induction false} SameTiers(g: Graph, rank: map<string, nat>, refs: map<string, string>, nodes: Graph,
                                     ts: seq<seq<string>>, rs: seq<seq<string>>,
                  refs2: map<string, string>, nodes2: Graph, ts2: seq<seq<string>>, rs2: seq<seq<string>>, k: nat,
                    v: string)
    requires Outcome(g, rank, refs, nodes, ts, rs) && Again(nodes, rank, rs, refs2, nodes2, ts2, rs2) && k < |ts|
    ensures v in ts2[k] <==> v in rs[k]
    decreases |ts| - k
  {
    var m := MergedGraph(nodes, rs);
    if k + 1 < |ts| {
      assert NextTier(m, ts2[k + 1], ts2[k + 1 - 1]);
      if v in ts2[k] {
        assert ChildOfSome(m, ts2[k + 1], v);
        var i :| 0 <= i < |ts2[k + 1]| && ts2[k + 1][i] in m && v in m[ts2[k + 1][i]].children;
        SameTiers(g, rank, refs, nodes, ts, rs, refs2, nodes2, ts2, rs2, k + 1, ts2[k + 1][i]);
        ChildrenSurvive(g, rank, refs, nodes, ts, rs, k + 1, ts2[k + 1][i]);
      }
      if v in rs[k] {
        var p := ParentSurvives(g, rank, refs, nodes, ts, rs, k, v);
        SameTiers(g, rank, refs, nodes, ts, rs, refs2, nodes2, ts2, rs2, k + 1, p);
        SurvivorRank(g, rank, refs, nodes, ts, rs, k + 1, p);
        var i :| 0 <= i < |ts2[k + 1]| && ts2[k + 1][i] == p;
        assert ChildOfSome(m, ts2[k + 1], v);
      }
    }
  }

  /** With nothing merged below, a signature is the child set. */
  lemma PlainSignature(m: Graph, refs2: map<string, string>, v: string)
    requires v in m && forall c :: c in m[v].children ==> c !in refs2
    ensures Signature(m, refs2, v) == m[v].children
  {}

  /** The second merge merges nothing. */
  lemma {:induction false} NothingMerged(g: Graph, rank: map<string, nat>, refs: map<string, string>, nodes: Graph,
                                         ts: seq<seq<string>>, rs: seq<seq<string>>,
                      refs2: map<string, string>, nodes2: Graph, ts2: seq<seq<string>>, rs2: seq<seq<string>>, k: nat,
                        v: string)
    requires Outcome(g, rank, refs, nodes, ts, rs) && Again(nodes, rank, rs, refs2, nodes2, ts2, rs2) && k < |ts|
             && v in ts2[k]
    ensures v in rs2[k] && v !in refs2 && v in nodes2 && v in nodes && nodes2[v] == nodes[v]
    decreases k
  {
    var m := MergedGraph(nodes, rs);
    if k > 0 {
      forall x | x in ts2[k]
        ensures x in m && x in rs[k] && x in nodes && m[x] == nodes[x] && Signature(m, refs2, x) == m[x].children
      {
        PlainTier(g, rank, refs, nodes, ts, rs, refs2, nodes2, ts2, rs2, k, x);
        forall c | c in m[x].children ensures c !in refs2 {
          NothingMerged(g, rank, refs, nodes, ts, rs, refs2, nodes2, ts2, rs2, k - 1, c);
        }
        PlainSignature(m, refs2, x);
      }
      AllFirst(g, rank, refs, nodes, ts, rs, m, refs2, ts2[k], k, v);
      SurvivesPlain(m, refs2, nodes2, ts2[k], rs2[k], v);
    } else {
      SameTiers(g, rank, refs, nodes, ts, rs, refs2, nodes2, ts2, rs2, 0, v);
      SurvivorRank(g, rank, refs, nodes, ts, rs, 0, v);
      assert LeavesKept(m, refs2, nodes2, ts2[0]);
    }
  }

  lemma PlainTier(g: Graph, rank: map<string, nat>, refs: map<string, string>, nodes: Graph,
                  ts: seq<seq<string>>, rs: seq<seq<string>>,
                  refs2: map<string, string>, nodes2: Graph, ts2: seq<seq<string>>, rs2: seq<seq<string>>, k: nat,
                    x: string)
    requires Outcome(g, rank, refs, nodes, ts, rs) && Again(nodes, rank, rs, refs2, nodes2, ts2, rs2) && 0 < k < |ts|
             && x in ts2[k]
    ensures x in MergedGraph(nodes, rs) && x in rs[k] && x in nodes && MergedGraph(nodes, rs)[x] == nodes[x]
    ensures forall c :: c in nodes[x].children ==> c in ts2[k - 1]
  {
    SameTiers(g, rank, refs, nodes, ts, rs, refs2, nodes2, ts2, rs2, k, x);
    SurvivorRank(g, rank, refs, nodes, ts, rs, k, x);
    ChildrenSurvive(g, rank, refs, nodes, ts, rs, k, x);
    forall c | c in nodes[x].children ensures c in ts2[k - 1] {
      SameTiers(g, rank, refs, nodes, ts, rs, refs2, nodes2, ts2, rs2, k - 1, c);
    }
  }

  lemma AllFirst(g: Graph, rank: map<string, nat>, refs: map<string, string>, nodes: Graph,
                 ts: seq<seq<string>>, rs: seq<seq<string>>,
                 m: Graph, refs2: map<string, string>, layer: seq<string>, k: nat, v: string)
    requires Outcome(g, rank, refs, nodes, ts, rs) && 0 < k < |ts| && v in layer && AtRank(m, rank, layer, k)
    requires forall x :: x in layer ==>
               x in m && x in rs[k] && x in nodes && m[x] == nodes[x] && Signature(m, refs2, x) == m[x].children
    ensures exists j :: 0 <= j < |layer| && layer[j] == v && First(m, refs2, layer, j)
  {
    var j :| 0 <= j < |layer| && layer[j] == v;
    forall i | 0 <= i < j ensures Signature(m, refs2, layer[i]) != Signature(m, refs2, layer[j]) {
      assert layer[i] in layer;
      DistinctChildSets(g, rank, refs, nodes, ts, rs, k, layer[i], v);
    }
    assert First(m, refs2, layer, j);
  }

  lemma SurvivesPlain(m: Graph, refs2: map<string, string>, nodes2: Graph,
                      layer: seq<string>, result: seq<string>, v: string)
    requires TierMerged(m, refs2, nodes2, layer, result) && v in m && Signature(m, refs2, v) == m[v].children
    requires exists j :: 0 <= j < |layer| && layer[j] == v && First(m, refs2, layer, j)
    ensures v in result && v !in refs2 && v in nodes2 && nodes2[v] == m[v]
  {}

  lemma {:induction false} KeptAll(refs: map<string, string>, layer: seq<string>)
    requires forall i :: 0 <= i < |layer| ==> layer[i] !in refs
    ensures Kept(refs, layer) == layer
  {
    if layer != [] {
      KeptAll(refs, layer[..|layer| - 1]);
      assert layer == layer[..|layer| - 1] + [layer[|layer| - 1]];
    }
  }

  lemma {:induction false} KeptAscending(refs: map<string, string>, layer: seq<string>)
    requires Ascending(layer)
    ensures Ascending(Kept(refs, layer)) && forall v :: v in Kept(refs, layer) ==> v in layer
  {
    if layer != [] {
      var n := |layer| - 1;
      KeptAscending(refs, layer[..n]);
      forall v | v in Kept(refs, layer[..n]) ensures Less(v, layer[n]) {
        assert v in layer[..n];
      }
    }
  }

  /** Merging is idempotent: a second run keeps every survivor unchanged, and returns the same top tier in the same
      order. */
  lemma MergeIdempotent(g: Graph, rank: map<string, nat>, refs: map<string, string>, nodes: Graph,
                        ts: seq<seq<string>>, rs: seq<seq<string>>,
                        refs2: map<string, string>, nodes2: Graph, ts2: seq<seq<string>>, rs2: seq<seq<string>>)
    requires Outcome(g, rank, refs, nodes, ts, rs) && Again(nodes, rank, rs, refs2, nodes2, ts2, rs2)
    requires Ascending(ts[|ts| - 1]) && Ascending(ts2[|ts| - 1])
    ensures forall k, v :: 0 <= k < |ts| && v in rs[k] ==>
              v in rs2[k] && v !in refs2 && v in nodes && v in nodes2 && nodes2[v] == nodes[v]
    ensures forall k, v :: 0 <= k < |ts| && v in rs2[k] ==> v in rs[k]
    ensures rs2[|ts| - 1] == rs[|ts| - 1]
  {
    forall k, v | 0 <= k < |ts| && v in rs[k]
      ensures v in rs2[k] && v !in refs2 && v in nodes && v in nodes2 && nodes2[v] == nodes[v]
    {
      SameTiers(g, rank, refs, nodes, ts, rs, refs2, nodes2, ts2, rs2, k, v);
      NothingMerged(g, rank, refs, nodes, ts, rs, refs2, nodes2, ts2, rs2, k, v);
    }
    forall k, v | 0 <= k < |ts| && v in rs2[k] ensures v in rs[k] {
      Survivor(MergedGraph(nodes, rs), rank, refs2, nodes2, ts2, rs2, k, v);
      SameTiers(g, rank, refs, nodes, ts, rs, refs2, nodes2, ts2, rs2, k, v);
    }
    SameTop(refs, ts, rs, refs2, ts2, rs2, g, rank, nodes, nodes2);
  }

  lemma SameTop(refs: map<string, string>, ts: seq<seq<string>>, rs: seq<seq<string>>, refs2: map<string, string>,
                ts2: seq<seq<string>>, rs2: seq<seq<string>>,
                g: Graph, rank: map<string, nat>, nodes: Graph, nodes2: Graph)
    requires Outcome(g, rank, refs, nodes, ts, rs) && Again(nodes, rank, rs, refs2, nodes2, ts2, rs2)
    requires Ascending(ts[|ts| - 1]) && Ascending(ts2[|ts| - 1])
    ensures rs2[|ts| - 1] == rs[|ts| - 1]
  {
    var h := |ts| - 1;
    forall i | 0 <= i < |ts2[h]| ensures ts2[h][i] !in refs2 {
      NothingMerged(g, rank, refs, nodes, ts, rs, refs2, nodes2, ts2, rs2, h, ts2[h][i]);
    }
    KeptAll(refs2, ts2[h]);
    KeptAscending(refs, ts[h]);
    AscendingUnique(ts2[h], rs[h]);
  }
}

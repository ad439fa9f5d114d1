/** Merging the switches of one tier that share a child group: groups are connected components. */
module FabricGroups {
  import opened Lex
  import opened UnionFind

  /** Pairs (switch, child group). */
  type Pairs = set<(string, string)>

  ghost predicate Share(pairs: Pairs, x: string, y: string) {
    exists c :: (x, c) in pairs && (y, c) in pairs
  }

  ghost predicate Chain(pairs: Pairs, layer: set<string>, p: seq<string>) {
    && p != [] && (forall i :: 0 <= i < |p| ==> p[i] in layer)
    && forall i :: 0 < i < |p| ==> Share(pairs, p[i - 1], p[i])
  }

  /** The transitive closure of "shares a child group" within a tier. */
  ghost predicate Connected(pairs: Pairs, layer: set<string>, x: string, y: string) {
    exists p :: Chain(pairs, layer, p) && p[0] == x && p[|p| - 1] == y
  }

  ghost function Component(pairs: Pairs, layer: set<string>, x: string): set<string> {
    set y | y in layer && Connected(pairs, layer, x, y)
  }

  lemma ConnectedReflexive(pairs: Pairs, layer: set<string>, x: string)
    requires x in layer
    ensures Connected(pairs, layer, x, x)
  {
    assert Chain(pairs, layer, [x]) && [x][0] == x;
  }

  lemma ConnectedShare(pairs: Pairs, layer: set<string>, x: string, y: string)
    requires x in layer && y in layer && Share(pairs, x, y)
    ensures Connected(pairs, layer, x, y)
  {
    assert Chain(pairs, layer, [x, y]) && [x, y][0] == x;
  }

  lemma ConnectedSymmetric(pairs: Pairs, layer: set<string>, x: string, y: string)
    requires Connected(pairs, layer, x, y)
    ensures Connected(pairs, layer, y, x)
  {
    var p :| Chain(pairs, layer, p) && p[0] == x && p[|p| - 1] == y;
    var n := |p|;
    var q := seq(n, i requires 0 <= i < n => p[n - 1 - i]);
    forall i | 0 < i < n ensures Share(pairs, q[i - 1], q[i]) {
      assert Share(pairs, p[n - 1 - i], p[n - i]);
    }
    assert Chain(pairs, layer, q) && q[0] == y;
  }

  lemma ConnectedTransitive(pairs: Pairs, layer: set<string>, x: string, y: string, z: string)
    requires Connected(pairs, layer, x, y) && Connected(pairs, layer, y, z)
    ensures Connected(pairs, layer, x, z)
  {
    var p :| Chain(pairs, layer, p) && p[0] == x && p[|p| - 1] == y;
    var q :| Chain(pairs, layer, q) && q[0] == y && q[|q| - 1] == z;
    var r := p + q[1..];
    forall i | 0 < i < |r| ensures Share(pairs, r[i - 1], r[i]) {
      if i >= |p| { assert r[i] == q[i - |p| + 1] && r[i - 1] == q[i - |p|]; }
    }
    assert Chain(pairs, layer, r) && r[0] == x && r[|r| - 1] == z;
  }

  lemma ConnectedMonotone(pairs: Pairs, more: Pairs, layer: set<string>, x: string, y: string)
    requires pairs <= more && Connected(pairs, layer, x, y)
    ensures Connected(more, layer, x, y)
  {
    var p :| Chain(pairs, layer, p) && p[0] == x && p[|p| - 1] == y;
    forall i | 0 < i < |p| ensures Share(more, p[i - 1], p[i]) {
      assert Share(pairs, p[i - 1], p[i]);
    }
    assert Chain(more, layer, p);
  }

  /** Every pair seen so far leads to the class of the first switch recorded for its child. */
  ghost predicate Complete(root: Reps, children: map<string, string>, seen: Pairs) {
    && (forall s, c :: (s, c) in seen ==>
          s in root && c in children && children[c] in root && root[s] == root[children[c]])
    && (forall c :: c in children ==> (children[c], c) in seen)
  }

  /** Classes are never larger than the components. */
  ghost predicate Justified(root: Reps, seen: Pairs) {
    forall x, y :: x in root && y in root && root[x] == root[y] ==> Connected(seen, root.Keys, x, y)
  }

  lemma {:induction false} ChainHasOneRoot(root: Reps, children: map<string, string>, seen: Pairs, p: seq<string>)
    requires Complete(root, children, seen) && Chain(seen, root.Keys, p)
    ensures root[p[0]] == root[p[|p| - 1]]
    decreases |p|
  {
    var n := |p| - 1;
    if n > 0 {
      ChainHasOneRoot(root, children, seen, p[..n]);
      assert Share(seen, p[n - 1], p[n]);
    }
  }

  /** Once all pairs are seen, classes are exactly the components. */
  lemma ClassesAreComponents(root: Reps, children: map<string, string>, seen: Pairs, x: string, y: string)
    requires Complete(root, children, seen) && Justified(root, seen) && x in root && y in root
    ensures root[x] == root[y] <==> Connected(seen, root.Keys, x, y)
  {
    if Connected(seen, root.Keys, x, y) {
      var p :| Chain(seen, root.Keys, p) && p[0] == x && p[|p| - 1] == y;
      ChainHasOneRoot(root, children, seen, p);
    }
  }

  /** ... and each class is named by its smallest member. */
  lemma RootIsLeast(rep: Reps, root: Reps, children: map<string, string>, seen: Pairs, x: string)
    requires Forest(rep, root) && Complete(root, children, seen) && Justified(root, seen) && x in root
    ensures IsLeast(root[x], Component(seen, root.Keys, x))
  {
    assert NodeOk(rep, root, x);
    ClassesAreComponents(root, children, seen, x, root[x]);
    forall y | y in Component(seen, root.Keys, x) ensures AtMost(root[x], y) {
      ClassesAreComponents(root, children, seen, x, y);
      assert NodeOk(rep, root, y);
    }
  }

  lemma MergeJustified(root: Reps, seen: Pairs, id: string, prev: string, child: string)
    requires Justified(root, seen) && id in root && prev in root && (prev, child) in seen
    ensures Justified(MergeRoots(root, root[id], root[prev]), seen + {(id, child)})
  {
    var more, root' := seen + {(id, child)}, MergeRoots(root, root[id], root[prev]);
    assert root'.Keys == root.Keys;
    assert Share(more, id, prev) by { assert (id, child) in more && (prev, child) in more; }
    ConnectedShare(more, root.Keys, id, prev);
    forall x, y | x in root' && y in root' && root'[x] == root'[y] ensures Connected(more, root'.Keys, x, y) {
      MergePath(root, seen, more, id, prev, x, y);
    }
  }

  lemma SameClass(root: Reps, seen: Pairs, more: Pairs, x: string, y: string)
    requires Justified(root, seen) && seen <= more && x in root && y in root && root[x] == root[y]
    ensures Connected(more, root.Keys, x, y)
  {
    ConnectedMonotone(seen, more, root.Keys, x, y);
  }

  lemma MergePath(root: Reps, seen: Pairs, more: Pairs, id: string, prev: string, x: string, y: string)
    requires Justified(root, seen) && seen <= more && id in root && prev in root && x in root && y in root
    requires Connected(more, root.Keys, id, prev)
    requires MergeRoots(root, root[id], root[prev])[x] == MergeRoots(root, root[id], root[prev])[y]
    ensures Connected(more, root.Keys, x, y)
  {
    if root[x] == root[y] {
      SameClass(root, seen, more, x, y);
    } else {
      ConnectedSymmetric(more, root.Keys, id, prev);
      var u, v := if root[x] == root[id] then id else prev, if root[y] == root[id] then id else prev;
      SmallerIsOne(root[id], root[prev]);
      SameClass(root, seen, more, x, u);
      SameClass(root, seen, more, v, y);
      ConnectedTransitive(more, root.Keys, x, u, v);
      ConnectedTransitive(more, root.Keys, x, v, y);
    }
  }

  lemma SmallerIsOne(a: string, b: string)
    ensures Smaller(a, b) == a || Smaller(a, b) == b
  {}

  lemma MergeComplete(root: Reps, children: map<string, string>, seen: Pairs, id: string, child: string)
    requires Complete(root, children, seen) && id in root && child in children && children[child] in root
    ensures Complete(MergeRoots(root, root[id], root[children[child]]), children, seen + {(id, child)})
  {}

  lemma FirstComplete(root: Reps, children: map<string, string>, seen: Pairs, id: string, child: string)
    requires Complete(root, children, seen) && id in root && child !in children
    ensures Complete(root, children[child := id], seen + {(id, child)})
  {}

  lemma MoreJustified(root: Reps, seen: Pairs, more: Pairs)
    requires Justified(root, seen) && seen <= more
    ensures Justified(root, more)
  {
    forall x, y | x in root && y in root && root[x] == root[y] ensures Connected(more, root.Keys, x, y) {
      SameClass(root, seen, more, x, y);
    }
  }

  /** State of one tier's merge: the union-find and, per child group, the first switch seen above it. */
  class TierMerge {
    const part: Partition
    var children: map<string, string>
    ghost var seen: Pairs

    ghost predicate Valid()
      reads this, part
    {
      part.Valid() && Complete(part.root, children, seen) && Justified(part.root, seen)
    }

    constructor (layer: seq<string>)
      ensures Valid() && fresh(part) && seen == {} && children == map[]
      ensures forall x :: x in part.root <==> x in layer
    {
      part := new Partition(layer);
      children, seen := map[], {};
      new;
      forall x, y | x in part.root && y in part.root && part.root[x] == part.root[y]
        ensures Connected(seen, part.root.Keys, x, y)
      {
        ConnectedReflexive(seen, part.root.Keys, x);
      }
    }

    /** One (switch, child) observation: merge with the switch already above that child, or become the first. */
    method Visit(id: string, child: string)
      requires Valid() && id in part.root
      modifies this, part
      ensures Valid() && seen == old(seen) + {(id, child)} && part.root.Keys == old(part.root.Keys)
    {
      if child in children {
        var previous := children[child];
        MergeJustified(part.root, seen, id, previous, child);
        MergeComplete(part.root, children, seen, id, child);
        part.Union(id, previous);
      } else {
        FirstComplete(part.root, children, seen, id, child);
        MoreJustified(part.root, seen, seen + {(id, child)});
        children := children[child := id];
      }
      seen := seen + {(id, child)};
    }
  }
}

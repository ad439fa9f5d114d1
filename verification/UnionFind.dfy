/** The per-tier union-find of the fabric reduction, with path compression and smallest-ID roots. */
module UnionFind {
  import opened Lex

  type Reps = map<string, string>

  /** `root` is constant along representatives, ends at a fixed point, and never exceeds the element. */
  ghost predicate NodeOk(rep: Reps, root: Reps, x: string) {
    && x in rep && x in root
    && rep[x] in rep && AtMost(rep[x], x)
    && root[x] in rep && AtMost(root[x], x) && rep[root[x]] == root[x]
    && root[x] in root && root[root[x]] == root[x]
    && rep[x] in root && root[rep[x]] == root[x]
    && (rep[x] == x ==> root[x] == x)
  }

  ghost predicate Forest(rep: Reps, root: Reps) {
    rep.Keys == root.Keys && forall x {:trigger NodeOk(rep, root, x)} :: x in rep ==> NodeOk(rep, root, x)
  }

  ghost function Below(keys: set<string>, x: string): set<string> {
    set y | y in keys && Less(y, x)
  }

  lemma BelowShrinks(keys: set<string>, x: string, y: string)
    requires y in keys && Less(y, x)
    ensures Below(keys, y) < Below(keys, x)
  {
    forall z | z in Below(keys, y) ensures z in Below(keys, x) { LessTransitive(z, y, x); }
    if Less(y, y) { LessAsymmetric(y, y); }
    assert y in Below(keys, x);
  }

  /** Pointing an element straight at its root changes no class. */
  lemma Compress(rep: Reps, root: Reps, id: string)
    requires Forest(rep, root) && id in rep
    ensures id in root && Forest(rep[id := root[id]], root)
  {
    assert NodeOk(rep, root, id);
    var rep' := rep[id := root[id]];
    assert rep'.Keys == rep.Keys;
    forall x | x in rep' ensures NodeOk(rep', root, x) {
      assert NodeOk(rep, root, x);
    }
  }

  function Smaller(a: string, b: string): string {
    if Less(b, a) then b else a
  }

  function Larger(a: string, b: string): string {
    if Less(b, a) then a else b
  }

  lemma SmallerIsAtMost(a: string, b: string)
    ensures AtMost(Smaller(a, b), Larger(a, b))
  {
    LessTotal(a, b);
  }

  /** Roots after the classes of roots `a` and `b` become one. */
  ghost function MergeRoots(root: Reps, a: string, b: string): Reps {
    map x | x in root :: if root[x] == a || root[x] == b then Smaller(a, b) else root[x]
  }

  lemma LinkNode(rep: Reps, root: Reps, a: string, b: string, x: string)
    requires NodeOk(rep, root, a) && NodeOk(rep, root, b) && root[a] == a && root[b] == b && NodeOk(rep, root, x)
    ensures NodeOk(rep[Larger(a, b) := Smaller(a, b)], MergeRoots(root, a, b), x)
  {
    var lo, hi := Smaller(a, b), Larger(a, b);
    SmallerIsAtMost(a, b);
    if root[x] == hi && lo != hi && hi != x { LessTransitive(lo, hi, x); }
  }

  /** Linking the larger root under the smaller one merges exactly their two classes. */
  lemma Link(rep: Reps, root: Reps, a: string, b: string)
    requires Forest(rep, root) && a in rep && b in rep && root[a] == a && root[b] == b
    ensures Forest(rep[Larger(a, b) := Smaller(a, b)], MergeRoots(root, a, b))
  {
    assert NodeOk(rep, root, a) && NodeOk(rep, root, b);
    var rep', root' := rep[Larger(a, b) := Smaller(a, b)], MergeRoots(root, a, b);
    assert rep'.Keys == root'.Keys;
    forall x | x in rep' ensures NodeOk(rep', root', x) {
      assert NodeOk(rep, root, x);
      LinkNode(rep, root, a, b, x);
    }
  }

  class Partition {
    var rep: Reps
    ghost var root: Reps

    ghost predicate Valid()
      reads this
    {
      Forest(rep, root)
    }

    /** Every element starts as its own representative. */
    constructor (layer: seq<string>)
      ensures Valid() && (forall x :: x in root <==> x in layer) && forall x :: x in root ==> root[x] == x
    {
      rep := map x | x in layer :: x;
      root := map x | x in layer :: x;
    }

    /** find: returns the root and compresses the path; no class changes. */
    method Find(id: string) returns (r: string)
      requires Valid() && id in root
      modifies this`rep
      ensures Valid() && r == root[id]
      decreases Below(root.Keys, id)
    {
      assert NodeOk(rep, root, id);
      if rep[id] == id { return id; }
      BelowShrinks(root.Keys, id, rep[id]);
      r := Find(rep[id]);
      Compress(rep, root, id);
      rep := rep[id := r];
    }

    /** Merges the classes of two elements: the larger root goes under the smaller one. */
    method Union(x: string, y: string)
      requires Valid() && x in root && y in root
      modifies this
      ensures Valid() && root == MergeRoots(old(root), old(root)[x], old(root)[y])
    {
      var a := Find(x);
      var b := Find(y);
      assert NodeOk(rep, root, x) && NodeOk(rep, root, y);
      Link(rep, root, a, b);
      root := MergeRoots(root, a, b);
      if Less(b, a) { a, b := b, a; }
      rep := rep[b := a];
    }
  }
}

/** Which names end up in which group, and what a group's entry looks like. */
module NodeGroups {
  import opened Wrappers
  import opened Numerals
  import opened NodeList
  import opened NodeCompact
  import opened NodeRanges

  /** No bare name equals the prefix of a numbered one. */
  ghost predicate Apart(nodes: seq<string>) {
    forall a, b :: a in nodes && b in nodes && Numbered(a) && !Numbered(b) ==> b != Stem(a)
  }

  ghost predicate GoodName(name: string) {
    && name != "" && Plain(name) && !IsSpace(name[0]) && !IsSpace(name[|name| - 1])
    && (Numbered(name) ==> Value(Number(name)) <= MAX_INT)
  }

  /** All numbers after prefix `p` are padded to `w` digits. */
  ghost predicate Width(nodes: seq<string>, p: string, w: nat) {
    forall a :: a in nodes && Numbered(a) && Stem(a) == p ==> Number(a) == Pad(w, Value(Number(a)))
  }

  ghost predicate OneWidthAt(nodes: seq<string>, p: string) {
    exists w: nat :: Width(nodes, p, w)
  }

  /** Names the compact form can carry: distinct, without brackets, commas or edge whitespace, one zero-pad width per
      prefix, numbers that fit an int, and no bare name that is another name's prefix. */
  ghost predicate WellNamed(nodes: seq<string>) {
    && Distinct(nodes) && Apart(nodes)
    && (forall a :: a in nodes ==> GoodName(a))
    && (forall p {:trigger OneWidthAt(nodes, p)} :: OneWidthAt(nodes, p))
  }

  // ---------------------------------------------------------------- groups

  /** `x` is the number of a name with prefix `p`. */
  ghost predicate Member(nodes: seq<string>, p: string, x: string) {
    p + x in nodes && Numbered(p + x) && Stem(p + x) == p
  }

  ghost predicate GroupOk(nodes: seq<string>, groups: Groups, p: string) {
    p in groups ==>
      && (forall x :: x in groups[p] ==> Member(nodes, p, x)) && Distinct(groups[p])
      && (groups[p] == [] ==> p in nodes && !Numbered(p))
  }

  ghost predicate NodeOk(groups: Groups, node: string) {
    Key(node) in groups && if Numbered(node) then Number(node) in groups[Stem(node)] else groups[node] == []
  }

  ghost predicate GroupsOk(nodes: seq<string>, groups: Groups) {
    && (forall p {:trigger GroupOk(nodes, groups, p)} :: GroupOk(nodes, groups, p))
    && (forall a {:trigger NodeOk(groups, a)} :: a in nodes ==> NodeOk(groups, a))
  }

  lemma MemberNumber(nodes: seq<string>, p: string, x: string)
    requires Member(nodes, p, x)
    ensures Number(p + x) == x
  {
    assert (p + x)[|p|..] == x;
  }

  lemma MemberGrows(nodes: seq<string>, node: string, p: string, x: string)
    requires Member(nodes, p, x)
    ensures Member(nodes + [node], p, x)
  {}

  lemma AddNumbered(nodes: seq<string>, groups: Groups, node: string, p: string)
    requires GroupsOk(nodes, groups) && Numbered(node) && node !in nodes
    ensures GroupOk(nodes + [node], Grouped(groups, node), p)
  {
    assert GroupOk(nodes, groups, p);
    var all := nodes + [node];
    if p in groups {
      forall x | x in groups[p] ensures Member(all, p, x) { MemberGrows(nodes, node, p, x); }
    }
    if p == Stem(node) {
      NewNumber(nodes, groups, node);
      assert p + Number(node) == node && Member(all, p, Number(node));
    }
  }

  lemma NewNumber(nodes: seq<string>, groups: Groups, node: string)
    requires GroupOk(nodes, groups, Stem(node)) && Numbered(node) && node !in nodes
    ensures Distinct(Lookup(groups, Stem(node)) + [Number(node)])
  {
    var known := Lookup(groups, Stem(node));
    forall i | 0 <= i < |known| ensures known[i] != Number(node) {
      assert known[i] in known && Member(nodes, Stem(node), known[i]);
    }
  }

  lemma AddBare(nodes: seq<string>, groups: Groups, node: string, p: string)
    requires GroupsOk(nodes, groups) && !Numbered(node)
    ensures GroupOk(nodes + [node], Grouped(groups, node), p)
  {
    assert GroupOk(nodes, groups, p);
    if p in groups && p != node {
      forall x | x in groups[p] ensures Member(nodes + [node], p, x) { MemberGrows(nodes, node, p, x); }
    }
  }

  lemma KeepNode(groups: Groups, node: string, a: string)
    requires NodeOk(groups, a) && a != node
    requires Numbered(node) && !Numbered(a) ==> a != Stem(node)
    requires Numbered(a) && !Numbered(node) ==> node != Stem(a)
    ensures NodeOk(Grouped(groups, node), a)
  {}

  lemma NewNode(groups: Groups, node: string)
    ensures NodeOk(Grouped(groups, node), node)
  {
    if Numbered(node) {
      var nums := Grouped(groups, node)[Stem(node)];
      assert nums[|nums| - 1] == Number(node);
    }
  }

  lemma {:induction false} GroupsHold(nodes: seq<string>)
    requires Distinct(nodes) && Apart(nodes)
    ensures GroupsOk(nodes, GroupsOf(nodes))
  {
    if nodes != [] {
      var n := |nodes| - 1;
      var before, node := nodes[..n], nodes[n];
      assert nodes == before + [node];
      assert forall a :: a in before ==> a in nodes;
      assert node in nodes && node !in before;
      GroupsHold(before);
      var groups := GroupsOf(before);
      forall p ensures GroupOk(nodes, Grouped(groups, node), p) {
        if Numbered(node) { AddNumbered(before, groups, node, p); } else { AddBare(before, groups, node, p); }
      }
      forall a | a in nodes ensures NodeOk(Grouped(groups, node), a) {
        if a == node {
          NewNode(groups, node);
        } else {
          assert a in before && NodeOk(groups, a);
          KeepNode(groups, node, a);
        }
      }
    }
  }

  // ---------------------------------------------------------------- the sorted numbers of a group

  lemma SameMultiset(a: seq<string>, b: seq<string>)
    requires multiset(a) == multiset(b)
    ensures |a| == |b| && forall x :: x in a <==> x in b
  {
    assert |a| == |multiset(a)| && |b| == |multiset(b)|;
    forall x ensures x in a <==> x in b { assert x in multiset(a) <==> x in multiset(b); }
  }

  lemma {:induction false} DistinctCount(a: seq<string>, x: string)
    requires Distinct(a)
    ensures multiset(a)[x] == if x in a then 1 else 0
  {
    if a != [] {
      var n := |a| - 1;
      assert a == a[..n] + [a[n]];
      DistinctCount(a[..n], x);
    }
  }

  lemma CountTwice(b: seq<string>, i: nat, j: nat)
    requires i < j < |b|
    ensures b[i] == b[j] ==> multiset(b)[b[i]] >= 2
  {
    if b[i] == b[j] {
      assert b == b[..j] + [b[j]] + b[j + 1..];
      assert b[..j][i] == b[i];
      assert b[i] in multiset(b[..j]);
    }
  }

  lemma DistinctPermutation(a: seq<string>, b: seq<string>)
    requires Distinct(a) && multiset(a) == multiset(b)
    ensures Distinct(b)
  {
    forall i, j | 0 <= i < j < |b| ensures b[i] != b[j] {
      CountTwice(b, i, j);
      DistinctCount(a, b[i]);
    }
  }

  /** The sorted numbers of a group have one width and rise strictly. */
  ghost predicate GroupNumbers(p: string, w: nat, nums: seq<string>) {
    NumeralList(nums) && Uniform(w, nums) && Rising(nums)
  }

  lemma MemberWidth(nodes: seq<string>, p: string, w: nat, x: string)
    requires WellNamed(nodes) && Width(nodes, p, w) && Member(nodes, p, x)
    ensures OneWidth(w, x)
  {
    MemberNumber(nodes, p, x);
    assert GoodName(p + x);
  }

  lemma SortedGroup(nodes: seq<string>, p: string, w: nat, nums: seq<string>, sorted: seq<string>)
    requires WellNamed(nodes) && Width(nodes, p, w) && SortedOf(nums, sorted) && Distinct(nums)
    requires forall x :: x in nums ==> Member(nodes, p, x)
    ensures GroupNumbers(p, w, sorted)
  {
    SameMultiset(nums, sorted);
    DistinctPermutation(nums, sorted);
    forall i | 0 <= i < |sorted| ensures OneWidth(w, sorted[i]) {
      assert sorted[i] in sorted && sorted[i] in nums;
      MemberWidth(nodes, p, w, sorted[i]);
    }
    SortedRises(w, sorted);
  }

  lemma SortedRises(w: nat, sorted: seq<string>)
    requires NumeralList(sorted) && ByInt(sorted) && Uniform(w, sorted) && Distinct(sorted)
    ensures Rising(sorted)
  {
    forall i, j | 0 <= i < j < |sorted| ensures Value(sorted[i]) < Value(sorted[j]) {
      assert OneWidth(w, sorted[i]) && OneWidth(w, sorted[j]) && sorted[i] != sorted[j];
      DifferentValues(w, sorted[i], sorted[j]);
    }
  }

  lemma DifferentValues(w: nat, s: string, t: string)
    requires OneWidth(w, s) && OneWidth(w, t) && s != t
    ensures IntOf(s) == Value(s) != Value(t) == IntOf(t)
  {
    IntIsValue(s);
    IntIsValue(t);
  }
}

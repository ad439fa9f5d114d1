/** hierarchy: reducing a layered fabric to a tree, tier by tier, and walking up from a host. */
module Hierarchy {
  import opened Wrappers
  import opened Lex
  import opened Fabric
  import opened FabricTiers
  import opened UnionFind
  import opened FabricGroups

  type Groups = map<string, string>

  /** Go's map lookup: the empty string when the key is absent. */
  function Lookup(m: map<string, string>, k: string): string {
    if k in m then m[k] else ""
  }

  /** What tier `d` may have below it: hosts for the bottom tier, the tier underneath otherwise. */
  ghost predicate Lower(inv: Inventory, d: nat, p: string) {
    if d == 0 then p in inv.hosts else p in Level(inv, d - 1)
  }

  /** (switch, child group) for the given switches of tier `d`. */
  ghost function TierPairs(inv: Inventory, groups: Groups, d: nat, ids: set<string>): Pairs {
    set x, p | x in ids && p in Adjacent(inv, x) && Lower(inv, d, p) :: (x, Lookup(groups, p))
  }

  ghost function AllPairs(inv: Inventory, groups: Groups, d: nat): Pairs {
    TierPairs(inv, groups, d, Level(inv, d))
  }

  /** Tier `d` is grouped into the connected components of "shares a child group", named by their smallest ID. */
  ghost predicate Grouped(inv: Inventory, groups: Groups, d: nat) {
    forall s {:trigger groups[s]} {:trigger s in groups} :: s in Level(inv, d) ==>
      s in groups && IsLeast(groups[s], Component(AllPairs(inv, groups, d), Level(inv, d), s))
  }

  /** The groups of everything below tier `n` are in place, and nothing else is grouped. */
  ghost predicate GroupedBelow(inv: Inventory, groups: Groups, n: nat) {
    && (forall h :: h in inv.hosts ==> h in groups && groups[h] == h)
    && (forall d: nat :: d < n ==> Grouped(inv, groups, d))
    && (forall s :: s in groups ==> s in inv.hosts || InLevelBelow(inv, n, s))
  }

  ghost predicate InLevelBelow(inv: Inventory, n: nat, s: string) {
    exists d: nat :: d < n && s in Level(inv, d)
  }

  /** Each child group of the tiers below `n` has the group above it as parent. */
  ghost predicate ParentsSet(inv: Inventory, groups: Groups, parents: Groups, n: nat) {
    forall d: nat, s, c :: d < n && (s, c) in AllPairs(inv, groups, d) ==>
      c in parents && s in groups && parents[c] == groups[s]
  }

  /** Nothing else has a parent. */
  ghost predicate ParentsOnly(inv: Inventory, groups: Groups, parents: Groups, n: nat) {
    forall c :: c in parents ==> ChildBelow(inv, groups, n, c)
  }

  ghost predicate Parented(inv: Inventory, groups: Groups, parents: Groups, n: nat) {
    ParentsSet(inv, groups, parents, n) && ParentsOnly(inv, groups, parents, n)
  }

  ghost predicate ChildBelow(inv: Inventory, groups: Groups, n: nat, c: string) {
    exists d: nat, s :: d < n && (s, c) in AllPairs(inv, groups, d)
  }

  ghost predicate Reduced(inv: Inventory, groups: Groups, parents: Groups, n: nat) {
    GroupedBelow(inv, groups, n) && Parented(inv, groups, parents, n)
  }

  // ---------------------------------------------------------------- pairs

  lemma GroupInLevel(inv: Inventory, groups: Groups, d: nat, s: string)
    requires Grouped(inv, groups, d) && s in Level(inv, d)
    ensures s in groups && groups[s] in Level(inv, d)
  {}

  lemma PairsFrame(inv: Inventory, groups: Groups, groups': Groups, d: nat)
    requires forall p :: Lower(inv, d, p) ==> Lookup(groups, p) == Lookup(groups', p)
    ensures AllPairs(inv, groups, d) == AllPairs(inv, groups', d)
  {}

  /** Grouping one more tier leaves the pairs of that tier and of all lower tiers alone. */
  lemma PairsStable(inv: Inventory, groups: Groups, groups': Groups, d: nat, n: nat)
    requires Valid(inv) && d <= n
    requires forall s :: s !in Level(inv, n) ==> Lookup(groups', s) == Lookup(groups, s)
    ensures AllPairs(inv, groups, d) == AllPairs(inv, groups', d)
  {
    forall p | Lower(inv, d, p) ensures Lookup(groups, p) == Lookup(groups', p) {
      if p in Level(inv, n) { LevelNotLower(inv, d, n, p); }
    }
    PairsFrame(inv, groups, groups', d);
  }

  lemma LevelNotLower(inv: Inventory, d: nat, n: nat, p: string)
    requires Valid(inv) && d <= n && p in Level(inv, n)
    ensures !Lower(inv, d, p)
  {
    BallsAreSwitches(inv, n);
    if d > 0 && p in Level(inv, d - 1) { LevelsDisjoint(inv, d - 1, n, p); }
  }

  // ---------------------------------------------------------------- one tier

  lemma TierOf(inv: Inventory, depth: Depths, d: nat, p: string)
    requires p in depth && p in Level(inv, depth[p])
    ensures depth[p] == d <==> p in Level(inv, d)
  {
    if p in Level(inv, d) { LevelsDisjoint(inv, d, depth[p], p); }
  }

  /** The source's skip conditions: keep hosts at the bottom tier, otherwise switches one tier down. */
  predicate Selected(inv: Inventory, depth: Depths, level: nat, peer: string) {
    if peer in inv.hosts then level == 0 else (if peer in depth then depth[peer] else 0) == level - 1
  }

  lemma PeerIsRecorded(inv: Inventory, depth: Depths, level: nat, id: string, peer: string)
    requires Valid(inv) && Sound(inv, depth) && id in Level(inv, level) && peer in Adjacent(inv, id)
    requires Ball(inv, level + 1) <= depth.Keys
    ensures peer in inv.hosts || (peer in depth && peer in Level(inv, depth[peer]))
  {
    assert LinkOk(inv, id, peer);
    if peer in inv.switches { NeighbourInBall(inv, level, id, peer); }
  }

  lemma HostsHaveNoTier(inv: Inventory, d: nat, h: string)
    requires Valid(inv) && h in inv.hosts
    ensures h !in Level(inv, d)
  {
    BallsAreSwitches(inv, d);
  }

  lemma SelectsLower(inv: Inventory, depth: Depths, level: nat, peer: string)
    requires Valid(inv) && (peer in inv.hosts || (peer in depth && peer in Level(inv, depth[peer])))
    ensures Selected(inv, depth, level, peer) <==> Lower(inv, level, peer)
  {
    if peer in inv.hosts {
      if level > 0 { HostsHaveNoTier(inv, level - 1, peer); }
    } else if level > 0 {
      TierOf(inv, depth, level - 1, peer);
    }
  }

  ghost function PeerPairs(inv: Inventory, groups: Groups, d: nat, id: string, peers: set<string>): Pairs {
    set p | p in peers && Lower(inv, d, p) :: (id, Lookup(groups, p))
  }

  lemma TierPairsStep(inv: Inventory, groups: Groups, d: nat, ids: set<string>, id: string)
    ensures TierPairs(inv, groups, d, ids + {id}) ==
            TierPairs(inv, groups, d, ids) + PeerPairs(inv, groups, d, id, Adjacent(inv, id))
  {}

  lemma PeerPairsStep(inv: Inventory, groups: Groups, d: nat, id: string, peers: set<string>, p: string)
    ensures PeerPairs(inv, groups, d, id, peers + {p}) ==
            PeerPairs(inv, groups, d, id, peers) + PeerPairs(inv, groups, d, id, {p})
  {}

  lemma OnePeerPair(inv: Inventory, groups: Groups, d: nat, id: string, p: string)
    ensures PeerPairs(inv, groups, d, id, {p}) == if Lower(inv, d, p) then {(id, Lookup(groups, p))} else {}
  {}

  method VisitPeer(inv: Inventory, depth: Depths, level: nat, id: string, peer: string, groups: Groups, tm: TierMerge)
    requires Valid(inv) && Sound(inv, depth) && Ball(inv, level + 1) <= depth.Keys && id in Level(inv, level)
    requires peer in Adjacent(inv, id) && tm.Valid() && id in tm.part.root
    modifies tm, tm.part
    ensures tm.Valid() && tm.part.root.Keys == old(tm.part.root.Keys)
    ensures tm.seen == old(tm.seen) + PeerPairs(inv, groups, level, id, {peer})
  {
    PeerIsRecorded(inv, depth, level, id, peer);
    SelectsLower(inv, depth, level, peer);
    OnePeerPair(inv, groups, level, id, peer);
    if peer !in inv.hosts && (if peer in depth then depth[peer] else 0) != level - 1 { return; }
    if peer in inv.hosts && level != 0 { return; }
    tm.Visit(id, Lookup(groups, peer));
  }

  lemma NoPeerPairs(inv: Inventory, groups: Groups, d: nat, id: string, seen: Pairs)
    ensures seen + PeerPairs(inv, groups, d, id, {}) == seen
  {}

  lemma PeerPairsNext(inv: Inventory, groups: Groups, d: nat, id: string, peers: set<string>, p: string, seen: Pairs)
    ensures seen + PeerPairs(inv, groups, d, id, peers) + PeerPairs(inv, groups, d, id, {p}) ==
            seen + PeerPairs(inv, groups, d, id, peers + {p})
  {
    PeerPairsStep(inv, groups, d, id, peers, p);
  }

  /** The neighbour loop of one switch, in any order. */
  method VisitSwitch(inv: Inventory, depth: Depths, level: nat, id: string, groups: Groups, tm: TierMerge)
    requires Valid(inv) && Sound(inv, depth) && Ball(inv, level + 1) <= depth.Keys && id in Level(inv, level)
    requires tm.Valid() && id in tm.part.root
    modifies tm, tm.part
    ensures tm.Valid() && tm.part.root.Keys == old(tm.part.root.Keys)
    ensures tm.seen == old(tm.seen) + PeerPairs(inv, groups, level, id, Adjacent(inv, id))
  {
    ghost var all := Adjacent(inv, id);
    var todo := Adjacent(inv, id);
    NoPeerPairs(inv, groups, level, id, tm.seen);
    assert all - todo == {};
    while todo != {}
      invariant tm.Valid() && tm.part.root.Keys == old(tm.part.root.Keys) && todo <= all
      invariant tm.seen == old(tm.seen) + PeerPairs(inv, groups, level, id, all - todo)
      decreases |todo|
    {
      var peer :| peer in todo;
      Advance(all, todo, peer);
      VisitPeer(inv, depth, level, id, peer, groups, tm);
      PeerPairsNext(inv, groups, level, id, all - todo, peer, old(tm.seen));
      todo := todo - {peer};
    }
    assert all - todo == all;
  }

  ghost function Visited(layer: seq<string>, i: nat): set<string>
    requires i <= |layer|
  {
    set x | x in layer[..i]
  }

  lemma VisitedStep(layer: seq<string>, i: nat)
    requires i < |layer|
    ensures Visited(layer, i + 1) == Visited(layer, i) + {layer[i]}
  {
    assert layer[..i + 1] == layer[..i] + [layer[i]];
  }

  lemma VisitedAll(inv: Inventory, level: nat, layer: seq<string>)
    requires IsTier(inv, level, layer)
    ensures Visited(layer, |layer|) == Level(inv, level)
  {
    assert layer[..|layer|] == layer;
  }

  method VisitLayer(inv: Inventory, depth: Depths, level: nat, layer: seq<string>, groups: Groups)
      returns (tm: TierMerge)
    requires Valid(inv) && Sound(inv, depth) && Ball(inv, level + 1) <= depth.Keys && IsTier(inv, level, layer)
    ensures fresh(tm) && fresh(tm.part) && tm.Valid()
    ensures tm.part.root.Keys == Level(inv, level) && tm.seen == AllPairs(inv, groups, level)
  {
    tm := new TierMerge(layer);
    assert tm.part.root.Keys == Level(inv, level);
    for i := 0 to |layer|
      invariant fresh(tm) && fresh(tm.part) && tm.Valid() && tm.part.root.Keys == Level(inv, level)
      invariant tm.seen == TierPairs(inv, groups, level, Visited(layer, i))
    {
      assert layer[i] in layer;
      VisitSwitch(inv, depth, level, layer[i], groups, tm);
      VisitedStep(layer, i);
      TierPairsStep(inv, groups, level, Visited(layer, i), layer[i]);
    }
    VisitedAll(inv, level, layer);
  }

  /** `m'` is `m` with the keys of `root` set to their roots. */
  ghost predicate Overlaid(m: Groups, root: Groups, keys: set<string>, m': Groups) {
    m'.Keys == m.Keys + keys && forall x :: x in m' ==> m'[x] == Lookup(if x in keys then root else m, x)
  }

  lemma OverlayOne(m: Groups, root: Groups, keys: set<string>, m': Groups, x: string)
    requires Overlaid(m, root, keys, m') && x in root
    ensures Overlaid(m, root, keys + {x}, m'[x := root[x]])
  {}

  method PublishGroups(part: Partition, layer: seq<string>, groups: Groups) returns (groups': Groups)
    requires part.Valid() && forall x :: x in layer <==> x in part.root
    modifies part`rep
    ensures part.Valid() && Overlaid(groups, part.root, part.root.Keys, groups')
  {
    groups' := groups;
    ghost var done: set<string> := {};
    for i := 0 to |layer|
      invariant part.Valid() && (forall x :: x in done <==> x in layer[..i])
      invariant Overlaid(groups, part.root, done, groups')
    {
      assert layer[i] in layer;
      OverlayOne(groups, part.root, done, groups', layer[i]);
      var r := part.Find(layer[i]);
      groups', done := groups'[layer[i] := r], done + {layer[i]};
    }
    assert done == part.root.Keys;
  }

  /** The root above each recorded child. */
  ghost function Above(children: map<string, string>, root: Groups): Groups {
    map c | c in children :: Lookup(root, children[c])
  }

  method PublishParent(part: Partition, child: string, sw: string, ghost parents: Groups, before: Groups,
                       ghost above: Groups, ghost done: set<string>)
      returns (parents': Groups)
    requires part.Valid() && sw in part.root && child in above && above[child] == part.root[sw]
             && Overlaid(parents, above, done, before)
    modifies part`rep
    ensures part.Valid() && Overlaid(parents, above, done + {child}, parents')
  {
    OverlayOne(parents, above, done, before, child);
    var r := part.Find(sw);
    parents' := before[child := r];
  }

  method PublishParents(part: Partition, children: map<string, string>, parents: Groups, ghost above: Groups)
      returns (parents': Groups)
    requires part.Valid() && above.Keys == children.Keys
    requires forall c :: c in children ==> children[c] in part.root && above[c] == part.root[children[c]]
    modifies part`rep
    ensures part.Valid() && Overlaid(parents, above, children.Keys, parents')
  {
    parents' := parents;
    var todo := children.Keys;
    while todo != {}
      invariant part.Valid() && todo <= children.Keys
      invariant Overlaid(parents, above, children.Keys - todo, parents')
      decreases |todo|
    {
      var child :| child in todo;
      Advance(children.Keys, todo, child);
      parents' := PublishParent(part, child, children[child], parents, parents', above, children.Keys - todo);
      todo := todo - {child};
    }
    assert children.Keys - todo == children.Keys;
  }

  // ---------------------------------------------------------------- tiers combine

  lemma OverlayKeeps(m: Groups, root: Groups, keys: set<string>, m': Groups, x: string)
    requires Overlaid(m, root, keys, m') && x !in keys
    ensures Lookup(m', x) == Lookup(m, x) && (x in m' <==> x in m)
  {}

  /** The new tier is grouped and the old ones stay grouped. */
  lemma GroupsExtend(inv: Inventory, groups: Groups, root: Groups, groups': Groups, n: nat)
    requires Valid(inv) && GroupedBelow(inv, groups, n)
    requires root.Keys == Level(inv, n) && Overlaid(groups, root, root.Keys, groups')
    requires forall s :: s in root ==> IsLeast(root[s], Component(AllPairs(inv, groups, n), Level(inv, n), s))
    ensures GroupedBelow(inv, groups', n + 1)
    ensures forall d: nat :: d <= n ==> AllPairs(inv, groups', d) == AllPairs(inv, groups, d)
  {
    forall d: nat | d <= n ensures AllPairs(inv, groups', d) == AllPairs(inv, groups, d) {
      PairsStable(inv, groups, groups', d, n);
    }
    forall d: nat | d < n + 1 ensures Grouped(inv, groups', d) {
      TierGrouped(inv, groups, root, groups', d, n);
    }
    forall h | h in inv.hosts
      ensures h in groups' && groups'[h] == h
    {
      HostGroupKept(inv, groups, root, groups', n, h);
    }
    forall s | s in groups'
      ensures s in inv.hosts || InLevelBelow(inv, n + 1, s)
    {
      GroupKeyKnown(inv, groups, root, groups', n, s);
    }
  }

  lemma TierGrouped(inv: Inventory, groups: Groups, root: Groups, groups': Groups, d: nat, n: nat)
    requires d <= n && (d < n ==> Grouped(inv, groups, d)) && AllPairs(inv, groups', d) == AllPairs(inv, groups, d)
    requires root.Keys == Level(inv, n) && Overlaid(groups, root, root.Keys, groups')
    requires forall s :: s in root ==> IsLeast(root[s], Component(AllPairs(inv, groups, n), Level(inv, n), s))
    ensures Grouped(inv, groups', d)
  {
    if d == n {
      NewTierGrouped(inv, groups, root, groups', n);
    } else {
      OldTierGrouped(inv, groups, root, groups', d, n);
    }
  }

  lemma HostGroupKept(inv: Inventory, groups: Groups, root: Groups, groups': Groups, n: nat, h: string)
    requires Valid(inv) && GroupedBelow(inv, groups, n) && root.Keys == Level(inv, n)
             && Overlaid(groups, root, root.Keys, groups') && h in inv.hosts
    ensures h in groups' && groups'[h] == h
  {
    HostsHaveNoTier(inv, n, h);
  }

  lemma GroupKeyKnown(inv: Inventory, groups: Groups, root: Groups, groups': Groups, n: nat, s: string)
    requires GroupedBelow(inv, groups, n) && root.Keys == Level(inv, n) && Overlaid(groups, root, root.Keys, groups')
             && s in groups'
    ensures s in inv.hosts || InLevelBelow(inv, n + 1, s)
  {
    if s in root {
      assert n < n + 1 && s in Level(inv, n);
    } else if s !in inv.hosts {
      var d: nat :| d < n && s in Level(inv, d);
      assert d < n + 1;
    }
  }

  lemma NewTierGrouped(inv: Inventory, groups: Groups, root: Groups, groups': Groups, n: nat)
    requires root.Keys == Level(inv, n) && Overlaid(groups, root, root.Keys, groups')
    requires AllPairs(inv, groups', n) == AllPairs(inv, groups, n)
    requires forall s :: s in root ==> IsLeast(root[s], Component(AllPairs(inv, groups, n), Level(inv, n), s))
    ensures Grouped(inv, groups', n)
  {}

  lemma OldTierGrouped(inv: Inventory, groups: Groups, root: Groups, groups': Groups, d: nat, n: nat)
    requires root.Keys == Level(inv, n) && Overlaid(groups, root, root.Keys, groups') && d < n
    requires AllPairs(inv, groups', d) == AllPairs(inv, groups, d) && Grouped(inv, groups, d)
    ensures Grouped(inv, groups', d)
  {
    forall s | s in Level(inv, d) ensures s in groups' && groups'[s] == groups[s] {
      if s in Level(inv, n) { LevelsDisjoint(inv, d, n, s); }
    }
  }

  lemma GroupedBelowLess(inv: Inventory, groups: Groups, n: nat, d: nat, s: string, c: string)
    requires GroupedBelow(inv, groups, n) && d <= n && (s, c) in AllPairs(inv, groups, d)
    ensures s in Level(inv, d) && Lower(inv, d, c)
  {
    var p :| p in Adjacent(inv, s) && Lower(inv, d, p) && c == Lookup(groups, p);
    if d > 0 {
      var e: nat := d - 1;
      assert Grouped(inv, groups, e);
      GroupInLevel(inv, groups, e, p);
    }
  }

  lemma LowerOnce(inv: Inventory, d: nat, n: nat, c: string)
    requires Valid(inv) && Lower(inv, d, c) && Lower(inv, n, c)
    ensures d == n
  {
    if d > 0 && n > 0 {
      LevelsDisjoint(inv, d - 1, n - 1, c);
    } else if d > 0 {
      BallsAreSwitches(inv, d - 1);
    } else if n > 0 {
      BallsAreSwitches(inv, n - 1);
    }
  }

  /** A child of a lower tier is not a child of the new tier. */
  lemma OldChild(inv: Inventory, groups: Groups, n: nat, d: nat, s: string, s': string, c: string)
    requires Valid(inv) && GroupedBelow(inv, groups, n) && d < n
    requires (s, c) in AllPairs(inv, groups, d)
    ensures (s', c) !in AllPairs(inv, groups, n)
  {
    GroupedBelowLess(inv, groups, n, d, s, c);
    if (s', c) in AllPairs(inv, groups, n) {
      GroupedBelowLess(inv, groups, n, n, s', c);
      LowerOnce(inv, d, n, c);
    }
  }

  lemma OldParent(inv: Inventory, groups: Groups, groups': Groups, parents: Groups, parents': Groups, n: nat, d: nat,
                  s: string, c: string)
    requires d < n && (s, c) in AllPairs(inv, groups, d) && s in Level(inv, d)
    requires ParentsSet(inv, groups, parents, n)
    requires s !in Level(inv, n) ==> Lookup(groups', s) == Lookup(groups, s) && (s in groups' <==> s in groups)
    requires Lookup(parents', c) == Lookup(parents, c) && (c in parents' <==> c in parents)
    ensures c in parents' && s in groups' && parents'[c] == groups'[s]
  {
    if s in Level(inv, n) { LevelsDisjoint(inv, d, n, s); }
  }

  lemma NewParent(root: Groups, children: map<string, string>, seen: Pairs, groups: Groups, groups': Groups,
                  parents: Groups, parents': Groups, s: string, c: string)
    requires Complete(root, children, seen) && (s, c) in seen
    requires Overlaid(groups, root, root.Keys, groups')
             && Overlaid(parents, Above(children, root), children.Keys, parents')
    ensures c in parents' && s in groups' && parents'[c] == groups'[s]
  {}

  /** Everything the publishing step relies on, for tier `n`. */
  ghost predicate TierDone(inv: Inventory, groups: Groups, root: Groups, children: map<string, string>, n: nat) {
    && root.Keys == Level(inv, n) && Complete(root, children, AllPairs(inv, groups, n))
    && forall s :: s in root ==> IsLeast(root[s], Component(AllPairs(inv, groups, n), Level(inv, n), s))
  }

  lemma OldParentAt(inv: Inventory, groups: Groups, groups': Groups, parents: Groups, parents': Groups,
                    root: Groups, above: Groups, n: nat, d: nat, s: string, c: string)
    requires ParentsSet(inv, groups, parents, n) && d < n && (s, c) in AllPairs(inv, groups, d) && s in Level(inv, d)
    requires root.Keys == Level(inv, n) && Overlaid(groups, root, root.Keys, groups')
    requires c !in above && Overlaid(parents, above, above.Keys, parents')
    ensures c in parents' && s in groups' && parents'[c] == groups'[s]
  {
    OverlayKeeps(parents, above, above.Keys, parents', c);
    if s !in root { OverlayKeeps(groups, root, root.Keys, groups', s); }
    OldParent(inv, groups, groups', parents, parents', n, d, s, c);
  }

  lemma NotAChildOfTop(inv: Inventory, groups: Groups, root: Groups, children: map<string, string>, n: nat, d: nat,
                       s: string, c: string)
    requires Valid(inv) && GroupedBelow(inv, groups, n) && Complete(root, children, AllPairs(inv, groups, n))
    requires d < n && (s, c) in AllPairs(inv, groups, d)
    ensures c !in children && s in Level(inv, d)
  {
    GroupedBelowLess(inv, groups, n, d, s, c);
    if c in children { OldChild(inv, groups, n, d, s, children[c], c); }
  }

  lemma ChildAt(inv: Inventory, groups: Groups, parents: Groups, parents': Groups, root: Groups,
                children: map<string, string>, n: nat, c: string)
    requires Parented(inv, groups, parents, n) && Complete(root, children, AllPairs(inv, groups, n))
    requires Overlaid(parents, Above(children, root), children.Keys, parents') && c in parents'
    ensures ChildBelow(inv, groups, n + 1, c)
  {
    if c in children {
      assert n < n + 1 && (children[c], c) in AllPairs(inv, groups, n);
    } else {
      assert ChildBelow(inv, groups, n, c);
      var d: nat, s :| d < n && (s, c) in AllPairs(inv, groups, d);
      assert d < n + 1;
    }
  }

  lemma ChildBelowFrame(inv: Inventory, groups: Groups, groups': Groups, n: nat, c: string)
    requires ChildBelow(inv, groups, n, c) && forall d: nat :: d < n ==>
               AllPairs(inv, groups', d) == AllPairs(inv, groups, d)
    ensures ChildBelow(inv, groups', n, c)
  {
    var d: nat, s :| d < n && (s, c) in AllPairs(inv, groups, d);
    assert (s, c) in AllPairs(inv, groups', d);
  }

  /** Parents recorded for lower tiers survive publishing tier `n`. */
  lemma OldParents(inv: Inventory, groups: Groups, groups': Groups, parents: Groups, parents': Groups,
                   root: Groups, children: map<string, string>, n: nat, d: nat)
    requires Valid(inv) && GroupedBelow(inv, groups, n) && ParentsSet(inv, groups, parents, n)
             && root.Keys == Level(inv, n)
    requires Complete(root, children, AllPairs(inv, groups, n)) && d < n
    requires Overlaid(groups, root, root.Keys, groups')
             && Overlaid(parents, Above(children, root), children.Keys, parents')
    ensures TierParents(AllPairs(inv, groups, d), groups', parents')
  {
    var above := Above(children, root);
    assert above.Keys == children.Keys;
    forall s, c | (s, c) in AllPairs(inv, groups, d)
      ensures c in parents' && s in groups' && parents'[c] == groups'[s]
    {
      NotAChildOfTop(inv, groups, root, children, n, d, s, c);
      OldParentAt(inv, groups, groups', parents, parents', root, above, n, d, s, c);
    }
  }

  ghost predicate TierParents(pairs: Pairs, groups: Groups, parents: Groups) {
    forall s, c :: (s, c) in pairs ==> c in parents && s in groups && parents[c] == groups[s]
  }

  lemma NewParents(root: Groups, children: map<string, string>, seen: Pairs, groups: Groups, groups': Groups,
                   parents: Groups, parents': Groups)
    requires Complete(root, children, seen)
    requires Overlaid(groups, root, root.Keys, groups')
             && Overlaid(parents, Above(children, root), children.Keys, parents')
    ensures TierParents(seen, groups', parents')
  {
    forall s, c | (s, c) in seen ensures c in parents' && s in groups' && parents'[c] == groups'[s] {
      NewParent(root, children, seen, groups, groups', parents, parents', s, c);
    }
  }

  lemma ParentsByTier(inv: Inventory, groups: Groups, parents: Groups, n: nat)
    requires forall d: nat :: d < n ==> TierParents(AllPairs(inv, groups, d), groups, parents)
    ensures ParentsSet(inv, groups, parents, n)
  {}

  lemma ParentsForward(inv: Inventory, groups: Groups, groups': Groups, parents: Groups, parents': Groups,
                       root: Groups, children: map<string, string>, n: nat)
    requires Valid(inv) && GroupedBelow(inv, groups, n) && ParentsSet(inv, groups, parents, n)
             && root.Keys == Level(inv, n)
    requires Complete(root, children, AllPairs(inv, groups, n))
    requires Overlaid(groups, root, root.Keys, groups')
             && Overlaid(parents, Above(children, root), children.Keys, parents')
    requires forall d: nat :: d <= n ==> AllPairs(inv, groups', d) == AllPairs(inv, groups, d)
    ensures ParentsSet(inv, groups', parents', n + 1)
  {
    forall d: nat | d < n + 1 ensures TierParents(AllPairs(inv, groups', d), groups', parents') {
      assert AllPairs(inv, groups', d) == AllPairs(inv, groups, d);
      if d == n {
        NewParents(root, children, AllPairs(inv, groups, n), groups, groups', parents, parents');
      } else {
        OldParents(inv, groups, groups', parents, parents', root, children, n, d);
      }
    }
    ParentsByTier(inv, groups', parents', n + 1);
  }

  lemma ParentsBackward(inv: Inventory, groups: Groups, groups': Groups, parents: Groups, parents': Groups,
                        root: Groups, children: map<string, string>, n: nat)
    requires Parented(inv, groups, parents, n) && Complete(root, children, AllPairs(inv, groups, n))
    requires Overlaid(parents, Above(children, root), children.Keys, parents')
    requires forall d: nat :: d <= n ==> AllPairs(inv, groups', d) == AllPairs(inv, groups, d)
    ensures ParentsOnly(inv, groups', parents', n + 1)
  {
    forall c | c in parents' ensures ChildBelow(inv, groups', n + 1, c) {
      ChildKept(inv, groups, groups', parents, parents', root, children, n, c);
    }
  }

  lemma ChildKept(inv: Inventory, groups: Groups, groups': Groups, parents: Groups, parents': Groups,
                  root: Groups, children: map<string, string>, n: nat, c: string)
    requires Parented(inv, groups, parents, n) && Complete(root, children, AllPairs(inv, groups, n))
    requires Overlaid(parents, Above(children, root), children.Keys, parents') && c in parents'
    requires forall d: nat :: d <= n ==> AllPairs(inv, groups', d) == AllPairs(inv, groups, d)
    ensures ChildBelow(inv, groups', n + 1, c)
  {
    ChildAt(inv, groups, parents, parents', root, children, n, c);
    ChildBelowFrame(inv, groups, groups', n + 1, c);
  }

  /** Publishing a finished tier extends the reduction by that tier. */
  lemma TierExtends(inv: Inventory, groups: Groups, groups': Groups, parents: Groups, parents': Groups,
                    root: Groups, children: map<string, string>, n: nat)
    requires Valid(inv) && Reduced(inv, groups, parents, n) && TierDone(inv, groups, root, children, n)
    requires Overlaid(groups, root, root.Keys, groups')
             && Overlaid(parents, Above(children, root), children.Keys, parents')
    ensures Reduced(inv, groups', parents', n + 1)
  {
    GroupsExtend(inv, groups, root, groups', n);
    ParentsForward(inv, groups, groups', parents, parents', root, children, n);
    ParentsBackward(inv, groups, groups', parents, parents', root, children, n);
  }

  lemma MergeIsDone(inv: Inventory, groups: Groups, rep: Groups, root: Groups, children: map<string, string>,
                    seen: Pairs, n: nat)
    requires Forest(rep, root) && Complete(root, children, seen) && Justified(root, seen)
    requires root.Keys == Level(inv, n) && seen == AllPairs(inv, groups, n)
    ensures TierDone(inv, groups, root, children, n)
    ensures forall c :: c in children ==> children[c] in root
  {
    forall s | s in root ensures IsLeast(root[s], Component(seen, root.Keys, s)) {
      RootIsLeast(rep, root, children, seen, s);
    }
    forall c | c in children ensures children[c] in root {
      assert (children[c], c) in seen;
    }
  }

  /** One pass of the tier loop. */
  method MergeTier(inv: Inventory, depth: Depths, level: nat, layer: seq<string>, groups: Groups, parents: Groups)
      returns (groups': Groups, parents': Groups)
    requires Valid(inv) && Sound(inv, depth) && Ball(inv, level + 1) <= depth.Keys && IsTier(inv, level, layer)
    requires Reduced(inv, groups, parents, level)
    ensures Reduced(inv, groups', parents', level + 1)
  {
    var part, children := GroupTier(inv, depth, level, layer, groups);
    ghost var root := part.root;
    groups', parents' := Publish(part, layer, children, groups, parents);
    TierExtends(inv, groups, groups', parents, parents', root, children, level);
  }

  /** The union-find of one tier, finished. */
  method GroupTier(inv: Inventory, depth: Depths, level: nat, layer: seq<string>, groups: Groups)
      returns (part: Partition, children: map<string, string>)
    requires Valid(inv) && Sound(inv, depth) && Ball(inv, level + 1) <= depth.Keys && IsTier(inv, level, layer)
    ensures fresh(part) && part.Valid() && (forall x :: x in layer <==> x in part.root)
    ensures TierDone(inv, groups, part.root, children, level) && forall c :: c in children ==> children[c] in part.root
  {
    var tm := VisitLayer(inv, depth, level, layer, groups);
    part, children := tm.part, tm.children;
    MergeIsDone(inv, groups, part.rep, part.root, children, tm.seen, level);
  }

  method Publish(part: Partition, layer: seq<string>, children: map<string, string>, groups: Groups, parents: Groups)
      returns (groups': Groups, parents': Groups)
    requires part.Valid() && (forall x :: x in layer <==> x in part.root) && forall c :: c in children ==>
               children[c] in part.root
    modifies part`rep
    ensures Overlaid(groups, part.root, part.root.Keys, groups')
    ensures Overlaid(parents, Above(children, part.root), children.Keys, parents')
  {
    groups' := PublishGroups(part, layer, groups);
    parents' := PublishParents(part, children, parents, Above(children, part.root));
  }

  /** All tiers are reduced; `n` is the number of tiers. */
  ghost predicate FullyReduced(inv: Inventory, groups: Groups, parents: Groups, n: nat) {
    Reduced(inv, groups, parents, n) && forall d: nat :: d >= n ==> Level(inv, d) == {}
  }

  method BuildHierarchy(inv: Inventory) returns (groups: Groups, parents: Groups, ghost n: nat)
    requires Valid(inv)
    ensures FullyReduced(inv, groups, parents, n)
  {
    var depth, layers := SwitchDepths(inv);
    groups, parents := map h | h in inv.hosts :: h, map[];
    for level := 0 to |layers|
      invariant Reduced(inv, groups, parents, level)
    {
      assert IsTier(inv, level, layers[level]);
      groups, parents := MergeTier(inv, depth, level, layers[level], groups, parents);
    }
    n := |layers|;
    forall d: nat | d >= n ensures Level(inv, d) == {} {
      NoTierAbove(inv, depth, layers, d);
    }
  }

  lemma NoTierAbove(inv: Inventory, depth: Depths, layers: seq<seq<string>>, d: nat)
    requires Tiers(inv, depth, layers) && d >= |layers|
    ensures Level(inv, d) == {}
  {
    if s :| s in Level(inv, d) {
      assert s in Ball(inv, d);
      TierOf(inv, depth, d, s);
    }
  }
}

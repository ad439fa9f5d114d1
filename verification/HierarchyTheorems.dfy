/** What the reduction promises: one result for every iteration order, and a proper tree. */
module HierarchyTheorems {
  import opened Wrappers
  import opened Lex
  import opened Fabric
  import opened FabricGroups
  import opened Hierarchy

  // ---------------------------------------------------------------- the result is a function of the inventory

  lemma GroupedEverywhere(inv: Inventory, groups: Groups, parents: Groups, n: nat, d: nat)
    requires FullyReduced(inv, groups, parents, n)
    ensures Grouped(inv, groups, d)
  {
    if d >= n { assert Level(inv, d) == {}; }
  }

  ghost predicate AgreeOn(inv: Inventory, groups: Groups, groups': Groups, d: nat) {
    forall s :: s in Level(inv, d) ==> s in groups && s in groups' && groups[s] == groups'[s]
  }

  lemma GroupsAgreeAt(inv: Inventory, groups: Groups, groups': Groups, d: nat)
    requires Grouped(inv, groups, d) && Grouped(inv, groups', d)
    requires AllPairs(inv, groups, d) == AllPairs(inv, groups', d)
    ensures AgreeOn(inv, groups, groups', d)
  {
    forall s | s in Level(inv, d) ensures s in groups && s in groups' && groups[s] == groups'[s] {
      GroupInLevel(inv, groups, d, s);
      GroupInLevel(inv, groups', d, s);
      LeastUnique(groups[s], groups'[s], Component(AllPairs(inv, groups, d), Level(inv, d), s));
    }
  }

  lemma PairsAgree(inv: Inventory, groups: Groups, groups': Groups, d: nat)
    requires d > 0 ==> AgreeOn(inv, groups, groups', d - 1)
    requires forall h :: h in inv.hosts ==> Lookup(groups, h) == Lookup(groups', h)
    ensures AllPairs(inv, groups, d) == AllPairs(inv, groups', d)
  {
    forall p | Lower(inv, d, p) ensures Lookup(groups, p) == Lookup(groups', p) {}
    PairsFrame(inv, groups, groups', d);
  }

  lemma {:induction false} TiersAgree(inv: Inventory, groups: Groups, parents: Groups, n: nat,
                                      groups': Groups, parents': Groups, n': nat, d: nat)
    requires FullyReduced(inv, groups, parents, n) && FullyReduced(inv, groups', parents', n')
    ensures AgreeOn(inv, groups, groups', d) && AllPairs(inv, groups, d) == AllPairs(inv, groups', d)
  {
    if d > 0 { TiersAgree(inv, groups, parents, n, groups', parents', n', d - 1); }
    PairsAgree(inv, groups, groups', d);
    GroupedEverywhere(inv, groups, parents, n, d);
    GroupedEverywhere(inv, groups', parents', n', d);
    GroupsAgreeAt(inv, groups, groups', d);
  }

  lemma GroupsContained(inv: Inventory, groups: Groups, parents: Groups, n: nat, groups': Groups, parents': Groups,
                        n': nat, s: string)
    requires FullyReduced(inv, groups, parents, n) && FullyReduced(inv, groups', parents', n') && s in groups
    ensures s in groups' && groups'[s] == groups[s]
  {
    if s !in inv.hosts {
      assert InLevelBelow(inv, n, s);
      var d: nat :| d < n && s in Level(inv, d);
      TiersAgree(inv, groups, parents, n, groups', parents', n', d);
    }
  }

  lemma ParentsContained(inv: Inventory, groups: Groups, parents: Groups, n: nat, groups': Groups, parents': Groups,
                         n': nat, c: string)
    requires FullyReduced(inv, groups, parents, n) && FullyReduced(inv, groups', parents', n') && c in parents
    ensures c in parents' && parents'[c] == parents[c]
  {
    var d, s := SomeChild(inv, groups, parents, n, c);
    TiersAgree(inv, groups, parents, n, groups', parents', n', d);
    SameParent(inv, groups, parents, n, groups', parents', n', d, s, c);
  }

  lemma SomeChild(inv: Inventory, groups: Groups, parents: Groups, n: nat, c: string) returns (d: nat, s: string)
    requires Reduced(inv, groups, parents, n) && c in parents
    ensures d < n && (s, c) in AllPairs(inv, groups, d) && s in Level(inv, d)
  {
    assert ChildBelow(inv, groups, n, c);
    d, s :| d < n && (s, c) in AllPairs(inv, groups, d);
    GroupedBelowLess(inv, groups, n, d, s, c);
  }

  lemma SameParent(inv: Inventory, groups: Groups, parents: Groups, n: nat, groups': Groups, parents': Groups, n': nat,
                   d: nat, s: string, c: string)
    requires ParentsSet(inv, groups, parents, n) && ParentsSet(inv, groups', parents', n')
    requires forall e: nat :: e >= n' ==> Level(inv, e) == {}
    requires d < n && (s, c) in AllPairs(inv, groups, d) && s in Level(inv, d)
    requires AgreeOn(inv, groups, groups', d) && AllPairs(inv, groups, d) == AllPairs(inv, groups', d)
    ensures c in parents && c in parents' && parents'[c] == parents[c]
  {}

  /** Whatever order the link maps are iterated in, groups and parents are the same. */
  lemma ReductionIsDeterministic(inv: Inventory, groups: Groups, parents: Groups, n: nat, groups': Groups,
                                 parents': Groups, n': nat)
    requires FullyReduced(inv, groups, parents, n) && FullyReduced(inv, groups', parents', n')
    ensures groups == groups' && parents == parents'
  {
    AllGroupsContained(inv, groups, parents, n, groups', parents', n');
    AllGroupsContained(inv, groups', parents', n', groups, parents, n);
    SameMap(groups, groups');
    AllParentsContained(inv, groups, parents, n, groups', parents', n');
    AllParentsContained(inv, groups', parents', n', groups, parents, n);
    SameMap(parents, parents');
  }

  ghost predicate Contained(a: Groups, b: Groups) {
    forall s :: s in a ==> s in b && b[s] == a[s]
  }

  lemma SameMap(a: Groups, b: Groups)
    requires Contained(a, b) && Contained(b, a)
    ensures a == b
  {}

  lemma AllGroupsContained(inv: Inventory, groups: Groups, parents: Groups, n: nat, groups': Groups, parents': Groups,
                           n': nat)
    requires FullyReduced(inv, groups, parents, n) && FullyReduced(inv, groups', parents', n')
    ensures Contained(groups, groups')
  {
    forall s | s in groups ensures s in groups' && groups'[s] == groups[s] {
      GroupsContained(inv, groups, parents, n, groups', parents', n', s);
    }
  }

  lemma AllParentsContained(inv: Inventory, groups: Groups, parents: Groups, n: nat, groups': Groups, parents': Groups,
                            n': nat)
    requires FullyReduced(inv, groups, parents, n) && FullyReduced(inv, groups', parents', n')
    ensures Contained(parents, parents')
  {
    forall c | c in parents ensures c in parents' && parents'[c] == parents[c] {
      ParentsContained(inv, groups, parents, n, groups', parents', n', c);
    }
  }

  // ---------------------------------------------------------------- parents climb one tier at a time

  /** If `c` is below tier `d` and has a parent, that parent sits exactly at tier `d`. */
  ghost predicate StepUp(inv: Inventory, parents: Groups, n: nat, d: nat, c: string) {
    Lower(inv, d, c) && c in parents ==> d < n && parents[c] in Level(inv, d) && parents[c] != ""
  }

  ghost predicate Climbing(inv: Inventory, parents: Groups, n: nat) {
    forall d: nat, c {:trigger StepUp(inv, parents, n, d, c)} :: StepUp(inv, parents, n, d, c)
  }

  lemma ParentTier(inv: Inventory, groups: Groups, parents: Groups, n: nat, c: string) returns (d: nat)
    requires Valid(inv) && Reduced(inv, groups, parents, n) && c in parents
    ensures d < n && Lower(inv, d, c) && parents[c] in Level(inv, d) && parents[c] != ""
  {
    var s;
    d, s := SomeChild(inv, groups, parents, n, c);
    GroupedBelowLess(inv, groups, n, d, s, c);
    assert Grouped(inv, groups, d);
    GroupInLevel(inv, groups, d, s);
    BallsAreSwitches(inv, d);
  }

  /** Every host or group has at most one parent, and it is exactly one tier higher. */
  lemma ParentsClimbOneTier(inv: Inventory, groups: Groups, parents: Groups, n: nat)
    requires Valid(inv) && FullyReduced(inv, groups, parents, n)
    ensures Climbing(inv, parents, n)
  {
    forall d: nat, c ensures StepUp(inv, parents, n, d, c) {
      if Lower(inv, d, c) && c in parents {
        var e := ParentTier(inv, groups, parents, n, c);
        LowerOnce(inv, d, e, c);
      }
    }
  }

  /** `ids` are all the ancestors of `x`, closest first. */
  ghost predicate Lineage(parents: Groups, x: string, ids: seq<string>)
    decreases |ids|
  {
    if ids == [] then x !in parents
    else x in parents && parents[x] == ids[0] && Lineage(parents, ids[0], ids[1..])
  }

  lemma {:induction false} LineageUnique(parents: Groups, x: string, ids: seq<string>, ids': seq<string>)
    requires Lineage(parents, x, ids) && Lineage(parents, x, ids')
    ensures ids == ids'
    decreases |ids|
  {
    if ids != [] && ids' != [] {
      LineageUnique(parents, ids[0], ids[1..], ids'[1..]);
      assert ids == [ids[0]] + ids[1..] && ids' == [ids'[0]] + ids'[1..];
    }
  }

  lemma {:induction false} LineageSuffix(parents: Groups, x: string, ids: seq<string>, i: nat)
    requires Lineage(parents, x, ids) && i < |ids|
    ensures Lineage(parents, ids[i], ids[i + 1..])
    decreases i
  {
    if i > 0 {
      LineageSuffix(parents, ids[0], ids[1..], i - 1);
      assert ids[1..][i..] == ids[i + 1..];
    }
  }

  lemma {:induction false} LineageTiers(inv: Inventory, parents: Groups, n: nat, d: nat, x: string,
                                        ids: seq<string>, i: nat)
    requires Climbing(inv, parents, n) && Lower(inv, d, x) && Lineage(parents, x, ids) && i < |ids|
    ensures d + i < n && ids[i] in Level(inv, d + i)
    decreases i
  {
    assert StepUp(inv, parents, n, d, x);
    if i > 0 {
      LineageTiers(inv, parents, n, d + 1, ids[0], ids[1..], i - 1);
    }
  }

  /** Hosts that share an ancestor meet at the same tier and share every ancestor above it. */
  lemma SharedAncestors(inv: Inventory, parents: Groups, n: nat,
                        h: string, ids: seq<string>, i: nat, h': string, ids': seq<string>, j: nat)
    requires Climbing(inv, parents, n) && h in inv.hosts && h' in inv.hosts
    requires Lineage(parents, h, ids) && Lineage(parents, h', ids') && i < |ids| && j < |ids'| && ids[i] == ids'[j]
    ensures i == j && ids[i..] == ids'[j..]
  {
    LineageTiers(inv, parents, n, 0, h, ids, i);
    LineageTiers(inv, parents, n, 0, h', ids', j);
    LevelsDisjoint(inv, i, j, ids[i]);
    SameAbove(parents, h, ids, i, h', ids', j);
  }

  lemma SameAbove(parents: Groups, x: string, ids: seq<string>, i: nat, x': string, ids': seq<string>, j: nat)
    requires Lineage(parents, x, ids) && Lineage(parents, x', ids') && i < |ids| && j < |ids'| && ids[i] == ids'[j]
    ensures ids[i..] == ids'[j..]
  {
    LineageSuffix(parents, x, ids, i);
    LineageSuffix(parents, x', ids', j);
    LineageUnique(parents, ids[i], ids[i + 1..], ids'[j + 1..]);
    assert ids[i..] == [ids[i]] + ids[i + 1..] && ids'[j..] == [ids'[j]] + ids'[j + 1..];
  }

  /** Each entry is the parent of the one before it. */
  ghost predicate Climbs(parents: Groups, x: string, ids: seq<string>)
    decreases |ids|
  {
    ids == [] || (x in parents && parents[x] == ids[0] && Climbs(parents, ids[0], ids[1..]))
  }

  function Top(x: string, ids: seq<string>): string {
    if ids == [] then x else ids[|ids| - 1]
  }

  lemma {:induction false} ClimbsAppend(parents: Groups, x: string, ids: seq<string>, y: string)
    requires Climbs(parents, x, ids) && Top(x, ids) in parents && parents[Top(x, ids)] == y
    ensures Climbs(parents, x, ids + [y])
    decreases |ids|
  {
    if ids != [] {
      ClimbsAppend(parents, ids[0], ids[1..], y);
      assert (ids + [y])[1..] == ids[1..] + [y];
    }
  }

  lemma {:induction false} ClimbsToTheTop(parents: Groups, x: string, ids: seq<string>)
    requires Climbs(parents, x, ids) && Top(x, ids) !in parents
    ensures Lineage(parents, x, ids)
    decreases |ids|
  {
    if ids != [] { ClimbsToTheTop(parents, ids[0], ids[1..]); }
  }

  /** State of the walk: the next parent, if any, belongs to the next tier. */
  ghost predicate Walking(inv: Inventory, parents: Groups, n: nat, host: string, ids: seq<string>, parent: string) {
    && |ids| <= n && Climbs(parents, host, ids) && Lower(inv, |ids|, Top(host, ids))
    && parent == Lookup(parents, Top(host, ids))
  }

  lemma WalkStep(inv: Inventory, parents: Groups, n: nat, host: string, ids: seq<string>, parent: string)
    requires Climbing(inv, parents, n) && Walking(inv, parents, n, host, ids, parent)
    ensures parent == "" <==> Top(host, ids) !in parents
    ensures parent != "" ==> |ids| < n && Walking(inv, parents, n, host, ids + [parent], Lookup(parents, parent))
  {
    assert StepUp(inv, parents, n, |ids|, Top(host, ids));
    if parent != "" {
      ClimbsAppend(parents, host, ids, parent);
      assert Top(host, ids + [parent]) == parent;
    }
  }

  /** The parent walk of buildTopology; it stops within the number of tiers. */
  method WalkUp(inv: Inventory, parents: Groups, ghost n: nat, host: string) returns (ids: seq<string>)
    requires Climbing(inv, parents, n) && host in inv.hosts
    ensures Lineage(parents, host, ids) && |ids| <= n
  {
    ids := [];
    var parent := Lookup(parents, host);
    while parent != ""
      invariant Walking(inv, parents, n, host, ids, parent)
      decreases n - |ids|
    {
      WalkStep(inv, parents, n, host, ids, parent);
      ids := ids + [parent];
      parent := Lookup(parents, parent);
    }
    WalkStep(inv, parents, n, host, ids, parent);
    ClimbsToTheTop(parents, host, ids);
  }

  // ---------------------------------------------------------------- aliases

  datatype Host = Host(name: string, serial: string)

  /** Alias claims made so far: (alias, host ID). */
  type Claims = set<(string, string)>

  ghost predicate Sole(claims: Claims, a: string, id: string) {
    (a, id) in claims && forall other :: (a, other) in claims ==> other == id
  }

  /** An alias resolves to its host when exactly one host claims it, and is blanked when several do. */
  ghost predicate AliasOk(claims: Claims, aliases: map<string, string>, a: string) {
    && (a in aliases <==> exists id :: (a, id) in claims)
    && (forall id :: id != "" ==> ((a in aliases && aliases[a] == id) <==> Sole(claims, a, id)))
  }

  ghost predicate AliasesOk(claims: Claims, aliases: map<string, string>) {
    forall a :: AliasOk(claims, aliases, a)
  }

  method AddAlias(ghost claims: Claims, aliases: map<string, string>, a: string, id: string)
      returns (aliases': map<string, string>, ghost claims': Claims)
    requires AliasesOk(claims, aliases) && id != ""
    ensures claims' == claims + (if a == "" then {} else {(a, id)}) && AliasesOk(claims', aliases')
  {
    aliases', claims' := aliases, claims;
    if a == "" { return; }
    claims' := claims + {(a, id)};
    if a in aliases && aliases[a] != id {
      aliases' := aliases[a := ""];
    } else if a !in aliases {
      aliases' := aliases[a := id];
    }
    forall x ensures AliasOk(claims', aliases', x) {
      assert AliasOk(claims, aliases, x);
      AliasStep(claims, aliases, a, id, aliases', x);
    }
  }

  lemma AliasStep(claims: Claims, aliases: map<string, string>, a: string, id: string, aliases': map<string, string>,
                  x: string)
    requires AliasOk(claims, aliases, x) && id != ""
    requires aliases' == if a in aliases && aliases[a] != id then aliases[a := ""] else aliases[a := id]
    ensures AliasOk(claims + {(a, id)}, aliases', x)
  {
    var more := claims + {(a, id)};
    if x != a {
      assert forall y :: (x, y) in more <==> (x, y) in claims;
      assert forall y :: Sole(more, x, y) <==> Sole(claims, x, y);
    } else {
      assert (a, id) in more;
      assert forall y :: Sole(more, a, y) ==> y == id;
      SoleStep(claims, aliases, a, id);
    }
  }

  lemma SoleStep(claims: Claims, aliases: map<string, string>, a: string, id: string)
    requires AliasOk(claims, aliases, a) && id != ""
    ensures Sole(claims + {(a, id)}, a, id) <==> a !in aliases || aliases[a] == id
  {
    var more := claims + {(a, id)};
    if a in aliases {
      var y :| (a, y) in claims;
      assert (a, y) in more;
      assert Sole(more, a, id) <==> Sole(claims, a, id);
    } else {
      assert forall y :: (a, y) in more ==> y == id;
    }
  }

  /** The aliases of host `id`: its ID, name and serial, as far as they are not empty. */
  ghost function HostClaims(hosts: map<string, Host>, ids: set<string>): Claims
    requires ids <= hosts.Keys
  {
    (set id | id in ids && id != "" :: (id, id)) + (set id | id in ids && hosts[id].name != "" :: (hosts[id].name, id))
    + (set id | id in ids && hosts[id].serial != "" :: (hosts[id].serial, id))
  }

  lemma HostClaimsStep(hosts: map<string, Host>, ids: set<string>, id: string)
    requires ids <= hosts.Keys && id in hosts && id != ""
    ensures HostClaims(hosts, ids + {id}) ==
            HostClaims(hosts, ids) + {(id, id)}
            + (if hosts[id].name == "" then {} else {(hosts[id].name, id)})
            + (if hosts[id].serial == "" then {} else {(hosts[id].serial, id)})
  {}

  method AddHost(hosts: map<string, Host>, ghost done: set<string>, id: string, before: map<string, string>)
      returns (aliases: map<string, string>)
    requires done <= hosts.Keys && id in hosts && id != "" && AliasesOk(HostClaims(hosts, done), before)
    ensures AliasesOk(HostClaims(hosts, done + {id}), aliases)
  {
    ghost var claims;
    HostClaimsStep(hosts, done, id);
    aliases, claims := AddAlias(HostClaims(hosts, done), before, id, id);
    aliases, claims := AddAlias(claims, aliases, hosts[id].name, id);
    aliases, claims := AddAlias(claims, aliases, hosts[id].serial, id);
  }

  /** The alias loop, over hosts in any order: an alias names a host iff that host alone claims it. */
  method BuildAliases(hosts: map<string, Host>) returns (aliases: map<string, string>)
    requires "" !in hosts
    ensures AliasesOk(HostClaims(hosts, hosts.Keys), aliases)
  {
    aliases := map[];
    var todo := hosts.Keys;
    assert HostClaims(hosts, hosts.Keys - todo) == {};
    while todo != {}
      invariant todo <= hosts.Keys && AliasesOk(HostClaims(hosts, hosts.Keys - todo), aliases)
      decreases |todo|
    {
      var id :| id in todo;
      Advance(hosts.Keys, todo, id);
      aliases := AddHost(hosts, hosts.Keys - todo, id, aliases);
      todo := todo - {id};
    }
    assert hosts.Keys - todo == hosts.Keys;
  }
}

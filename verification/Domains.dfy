/** Accelerator domains, their host maps, and the vertex tree built from them (pkg/topology/domain.go). */
module Domains {
  import opened Wrappers

  datatype HostInfo = HostInfo(domain: string, instanceID: string, hostName: string, subDomain: string)

  type HostMap = map<string, HostInfo>
  type DomainTable = map<string, HostMap>

  /** A vertex is a leaf exactly when `hosts` is present. */
  datatype BlockVertex = BlockVertex(
    id: string, actual: nat, maxChild: nat, hosts: Option<HostMap>, children: map<string, BlockVertex>)

  /** Hosts sit under their own domain and under their own name. */
  ghost predicate WellKeyed(m: DomainTable) {
    forall d, k :: d in m && k in m[d] ==> m[d][k].hostName == k && m[d][k].domain == d
  }

  ghost predicate HasHost(m: DomainTable, h: HostInfo) {
    h.domain in m && h.hostName in m[h.domain] && m[h.domain][h.hostName] == h
  }

  ghost predicate SomeSubDomain(hosts: HostMap) {
    exists k :: k in hosts && hosts[k].subDomain != ""
  }

  /** Hosts without a sub-domain fall back to a group named after the domain. */
  function SubName(d: string, h: HostInfo): string {
    if h.subDomain == "" then d else h.subDomain
  }

  ghost function SubHosts(d: string, hosts: HostMap, g: string): HostMap {
    map k | k in hosts && SubName(d, hosts[k]) == g :: hosts[k]
  }

  ghost function SubNames(d: string, hosts: HostMap): set<string> {
    set k | k in hosts :: SubName(d, hosts[k])
  }

  ghost function SubVertex(d: string, hosts: HostMap, g: string): BlockVertex {
    BlockVertex(g, |SubHosts(d, hosts, g)|, 0, Some(SubHosts(d, hosts, g)), map[])
  }

  ghost function SubVertices(d: string, hosts: HostMap): map<string, BlockVertex> {
    map g | g in SubNames(d, hosts) :: SubVertex(d, hosts, g)
  }

  /** `x` is the largest `actual` among the children, or 0 when there is none. */
  ghost predicate IsMaxActual(x: nat, children: map<string, BlockVertex>) {
    && (forall c :: c in children ==> children[c].actual <= x)
    && (x == 0 || exists c :: c in children && children[c].actual == x)
  }

  ghost function MaxActual(children: map<string, BlockVertex>): (x: nat)
    ensures IsMaxActual(x, children)
    decreases |children|
  {
    if children == map[] then 0
    else
      var c :| c in children;
      var rest := children - {c};
      assert forall d :: d in children ==> d == c || d in rest;
      var y := MaxActual(rest);
      if y < children[c].actual then children[c].actual else y
  }

  ghost function DomainVertex(d: string, hosts: HostMap): BlockVertex {
    if !SomeSubDomain(hosts) then BlockVertex(d, |hosts|, 0, Some(hosts), map[])
    else
      var subs := SubVertices(d, hosts);
      BlockVertex(d, |hosts|, MaxActual(subs), None, subs)
  }

  ghost function DomainVertices(m: DomainTable): map<string, BlockVertex> {
    map d | d in m :: DomainVertex(d, m[d])
  }

  ghost function DomainTree(m: DomainTable): BlockVertex {
    BlockVertex("", 0, MaxActual(DomainVertices(m)), None, DomainVertices(m))
  }

  lemma SubHostsStep(d: string, hosts: HostMap, k: string, h: HostInfo, g: string)
    requires k !in hosts
    ensures SubHosts(d, hosts[k := h], g) ==
            if g == SubName(d, h) then SubHosts(d, hosts, g)[k := h] else SubHosts(d, hosts, g)
  {}

  lemma SubNamesAreNonEmpty(d: string, hosts: HostMap, g: string)
    ensures g in SubNames(d, hosts) <==> SubHosts(d, hosts, g) != map[]
  {
    if SubHosts(d, hosts, g) != map[] {
      var k :| k in SubHosts(d, hosts, g);
      assert k in hosts && SubName(d, hosts[k]) == g;
    } else {
      assert forall k :: k in hosts && SubName(d, hosts[k]) == g ==> k in SubHosts(d, hosts, g);
    }
  }

  /** Group `g` holds exactly the placed hosts that name it. */
  ghost predicate GroupAt(d: string, placed: HostMap, children: map<string, BlockVertex>, g: string) {
    if g in children then SubHosts(d, placed, g) != map[] && children[g] == SubVertex(d, placed, g)
    else SubHosts(d, placed, g) == map[]
  }

  ghost predicate GroupsOf(d: string, placed: HostMap, children: map<string, BlockVertex>) {
    forall g :: GroupAt(d, placed, children, g)
  }

  /** The group of a new host after it joins. */
  ghost function GroupAfter(d: string, placed: HostMap, k: string, h: HostInfo): BlockVertex {
    var before := SubHosts(d, placed, SubName(d, h));
    BlockVertex(SubName(d, h), |before| + 1, 0, Some(before[k := h]), map[])
  }

  lemma GroupAtStep(d: string, placed: HostMap, children: map<string, BlockVertex>, k: string, h: HostInfo, x: string)
    requires k !in placed && GroupAt(d, placed, children, x)
    ensures GroupAt(d, placed[k := h], children[SubName(d, h) := GroupAfter(d, placed, k, h)], x)
  {
    SubHostsStep(d, placed, k, h, x);
  }

  /** Placing one more host touches exactly the group it names. */
  lemma GroupsStep(d: string, placed: HostMap, children: map<string, BlockVertex>, k: string, h: HostInfo)
    requires k !in placed && GroupsOf(d, placed, children)
    ensures GroupsOf(d, placed[k := h], children[SubName(d, h) := GroupAfter(d, placed, k, h)])
  {
    var after, next := placed[k := h], children[SubName(d, h) := GroupAfter(d, placed, k, h)];
    forall x ensures GroupAt(d, after, next, x) {
      assert GroupAt(d, placed, children, x);
      GroupAtStep(d, placed, children, k, h, x);
    }
  }

  lemma GroupsComplete(d: string, hosts: HostMap, children: map<string, BlockVertex>)
    requires GroupsOf(d, hosts, children)
    ensures children == SubVertices(d, hosts)
  {
    forall g ensures g in children <==> g in SubNames(d, hosts) {
      assert GroupAt(d, hosts, children, g);
      SubNamesAreNonEmpty(d, hosts, g);
    }
    forall g | g in children ensures children[g] == SubVertex(d, hosts, g) {
      assert GroupAt(d, hosts, children, g);
    }
  }

  /** `done` holds the hosts that are no longer to do. */
  ghost predicate Halfway(hosts: HostMap, todo: set<string>, done: HostMap) {
    && todo <= hosts.Keys
    && (forall k :: k in done <==> k in hosts && k !in todo)
    && (forall k :: k in done ==> done[k] == hosts[k])
  }

  lemma HalfwayNext(hosts: HostMap, todo: set<string>, done: HostMap, k: string)
    requires Halfway(hosts, todo, done) && k in todo
    ensures k in hosts && k !in done && |done[k := hosts[k]]| == |done| + 1
    ensures Halfway(hosts, todo - {k}, done[k := hosts[k]])
  {
    assert done[k := hosts[k]].Keys == done.Keys + {k};
  }

  lemma HalfwayEnd(hosts: HostMap, done: HostMap)
    requires Halfway(hosts, {}, done)
    ensures done == hosts
  {}

  function WithHost(m: DomainTable, h: HostInfo): DomainTable {
    m[h.domain := (if h.domain in m then m[h.domain] else map[])[h.hostName := h]]
  }

  /** A host comes under its domain and name; the one there before, if any, goes. */
  lemma WithHostHas(m: DomainTable, h: HostInfo, x: HostInfo)
    ensures HasHost(WithHost(m, h), x) <==>
              x == h || (HasHost(m, x) && (x.domain, x.hostName) != (h.domain, h.hostName))
  {}

  lemma WithHostKeyed(m: DomainTable, h: HostInfo)
    requires WellKeyed(m) && forall d :: d in m ==> m[d] != map[]
    ensures WellKeyed(WithHost(m, h)) && forall d :: d in WithHost(m, h) ==> WithHost(m, h)[d] != map[]
  {
    assert h.hostName in WithHost(m, h)[h.domain];
  }

  /** DomainMap: domain name to hosts, filled by insertion only. */
  class DomainMap {
    var m: DomainTable

    ghost predicate Valid()
      reads this
    {
      WellKeyed(m) && "" !in m && forall d :: d in m ==> m[d] != map[]
    }

    constructor ()
      ensures Valid() && m == map[]
    {
      m := map[];
    }

    /** Adds or replaces one host; nil hosts and hosts without a domain are skipped. */
    method AddHostInfo(host: Option<HostInfo>)
      requires Valid()
      modifies this
      ensures Valid()
      ensures host.None? || host.value.domain == "" ==> m == old(m)
      ensures host.Some? && host.value.domain != "" ==>
                HasHost(m, host.value) &&
                forall h :: HasHost(m, h) <==>
                            h == host.value
                            || (&& HasHost(old(m), h)
                                && (h.domain, h.hostName) != (host.value.domain, host.value.hostName))
    {
      if host.None? { return; }
      var h := host.value;
      if h.domain == "" { return; }
      WithHostKeyed(m, h);
      forall x
        ensures HasHost(WithHost(m, h), x) <==>
                  x == h || (HasHost(m, x) && (x.domain, x.hostName) != (h.domain, h.hostName))
      {
        WithHostHas(m, h, x);
      }
      if h.domain in m {
        m := m[h.domain := m[h.domain][h.hostName := h]];
      } else {
        m := m[h.domain := map[h.hostName := h]];
      }
    }

    method HasSubDomain(hosts: HostMap) returns (hasSub: bool)
      ensures hasSub <==> SomeSubDomain(hosts)
    {
      var todo := hosts.Keys;
      while todo != {}
        invariant todo <= hosts.Keys
        invariant forall k :: k in hosts && k !in todo ==> hosts[k].subDomain == ""
        decreases |todo|
      {
        var k :| k in todo;
        todo := todo - {k};
        if hosts[k].subDomain != "" { return true; }
      }
      return false;
    }

    /** Finds or creates the group a host names, then inserts the host into it. */
    method PlaceHost(d: string, ghost placed: HostMap, children: map<string, BlockVertex>, k: string, host: HostInfo)
        returns (next: map<string, BlockVertex>)
      requires k !in placed && host.hostName == k && GroupsOf(d, placed, children)
      ensures GroupsOf(d, placed[k := host], next)
    {
      var gn := if host.subDomain == "" then d else host.subDomain;
      GroupsStep(d, placed, children, k, host);
      assert GroupAt(d, placed, children, gn);
      var hosts: HostMap, count: nat := map[], 0;
      if gn in children {
        hosts, count := children[gn].hosts.value, children[gn].actual;
      }
      next := children[gn := BlockVertex(gn, count + 1, 0, Some(hosts[host.hostName := host]), map[])];
    }

    method PlaceHosts(d: string, hosts: HostMap) returns (children: map<string, BlockVertex>, placed: nat)
      requires forall k :: k in hosts ==> hosts[k].hostName == k
      ensures children == SubVertices(d, hosts) && placed == |hosts|
    {
      children, placed := map[], 0;
      ghost var done: HostMap := map[];
      var todo := hosts.Keys;
      while todo != {}
        invariant Halfway(hosts, todo, done) && placed == |done| && GroupsOf(d, done, children)
        decreases |todo|
      {
        var k :| k in todo;
        HalfwayNext(hosts, todo, done, k);
        todo := todo - {k};
        children := PlaceHost(d, done, children, k, hosts[k]);
        done := done[k := hosts[k]];
        placed := placed + 1;
      }
      HalfwayEnd(hosts, done);
      GroupsComplete(d, hosts, children);
    }

    method BuildDomain(d: string, hosts: HostMap) returns (v: BlockVertex)
      requires forall k :: k in hosts ==> hosts[k].hostName == k
      ensures v == DomainVertex(d, hosts)
    {
      var hasSub := HasSubDomain(hosts);
      if !hasSub {
        v := BlockVertex(d, |hosts|, 0, Some(hosts), map[]);
      } else {
        var children, placed := PlaceHosts(d, hosts);
        var maxChild := LargestChild(children);
        v := BlockVertex(d, placed, maxChild, None, children);
      }
    }

    /** The running maximum over a map's values, in any iteration order. */
    method LargestChild(children: map<string, BlockVertex>) returns (x: nat)
      ensures x == MaxActual(children)
    {
      x := 0;
      var todo := children.Keys;
      while todo != {}
        invariant todo <= children.Keys
        invariant forall c :: c in children && c !in todo ==> children[c].actual <= x
        invariant x == 0 || exists c :: c in children && children[c].actual == x
        decreases |todo|
      {
        var c :| c in todo;
        todo := todo - {c};
        if children[c].actual > x { x := children[c].actual; }
      }
    }

    method GetDomainTree() returns (root: BlockVertex)
      requires Valid()
      ensures root == DomainTree(m)
    {
      var children: map<string, BlockVertex> := map[];
      var todo := m.Keys;
      while todo != {}
        invariant todo <= m.Keys && children.Keys == m.Keys - todo
        invariant forall d :: d in children ==> children[d] == DomainVertices(m)[d]
        decreases |todo|
      {
        var d :| d in todo;
        todo := todo - {d};
        var v := BuildDomain(d, m[d]);
        children := children[d := v];
      }
      assert children == DomainVertices(m);
      var maxChild := LargestChild(children);
      root := BlockVertex("", 0, maxChild, None, children);
    }
  }
}

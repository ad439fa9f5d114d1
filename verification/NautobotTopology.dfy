/** From discovered devices to instance records, and on to the canonical graph (pkg/providers/nautobot). */
module NautobotTopology {
  import opened Wrappers
  import opened Fabric
  import opened Hierarchy
  import opened HierarchyTheorems
  import opened CanonicalGraph
  import GraphWalk
  import GraphRoundTrip

  /** What the records are made from: the kept devices, the hosts among them, and the parents of hosts and groups. */
  datatype Source = Source(known: map<string, Device>, hosts: map<string, Host>, parents: Groups)

  function HostsOf(known: map<string, Device>, inv: Inventory): map<string, Host> {
    map id | id in inv.hosts && id in known :: Host(known[id].name, known[id].serial)
  }

  /** The switch of each ID with its display name. */
  function TiersOf(known: map<string, Device>, ids: seq<string>): (tiers: seq<Tier>)
    ensures |tiers| == |ids|
  {
    seq(|ids|, i requires 0 <= i < |ids| => Tier(ids[i], if ids[i] in known then known[ids[i]].name else ""))
  }

  // ---------------------------------------------------------------- which instances get tiers

  /** Host `h`, and no other, goes by this name, and it has a parent. */
  ghost predicate Resolves(src: Source, id: string, h: string) {
    Sole(HostClaims(src.hosts, src.hosts.Keys), id, h) && h in src.parents
  }

  /** The record lists the whole lineage of the host the instance resolves to. */
  ghost predicate Describes(src: Source, r: Record, h: string, ids: seq<string>) {
    Resolves(src, r.id, h) && Lineage(src.parents, h, ids) && r.tiers == TiersOf(src.known, ids)
  }

  ghost predicate Described(src: Source, r: Record) {
    exists h, ids :: Describes(src, r, h, ids)
  }

  /** The records of the instances in `done`: one for each that resolves, and no others. */
  ghost predicate Recorded(src: Source, done: set<string>, records: seq<Record>) {
    && (forall i, j :: 0 <= i < j < |records| ==> records[i].id != records[j].id)
    && (forall i :: 0 <= i < |records| ==> records[i].id in done && Described(src, records[i]))
    && (forall id, h {:trigger Resolves(src, id, h)} :: id in done && Resolves(src, id, h) ==>
          Named(records, |records|, id))
  }

  /** The inventory was built from the devices, and the hierarchy from the inventory. */
  ghost predicate From(devices: seq<Device>, inv: Inventory, src: Source) {
    && Valid(inv) && Classified(devices, |devices|, inv, src.known) && LinkedByReport(inv, src.known, src.known.Keys)
    && src.hosts == HostsOf(src.known, inv)
    && exists groups: Groups, n: nat :: FullyReduced(inv, groups, src.parents, n)
  }

  lemma SoleUnique(claims: Claims, a: string, h: string, h': string)
    requires Sole(claims, a, h) && Sole(claims, a, h')
    ensures h == h'
  {}

  lemma SoleIsHost(src: Source, id: string, h: string)
    requires Sole(HostClaims(src.hosts, src.hosts.Keys), id, h)
    ensures h in src.hosts
  {}

  lemma AddRecord(src: Source, done: set<string>, records: seq<Record>, r: Record)
    requires Recorded(src, done, records) && r.id !in done && Described(src, r)
    ensures Recorded(src, done + {r.id}, records + [r])
  {
    var more := records + [r];
    forall id, h | id in done + {r.id} && Resolves(src, id, h) ensures Named(more, |more|, id) {
      if id == r.id {
        assert more[|records|].id == id;
      } else {
        assert Named(records, |records|, id);
        var i :| 0 <= i < |records| && records[i].id == id;
        assert more[i].id == id;
      }
    }
  }

  lemma SkipInstance(src: Source, done: set<string>, records: seq<Record>, id: string)
    requires Recorded(src, done, records) && forall h :: !Resolves(src, id, h)
    ensures Recorded(src, done + {id}, records)
  {}

  /** One requested instance that has not been seen before. */
  method PlaceInstance(src: Source, inv: Inventory, ghost n: nat, aliases: map<string, string>,
                       ghost done: set<string>, id: string, records: seq<Record>) returns (records': seq<Record>)
    requires Climbing(inv, src.parents, n) && src.hosts.Keys == inv.hosts && "" !in inv.hosts
    requires AliasesOk(HostClaims(src.hosts, src.hosts.Keys), aliases) && Recorded(src, done, records) && id !in done
    ensures Recorded(src, done + {id}, records')
  {
    ghost var claims := HostClaims(src.hosts, src.hosts.Keys);
    assert AliasOk(claims, aliases, id);
    records' := records;
    var host := Lookup(aliases, id);
    if host == "" {
      forall h ensures !Resolves(src, id, h) {
        if Sole(claims, id, h) { SoleIsHost(src, id, h); }
      }
      SkipInstance(src, done, records, id);
      return;
    }
    assert Sole(claims, id, host);
    SoleIsHost(src, id, host);
    var ids := WalkUp(inv, src.parents, n, host);
    if |ids| == 0 {
      forall h ensures !Resolves(src, id, h) {
        if Sole(claims, id, h) { SoleUnique(claims, id, h, host); }
      }
      SkipInstance(src, done, records, id);
      return;
    }
    var r := Record(id, TiersOf(src.known, ids));
    assert Describes(src, r, host, ids);
    AddRecord(src, done, records, r);
    records' := records + [r];
  }

  /** One region: its instances in any order, those of earlier regions left out. */
  method PlaceRegion(src: Source, inv: Inventory, ghost n: nat, aliases: map<string, string>,
                     region: set<string>, seen: set<string>, records: seq<Record>)
      returns (seen': set<string>, records': seq<Record>)
    requires Climbing(inv, src.parents, n) && src.hosts.Keys == inv.hosts && "" !in inv.hosts
    requires AliasesOk(HostClaims(src.hosts, src.hosts.Keys), aliases) && Recorded(src, seen, records)
    ensures seen' == seen + region && Recorded(src, seen', records')
  {
    seen', records' := seen, records;
    var todo := region;
    while todo != {}
      invariant todo <= region && seen' == seen + (region - todo) && Recorded(src, seen', records')
      decreases |todo|
    {
      var id :| id in todo;
      Advance(region, todo, id);
      if id !in seen' {
        records' := PlaceInstance(src, inv, n, aliases, seen', id, records');
      }
      seen' := seen' + {id};
      todo := todo - {id};
    }
  }

  /** All requested instances. */
  function Requested(regions: seq<map<string, string>>): (m: map<string, string>)
  {
    if regions == [] then map[] else Requested(regions[..|regions| - 1]) + regions[|regions| - 1]
  }

  /** buildTopology: the first faulty device, or one record per requested instance that resolves to a host with a
      parent. */
  method BuildTopology(devices: seq<Device>, regions: seq<map<string, string>>)
      returns (r: Outcome, src: Source, records: seq<Record>)
    ensures !r.Built? ==> exists i: nat :: FirstFault(devices, i, r)
    ensures r.Built? ==> From(devices, r.inv, src) && Recorded(src, Requested(regions).Keys, records)
  {
    var known;
    records := [];
    r, known := BuildInventory(devices);
    src := Source(known, map[], map[]);
    if !r.Built? { return; }
    var groups, parents;
    ghost var n;
    groups, parents, n := BuildHierarchy(r.inv);
    src := Source(known, HostsOf(known, r.inv), parents);
    ParentsClimbOneTier(r.inv, groups, parents, n);
    var aliases := BuildAliases(src.hosts);
    var seen: set<string> := {};
    for i := 0 to |regions|
      invariant seen == Requested(regions[..i]).Keys && Recorded(src, seen, records)
    {
      seen, records := PlaceRegion(src, r.inv, n, aliases, regions[i].Keys, seen, records);
      RequestedStep(regions, i);
    }
    assert regions[..|regions|] == regions;
  }

  lemma RequestedStep(regions: seq<map<string, string>>, i: nat)
    requires i < |regions|
    ensures Requested(regions[..i + 1]).Keys == Requested(regions[..i]).Keys + regions[i].Keys
  {
    assert regions[..i + 1][..i] == regions[..i];
  }

  // ---------------------------------------------------------------- the records fit together

  /** Where two records name the same switch, they do so at the same tier, and agree from there on. */
  ghost predicate Meet(r: Record, r': Record, k: nat, l: nat) {
    k < |r.tiers| && l < |r'.tiers| && r.tiers[k].id == r'.tiers[l].id ==> k == l && r.tiers[k..] == r'.tiers[l..]
  }

  ghost predicate Aligned(records: seq<Record>) {
    forall i, j, k: nat, l: nat {:trigger Meet(records[i], records[j], k, l)} ::
      0 <= i < |records| && 0 <= j < |records| ==> Meet(records[i], records[j], k, l)
  }

  lemma RecordsMeet(inv: Inventory, src: Source, n: nat, r: Record, r': Record, k: nat, l: nat)
    requires Climbing(inv, src.parents, n) && src.hosts.Keys <= inv.hosts && Described(src, r) && Described(src, r')
    ensures Meet(r, r', k, l)
  {
    var h, ids :| Describes(src, r, h, ids);
    var h', ids' :| Describes(src, r', h', ids');
    SoleIsHost(src, r.id, h);
    SoleIsHost(src, r'.id, h');
    LineagesMeet(inv, src, n, h, ids, h', ids', k, l);
  }

  lemma LineagesMeet(inv: Inventory, src: Source, n: nat, h: string, ids: seq<string>, h': string,
                     ids': seq<string>, k: nat, l: nat)
    requires Climbing(inv, src.parents, n) && h in inv.hosts && h' in inv.hosts
    requires Lineage(src.parents, h, ids) && Lineage(src.parents, h', ids')
    ensures k < |ids| && l < |ids'| && ids[k] == ids'[l] ==>
              k == l && TiersOf(src.known, ids)[k..] == TiersOf(src.known, ids')[l..]
  {
    if k < |ids| && l < |ids'| && ids[k] == ids'[l] {
      SharedAncestors(inv, src.parents, n, h, ids, k, h', ids', l);
      SameTiers(src.known, ids, ids', k);
    }
  }

  lemma SameTiers(known: map<string, Device>, ids: seq<string>, ids': seq<string>, k: nat)
    requires k < |ids| && k < |ids'| && ids[k..] == ids'[k..]
    ensures TiersOf(known, ids)[k..] == TiersOf(known, ids')[k..]
  {
    assert |ids| == |ids[k..]| + k && |ids'| == |ids'[k..]| + k;
    forall i | k <= i < |ids| ensures ids[i] == ids'[i] {
      assert ids[k..][i - k] == ids'[k..][i - k];
    }
  }

  /** The records of one run fit together as a tree. */
  lemma RecordsAligned(devices: seq<Device>, inv: Inventory, src: Source, done: set<string>, records: seq<Record>)
    requires From(devices, inv, src) && Recorded(src, done, records)
    ensures Aligned(records)
  {
    var groups: Groups, n: nat :| FullyReduced(inv, groups, src.parents, n);
    ParentsClimbOneTier(inv, groups, src.parents, n);
    forall i, j, k: nat, l: nat | 0 <= i < |records| && 0 <= j < |records| ensures Meet(records[i], records[j], k, l) {
      RecordsMeet(inv, src, n, records[i], records[j], k, l);
    }
  }

  // ---------------------------------------------------------------- a plan for the records

  /** Record `i` names switch `s` at tier `k`, below what is trimmed. */
  ghost predicate NamedAt(records: seq<Record>, trim: int, s: string, i: nat, k: nat) {
    i < |records| && k < |Trimmed(records[i], trim)| && Trimmed(records[i], trim)[k].id == s
  }

  ghost function SwitchIds(records: seq<Record>, trim: int): set<string> {
    set i, k | 0 <= i < |records| && 0 <= k < |Trimmed(records[i], trim)| :: Trimmed(records[i], trim)[k].id
  }

  ghost predicate SomewhereNamed(records: seq<Record>, trim: int, s: string) {
    exists i: nat, k: nat :: NamedAt(records, trim, s, i, k)
  }

  lemma SwitchIdsAre(records: seq<Record>, trim: int, s: string)
    ensures s in SwitchIds(records, trim) <==> SomewhereNamed(records, trim, s)
  {
    if s in SwitchIds(records, trim) {
      var i, k :| 0 <= i < |records| && 0 <= k < |Trimmed(records[i], trim)| && Trimmed(records[i], trim)[k].id == s;
      assert NamedAt(records, trim, s, i, k);
    }
  }

  /** Some place where the switch is named. */
  ghost function PlaceOf(records: seq<Record>, trim: int, s: string): (p: (nat, nat))
    requires s in SwitchIds(records, trim)
    ensures NamedAt(records, trim, s, p.0, p.1)
  {
    SwitchIdsAre(records, trim, s);
    var i: nat, k: nat :| NamedAt(records, trim, s, i, k);
    (i, k)
  }

  ghost function TallestOf(records: seq<Record>): (h: nat)
    ensures forall i :: 0 <= i < |records| ==> |records[i].tiers| <= h
  {
    if records == [] then 0
    else
      var h, n := TallestOf(records[..|records| - 1]), |records[|records| - 1].tiers|;
      assert forall i :: 0 <= i < |records| - 1 ==> records[..|records| - 1][i] == records[i];
      if h < n then n else h
  }

  /** Level, name and parent of each switch, read off any record that names it. */
  ghost function PlanOf(records: seq<Record>, trim: int): Plan {
    var ids := SwitchIds(records, trim);
    Plan(map s | s in ids :: PlaceOf(records, trim, s).1,
         map s | s in ids :: NameAt(records, trim, PlaceOf(records, trim, s)),
         map s | s in ids :: ParentAt(records, trim, PlaceOf(records, trim, s)),
         TallestOf(records))
  }

  ghost function NameAt(records: seq<Record>, trim: int, p: (nat, nat)): string {
    if p.0 < |records| && p.1 < |Trimmed(records[p.0], trim)| then Trimmed(records[p.0], trim)[p.1].name else ""
  }

  ghost function ParentAt(records: seq<Record>, trim: int, p: (nat, nat)): string {
    if p.0 < |records| then NextUp(Trimmed(records[p.0], trim), p.1 + 1) else ""
  }

  lemma {:induction false} NextUpSame(a: seq<Tier>, b: seq<Tier>, k: nat)
    requires |a| == |b| && forall i :: k <= i < |a| ==> a[i] == b[i]
    ensures NextUp(a, k) == NextUp(b, k)
    decreases |a| - k
  {
    if k < |a| { NextUpSame(a, b, k + 1); }
  }

  /** Trimming cuts records that meet at the same height. */
  lemma TrimmedMeet(r: Record, r': Record, trim: int, k: nat, l: nat)
    requires k < |Trimmed(r, trim)| && l < |Trimmed(r', trim)| && Trimmed(r, trim)[k].id == Trimmed(r', trim)[l].id
             && Meet(r, r', k, l)
    ensures k == l && Trimmed(r, trim)[k].name == Trimmed(r', trim)[l].name
    ensures NextUp(Trimmed(r, trim), k + 1) == NextUp(Trimmed(r', trim), l + 1)
  {
    assert |r.tiers| == |r.tiers[k..]| + k && |r'.tiers| == |r'.tiers[l..]| + l;
    forall i | k <= i < |r.tiers| ensures r.tiers[i] == r'.tiers[i] {
      assert r.tiers[k..][i - k] == r'.tiers[l..][i - k];
    }
    NextUpSame(Trimmed(r, trim), Trimmed(r', trim), k + 1);
  }

  lemma PlanFits(records: seq<Record>, trim: int, i: nat, k: nat)
    requires Aligned(records) && i < |records| && k < |Trimmed(records[i], trim)|
    ensures TierOk(PlanOf(records, trim), Trimmed(records[i], trim), k)
  {
    var s := Trimmed(records[i], trim)[k].id;
    assert NamedAt(records, trim, s, i, k);
    SwitchIdsAre(records, trim, s);
    var p := PlaceOf(records, trim, s);
    assert Meet(records[p.0], records[i], p.1, k);
    TrimmedMeet(records[p.0], records[i], trim, p.1, k);
  }

  lemma PlanFitsAll(records: seq<Record>, trim: int, i: nat)
    requires Aligned(records) && i < |records|
    ensures RecordOk(PlanOf(records, trim), Trimmed(records[i], trim))
  {
    forall k: nat | k < |Trimmed(records[i], trim)|
      ensures TierOk(PlanOf(records, trim), Trimmed(records[i], trim), k)
    {
      PlanFits(records, trim, i, k);
    }
  }

  /** The switch is a kept one. */
  lemma NamedIsSwitch(inv: Inventory, src: Source, n: nat, r: Record, k: nat)
    requires Valid(inv) && Climbing(inv, src.parents, n) && src.hosts.Keys <= inv.hosts && Described(src, r)
             && k < |r.tiers|
    ensures r.tiers[k].id in inv.switches
  {
    var h, ids :| Describes(src, r, h, ids);
    SoleIsHost(src, r.id, h);
    LineageTiers(inv, src.parents, n, 0, h, ids, k);
    BallsAreSwitches(inv, k);
  }

  /** No requested instance and no switch goes by a name that means something else in the graph. */
  ghost predicate NamesFree(inv: Inventory, requested: map<string, string>) {
    && NO_TOPOLOGY !in inv.switches && "" !in requested && NO_TOPOLOGY !in requested
    && forall d :: d in requested ==> d !in inv.switches
  }

  /** What the provider records is consistent, however many tiers are trimmed. */
  lemma RecordsConsistent(devices: seq<Device>, inv: Inventory, src: Source, requested: map<string, string>,
                          records: seq<Record>, trim: int)
    requires From(devices, inv, src) && Recorded(src, requested.Keys, records) && NamesFree(inv, requested)
    ensures Consistent(PlanOf(records, trim), records, requested, trim)
  {
    RecordsAligned(devices, inv, src, requested.Keys, records);
    PlanApart(devices, inv, src, requested, records, trim);
    forall i: nat | Counts(records, requested, i) ensures RecordOk(PlanOf(records, trim), Trimmed(records[i], trim)) {
      PlanFitsAll(records, trim, i);
    }
  }

  lemma PlanApart(devices: seq<Device>, inv: Inventory, src: Source, requested: map<string, string>,
                  records: seq<Record>, trim: int)
    requires From(devices, inv, src) && Recorded(src, requested.Keys, records) && NamesFree(inv, requested)
    ensures IdsApart(PlanOf(records, trim), requested)
  {
    var groups: Groups, n: nat :| FullyReduced(inv, groups, src.parents, n);
    ParentsClimbOneTier(inv, groups, src.parents, n);
    forall s | s in SwitchIds(records, trim)
      ensures s in inv.switches && PlaceOf(records, trim, s).1 < TallestOf(records)
    {
      PlacedSwitch(inv, src, n, requested.Keys, records, trim, s);
    }
    ApartFrom(inv, requested, records, trim);
  }

  lemma PlacedSwitch(inv: Inventory, src: Source, n: nat, done: set<string>, records: seq<Record>, trim: int, s: string)
    requires Valid(inv) && Climbing(inv, src.parents, n) && src.hosts.Keys <= inv.hosts && Recorded(src, done, records)
    requires s in SwitchIds(records, trim)
    ensures s in inv.switches && PlaceOf(records, trim, s).1 < TallestOf(records)
  {
    var p := PlaceOf(records, trim, s);
    NamedIsSwitch(inv, src, n, records[p.0], p.1);
  }

  lemma ApartFrom(inv: Inventory, requested: map<string, string>, records: seq<Record>, trim: int)
    requires Valid(inv) && NamesFree(inv, requested)
    requires forall s :: s in SwitchIds(records, trim) ==>
               s in inv.switches && PlaceOf(records, trim, s).1 < TallestOf(records)
    ensures IdsApart(PlanOf(records, trim), requested)
  {}

  /** No switch device has the ID of a requested instance or of the no-topology marker. */
  ghost predicate IdsFree(devices: seq<Device>, requested: map<string, string>) {
    && "" !in requested && NO_TOPOLOGY !in requested
    && forall i :: 0 <= i < |devices| && Fabric.IsSwitch(devices[i]) ==>
         devices[i].id != NO_TOPOLOGY && devices[i].id !in requested
  }

  lemma FreeInInventory(devices: seq<Device>, inv: Inventory, known: map<string, Device>,
                        requested: map<string, string>)
    requires Valid(inv) && Classified(devices, |devices|, inv, known) && IdsFree(devices, requested)
    ensures NamesFree(inv, requested)
  {
    forall s | s in inv.switches ensures s != NO_TOPOLOGY && s !in requested {
      assert s in known;
      var i :| 0 <= i < |devices| && devices[i] == known[s];
      assert Fabric.IsSwitch(devices[i]);
    }
  }

  // ---------------------------------------------------------------- end to end

  /** The display names of all switches above the host, closest first, the outermost `trim` left out. */
  ghost predicate LayersOf(src: Source, trim: int, id: string, layers: seq<string>) {
    exists h, ids :: && Resolves(src, id, h) && Lineage(src.parents, h, ids)
                     && layers == NetworkLayers(Trimmed(Record(id, TiersOf(src.known, ids)), trim))
  }

  ghost predicate Unresolved(src: Source, id: string) {
    forall h :: !Resolves(src, id, h)
  }

  lemma RecordShows(src: Source, done: set<string>, records: seq<Record>, trim: int, i: nat)
    requires Recorded(src, done, records) && i < |records|
    ensures LayersOf(src, trim, records[i].id, NetworkLayers(Trimmed(records[i], trim)))
  {
    var h, ids :| Describes(src, records[i], h, ids);
    assert records[i] == Record(records[i].id, TiersOf(src.known, ids));
  }

  /** The layers of one flattened instance. */
  lemma FlattenedShows(src: Source, requested: map<string, string>, records: seq<Record>, trim: int,
                       instances: GraphWalk.Instances, d: string)
    requires Recorded(src, requested.Keys, records) && d in instances && d in requested
    requires forall i: nat {:trigger Counts(records, requested, i)} ::
               Counts(records, requested, i) && records[i].id in instances ==>
                 instances[records[i].id] == NetworkLayers(Trimmed(records[i], trim))
    requires !Named(records, |records|, d) ==> instances[d] == []
    ensures if Unresolved(src, d) then instances[d] == [] else LayersOf(src, trim, d, instances[d])
  {
    if Named(records, |records|, d) {
      var i :| 0 <= i < |records| && records[i].id == d;
      assert Counts(records, requested, i);
      RecordShows(src, requested.Keys, records, trim, i);
      assert !Unresolved(src, d);
    } else {
      assert Unresolved(src, d);
    }
  }

  /** GenerateTopologyConfig of the provider, accepted and flattened: exactly the instances asked for, each with the
      switches above the one host that goes by its name, and none if there is no such host or nothing above it. */
  method GenerateTopology(devices: seq<Device>, regions: seq<map<string, string>>, trim: int,
                          filter: Option<set<string>>)
      returns (r: Outcome, src: Source, ok: bool, instances: GraphWalk.Instances)
    requires IdsFree(devices, Requested(regions))
    ensures !r.Built? ==> exists i: nat :: FirstFault(devices, i, r)
    ensures r.Built? ==> ok && From(devices, r.inv, src)
    ensures r.Built? ==> forall d :: d in instances <==> GraphRoundTrip.Asked(Requested(regions), filter, d)
    ensures r.Built? ==> forall d :: d in instances ==>
              if Unresolved(src, d) then instances[d] == [] else LayersOf(src, trim, d, instances[d])
  {
    var records, info;
    ok, instances := false, map[];
    r, src, records := BuildTopology(devices, regions);
    if !r.Built? { return; }
    var requested := Requested(regions);
    FreeInInventory(devices, r.inv, src.known, requested);
    RecordsConsistent(devices, r.inv, src, requested, records, trim);
    ok, info, instances := GraphRoundTrip.BuildAndFlatten(PlanOf(records, trim), records, requested, trim, filter);
    forall d | d in instances
      ensures if Unresolved(src, d) then instances[d] == [] else LayersOf(src, trim, d, instances[d])
    {
      FlattenedShows(src, requested, records, trim, instances, d);
    }
  }
}

/** Devices, links and switch tiers of a fabric (pkg/providers/nautobot/topology.go). */
module Fabric {
  datatype Peer = Peer(id: string, excluded: bool)

  /** A device with its role tests already evaluated; a port without a connected device is `NoPeer`. */
  datatype Port = NoPeer | To(peer: Peer)
  datatype Device = Device(id: string, name: string, serial: string,
                           excluded: bool, isHost: bool, isSwitch: bool, ports: seq<Port>)

  datatype Inventory = Inventory(hosts: set<string>, switches: set<string>, links: map<string, set<string>>)

  function Adjacent(inv: Inventory, a: string): set<string> {
    if a in inv.links then inv.links[a] else {}
  }

  ghost predicate Known(inv: Inventory, a: string) {
    a in inv.hosts || a in inv.switches
  }

  /** Links are symmetric, join distinct known devices, and never join two hosts. */
  ghost predicate Valid(inv: Inventory) {
    && inv.hosts !! inv.switches
    && "" !in inv.hosts && "" !in inv.switches
    && forall a, b :: b in Adjacent(inv, a) ==> LinkOk(inv, a, b)
  }

  ghost predicate LinkOk(inv: Inventory, a: string, b: string) {
    a in Adjacent(inv, b) && a != b && Known(inv, a) && Known(inv, b) && !(a in inv.hosts && b in inv.hosts)
  }

  // ---------------------------------------------------------------- inventory

  datatype Outcome = Built(inv: Inventory) | NoIdOrName | DuplicateId(id: string) | DuplicateSwitchName(name: string)

  function AddEdge(links: map<string, set<string>>, a: string, b: string): map<string, set<string>> {
    links[a := (if a in links then links[a] else {}) + {b}]
  }

  lemma AddEdgeAdjacent(inv: Inventory, a: string, b: string, x: string)
    ensures Adjacent(inv.(links := AddEdge(inv.links, a, b)), x) == Adjacent(inv, x) + if x == a then {b} else {}
  {}

  /** Recording one usable connection in both directions keeps the inventory valid. */
  lemma LinkKeepsValid(inv: Inventory, a: string, b: string)
    requires Valid(inv) && Known(inv, a) && Known(inv, b) && a != b && !(a in inv.hosts && b in inv.hosts)
    ensures Valid(inv.(links := AddEdge(AddEdge(inv.links, a, b), b, a)))
  {
    var mid := inv.(links := AddEdge(inv.links, a, b));
    var next := inv.(links := AddEdge(mid.links, b, a));
    forall x, y | y in Adjacent(next, x) ensures LinkOk(next, x, y) {
      AddEdgeAdjacent(inv, a, b, x);
      AddEdgeAdjacent(mid, b, a, x);
      AddEdgeAdjacent(inv, a, b, y);
      AddEdgeAdjacent(mid, b, a, y);
      if y in Adjacent(inv, x) { assert LinkOk(inv, x, y); }
    }
  }

  ghost predicate Kept(d: Device) {
    !d.excluded && (d.isHost || d.isSwitch)
  }

  /** Port `i` of `d` leads to `b`. */
  ghost predicate PortTo(d: Device, i: int, b: string) {
    0 <= i < |d.ports| && d.ports[i].To? && d.ports[i].peer.id == b && !d.ports[i].peer.excluded
  }

  ghost predicate Lists(d: Device, n: nat, b: string) {
    exists i :: i < n && PortTo(d, i, b)
  }

  ghost predicate Usable(inv: Inventory, a: string, b: string) {
    Known(inv, a) && Known(inv, b) && a != b && !(a in inv.hosts && b in inv.hosts)
  }

  /** What classification keeps: the devices with a role, each under its own ID. */
  ghost predicate Classified(devices: seq<Device>, n: nat, inv: Inventory, known: map<string, Device>)
    requires n <= |devices|
  {
    && (forall id :: id in known <==> Known(inv, id))
    && (forall i :: 0 <= i < n && Kept(devices[i]) ==>
          && devices[i].id in known && known[devices[i].id] == devices[i]
          && (devices[i].isHost <==> devices[i].id in inv.hosts))
    && (forall id :: id in known ==> known[id].id == id && known[id] in devices && Kept(known[id]))
  }

  // What can be wrong with device `i`, given the devices before it.

  ghost predicate Nameless(devices: seq<Device>, i: nat)
    requires i < |devices|
  {
    !devices[i].excluded && (devices[i].id == "" || devices[i].name == "")
  }

  ghost predicate RepeatsId(devices: seq<Device>, i: nat)
    requires i < |devices|
  {
    !devices[i].excluded && exists j :: 0 <= j < i && Kept(devices[j]) && devices[j].id == devices[i].id
  }

  ghost predicate IsSwitch(d: Device) {
    !d.excluded && !d.isHost && d.isSwitch
  }

  ghost predicate RepeatsName(devices: seq<Device>, i: nat)
    requires i < |devices|
  {
    IsSwitch(devices[i]) && exists j :: 0 <= j < i && IsSwitch(devices[j]) && devices[j].name == devices[i].name
  }

  ghost predicate Fine(devices: seq<Device>, i: nat)
    requires i < |devices|
  {
    !Nameless(devices, i) && !RepeatsId(devices, i) && !RepeatsName(devices, i)
  }

  /** The outcome names what is wrong with device `i`, and nothing is wrong before it. */
  ghost predicate FirstFault(devices: seq<Device>, i: nat, r: Outcome) {
    && i < |devices| && (forall j :: 0 <= j < i ==> Fine(devices, j))
    && match r
       case Built(_) => false
       case NoIdOrName => Nameless(devices, i)
       case DuplicateId(id) => !Nameless(devices, i) && RepeatsId(devices, i) && id == devices[i].id
       case DuplicateSwitchName(name) =>
         !Nameless(devices, i) && !RepeatsId(devices, i) && RepeatsName(devices, i) && name == devices[i].name
  }

  /** What the first `n` devices have left behind. */
  ghost predicate Seen(devices: seq<Device>, n: nat, known: map<string, Device>, switchNames: map<string, string>)
    requires n <= |devices|
  {
    && (forall id :: id in known <==> exists j :: 0 <= j < n && Kept(devices[j]) && devices[j].id == id)
    && (forall name :: name in switchNames <==>
          exists j :: 0 <= j < n && IsSwitch(devices[j]) && devices[j].name == name)
  }

  /** The state of the loop after `n` devices, none of which is at fault. */
  ghost predicate Progress(devices: seq<Device>, n: nat, inv: Inventory, known: map<string, Device>,
                           switchNames: map<string, string>) {
    && n <= |devices| && Valid(inv) && inv.links == map[] && Classified(devices, n, inv, known)
    && Seen(devices, n, known, switchNames)
    && forall j :: 0 <= j < n ==> Fine(devices, j)
  }

  lemma FineNext(devices: seq<Device>, n: nat, known: map<string, Device>, switchNames: map<string, string>)
    requires n < |devices| && Seen(devices, n, known, switchNames)
    ensures var d := devices[n];
            && (RepeatsId(devices, n) <==> !d.excluded && d.id in known)
            && (RepeatsName(devices, n) <==> IsSwitch(d) && d.name in switchNames)
  {}

  lemma SkipDevice(devices: seq<Device>, n: nat, inv: Inventory, known: map<string, Device>,
                   switchNames: map<string, string>)
    requires Progress(devices, n, inv, known, switchNames) && n < |devices| && Fine(devices, n) && !Kept(devices[n])
    ensures Progress(devices, n + 1, inv, known, switchNames)
  {}

  lemma ClassifiedNext(devices: seq<Device>, n: nat, inv: Inventory, known: map<string, Device>, inv': Inventory)
    requires n < |devices| && Classified(devices, n, inv, known) && Kept(devices[n]) && devices[n].id !in known
             && inv.hosts !! inv.switches
    requires inv' == if devices[n].isHost then inv.(hosts := inv.hosts + {devices[n].id})
             else inv.(switches := inv.switches + {devices[n].id})
    ensures Classified(devices, n + 1, inv', known[devices[n].id := devices[n]])
  {}

  lemma SeenNext(devices: seq<Device>, n: nat, known: map<string, Device>, switchNames: map<string, string>)
    requires n < |devices| && Seen(devices, n, known, switchNames) && Kept(devices[n])
    ensures Seen(devices, n + 1, known[devices[n].id := devices[n]],
                 if devices[n].isHost then switchNames else switchNames[devices[n].name := devices[n].id])
  {
    assert Kept(devices[n]) && (IsSwitch(devices[n]) <==> !devices[n].isHost);
  }

  lemma ValidNext(inv: Inventory, id: string, host: bool)
    requires Valid(inv) && inv.links == map[] && id != "" && !Known(inv, id)
    ensures Valid(if host then inv.(hosts := inv.hosts + {id}) else inv.(switches := inv.switches + {id}))
  {}

  lemma KeepDevice(devices: seq<Device>, n: nat, inv: Inventory, known: map<string, Device>,
                   switchNames: map<string, string>, inv': Inventory)
    requires Progress(devices, n, inv, known, switchNames) && n < |devices| && Fine(devices, n) && Kept(devices[n])
    requires inv' == if devices[n].isHost then inv.(hosts := inv.hosts + {devices[n].id})
             else inv.(switches := inv.switches + {devices[n].id})
    ensures Progress(devices, n + 1, inv', known[devices[n].id := devices[n]],
                     if devices[n].isHost then switchNames else switchNames[devices[n].name := devices[n].id])
  {
    FineNext(devices, n, known, switchNames);
    ClassifiedNext(devices, n, inv, known, inv');
    SeenNext(devices, n, known, switchNames);
    ValidNext(inv, devices[n].id, devices[n].isHost);
  }

  /** The first loop: classify the devices that are not excluded. */
  method Classify(devices: seq<Device>) returns (r: Outcome, known: map<string, Device>)
    ensures r.Built? ==> Valid(r.inv) && r.inv.links == map[] && Classified(devices, |devices|, r.inv, known)
    ensures r.Built? ==> forall i :: 0 <= i < |devices| ==> Fine(devices, i)
    ensures !r.Built? ==> exists i: nat :: FirstFault(devices, i, r)
  {
    var inv := Inventory({}, {}, map[]);
    known := map[];
    var switchNames: map<string, string> := map[];
    for i := 0 to |devices|
      invariant Progress(devices, i, inv, known, switchNames)
    {
      var d := devices[i];
      FineNext(devices, i, known, switchNames);
      if d.excluded {
        SkipDevice(devices, i, inv, known, switchNames);
        continue;
      }
      if d.id == "" || d.name == "" {
        assert FirstFault(devices, i, NoIdOrName);
        return NoIdOrName, known;
      }
      if d.id in known {
        assert FirstFault(devices, i, DuplicateId(d.id));
        return DuplicateId(d.id), known;
      }
      if d.isHost {
        KeepDevice(devices, i, inv, known, switchNames, inv.(hosts := inv.hosts + {d.id}));
        inv := inv.(hosts := inv.hosts + {d.id});
      } else if d.isSwitch {
        if d.name in switchNames {
          assert FirstFault(devices, i, DuplicateSwitchName(d.name));
          return DuplicateSwitchName(d.name), known;
        }
        KeepDevice(devices, i, inv, known, switchNames, inv.(switches := inv.switches + {d.id}));
        switchNames := switchNames[d.name := d.id];
        inv := inv.(switches := inv.switches + {d.id});
      } else {
        SkipDevice(devices, i, inv, known, switchNames);
        continue;
      }
      known := known[d.id := d];
    }
    return Built(inv), known;
  }

  lemma LinkAdds(inv: Inventory, id: string, b: string, x: string, y: string)
    ensures y in Adjacent(inv.(links := AddEdge(AddEdge(inv.links, id, b), b, id)), x)
            <==> y in Adjacent(inv, x) || (x == id && y == b) || (x == b && y == id)
  {
    AddEdgeAdjacent(inv, id, b, x);
    AddEdgeAdjacent(inv.(links := AddEdge(inv.links, id, b)), b, id, x);
  }

  /** The links after the first `n` ports of device `id`. */
  ghost predicate PortsLinked(before: Inventory, after: Inventory, id: string, d: Device, n: nat) {
    && after.hosts == before.hosts && after.switches == before.switches
    && forall x, y :: y in Adjacent(after, x) <==> y in Adjacent(before, x) || FromPorts(before, id, d, n, x, y)
  }

  ghost predicate FromPorts(inv: Inventory, id: string, d: Device, n: nat, x: string, y: string) {
    Usable(inv, x, y) && ((x == id && Lists(d, n, y)) || (y == id && Lists(d, n, x)))
  }

  lemma ListsStep(d: Device, n: nat, b: string)
    ensures Lists(d, n + 1, b) <==> Lists(d, n, b) || PortTo(d, n, b)
  {
    if Lists(d, n, b) {
      var i :| i < n && PortTo(d, i, b);
      assert i < n + 1;
    }
    if PortTo(d, n, b) { assert n < n + 1; }
  }

  /** The second loop, for one port. */
  method LinkPort(ghost before: Inventory, inv: Inventory, id: string, d: Device, i: nat) returns (next: Inventory)
    requires Valid(inv) && Known(inv, id) && i < |d.ports| && PortsLinked(before, inv, id, d, i)
    ensures Valid(next) && PortsLinked(before, next, id, d, i + 1)
  {
    next := inv;
    var p := d.ports[i];
    forall b ensures Lists(d, i + 1, b) <==> Lists(d, i, b) || PortTo(d, i, b) { ListsStep(d, i, b); }
    if p.NoPeer? { return; }
    var peer := p.peer;
    if !(peer.id in inv.hosts || peer.id in inv.switches) || peer.id == id || peer.excluded { return; }
    if id in inv.hosts && peer.id in inv.hosts { return; }
    LinkKeepsValid(inv, id, peer.id);
    next := inv.(links := AddEdge(AddEdge(inv.links, id, peer.id), peer.id, id));
    forall x, y
      ensures y in Adjacent(next, x) <==>
                y in Adjacent(inv, x) || (x == id && y == peer.id) || (x == peer.id && y == id)
    {
      LinkAdds(inv, id, peer.id, x, y);
    }
  }

  method LinkDevice(inv: Inventory, id: string, d: Device) returns (next: Inventory)
    requires Valid(inv) && Known(inv, id)
    ensures Valid(next) && PortsLinked(inv, next, id, d, |d.ports|)
  {
    next := inv;
    for i := 0 to |d.ports|
      invariant Valid(next) && PortsLinked(inv, next, id, d, i)
    {
      next := LinkPort(inv, next, id, d, i);
    }
  }

  ghost predicate DeviceLists(known: map<string, Device>, keys: set<string>, x: string, y: string) {
    x in keys && x in known && Lists(known[x], |known[x].ports|, y)
  }

  /** Two devices are linked iff both are kept, they may be linked, and one of them reports the other. */
  ghost predicate LinkedByReport(inv: Inventory, known: map<string, Device>, keys: set<string>) {
    forall x, y :: y in Adjacent(inv, x) <==>
                   Usable(inv, x, y) && (DeviceLists(known, keys, x, y) || DeviceLists(known, keys, y, x))
  }

  lemma ReportStep(before: Inventory, after: Inventory, known: map<string, Device>, keys: set<string>, id: string)
    requires id in known && LinkedByReport(before, known, keys)
             && PortsLinked(before, after, id, known[id], |known[id].ports|)
    ensures LinkedByReport(after, known, keys + {id})
  {}

  method BuildInventory(devices: seq<Device>) returns (r: Outcome, known: map<string, Device>)
    ensures r.Built? ==>
              Valid(r.inv) && Classified(devices, |devices|, r.inv, known) && LinkedByReport(r.inv, known, known.Keys)
    ensures !r.Built? ==> exists i: nat :: FirstFault(devices, i, r)
  {
    r, known := Classify(devices);
    if !r.Built? { return; }
    var inv := r.inv;
    var todo := known.Keys;
    while todo != {}
      invariant todo <= known.Keys && Valid(inv) && inv.hosts == r.inv.hosts && inv.switches == r.inv.switches
      invariant LinkedByReport(inv, known, known.Keys - todo)
      decreases |todo|
    {
      var id :| id in todo;
      var next := LinkDevice(inv, id, known[id]);
      ReportStep(inv, next, known, known.Keys - todo, id);
      assert known.Keys - (todo - {id}) == known.Keys - todo + {id};
      todo := todo - {id};
      inv := next;
    }
    assert known.Keys - todo == known.Keys;
    r := Built(inv);
  }

  // ---------------------------------------------------------------- tiers

  ghost function Edge(inv: Inventory): set<string> {
    set s | s in inv.switches && exists h :: h in inv.hosts && s in Adjacent(inv, h)
  }

  ghost function Next(inv: Inventory, from: set<string>): set<string> {
    set s | s in inv.switches && exists t :: t in from && s in Adjacent(inv, t)
  }

  /** Switches at most `n` switch-to-switch hops above the switches that serve hosts. */
  ghost function Ball(inv: Inventory, n: nat): set<string> {
    if n == 0 then Edge(inv) else Ball(inv, n - 1) + Next(inv, Ball(inv, n - 1))
  }

  ghost function Level(inv: Inventory, n: nat): set<string> {
    if n == 0 then Ball(inv, 0) else Ball(inv, n) - Ball(inv, n - 1)
  }

  lemma {:induction false} BallMonotone(inv: Inventory, m: nat, n: nat)
    requires m <= n
    ensures Ball(inv, m) <= Ball(inv, n)
    decreases n
  {
    if m < n { BallMonotone(inv, m, n - 1); }
  }

  lemma LevelsDisjoint(inv: Inventory, m: nat, n: nat, s: string)
    requires s in Level(inv, m) && s in Level(inv, n)
    ensures m == n
  {
    LevelsApart(inv, m, n, s);
    LevelsApart(inv, n, m, s);
  }

  lemma LevelsApart(inv: Inventory, m: nat, n: nat, s: string)
    ensures s in Level(inv, m) && m < n ==> s !in Level(inv, n)
  {
    if m < n { BallMonotone(inv, m, n - 1); }
  }

  lemma {:induction false} BallIsLevels(inv: Inventory, n: nat, s: string) returns (d: nat)
    requires s in Ball(inv, n)
    ensures d <= n && s in Level(inv, d)
  {
    if n == 0 || s !in Ball(inv, n - 1) {
      d := n;
    } else {
      d := BallIsLevels(inv, n - 1, s);
    }
  }

  lemma {:induction false} BallsAreSwitches(inv: Inventory, n: nat)
    ensures Ball(inv, n) <= inv.switches
  {
    if n > 0 { BallsAreSwitches(inv, n - 1); }
  }
}

/** The site and line hierarchy over the device table, and the rendered tree. */
module AssetTree {
  import opened Options

  datatype Kind = Site | Line

  datatype Node = Node(id: int, kind: Kind, parent: Option<int>)
  datatype Device = Device(id: string, node: Option<int>)

  datatype Reply = Done | NotFound | DeviceNotFound | BadHierarchy | InUse | NotAttached

  // ---------------------------------------------------------------- the stored shape

  ghost predicate UniqueIds(nodes: seq<Node>) {
    forall i, j :: 0 <= i < j < |nodes| ==> nodes[i].id != nodes[j].id
  }

  predicate HasSite(nodes: seq<Node>, id: int) {
    exists i :: 0 <= i < |nodes| && nodes[i].id == id && nodes[i].kind == Site
  }

  predicate HasNode(nodes: seq<Node>, id: int) {
    exists i :: 0 <= i < |nodes| && nodes[i].id == id
  }

  /** Sites are roots, lines hang under existing sites. */
  ghost predicate NodesOk(nodes: seq<Node>) {
    && UniqueIds(nodes)
    && (forall i :: 0 <= i < |nodes| && nodes[i].kind == Site ==> nodes[i].parent == None)
    && (forall i :: 0 <= i < |nodes| && nodes[i].kind == Line ==>
          nodes[i].parent.Some? && HasSite(nodes, nodes[i].parent.value))
  }

  /** Attached devices point at existing nodes. */
  ghost predicate DevicesOk(nodes: seq<Node>, devices: seq<Device>) {
    forall i :: 0 <= i < |devices| && devices[i].node.Some? ==> HasNode(nodes, devices[i].node.value)
  }

  /** The position of a node or a device by its id. */
  function FindNode(nodes: seq<Node>, id: int): (r: Option<nat>)
    ensures r.None? <==> !HasNode(nodes, id)
    ensures r.Some? ==> r.value < |nodes| && nodes[r.value].id == id
  {
    if nodes == [] then None
    else
      var n := |nodes| - 1;
      assert nodes == nodes[..n] + [nodes[n]];
      if nodes[n].id == id then Some(n) else FindNode(nodes[..n], id)
  }

  predicate HasDevice(devices: seq<Device>, id: string) {
    exists i :: 0 <= i < |devices| && devices[i].id == id
  }

  function FindDevice(devices: seq<Device>, id: string): (r: Option<nat>)
    ensures r.None? <==> !HasDevice(devices, id)
    ensures r.Some? ==> r.value < |devices| && devices[r.value].id == id
  {
    if devices == [] then None
    else
      var n := |devices| - 1;
      assert devices == devices[..n] + [devices[n]];
      if devices[n].id == id then Some(n) else FindDevice(devices[..n], id)
  }

  /** The device table with one device moved. */
  function Moved(devices: seq<Device>, id: string, node: Option<int>): seq<Device> {
    var k := FindDevice(devices, id);
    if k.None? then devices else devices[k.value := Device(id, node)]
  }

  ghost predicate UniqueDevices(devices: seq<Device>) {
    forall i, j :: 0 <= i < j < |devices| ==> devices[i].id != devices[j].id
  }

  /** Exactly the named device is moved; every other one stays where it was. */
  ghost predicate OnlyMoved(before: seq<Device>, after: seq<Device>, id: string, node: Option<int>) {
    && |after| == |before|
    && (forall i :: 0 <= i < |before| ==>
          after[i] == if before[i].id == id then Device(id, node) else before[i])
  }

  lemma MovedOnly(devices: seq<Device>, id: string, node: Option<int>)
    requires UniqueDevices(devices)
    ensures OnlyMoved(devices, Moved(devices, id, node), id, node)
  {
    forall i | 0 <= i < |devices| && devices[i].id == id ensures FindDevice(devices, id) == Some(i) {
      assert HasDevice(devices, id);
    }
  }

  // ---------------------------------------------------------------- selections

  function Roots(nodes: seq<Node>): seq<Node> {
    if nodes == [] then []
    else
      var n := |nodes| - 1;
      var before := Roots(nodes[..n]);
      if nodes[n].parent == None then before + [nodes[n]] else before
  }

  function Children(nodes: seq<Node>, ids: set<int>): seq<Node> {
    if nodes == [] then []
    else
      var n := |nodes| - 1;
      var before := Children(nodes[..n], ids);
      if nodes[n].parent.Some? && nodes[n].parent.value in ids then before + [nodes[n]] else before
  }

  function Unassigned(devices: seq<Device>): seq<Device> {
    if devices == [] then []
    else
      var n := |devices| - 1;
      var before := Unassigned(devices[..n]);
      if devices[n].node == None then before + [devices[n]] else before
  }

  function On(devices: seq<Device>, ids: set<int>): seq<Device> {
    if devices == [] then []
    else
      var n := |devices| - 1;
      var before := On(devices[..n], ids);
      if devices[n].node.Some? && devices[n].node.value in ids then before + [devices[n]] else before
  }

  lemma {:induction false} InRoots(nodes: seq<Node>, n: Node)
    ensures n in Roots(nodes) <==> n in nodes && n.parent == None
  {
    if nodes == [] {
    } else {
      var last := |nodes| - 1;
      InRoots(nodes[..last], n);
      assert nodes == nodes[..last] + [nodes[last]];
    }
  }

  lemma {:induction false} InChildren(nodes: seq<Node>, ids: set<int>, n: Node)
    ensures n in Children(nodes, ids) <==> n in nodes && n.parent.Some? && n.parent.value in ids
  {
    if nodes == [] {
    } else {
      var last := |nodes| - 1;
      InChildren(nodes[..last], ids, n);
      assert nodes == nodes[..last] + [nodes[last]];
    }
  }

  lemma {:induction false} InOn(devices: seq<Device>, ids: set<int>, d: Device)
    ensures d in On(devices, ids) <==> d in devices && d.node.Some? && d.node.value in ids
  {
    if devices == [] {
    } else {
      var last := |devices| - 1;
      InOn(devices[..last], ids, d);
      assert devices == devices[..last] + [devices[last]];
    }
  }

  // ---------------------------------------------------------------- the rendered tree

  datatype Branch = Branch(node: Node, devices: seq<Device>, children: seq<Branch>)

  function Rank(k: Kind): nat { if k == Site then 1 else 0 }

  ghost predicate Ranked(nodes: seq<Node>, ns: seq<Node>, rank: nat) {
    forall n :: n in ns ==> n in nodes && Rank(n.kind) < rank
  }

  /** Below a site there are only lines, below a line nothing. */
  lemma ChildrenRanked(nodes: seq<Node>, n: Node)
    requires NodesOk(nodes) && n in nodes
    ensures Ranked(nodes, Children(nodes, {n.id}), Rank(n.kind))
  {
    forall c | c in Children(nodes, {n.id}) ensures c in nodes && Rank(c.kind) < Rank(n.kind) {
      InChildren(nodes, {n.id}, c);
      var i :| 0 <= i < |nodes| && nodes[i] == c;
      assert HasSite(nodes, n.id);
      var j :| 0 <= j < |nodes| && nodes[j].id == n.id && nodes[j].kind == Site;
      var k :| 0 <= k < |nodes| && nodes[k] == n;
      assert j == k;
    }
  }

  ghost function Build(nodes: seq<Node>, devices: seq<Device>, n: Node): Branch
    requires NodesOk(nodes) && n in nodes
    decreases Rank(n.kind), 1, 0
  {
    ChildrenRanked(nodes, n);
    var below := Children(nodes, {n.id});
    Branch(n, On(devices, {n.id}), BuildAll(nodes, devices, below, Rank(n.kind)))
  }

  ghost function BuildAll(nodes: seq<Node>, devices: seq<Device>, ns: seq<Node>, rank: nat): seq<Branch>
    requires NodesOk(nodes) && Ranked(nodes, ns, rank)
    decreases rank, 0, |ns|
  {
    if ns == [] then [] else [Build(nodes, devices, ns[0])] + BuildAll(nodes, devices, ns[1..], rank)
  }

  function NodesIn(bs: seq<Branch>): seq<Node> {
    if bs == [] then [] else [bs[0].node] + NodesIn(bs[0].children) + NodesIn(bs[1..])
  }

  function DevicesIn(bs: seq<Branch>): seq<Device> {
    if bs == [] then [] else bs[0].devices + DevicesIn(bs[0].children) + DevicesIn(bs[1..])
  }

  lemma RootsRanked(nodes: seq<Node>)
    requires NodesOk(nodes)
    ensures Ranked(nodes, Roots(nodes), 2)
  {
    forall n | n in Roots(nodes) ensures n in nodes { InRoots(nodes, n); }
  }

  ghost function Tree(nodes: seq<Node>, devices: seq<Device>): seq<Branch>
    requires NodesOk(nodes)
  {
    RootsRanked(nodes);
    BuildAll(nodes, devices, Roots(nodes), 2)
  }

  // ---------------------------------------------------------------- every node once

  function IdsOf(ns: seq<Node>): set<int> { set i | 0 <= i < |ns| :: ns[i].id }

  lemma {:induction false} ChildrenUnion(nodes: seq<Node>, a: set<int>, b: set<int>)
    requires a !! b
    ensures multiset(Children(nodes, a + b)) == multiset(Children(nodes, a)) + multiset(Children(nodes, b))
  {
    if nodes == [] {
    } else {
      var last := |nodes| - 1;
      ChildrenUnion(nodes[..last], a, b);
    }
  }

  lemma {:induction false} NoChildren(nodes: seq<Node>)
    ensures Children(nodes, {}) == []
  {
    if nodes == [] {
    } else {
      var last := |nodes| - 1;
      NoChildren(nodes[..last]);
    }
  }

  /** A rendered list is its first branch followed by the rest. */
  lemma RenderCons(nodes: seq<Node>, devices: seq<Device>, ns: seq<Node>, rank: nat)
    requires NodesOk(nodes) && Ranked(nodes, ns, rank) && ns != []
    ensures ns[0] in nodes && Ranked(nodes, Children(nodes, {ns[0].id}), Rank(ns[0].kind))
      && Ranked(nodes, ns[1..], rank)
    ensures var below := BuildAll(nodes, devices, Children(nodes, {ns[0].id}), Rank(ns[0].kind));
      var rest := BuildAll(nodes, devices, ns[1..], rank);
      && NodesIn(BuildAll(nodes, devices, ns, rank)) == [ns[0]] + NodesIn(below) + NodesIn(rest)
      && DevicesIn(BuildAll(nodes, devices, ns, rank)) == On(devices, {ns[0].id}) + DevicesIn(below) + DevicesIn(rest)
  {
    assert ns[0] in ns;
    ChildrenRanked(nodes, ns[0]);
    var all, first := BuildAll(nodes, devices, ns, rank), Build(nodes, devices, ns[0]);
    assert all == [first] + BuildAll(nodes, devices, ns[1..], rank);
    assert all[0] == first && all[1..] == BuildAll(nodes, devices, ns[1..], rank);
  }

  lemma SomeMember<T>(s: seq<T>)
    ensures s == [] || exists x :: x in s
  {
    if s != [] { assert s[0] in s; }
  }

  lemma Regroup<T>(h: T, tail: seq<T>, kids: seq<T>, rest: seq<T>, others: multiset<T>)
    requires multiset(rest) == multiset(tail) + others
    ensures multiset([h] + kids + rest) == multiset([h] + tail) + (multiset(kids) + others)
  {}

  lemma NothingBelow(nodes: seq<Node>, n: Node)
    requires NodesOk(nodes) && n in nodes && n.kind == Line
    ensures Children(nodes, {n.id}) == []
  {
    ChildrenRanked(nodes, n);
    var below := Children(nodes, {n.id});
    SomeMember(below);
  }

  /** Lines render as leaves. */
  lemma {:induction false} LinesRender(nodes: seq<Node>, devices: seq<Device>, ns: seq<Node>)
    requires NodesOk(nodes) && Ranked(nodes, ns, 1)
    ensures NodesIn(BuildAll(nodes, devices, ns, 1)) == ns
  {
    if ns == [] {
    } else {
      var rest := ns[1..];
      assert ns[0] in ns;
      RenderCons(nodes, devices, ns, 1);
      NothingBelow(nodes, ns[0]);
      assert NodesIn(BuildAll(nodes, devices, ns, 1)) == [ns[0]] + rest by { LinesRender(nodes, devices, rest); }
    }
  }

  lemma IdsSplit(ns: seq<Node>)
    requires ns != []
    ensures IdsOf(ns) == {ns[0].id} + IdsOf(ns[1..])
    ensures UniqueIds(ns) ==> UniqueIds(ns[1..]) && {ns[0].id} !! IdsOf(ns[1..])
  {
    forall x | x in IdsOf(ns[1..]) ensures x in IdsOf(ns) {
      var i :| 0 <= i < |ns[1..]| && ns[1..][i].id == x;
      assert ns[i + 1].id == x;
    }
    forall x | x in IdsOf(ns) && x != ns[0].id ensures x in IdsOf(ns[1..]) {
      var i :| 0 <= i < |ns| && ns[i].id == x;
      assert ns[1..][i - 1].id == x;
    }
  }

  /** Sites render themselves and all their lines. */
  lemma {:induction false} SitesRender(nodes: seq<Node>, devices: seq<Device>, ns: seq<Node>)
    requires NodesOk(nodes) && Ranked(nodes, ns, 2) && UniqueIds(ns)
    requires forall n :: n in ns ==> n.kind == Site
    ensures multiset(NodesIn(BuildAll(nodes, devices, ns, 2))) == multiset(ns) + multiset(Children(nodes, IdsOf(ns)))
  {
    if ns == [] {
      assert IdsOf(ns) == {};
      NoChildren(nodes);
    } else {
      IdsSplit(ns);
      var kids, others := Children(nodes, {ns[0].id}), Children(nodes, IdsOf(ns[1..]));
      var rest := NodesIn(BuildAll(nodes, devices, ns[1..], 2));
      assert ns == [ns[0]] + ns[1..];
      assert multiset(rest) == multiset(ns[1..]) + multiset(others) by { SitesRender(nodes, devices, ns[1..]); }
      assert NodesIn(BuildAll(nodes, devices, ns, 2)) == [ns[0]] + kids + rest by {
        RenderCons(nodes, devices, ns, 2);
        assert ns[0] in ns;
        LinesRender(nodes, devices, kids);
      }
      assert multiset(Children(nodes, IdsOf(ns))) == multiset(kids) + multiset(others) by {
        ChildrenUnion(nodes, {ns[0].id}, IdsOf(ns[1..]));
      }
      Regroup(ns[0], ns[1..], kids, rest, multiset(others));
    }
  }

  lemma {:induction false} RootsAndChildren(nodes: seq<Node>, ids: set<int>)
    requires forall n :: n in nodes && n.parent.Some? ==> n.parent.value in ids
    ensures multiset(Roots(nodes)) + multiset(Children(nodes, ids)) == multiset(nodes)
  {
    if nodes == [] {
    } else {
      var last := |nodes| - 1;
      assert nodes[last] in nodes && nodes == nodes[..last] + [nodes[last]];
      RootsAndChildren(nodes[..last], ids);
    }
  }

  lemma {:induction false} RootsUnique(nodes: seq<Node>)
    requires UniqueIds(nodes)
    ensures UniqueIds(Roots(nodes))
  {
    if nodes == [] {
    } else {
      var last := |nodes| - 1;
      RootsUnique(nodes[..last]);
      var before := Roots(nodes[..last]);
      forall i | 0 <= i < |before| ensures before[i].id != nodes[last].id {
        assert before[i] in before;
        InRoots(nodes[..last], before[i]);
        var j :| 0 <= j < last && nodes[..last][j] == before[i];
        assert nodes[j] == before[i];
      }
    }
  }

  lemma RootsAreSites(nodes: seq<Node>)
    requires NodesOk(nodes)
    ensures forall n :: n in Roots(nodes) ==> n.kind == Site
    ensures forall n :: n in nodes && n.parent.Some? ==> n.parent.value in IdsOf(Roots(nodes))
  {
    var roots := Roots(nodes);
    forall n | n in roots ensures n.kind == Site { InRoots(nodes, n); }
    forall n | n in nodes && n.parent.Some? ensures n.parent.value in IdsOf(roots) {
      var j :| 0 <= j < |nodes| && nodes[j].id == n.parent.value && nodes[j].kind == Site;
      InRoots(nodes, nodes[j]);
      var k :| 0 <= k < |roots| && roots[k] == nodes[j];
      assert roots[k].id == n.parent.value;
    }
  }

  /** The tree lists every node exactly once. */
  lemma TreeListsNodes(nodes: seq<Node>, devices: seq<Device>)
    requires NodesOk(nodes)
    ensures multiset(NodesIn(Tree(nodes, devices))) == multiset(nodes)
  {
    RootsRanked(nodes);
    RootsUnique(nodes);
    RootsAreSites(nodes);
    SitesRender(nodes, devices, Roots(nodes));
    RootsAndChildren(nodes, IdsOf(Roots(nodes)));
  }

  // ---------------------------------------------------------------- every device once

  /** The devices of each listed node, summed. */
  function DevicesOver(devices: seq<Device>, ns: seq<Node>): multiset<Device> {
    if ns == [] then multiset{} else multiset(On(devices, {ns[0].id})) + DevicesOver(devices, ns[1..])
  }

  lemma ConsConcat<T>(a: seq<T>, b: seq<T>)
    requires a != []
    ensures a + b != [] && (a + b)[0] == a[0] && (a + b)[1..] == a[1..] + b
  {}

  lemma {:induction false} DevicesOverConcat(devices: seq<Device>, a: seq<Node>, b: seq<Node>)
    ensures DevicesOver(devices, a + b) == DevicesOver(devices, a) + DevicesOver(devices, b)
  {
    if a == [] {
      assert a + b == b;
    } else {
      ConsConcat(a, b);
      DevicesOverConcat(devices, a[1..], b);
      Associative(multiset(On(devices, {a[0].id})), DevicesOver(devices, a[1..]), DevicesOver(devices, b));
    }
  }

  lemma Associative<T>(x: multiset<T>, y: multiset<T>, z: multiset<T>)
    ensures x + (y + z) == (x + y) + z
  {}

  lemma {:induction false} DevicesFollowNodes(nodes: seq<Node>, devices: seq<Device>, ns: seq<Node>, rank: nat)
    requires NodesOk(nodes) && Ranked(nodes, ns, rank)
    ensures var bs := BuildAll(nodes, devices, ns, rank); multiset(DevicesIn(bs)) == DevicesOver(devices, NodesIn(bs))
    decreases rank, |ns|
  {
    if ns == [] {
    } else {
      RenderCons(nodes, devices, ns, rank);
      assert ns[0] in ns;
      var kids := Children(nodes, {ns[0].id});
      DevicesFollowNodes(nodes, devices, kids, Rank(ns[0].kind));
      DevicesFollowNodes(nodes, devices, ns[1..], rank);
      var below := NodesIn(BuildAll(nodes, devices, kids, Rank(ns[0].kind)));
      var rest := NodesIn(BuildAll(nodes, devices, ns[1..], rank));
      DevicesOverConcat(devices, [ns[0]] + below, rest);
      DevicesOverConcat(devices, [ns[0]], below);
    }
  }

  lemma {:induction false} OnUnion(devices: seq<Device>, a: set<int>, b: set<int>)
    requires a !! b
    ensures multiset(On(devices, a + b)) == multiset(On(devices, a)) + multiset(On(devices, b))
  {
    if devices == [] {
    } else {
      var last := |devices| - 1;
      OnUnion(devices[..last], a, b);
    }
  }

  lemma {:induction false} OnNone(devices: seq<Device>)
    ensures On(devices, {}) == []
  {
    if devices == [] {
    } else {
      var last := |devices| - 1;
      OnNone(devices[..last]);
    }
  }

  lemma {:induction false} DevicesOverIsOn(devices: seq<Device>, ns: seq<Node>)
    requires UniqueIds(ns)
    ensures DevicesOver(devices, ns) == multiset(On(devices, IdsOf(ns)))
  {
    if ns == [] {
      assert IdsOf(ns) == {};
      OnNone(devices);
    } else {
      IdsSplit(ns);
      DevicesOverIsOn(devices, ns[1..]);
      OnUnion(devices, {ns[0].id}, IdsOf(ns[1..]));
    }
  }

  lemma TwiceCounts<T>(s: seq<T>, i: nat, j: nat)
    requires i < j < |s| && s[i] == s[j]
    ensures multiset(s)[s[i]] >= 2
  {
    assert s == s[..j] + s[j..];
    assert s[i] == s[..j][i] && s[j] == s[j..][0];
    assert s[i] in s[..j] && s[i] in s[j..];
  }

  lemma {:induction false} UniqueCounts(nodes: seq<Node>, n: Node)
    requires UniqueIds(nodes)
    ensures multiset(nodes)[n] <= 1
  {
    if nodes == [] {
    } else {
      UniqueCounts(nodes[1..], n);
      assert nodes == [nodes[0]] + nodes[1..];
      if n == nodes[0] { assert n !in nodes[1..]; }
    }
  }

  lemma PermutationUnique(nodes: seq<Node>, ns: seq<Node>)
    requires UniqueIds(nodes) && multiset(ns) == multiset(nodes)
    ensures UniqueIds(ns) && forall i :: 0 <= i < |nodes| ==> nodes[i].id in IdsOf(ns)
  {
    forall i, j | 0 <= i < j < |ns| ensures ns[i].id != ns[j].id {
      assert ns[i] in multiset(nodes) && ns[j] in multiset(nodes);
      var k :| 0 <= k < |nodes| && nodes[k] == ns[i];
      var l :| 0 <= l < |nodes| && nodes[l] == ns[j];
      UniqueCounts(nodes, ns[i]);
      if ns[i] == ns[j] { TwiceCounts(ns, i, j); }
    }
    forall i | 0 <= i < |nodes| ensures nodes[i].id in IdsOf(ns) {
      assert nodes[i] in multiset(ns);
      var k :| 0 <= k < |ns| && ns[k] == nodes[i];
      assert ns[k].id == nodes[i].id;
    }
  }

  lemma {:induction false} UnassignedAndOn(devices: seq<Device>, ids: set<int>)
    requires forall d :: d in devices && d.node.Some? ==> d.node.value in ids
    ensures multiset(Unassigned(devices)) + multiset(On(devices, ids)) == multiset(devices)
  {
    if devices == [] {
    } else {
      var last := |devices| - 1;
      assert devices[last] in devices && devices == devices[..last] + [devices[last]];
      UnassignedAndOn(devices[..last], ids);
    }
  }

  /** Every device appears exactly once: under its node, or as unassigned. */
  lemma TreeListsDevices(nodes: seq<Node>, devices: seq<Device>)
    requires NodesOk(nodes) && DevicesOk(nodes, devices)
    ensures multiset(DevicesIn(Tree(nodes, devices)) + Unassigned(devices)) == multiset(devices)
  {
    var ns := NodesIn(Tree(nodes, devices));
    RootsRanked(nodes);
    TreeListsNodes(nodes, devices);
    PermutationUnique(nodes, ns);
    DevicesFollowNodes(nodes, devices, Roots(nodes), 2);
    DevicesOverIsOn(devices, ns);
    forall d | d in devices && d.node.Some? ensures d.node.value in IdsOf(ns) {
      var i :| 0 <= i < |nodes| && nodes[i].id == d.node.value;
    }
    UnassignedAndOn(devices, IdsOf(ns));
  }

  /** A branch lists only devices attached to its own node. */
  lemma BranchHoldsItsOwn(nodes: seq<Node>, devices: seq<Device>, n: Node, d: Device)
    requires NodesOk(nodes) && n in nodes
    ensures d in Build(nodes, devices, n).devices <==> d in devices && d.node == Some(n.id)
  {
    InOn(devices, {n.id}, d);
  }

  lemma {:induction false} BuildAllAt(nodes: seq<Node>, devices: seq<Device>, ns: seq<Node>, rank: nat, i: nat)
    requires NodesOk(nodes) && Ranked(nodes, ns, rank) && i < |ns|
    ensures |BuildAll(nodes, devices, ns, rank)| == |ns|
    ensures ns[i] in nodes && BuildAll(nodes, devices, ns, rank)[i] == Build(nodes, devices, ns[i])
    decreases |ns|
  {
    assert ns[i] in ns;
    if |ns| == 1 {
    } else {
      BuildAllAt(nodes, devices, ns[1..], rank, if i > 0 then i - 1 else 0);
    }
  }

  ghost predicate Shows(bs: seq<Branch>, n: Node) {
    exists i :: 0 <= i < |bs| && bs[i].node == n
  }

  /** A rendered list shows exactly the nodes it was given. */
  lemma ShowsGiven(nodes: seq<Node>, devices: seq<Device>, ns: seq<Node>, rank: nat, c: Node)
    requires NodesOk(nodes) && Ranked(nodes, ns, rank)
    ensures Shows(BuildAll(nodes, devices, ns, rank), c) <==> c in ns
  {
    var bs := BuildAll(nodes, devices, ns, rank);
    if ns != [] { BuildAllAt(nodes, devices, ns, rank, 0); }
    forall i | 0 <= i < |ns| ensures bs[i].node == ns[i] { BuildAllAt(nodes, devices, ns, rank, i); }
    if c in ns {
      var i :| 0 <= i < |ns| && ns[i] == c;
      assert bs[i].node == c;
    }
  }

  /** Under a node hang exactly the nodes whose parent it is; on top stand exactly the parentless. */
  lemma BranchHoldsItsLines(nodes: seq<Node>, devices: seq<Device>, n: Node, c: Node)
    requires NodesOk(nodes) && n in nodes
    ensures Shows(Build(nodes, devices, n).children, c) <==> c in nodes && c.parent == Some(n.id)
    ensures Shows(Tree(nodes, devices), c) <==> c in nodes && c.parent == None
  {
    ChildrenRanked(nodes, n);
    RootsRanked(nodes);
    ShowsGiven(nodes, devices, Children(nodes, {n.id}), Rank(n.kind), c);
    ShowsGiven(nodes, devices, Roots(nodes), 2, c);
    InChildren(nodes, {n.id}, c);
    InRoots(nodes, c);
  }

  // ---------------------------------------------------------------- the service

  class AssetService {
    var nodes: seq<Node>
    var devices: seq<Device>

    ghost predicate Valid()
      reads this
    {
      NodesOk(nodes) && DevicesOk(nodes, devices) && UniqueDevices(devices)
    }

    constructor (devices: seq<Device>)
      requires UniqueDevices(devices) && forall d :: d in devices ==> d.node == None
      ensures Valid() && nodes == [] && this.devices == devices
    {
      this.devices := devices;
      nodes := [];
    }

    method Create(kind: Kind, parent: Option<int>, id: int) returns (reply: Reply)
      requires Valid() && !HasNode(nodes, id)
      modifies `nodes
      ensures Valid()
      ensures reply == (
        if parent.Some? && !HasNode(old(nodes), parent.value) then NotFound
        else if kind == Site then if parent.Some? then BadHierarchy else Done
        else if parent.Some? && HasSite(old(nodes), parent.value) then Done else BadHierarchy)
      ensures nodes == if reply == Done then old(nodes) + [Node(id, kind, parent)] else old(nodes)
    {
      if parent.Some? && !HasNode(nodes, parent.value) { return NotFound; }
      if kind == Site && parent.Some? { return BadHierarchy; }
      if kind == Line && (parent.None? || !HasSite(nodes, parent.value)) { return BadHierarchy; }
      KeepsLookups(nodes, Node(id, kind, parent));
      nodes := nodes + [Node(id, kind, parent)];
      reply := Done;
    }

    method Delete(id: int) returns (reply: Reply)
      requires Valid()
      modifies `nodes
      ensures Valid()
      ensures reply == (
        if !HasNode(old(nodes), id) then NotFound
        else if Children(old(nodes), {id}) != [] || On(devices, {id}) != [] then InUse
        else Done)
      ensures reply == Done ==>
        && (forall n :: n in old(nodes) ==> n.parent != Some(id)) && (forall d :: d in devices ==> d.node != Some(id))
        && exists i :: 0 <= i < |old(nodes)| && old(nodes)[i].id == id && nodes == old(nodes)[..i] + old(nodes)[i + 1..]
      ensures reply == InUse ==>
        (exists n :: n in old(nodes) && n.parent == Some(id)) || (exists d :: d in devices && d.node == Some(id))
      ensures reply != Done ==> nodes == old(nodes)
    {
      var i := FindNode(nodes, id);
      if i.None? { return NotFound; }
      ghost var lines, held := Children(nodes, {id}), On(devices, {id});
      forall n ensures n in lines <==> n in nodes && n.parent == Some(id) { InChildren(nodes, {id}, n); }
      forall d ensures d in held <==> d in devices && d.node == Some(id) { InOn(devices, {id}, d); }
      if Children(nodes, {id}) != [] {
        assert lines[0] in lines;
        return InUse;
      }
      if On(devices, {id}) != [] {
        assert held[0] in held;
        return InUse;
      }
      DropKeeps(nodes, devices, i.value);
      nodes := nodes[..i.value] + nodes[i.value + 1..];
      reply := Done;
    }

    method Attach(node: int, device: string) returns (reply: Reply)
      requires Valid()
      modifies `devices
      ensures Valid()
      ensures reply == (
        if !HasNode(nodes, node) then NotFound
        else if !HasDevice(old(devices), device) then DeviceNotFound
        else Done)
      ensures if reply == Done then OnlyMoved(old(devices), devices, device, Some(node)) else devices == old(devices)
    {
      if FindNode(nodes, node).None? { return NotFound; }
      var k := FindDevice(devices, device);
      if k.None? { return DeviceNotFound; }
      MovedOnly(devices, device, Some(node));
      devices := devices[k.value := Device(device, Some(node))];
      reply := Done;
    }

    method Detach(device: string) returns (reply: Reply)
      requires Valid()
      modifies `devices
      ensures Valid()
      ensures reply == if HasDevice(old(devices), device) then Done else DeviceNotFound
      ensures if reply == Done then OnlyMoved(old(devices), devices, device, None) else devices == old(devices)
    {
      var k := FindDevice(devices, device);
      if k.None? { return DeviceNotFound; }
      MovedOnly(devices, device, None);
      devices := devices[k.value := Device(device, None)];
      reply := Done;
    }

    /** Detach, but only from the node the request names. */
    method DetachFrom(node: int, device: string) returns (reply: Reply)
      requires Valid()
      modifies `devices
      ensures Valid()
      ensures reply == (
        if !HasNode(nodes, node) then NotFound
        else if !HasDevice(old(devices), device) then DeviceNotFound
        else if old(devices)[FindDevice(old(devices), device).value].node != Some(node) then NotAttached
        else Done)
      ensures if reply == Done then OnlyMoved(old(devices), devices, device, None) else devices == old(devices)
    {
      if FindNode(nodes, node).None? { return NotFound; }
      var k := FindDevice(devices, device);
      if k.None? { return DeviceNotFound; }
      if devices[k.value].node != Some(node) { return NotAttached; }
      reply := Detach(device);
    }

    /** Devices by node, and those without one. */
    method GroupDevices() returns (byNode: map<int, seq<Device>>, unassigned: seq<Device>)
      ensures unassigned == Unassigned(devices)
      ensures forall id :: Lookup(byNode, id) == On(devices, {id})
    {
      byNode, unassigned := map[], [];
      for i := 0 to |devices|
        invariant unassigned == Unassigned(devices[..i])
        invariant forall id :: Lookup(byNode, id) == On(devices[..i], {id})
      {
        var d := devices[i];
        assert devices[..i + 1] == devices[..i] + [d];
        UnassignedSnoc(devices[..i], d);
        DeviceGrouped(byNode, devices[..i], d);
        if d.node.None? { unassigned := unassigned + [d]; }
        else { byNode := byNode[d.node.value := Lookup(byNode, d.node.value) + [d]]; }
      }
      assert devices[..|devices|] == devices;
    }

    /** Nodes by parent, and the roots. */
    method GroupNodes() returns (below: map<int, seq<Node>>, roots: seq<Node>)
      ensures roots == Roots(nodes)
      ensures forall id :: Lookup(below, id) == Children(nodes, {id})
    {
      below, roots := map[], [];
      for i := 0 to |nodes|
        invariant roots == Roots(nodes[..i])
        invariant forall id :: Lookup(below, id) == Children(nodes[..i], {id})
      {
        var n := nodes[i];
        assert nodes[..i + 1] == nodes[..i] + [n];
        RootsSnoc(nodes[..i], n);
        NodeGrouped(below, nodes[..i], n);
        if n.parent.None? { roots := roots + [n]; }
        else { below := below[n.parent.value := Lookup(below, n.parent.value) + [n]]; }
      }
      assert nodes[..|nodes|] == nodes;
    }

    /** Render the tree: one pass over the devices, one over the nodes, then the recursive build. */
    method Render() returns (sites: seq<Branch>, unassigned: seq<Device>)
      requires Valid()
      ensures multiset(NodesIn(sites)) == multiset(nodes)
      ensures multiset(DevicesIn(sites) + unassigned) == multiset(devices)
      ensures sites == Tree(nodes, devices) && unassigned == Unassigned(devices)
    {
      var byNode, below, roots;
      byNode, unassigned := GroupDevices();
      below, roots := GroupNodes();
      RootsRanked(nodes);
      sites := BuildList(byNode, below, roots, 2);
      TreeListsNodes(nodes, devices);
      TreeListsDevices(nodes, devices);
    }

    method BuildList(byNode: map<int, seq<Device>>, below: map<int, seq<Node>>, ns: seq<Node>, rank: nat)
      returns (bs: seq<Branch>)
      requires Valid() && Ranked(nodes, ns, rank)
      requires forall id :: Lookup(byNode, id) == On(devices, {id})
      requires forall id :: Lookup(below, id) == Children(nodes, {id})
      ensures bs == BuildAll(nodes, devices, ns, rank)
      decreases rank, |ns|
    {
      if ns == [] { return []; }
      var n := ns[0];
      assert n in ns;
      ChildrenRanked(nodes, n);
      var kids := BuildList(byNode, below, Lookup(below, n.id), Rank(n.kind));
      var rest := BuildList(byNode, below, ns[1..], rank);
      bs := [Branch(n, Lookup(byNode, n.id), kids)] + rest;
    }
  }

  /** `dict.get(id, [])`. */
  function Lookup<V>(m: map<int, seq<V>>, id: int): seq<V> {
    if id in m then m[id] else []
  }

  lemma UnassignedSnoc(devices: seq<Device>, d: Device)
    ensures Unassigned(devices + [d]) == if d.node == None then Unassigned(devices) + [d] else Unassigned(devices)
  {
    assert (devices + [d])[..|devices|] == devices;
  }

  lemma OnSnoc(devices: seq<Device>, d: Device, id: int)
    ensures On(devices + [d], {id}) == if d.node == Some(id) then On(devices, {id}) + [d] else On(devices, {id})
  {
    assert (devices + [d])[..|devices|] == devices;
  }

  lemma DeviceGrouped(byNode: map<int, seq<Device>>, devices: seq<Device>, d: Device)
    requires forall id :: Lookup(byNode, id) == On(devices, {id})
    ensures var next := if d.node.None? then byNode else byNode[d.node.value := Lookup(byNode, d.node.value) + [d]];
      forall id :: Lookup(next, id) == On(devices + [d], {id})
  {
    var next := if d.node.None? then byNode else byNode[d.node.value := Lookup(byNode, d.node.value) + [d]];
    forall id ensures Lookup(next, id) == On(devices + [d], {id}) {
      OnSnoc(devices, d, id);
      assert Lookup(byNode, id) == On(devices, {id});
    }
  }

  lemma RootsSnoc(nodes: seq<Node>, n: Node)
    ensures Roots(nodes + [n]) == if n.parent == None then Roots(nodes) + [n] else Roots(nodes)
  {
    assert (nodes + [n])[..|nodes|] == nodes;
  }

  lemma ChildrenSnoc(nodes: seq<Node>, n: Node, id: int)
    ensures Children(nodes + [n], {id}) ==
      if n.parent == Some(id) then Children(nodes, {id}) + [n] else Children(nodes, {id})
  {
    assert (nodes + [n])[..|nodes|] == nodes;
  }

  lemma NodeGrouped(below: map<int, seq<Node>>, nodes: seq<Node>, n: Node)
    requires forall id :: Lookup(below, id) == Children(nodes, {id})
    ensures var next := if n.parent.None? then below else below[n.parent.value := Lookup(below, n.parent.value) + [n]];
      forall id :: Lookup(next, id) == Children(nodes + [n], {id})
  {
    var next := if n.parent.None? then below else below[n.parent.value := Lookup(below, n.parent.value) + [n]];
    forall id ensures Lookup(next, id) == Children(nodes + [n], {id}) {
      ChildrenSnoc(nodes, n, id);
      assert Lookup(below, id) == Children(nodes, {id});
    }
  }

  lemma KeepsLookups(nodes: seq<Node>, n: Node)
    ensures forall id :: HasNode(nodes, id) ==> HasNode(nodes + [n], id)
    ensures forall id :: HasSite(nodes, id) ==> HasSite(nodes + [n], id)
  {
    forall i | 0 <= i < |nodes| ensures (nodes + [n])[i] == nodes[i] {}
  }

  lemma DropLookup(nodes: seq<Node>, i: nat, id: int)
    requires i < |nodes| && nodes[i].id != id
    ensures HasNode(nodes, id) ==> HasNode(nodes[..i] + nodes[i + 1..], id)
    ensures HasSite(nodes, id) ==> HasSite(nodes[..i] + nodes[i + 1..], id)
  {
    var rest := nodes[..i] + nodes[i + 1..];
    forall k | 0 <= k < |nodes| && k != i ensures nodes[k] == rest[if k < i then k else k - 1] {}
  }

  /** Deleting a node nobody points at keeps the hierarchy sound. */
  lemma DropKeeps(nodes: seq<Node>, devices: seq<Device>, i: nat)
    requires NodesOk(nodes) && DevicesOk(nodes, devices) && i < |nodes|
    requires Children(nodes, {nodes[i].id}) == [] && On(devices, {nodes[i].id}) == []
    ensures NodesOk(nodes[..i] + nodes[i + 1..]) && DevicesOk(nodes[..i] + nodes[i + 1..], devices)
  {
    var rest := nodes[..i] + nodes[i + 1..];
    assert DevicesOk(rest, devices) by {
      forall k | 0 <= k < |devices| && devices[k].node.Some? ensures HasNode(rest, devices[k].node.value) {
        InOn(devices, {nodes[i].id}, devices[k]);
        DropLookup(nodes, i, devices[k].node.value);
      }
    }
    forall k | 0 <= k < |rest| && rest[k].kind == Line
      ensures rest[k].parent.Some? && HasSite(rest, rest[k].parent.value) {
      var n := nodes[if k < i then k else k + 1];
      assert rest[k] == n;
      InChildren(nodes, {nodes[i].id}, n);
      DropLookup(nodes, i, n.parent.value);
    }
  }
}

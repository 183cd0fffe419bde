/** Node pools as the shifter sees them (pkg/shifter/shifter.go): their size and the pairing of on-demand pools with
    preemptible ones. */
module NodePools {
  import opened Common

  /** A node of the cluster: its name, its pool and its zone label. */
  datatype Node = Node(name: string, pool: string, zone: string)

  // ----- size -----

  function CountZone(nodes: seq<Node>, zone: string): nat {
    if nodes == [] then 0
    else CountZone(nodes[..|nodes| - 1], zone) + if nodes[|nodes| - 1].zone == zone then 1 else 0
  }

  /** The largest number of nodes in one zone, 0 without nodes. */
  ghost predicate IsPoolSize(nodes: seq<Node>, size: nat) {
    && (forall z :: CountZone(nodes, z) <= size)
    && (size == 0 || exists z :: CountZone(nodes, z) == size)
  }

  lemma {:induction false} PoolSizeExists(nodes: seq<Node>)
    ensures exists size: nat :: IsPoolSize(nodes, size)
  {
    if nodes == [] {
      assert IsPoolSize(nodes, 0);
    } else {
      var init, z := nodes[..|nodes| - 1], nodes[|nodes| - 1].zone;
      PoolSizeExists(init);
      var size: nat :| IsPoolSize(init, size);
      if CountZone(nodes, z) > size {
        assert IsPoolSize(nodes, CountZone(nodes, z));
      } else {
        if size > 0 {
          var y :| CountZone(init, y) == size;
          assert y != z && CountZone(nodes, y) == size;
        }
        assert IsPoolSize(nodes, size);
      }
    }
  }

  lemma {:induction false} PoolSizeUnique(nodes: seq<Node>, a: nat, b: nat)
    requires IsPoolSize(nodes, a) && IsPoolSize(nodes, b)
    ensures a == b
  {
  }

  ghost function PoolSize(nodes: seq<Node>): (size: nat)
    ensures IsPoolSize(nodes, size)
  {
    PoolSizeExists(nodes);
    var size: nat :| IsPoolSize(nodes, size);
    size
  }

  lemma {:induction false} EmptyPoolSize()
    ensures PoolSize([]) == 0
  {
    assert IsPoolSize([], 0);
    PoolSizeUnique([], PoolSize([]), 0);
  }

  lemma {:induction false} CountZonePositive(nodes: seq<Node>, zone: string)
    ensures CountZone(nodes, zone) > 0 <==> exists i :: 0 <= i < |nodes| && nodes[i].zone == zone
  {
    if nodes != [] {
      CountZonePositive(nodes[..|nodes| - 1], zone);
    }
  }

  /** The counting loop and the loop over the zones, which Go visits in any order, find the pool size. */
  method GetNodePoolSize(nodes: seq<Node>) returns (max: nat)
    ensures max == PoolSize(nodes)
  {
    var nodeZoneWise: map<string, nat> := map[];
    for i := 0 to |nodes|
      invariant forall z :: if z in nodeZoneWise then nodeZoneWise[z] == CountZone(nodes[..i], z)
                            else CountZone(nodes[..i], z) == 0
    {
      assert nodes[..i + 1][..i] == nodes[..i];
      var zone := nodes[i].zone;
      if zone in nodeZoneWise {
        nodeZoneWise := nodeZoneWise[zone := nodeZoneWise[zone] + 1];
      } else {
        nodeZoneWise := nodeZoneWise[zone := 1];
      }
    }
    assert nodes[..|nodes|] == nodes;
    max := 0;
    var left := nodeZoneWise.Keys;
    while left != {}
      invariant left <= nodeZoneWise.Keys
      invariant forall z :: z in nodeZoneWise && z !in left ==> nodeZoneWise[z] <= max
      invariant max == 0 || exists z :: CountZone(nodes, z) == max
      decreases left
    {
      var zone :| zone in left;
      left := left - {zone};
      var count := nodeZoneWise[zone];
      if count > max {
        max := count;
        assert CountZone(nodes, zone) == max;
      }
    }
    assert forall z :: CountZone(nodes, z) <= max;
    PoolSizeUnique(nodes, max, PoolSize(nodes));
  }

  lemma {:induction false} CountZoneConcat(a: seq<Node>, b: seq<Node>, zone: string)
    ensures CountZone(a + b, zone) == CountZone(a, zone) + CountZone(b, zone)
  {
    if b == [] {
      assert a + b == a;
    } else {
      CountZoneConcat(a, b[..|b| - 1], zone);
      assert (a + b)[..|a + b| - 1] == a + b[..|b| - 1];
    }
  }

  function Removed(s: seq<Node>, k: nat): seq<Node>
    requires k < |s|
  {
    s[..k] + s[k + 1..]
  }

  lemma {:induction false} RemovedFacts(s: seq<Node>, k: nat, zone: string)
    requires k < |s|
    ensures multiset(Removed(s, k)) == multiset(s) - multiset{s[k]}
    ensures CountZone(s, zone) == CountZone(Removed(s, k), zone) + if s[k].zone == zone then 1 else 0
  {
    var a, b := s[..k], s[k + 1..];
    assert s == a + ([s[k]] + b);
    CountZoneConcat(a, [s[k]] + b, zone);
    CountZoneConcat([s[k]], b, zone);
    CountZoneConcat(a, b, zone);
    assert [s[k]][..0] == [];
  }

  lemma {:induction false} CountZoneOrder(a: seq<Node>, b: seq<Node>, zone: string)
    requires multiset(a) == multiset(b)
    ensures CountZone(a, zone) == CountZone(b, zone)
  {
    if a == [] {
      assert |multiset(b)| == 0;
    } else {
      assert a[0] in multiset(b);
      var k :| 0 <= k < |b| && b[k] == a[0];
      RemovedFacts(a, 0, zone);
      RemovedFacts(b, k, zone);
      CountZoneOrder(Removed(a, 0), Removed(b, k), zone);
    }
  }

  /** The size does not depend on the order in which the nodes are listed. */
  lemma {:induction false} PoolSizeOrder(a: seq<Node>, b: seq<Node>)
    requires multiset(a) == multiset(b)
    ensures PoolSize(a) == PoolSize(b)
  {
    forall z ensures CountZone(a, z) == CountZone(b, z) {
      CountZoneOrder(a, b, z);
    }
    assert IsPoolSize(b, PoolSize(a));
    PoolSizeUnique(b, PoolSize(a), PoolSize(b));
  }

  function OutsideZone(nodes: seq<Node>, zone: string): seq<Node> {
    if nodes == [] then []
    else
      var last := nodes[|nodes| - 1];
      var rest := OutsideZone(nodes[..|nodes| - 1], zone);
      if last.zone == zone then rest else rest + [last]
  }

  lemma {:induction false} OutsideZoneSize(nodes: seq<Node>, zone: string)
    ensures |nodes| == CountZone(nodes, zone) + |OutsideZone(nodes, zone)|
    ensures forall n :: n in OutsideZone(nodes, zone) ==> n in nodes && n.zone != zone
  {
    if nodes != [] {
      OutsideZoneSize(nodes[..|nodes| - 1], zone);
    }
  }

  lemma {:induction false} OutsideZoneCount(nodes: seq<Node>, zone: string, z: string)
    requires z != zone
    ensures CountZone(OutsideZone(nodes, zone), z) == CountZone(nodes, z)
  {
    if nodes != [] {
      var init, last := nodes[..|nodes| - 1], nodes[|nodes| - 1];
      OutsideZoneCount(init, zone, z);
      if last.zone != zone {
        assert OutsideZone(nodes, zone)[..|OutsideZone(nodes, zone)| - 1] == OutsideZone(init, zone);
      }
    }
  }

  /** k added n times. */
  ghost function Times(k: nat, n: nat): nat {
    if n == 0 then 0 else Times(k, n - 1) + k
  }

  lemma {:induction false} TimesIsProduct(k: nat, n: nat)
    ensures Times(k, n) == k * n
  {
    if n > 0 {
      TimesIsProduct(k, n - 1);
    }
  }

  lemma {:induction false} TimesNone(n: nat)
    ensures Times(0, n) == 0
  {
    if n > 0 {
      TimesNone(n - 1);
    }
  }

  lemma {:induction false} OneMorePerZone(k: nat, n: nat)
    ensures Times(k + 1, n) == Times(k, n) + n
  {
    if n > 0 {
      OneMorePerZone(k, n - 1);
    }
  }

  lemma {:induction false} NodesByZone(nodes: seq<Node>, zones: set<string>, k: nat)
    requires forall n :: n in nodes ==> n.zone in zones
    ensures (forall z :: z in zones ==> CountZone(nodes, z) <= k) ==> |nodes| <= Times(k, |zones|)
    ensures (forall z :: z in zones ==> CountZone(nodes, z) == k) ==> |nodes| == Times(k, |zones|)
    decreases |zones|
  {
    if nodes == [] {
      if zones != {} {
        var z :| z in zones;
        assert CountZone(nodes, z) == 0;
        TimesNone(|zones|);
      }
    } else {
      var zone := nodes[0].zone;
      assert nodes[0] in nodes;
      var rest, others := OutsideZone(nodes, zone), zones - {zone};
      OutsideZoneSize(nodes, zone);
      forall z | z in others ensures CountZone(rest, z) == CountZone(nodes, z) {
        OutsideZoneCount(nodes, zone, z);
      }
      NodesByZone(rest, others, k);
      assert |others| == |zones| - 1;
    }
  }

  /** The size lies between the share of a zone and the whole: size <= n <= size * zones; it is 0 only for no nodes. */
  lemma {:induction false} PoolSizeBounds(nodes: seq<Node>, zones: set<string>)
    requires forall n :: n in nodes ==> n.zone in zones
    ensures PoolSize(nodes) <= |nodes| <= PoolSize(nodes) * |zones|
    ensures PoolSize(nodes) == 0 <==> nodes == []
  {
    var size := PoolSize(nodes);
    NodesByZone(nodes, zones, size);
    TimesIsProduct(size, |zones|);
    if size > 0 {
      var z :| CountZone(nodes, z) == size;
      OutsideZoneSize(nodes, z);
    }
    if nodes != [] {
      CountZonePositive(nodes, nodes[0].zone);
    }
  }

  // ----- the cluster, pool by pool -----

  function InPool(nodes: seq<Node>, pool: string): seq<Node> {
    if nodes == [] then []
    else
      var last := nodes[|nodes| - 1];
      var rest := InPool(nodes[..|nodes| - 1], pool);
      if last.pool == pool then rest + [last] else rest
  }

  function OutOfPool(nodes: seq<Node>, pool: string): seq<Node> {
    if nodes == [] then []
    else
      var last := nodes[|nodes| - 1];
      var rest := OutOfPool(nodes[..|nodes| - 1], pool);
      if last.pool == pool then rest else rest + [last]
  }

  function Without(nodes: seq<Node>, name: string): seq<Node> {
    if nodes == [] then []
    else
      var last := nodes[|nodes| - 1];
      var rest := Without(nodes[..|nodes| - 1], name);
      if last.name == name then rest else rest + [last]
  }

  lemma {:induction false} PoolParts(nodes: seq<Node>, pool: string)
    ensures |nodes| == |InPool(nodes, pool)| + |OutOfPool(nodes, pool)|
    ensures forall n :: n in InPool(nodes, pool) <==> n in nodes && n.pool == pool
    ensures forall n :: n in OutOfPool(nodes, pool) <==> n in nodes && n.pool != pool
  {
    if nodes != [] {
      PoolParts(nodes[..|nodes| - 1], pool);
    }
    forall n ensures n in InPool(nodes, pool) <==> n in nodes && n.pool == pool {
      InPoolMember(nodes, pool, n);
    }
    forall n ensures n in OutOfPool(nodes, pool) <==> n in nodes && n.pool != pool {
      InPoolMember(nodes, pool, n);
    }
  }

  lemma {:induction false} InPoolMember(nodes: seq<Node>, pool: string, n: Node)
    ensures n in InPool(nodes, pool) <==> n in nodes && n.pool == pool
    ensures n in OutOfPool(nodes, pool) <==> n in nodes && n.pool != pool
  {
    if nodes != [] {
      InPoolMember(nodes[..|nodes| - 1], pool, n);
    }
  }

  lemma {:induction false} SomeMember(nodes: seq<Node>)
    ensures nodes == [] || exists n :: n in nodes
  {
    if nodes != [] {
      assert nodes[0] in nodes;
    }
  }

  lemma {:induction false} InOutPool(nodes: seq<Node>, out: string, pool: string)
    requires out != pool
    ensures InPool(OutOfPool(nodes, out), pool) == InPool(nodes, pool)
  {
    if nodes != [] {
      var init, last := nodes[..|nodes| - 1], nodes[|nodes| - 1];
      InOutPool(init, out, pool);
      if last.pool != out {
        assert OutOfPool(nodes, out)[..|OutOfPool(nodes, out)| - 1] == OutOfPool(init, out);
      }
    }
  }

  predicate UniqueNames(nodes: seq<Node>) {
    forall i, j :: 0 <= i < j < |nodes| ==> nodes[i].name != nodes[j].name
  }

  /** A cluster as the API shows it: names are unique and every zone label is one of the zones. */
  predicate WellFormed(nodes: seq<Node>, zones: set<string>) {
    UniqueNames(nodes) && forall i :: 0 <= i < |nodes| ==> nodes[i].zone in zones
  }

  lemma {:induction false} WithoutAbsent(nodes: seq<Node>, name: string)
    requires forall i :: 0 <= i < |nodes| ==> nodes[i].name != name
    ensures Without(nodes, name) == nodes
  {
    if nodes != [] {
      WithoutAbsent(nodes[..|nodes| - 1], name);
    }
  }

  lemma {:induction false} WithoutMember(nodes: seq<Node>, name: string, n: Node)
    ensures n in Without(nodes, name) <==> n in nodes && n.name != name
  {
    if nodes != [] {
      WithoutMember(nodes[..|nodes| - 1], name, n);
    }
  }

  /** Deleting a name removes one node at most and keeps the cluster well formed. */
  lemma {:induction false} WithoutFacts(nodes: seq<Node>, name: string, zones: set<string>)
    requires WellFormed(nodes, zones)
    ensures |Without(nodes, name)| >= |nodes| - 1
    ensures WellFormed(Without(nodes, name), zones)
  {
    if nodes != [] {
      var init, last := nodes[..|nodes| - 1], nodes[|nodes| - 1];
      forall i | 0 <= i < |init| ensures init[i].name != last.name {
        assert nodes[i].name != nodes[|init|].name;
      }
      if last.name == name {
        WithoutAbsent(init, name);
      } else {
        var rest := Without(init, name);
        WithoutFacts(init, name, zones);
        forall i | 0 <= i < |rest| ensures rest[i].name != last.name {
          WithoutMember(init, name, rest[i]);
        }
      }
    }
  }

  lemma {:induction false} WithoutOtherPool(nodes: seq<Node>, name: string, pool: string)
    requires forall i :: 0 <= i < |nodes| && nodes[i].name == name ==> nodes[i].pool != pool
    ensures InPool(Without(nodes, name), pool) == InPool(nodes, pool)
  {
    if nodes != [] {
      var init, last := nodes[..|nodes| - 1], nodes[|nodes| - 1];
      WithoutOtherPool(init, name, pool);
      if last.name != name {
        assert Without(nodes, name)[..|Without(nodes, name)| - 1] == Without(init, name);
      }
    }
  }

  lemma {:induction false} WithoutCount(nodes: seq<Node>, name: string, pool: string, zone: string)
    ensures CountZone(InPool(Without(nodes, name), pool), zone) <= CountZone(InPool(nodes, pool), zone)
  {
    if nodes != [] {
      var init, last := nodes[..|nodes| - 1], nodes[|nodes| - 1];
      var rest, all := InPool(Without(nodes, name), pool), InPool(nodes, pool);
      WithoutCount(init, name, pool, zone);
      assert last.pool == pool ==> all[..|all| - 1] == InPool(init, pool);
      assert last.name != name ==> Without(nodes, name)[..|Without(nodes, name)| - 1] == Without(init, name);
      assert last.name != name && last.pool == pool ==> rest[..|rest| - 1] == InPool(Without(init, name), pool);
    }
  }

  /** Deleting a node does not enlarge a pool. */
  lemma {:induction false} WithoutSize(nodes: seq<Node>, name: string, pool: string)
    ensures PoolSize(InPool(Without(nodes, name), pool)) <= PoolSize(InPool(nodes, pool))
  {
    var rest := InPool(Without(nodes, name), pool);
    if PoolSize(rest) > 0 {
      var z :| CountZone(rest, z) == PoolSize(rest);
      WithoutCount(nodes, name, pool, z);
    }
  }

  /** Deleting a node that is there takes exactly one node, from its own pool. */
  lemma {:induction false} WithoutPresent(nodes: seq<Node>, at: nat)
    requires UniqueNames(nodes) && at < |nodes|
    ensures |Without(nodes, nodes[at].name)| == |nodes| - 1
    ensures |InPool(Without(nodes, nodes[at].name), nodes[at].pool)| == |InPool(nodes, nodes[at].pool)| - 1
  {
    var init, last, name := nodes[..|nodes| - 1], nodes[|nodes| - 1], nodes[at].name;
    if at == |init| {
      forall i | 0 <= i < |init| ensures init[i].name != name {
        assert nodes[i].name != nodes[at].name;
      }
      WithoutAbsent(init, name);
    } else {
      assert nodes[at].name != nodes[|init|].name;
      assert init[at] == nodes[at];
      WithoutPresent(init, at);
      assert Without(nodes, name)[..|Without(nodes, name)| - 1] == Without(init, name);
    }
  }

  /** A granted resize: the pool has exactly `size` nodes in every zone, the other pools are as before. */
  predicate Resized(before: seq<Node>, after: seq<Node>, pool: string, size: nat, zones: set<string>) {
    && WellFormed(after, zones)
    && OutOfPool(after, pool) == OutOfPool(before, pool)
    && forall z :: z in zones ==> CountZone(InPool(after, pool), z) == size
  }

  /** Resizing to more than the size adds a node per zone at least, and shrinks no zone. */
  lemma {:induction false} ResizeGrows(before: seq<Node>, after: seq<Node>, pool: string, size: nat,
                                       zones: set<string>)
    requires WellFormed(before, zones) && size >= PoolSize(InPool(before, pool))
    requires Resized(before, after, pool, size + 1, zones)
    ensures |after| >= |before| + |zones|
    ensures forall z :: z in zones ==> CountZone(InPool(after, pool), z) > CountZone(InPool(before, pool), z)
  {
    var old_, new_ := InPool(before, pool), InPool(after, pool);
    PoolParts(before, pool);
    PoolParts(after, pool);
    forall n | n in old_ ensures n.zone in zones {
      assert n in before;
    }
    forall n | n in new_ ensures n.zone in zones {
      assert n in after;
    }
    NodesByZone(old_, zones, size);
    NodesByZone(new_, zones, size + 1);
    OneMorePerZone(size, |zones|);
  }

  // ----- pairing -----

  datatype NodePool = NodePool(name: string, preemptible: bool, labels: Option<map<string, string>>,
                               machineType: string, minNodeCount: int)

  datatype ShiftConf = ShiftConf(preemptibleNP: string, onDemandMinNodeCount: int)

  /** The preemptible pool has labels, and the on-demand pool has the same labels and machine type. */
  predicate Matches(pnp: NodePool, onp: NodePool) {
    pnp.labels != None && pnp.labels == onp.labels && pnp.machineType == onp.machineType
  }

  function PoolsOfKind(nps: seq<NodePool>, preemptible: bool): seq<NodePool> {
    if nps == [] then []
    else
      var last := nps[|nps| - 1];
      var rest := PoolsOfKind(nps[..|nps| - 1], preemptible);
      if last.preemptible == preemptible then rest + [last] else rest
  }

  function PairWith(m: map<string, ShiftConf>, pnp: NodePool, onps: seq<NodePool>): map<string, ShiftConf> {
    if onps == [] then m
    else
      var onp := onps[|onps| - 1];
      var before := PairWith(m, pnp, onps[..|onps| - 1]);
      if Matches(pnp, onp) then before[onp.name := ShiftConf(pnp.name, onp.minNodeCount)] else before
  }

  function PairAll(pnps: seq<NodePool>, onps: seq<NodePool>): map<string, ShiftConf> {
    if pnps == [] then map[] else PairWith(PairAll(pnps[..|pnps| - 1], onps), pnps[|pnps| - 1], onps)
  }

  function PoolMap(nps: seq<NodePool>): map<string, ShiftConf> {
    PairAll(PoolsOfKind(nps, true), PoolsOfKind(nps, false))
  }

  method GetNodePoolMap(nps: seq<NodePool>) returns (nodePoolMap: map<string, ShiftConf>)
    ensures nodePoolMap == PoolMap(nps)
  {
    var preemptibleNodePools: seq<NodePool>, onDemandNodePools: seq<NodePool> := [], [];
    for i := 0 to |nps|
      invariant preemptibleNodePools == PoolsOfKind(nps[..i], true)
      invariant onDemandNodePools == PoolsOfKind(nps[..i], false)
    {
      assert nps[..i + 1][..i] == nps[..i];
      if nps[i].preemptible {
        preemptibleNodePools := preemptibleNodePools + [nps[i]];
      } else {
        onDemandNodePools := onDemandNodePools + [nps[i]];
      }
    }
    assert nps[..|nps|] == nps;
    nodePoolMap := map[];
    for i := 0 to |preemptibleNodePools|
      invariant nodePoolMap == PairAll(preemptibleNodePools[..i], onDemandNodePools)
    {
      assert preemptibleNodePools[..i + 1][..i] == preemptibleNodePools[..i];
      var pnp := preemptibleNodePools[i];
      ghost var before := nodePoolMap;
      if pnp.labels != None {
        for j := 0 to |onDemandNodePools|
          invariant nodePoolMap == PairWith(before, pnp, onDemandNodePools[..j])
        {
          assert onDemandNodePools[..j + 1][..j] == onDemandNodePools[..j];
          var onp := onDemandNodePools[j];
          if pnp.labels == onp.labels && pnp.machineType == onp.machineType {
            nodePoolMap := nodePoolMap[onp.name := ShiftConf(pnp.name, onp.minNodeCount)];
          }
        }
        assert onDemandNodePools[..|onDemandNodePools|] == onDemandNodePools;
      } else {
        UnlabelledPairsNothing(nodePoolMap, pnp, onDemandNodePools);
      }
    }
    assert preemptibleNodePools[..|preemptibleNodePools|] == preemptibleNodePools;
  }

  lemma {:induction false} UnlabelledPairsNothing(m: map<string, ShiftConf>, pnp: NodePool, onps: seq<NodePool>)
    requires pnp.labels == None
    ensures PairWith(m, pnp, onps) == m
  {
    if onps != [] {
      UnlabelledPairsNothing(m, pnp, onps[..|onps| - 1]);
    }
  }

  /** The last preemptible pool of the list that matches. */
  function LastMatch(nps: seq<NodePool>, onp: NodePool): Option<NodePool> {
    if nps == [] then None
    else
      var last := nps[|nps| - 1];
      if last.preemptible && Matches(last, onp) then Some(last) else LastMatch(nps[..|nps| - 1], onp)
  }

  ghost predicate LastMatchAt(nps: seq<NodePool>, onp: NodePool, i: nat) {
    && i < |nps| && nps[i].preemptible && Matches(nps[i], onp)
    && forall j :: i < j < |nps| && nps[j].preemptible ==> !Matches(nps[j], onp)
  }

  lemma {:induction false} LastMatchIsLast(nps: seq<NodePool>, onp: NodePool)
    ensures match LastMatch(nps, onp)
            case None => forall i :: 0 <= i < |nps| && nps[i].preemptible ==> !Matches(nps[i], onp)
            case Some(p) => exists i: nat :: LastMatchAt(nps, onp, i) && nps[i] == p
  {
    if nps != [] {
      var init, last := nps[..|nps| - 1], nps[|nps| - 1];
      LastMatchIsLast(init, onp);
      if last.preemptible && Matches(last, onp) {
        assert LastMatchAt(nps, onp, |init|);
      } else if LastMatch(init, onp).Some? {
        var i: nat :| LastMatchAt(init, onp, i) && init[i] == LastMatch(init, onp).value;
        assert LastMatchAt(nps, onp, i);
      }
    }
  }

  predicate UniquePools(nps: seq<NodePool>) {
    forall i, j :: 0 <= i < j < |nps| ==> nps[i].name != nps[j].name
  }

  lemma {:induction false} KindMember(nps: seq<NodePool>, kind: bool)
    ensures forall p :: p in PoolsOfKind(nps, kind) <==> p in nps && p.preemptible == kind
    ensures UniquePools(nps) ==> UniquePools(PoolsOfKind(nps, kind))
  {
    if nps != [] {
      var init, last := nps[..|nps| - 1], nps[|nps| - 1];
      KindMember(init, kind);
      var rest := PoolsOfKind(init, kind);
      if UniquePools(nps) {
        forall i | 0 <= i < |rest| ensures rest[i].name != last.name {
          assert rest[i] in rest;
          var k :| 0 <= k < |init| && init[k] == rest[i];
          assert nps[k].name != nps[|init|].name;
        }
      }
    }
  }

  lemma {:induction false} LastMatchAmongPreemptible(nps: seq<NodePool>, onp: NodePool)
    ensures LastMatch(PoolsOfKind(nps, true), onp) == LastMatch(nps, onp)
  {
    if nps != [] {
      var init, last := nps[..|nps| - 1], nps[|nps| - 1];
      LastMatchAmongPreemptible(init, onp);
      if last.preemptible {
        var kind := PoolsOfKind(nps, true);
        assert kind[..|kind| - 1] == PoolsOfKind(init, true);
      }
    }
  }

  lemma {:induction false} PairWithAt(m: map<string, ShiftConf>, pnp: NodePool, onps: seq<NodePool>, k: string)
    requires UniquePools(onps)
    ensures (forall o :: o in onps ==> o.name != k) ==>
              (k in PairWith(m, pnp, onps) <==> k in m) && (k in m ==> PairWith(m, pnp, onps)[k] == m[k])
    ensures forall o :: o in onps && o.name == k ==>
              if Matches(pnp, o) then
                k in PairWith(m, pnp, onps) && PairWith(m, pnp, onps)[k] == ShiftConf(pnp.name, o.minNodeCount)
              else (k in PairWith(m, pnp, onps) <==> k in m) && (k in m ==> PairWith(m, pnp, onps)[k] == m[k])
  {
    if onps != [] {
      var init, last := onps[..|onps| - 1], onps[|onps| - 1];
      PairWithAt(m, pnp, init, k);
      if last.name == k {
        forall o | o in init ensures o.name != k {
          var i :| 0 <= i < |init| && init[i] == o;
          assert onps[i].name != onps[|init|].name;
        }
      }
    }
  }

  lemma {:induction false} PairAllAt(pnps: seq<NodePool>, onps: seq<NodePool>, k: string)
    requires UniquePools(onps) && forall p :: p in pnps ==> p.preemptible
    ensures (forall o :: o in onps ==> o.name != k) ==> k !in PairAll(pnps, onps)
    ensures forall o :: o in onps && o.name == k ==>
              match LastMatch(pnps, o)
              case None => k !in PairAll(pnps, onps)
              case Some(p) => k in PairAll(pnps, onps) && PairAll(pnps, onps)[k] == ShiftConf(p.name, o.minNodeCount)
  {
    if pnps != [] {
      var init, last := pnps[..|pnps| - 1], pnps[|pnps| - 1];
      assert last in pnps;
      PairAllAt(init, onps, k);
      PairWithAt(PairAll(init, onps), last, onps, k);
    }
  }

  /** The j-th pool of the listing can take over the nodes of the i-th: it is preemptible and the i-th is not, it has
      labels, and labels and machine types agree. */
  ghost predicate TakesOver(nps: seq<NodePool>, i: nat, j: nat) {
    && i < |nps| && j < |nps| && !nps[i].preemptible && nps[j].preemptible
    && nps[j].labels.Some? && nps[j].labels == nps[i].labels && nps[j].machineType == nps[i].machineType
  }

  /** The pairing, written out: a pool is shifted exactly when some pool can take over its nodes, onto the last pool of
      the listing that can, and with its own minimum. */
  lemma {:induction false} PairedIff(nps: seq<NodePool>, i: nat)
    requires UniquePools(nps) && i < |nps|
    ensures nps[i].name in PoolMap(nps) <==> exists j: nat :: TakesOver(nps, i, j)
    ensures forall j: nat :: TakesOver(nps, i, j) && (forall l: nat :: l > j ==> !TakesOver(nps, i, l)) ==>
              PoolMap(nps)[nps[i].name] == ShiftConf(nps[j].name, nps[i].minNodeCount)
  {
    var o := nps[i];
    PoolMapMeaning(nps, o.name);
    LastMatchIsLast(nps, o);
    forall p | p in nps && p.name == o.name ensures p == o {
      var l :| 0 <= l < |nps| && nps[l] == p;
      assert l == i || l < i || i < l;
    }
    if !o.preemptible {
      match LastMatch(nps, o)
      case Some(p) =>
        var last: nat :| LastMatchAt(nps, o, last) && nps[last] == p;
        assert TakesOver(nps, i, last);
        forall j: nat | TakesOver(nps, i, j) && forall l: nat :: l > j ==> !TakesOver(nps, i, l) ensures j == last {
          assert j >= last;
          assert Matches(nps[j], o);
        }
      case None =>
        forall j: nat ensures !TakesOver(nps, i, j) {
          assert j < |nps| && nps[j].preemptible ==> !Matches(nps[j], o);
        }
    }
  }

  /** With unique pool names the nested loops pair exactly the on-demand pools that have a matching preemptible pool,
      each with the last such pool of the listing and with its own minimum. */
  lemma {:induction false} PoolMapMeaning(nps: seq<NodePool>, k: string)
    requires UniquePools(nps)
    ensures k in PoolMap(nps) <==> exists o :: o in nps && !o.preemptible && o.name == k && LastMatch(nps, o).Some?
    ensures forall o :: o in nps && !o.preemptible && o.name == k && LastMatch(nps, o).Some? ==>
              PoolMap(nps)[k] == ShiftConf(LastMatch(nps, o).value.name, o.minNodeCount)
  {
    KindMember(nps, true);
    KindMember(nps, false);
    var onps := PoolsOfKind(nps, false);
    PairAllAt(PoolsOfKind(nps, true), onps, k);
    forall o ensures LastMatch(PoolsOfKind(nps, true), o) == LastMatch(nps, o) {
      LastMatchAmongPreemptible(nps, o);
    }
    if k in PoolMap(nps) {
      var o :| o in onps && o.name == k;
      assert o in nps && !o.preemptible && LastMatch(nps, o).Some?;
    }
  }
}

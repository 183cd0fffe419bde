/** Runs of the shifter without failures, built for any pool that one round of deletions empties: a pool that ends below
    its minimum, and the loss of capacity whenever the code counts more zones than the pools have. */
module ShiftExamples {
  import opened Common
  import opened NodePools
  import opened ShiftControl
  import opened ShiftCapacity
  import opened ShiftOutcome

  const ON_DEMAND := "on-demand"
  const PREEMPTIBLE := "preemptible"

  /** An on-demand pool with its minimum, and the preemptible pool that matches it. */
  function TwoPools(minimum: int): seq<NodePool> {
    [NodePool(PREEMPTIBLE, true, Some(map[]), "", 0), NodePool(ON_DEMAND, false, Some(map[]), "", minimum)]
  }

  lemma {:induction false} TwoPoolsPaired(minimum: int)
    ensures UniquePools(TwoPools(minimum))
    ensures PoolMap(TwoPools(minimum)) == map[ON_DEMAND := ShiftConf(PREEMPTIBLE, minimum)]
  {
    var nps := TwoPools(minimum);
    assert nps[..1] == [nps[0]] && nps[..1][..0] == [];
    assert PoolsOfKind(nps[..1], true) == [nps[0]] && PoolsOfKind(nps[..1], false) == [];
    assert PoolsOfKind(nps, true) == [nps[0]] && PoolsOfKind(nps, false) == [nps[1]];
    assert [nps[0]][..0] == [] && [nps[1]][..0] == [];
    var conf := ShiftConf(PREEMPTIBLE, minimum);
    assert PairWith(map[], nps[0], [nps[1]]) == PairWith(map[], nps[0], [])[ON_DEMAND := conf];
    assert PairAll([nps[0]], [nps[1]]) == PairWith(PairAll([], [nps[1]]), nps[0], [nps[1]]);
  }

  /** A run in which nothing was refused: it began with the nodes w0 and came to a stage and to the nodes w. */
  ghost predicate Reaches(zones: set<string>, k: nat, log: seq<Call>, worlds: seq<seq<Node>>, minimum: int,
                          w0: seq<Node>, s: Stage, w: seq<Node>)
    requires k > 0
  {
    && History(zones, log, worlds) && worlds[0] == w0 && worlds[|log|] == w
    && Run(k, log) == s && NoRefusal(log)
    && log != [] && log[0] == ListPools(Some(TwoPools(minimum)))
  }

  ghost predicate Reached(zones: set<string>, k: nat, minimum: int, w0: seq<Node>, s: Stage, w: seq<Node>)
    requires k > 0
  {
    exists log, worlds :: Reaches(zones, k, log, worlds, minimum, w0, s, w)
  }

  lemma {:induction false} Extended(zones: set<string>, k: nat, log: seq<Call>, worlds: seq<seq<Node>>, s: Stage,
                                    w: seq<Node>, c: Call, w': seq<Node>)
    requires k > 0 && History(zones, log, worlds) && worlds[|log|] == w && Run(k, log) == s && NoRefusal(log)
    requires WorldStep(zones, w, c, w') && Granted(c)
    ensures History(zones, log + [c], worlds + [w']) && Run(k, log + [c]) == Next(k, s, c) && NoRefusal(log + [c])
  {
    assert (log + [c])[..|log|] == log && (worlds + [w'])[..|log| + 1] == worlds;
    RunSnoc(k, log, c);
  }

  lemma {:induction false} Called(zones: set<string>, k: nat, minimum: int, w0: seq<Node>, s: Stage, w: seq<Node>,
                                  c: Call, s': Stage, w': seq<Node>)
    requires k > 0 && Reached(zones, k, minimum, w0, s, w) && WorldStep(zones, w, c, w') && Granted(c)
    requires s' == Next(k, s, c)
    ensures Reached(zones, k, minimum, w0, s', w')
  {
    var log, worlds :| Reaches(zones, k, log, worlds, minimum, w0, s, w);
    Extended(zones, k, log, worlds, s, w, c, w');
    assert Reaches(zones, k, log + [c], worlds + [w'], minimum, w0, s', w');
  }

  lemma {:induction false} Begun(zones: set<string>, k: nat, minimum: int, w: seq<Node>)
    requires k > 0 && WellFormed(w, zones)
    ensures Reached(zones, k, minimum, w, Choosing(PoolMap(TwoPools(minimum))), w)
  {
    TwoPoolsPaired(minimum);
    var c := ListPools(Some(TwoPools(minimum)));
    Extended(zones, k, [], [w], Start, w, c, w);
    assert Reaches(zones, k, [] + [c], [w] + [w], minimum, w, Choosing(PoolMap(TwoPools(minimum))), w);
  }

  /** From the size test to the end of the listing of the source. */
  lemma {:induction false} Listed(zones: set<string>, k: nat, minimum: int, w: seq<Node>)
    requires k > 0 && WellFormed(w, zones) && InPool(w, ON_DEMAND) == w && PoolSize(w) > minimum && w != []
    ensures Reached(zones, k, minimum, w, Fetching(Pass(ON_DEMAND, PREEMPTIBLE, Names(w), map[]), 0), w)
  {
    TwoPoolsPaired(minimum);
    Begun(zones, k, minimum, w);
    var plan, read := PoolMap(TwoPools(minimum)), ReadPool(ON_DEMAND, Some(w));
    assert plan - {ON_DEMAND} == map[];
    Called(zones, k, minimum, w, Choosing(plan), w, read, Sized(map[], ON_DEMAND, PREEMPTIBLE), w);
    Called(zones, k, minimum, w, Sized(map[], ON_DEMAND, PREEMPTIBLE), w, read,
           Fetching(Pass(ON_DEMAND, PREEMPTIBLE, Names(w), map[]), 0), w);
  }

  lemma {:induction false} CordonOne(zones: set<string>, k: nat, minimum: int, w: seq<Node>, p: Pass, i: nat)
    requires k > 0 && i < |p.names| && Reached(zones, k, minimum, w, Fetching(p, i), w)
    ensures Reached(zones, k, minimum, w, CordonLoop(k, p, i + 1), w)
  {
    Called(zones, k, minimum, w, Fetching(p, i), w, FetchNode(p.names[i], true), Cordoning(p, i), w);
    Called(zones, k, minimum, w, Cordoning(p, i), w, CordonNode(p.names[i], true), CordonLoop(k, p, i + 1), w);
  }

  /** From a fetch to the end of the cordoning loop. */
  lemma {:induction false} CordonAll(zones: set<string>, k: nat, minimum: int, w: seq<Node>, p: Pass, i: nat)
    requires k > 0 && i < |p.names| && Reached(zones, k, minimum, w, Fetching(p, i), w)
    ensures Reached(zones, k, minimum, w, Measuring(p, 0, 0), w)
    decreases |p.names| - i
  {
    CordonOne(zones, k, minimum, w, p, i);
    if i + 1 < |p.names| {
      CordonAll(zones, k, minimum, w, p, i + 1);
    }
  }

  /** The resize before the first deletion: the target is empty and gets one node per zone. */
  lemma {:induction false} GrowOnce(zones: set<string>, k: nat, minimum: int, w: seq<Node>, p: Pass, grown: seq<Node>)
    requires k > 0 && Reached(zones, k, minimum, w, Measuring(p, 0, 0), w)
    requires InPool(w, p.target) == [] && Resized(w, grown, p.target, 1, zones)
    ensures Reached(zones, k, minimum, w, Draining(p, 0, 0), grown)
  {
    EmptyPoolSize();
    Called(zones, k, minimum, w, Measuring(p, 0, 0), w, ReadPool(p.target, Some([])), Resizing(p, 0, 0, 0), w);
    Called(zones, k, minimum, w, Resizing(p, 0, 0, 0), w, Resize(p.target, 1, true), Draining(p, 0, 0), grown);
  }

  lemma {:induction false} OneRoundOnly(k: nat, p: Pass, i: nat)
    requires 0 < i <= |p.names| <= k
    ensures DrainLoop(k, p, i, i) == if i < |p.names| then Draining(p, i, i) else Choosing(p.todo)
  {
    if i < k {
      QuotientIs(k, i, 0, i);
    }
  }

  lemma {:induction false} DrainOne(zones: set<string>, k: nat, minimum: int, w0: seq<Node>, p: Pass, i: nat,
                                    w: seq<Node>)
    requires k > 0 && i < |p.names| && Reached(zones, k, minimum, w0, Draining(p, i, i), w)
    ensures Reached(zones, k, minimum, w0, DrainLoop(k, p, i + 1, i + 1), Without(w, p.names[i]))
  {
    var name := p.names[i];
    Called(zones, k, minimum, w0, Draining(p, i, i), w, Evacuate(name, true), Deleting(p, i, i), w);
    Called(zones, k, minimum, w0, Deleting(p, i, i), w, RemoveNode(name, true),
           DrainLoop(k, p, i + 1, i + 1), Without(w, name));
  }

  /** The drain loop over at most k nodes, so that the target is not resized again. */
  lemma {:induction false} DrainAll(zones: set<string>, k: nat, minimum: int, w0: seq<Node>, p: Pass, i: nat,
                                    w: seq<Node>)
    returns (w': seq<Node>)
    requires k > 0 && i < |p.names| <= k && Reached(zones, k, minimum, w0, Draining(p, i, i), w)
    requires WellFormed(w, zones) && SourceInv(p, i, i, w)
    ensures Reached(zones, k, minimum, w0, Choosing(p.todo), w') && |w'| == |w| - (|p.names| - i)
    decreases |p.names| - i
  {
    w' := Without(w, p.names[i]);
    SourceNodeGone(zones, p, i, w);
    OneRoundOnly(k, p, i + 1);
    DrainOne(zones, k, minimum, w0, p, i, w);
    if i + 1 < |p.names| {
      w' := DrainAll(zones, k, minimum, w0, p, i + 1, w');
    }
  }

  lemma {:induction false} SourceNodeGone(zones: set<string>, p: Pass, i: nat, w: seq<Node>)
    requires i < |p.names| && WellFormed(w, zones) && SourceInv(p, i, i, w)
    ensures var w' := Without(w, p.names[i]);
            |w'| == |w| - 1 && WellFormed(w', zones) && SourceInv(p, i + 1, i + 1, w')
  {
    assert Present(w, p.names[i], p.source);
    var m :| 0 <= m < |w| && w[m].name == p.names[i] && w[m].pool == p.source;
    WithoutPresent(w, m);
    WithoutFacts(w, p.names[i], zones);
    DeletionKeepsSource(w, p, i, i);
  }

  /** A complete run without failures over a pool of at most k nodes that is larger than its minimum. */
  lemma {:induction false} OneRound(zones: set<string>, k: nat, w: seq<Node>, minimum: int, grown: seq<Node>)
    returns (log: seq<Call>, worlds: seq<seq<Node>>)
    requires k > 0 && WellFormed(w, zones) && InPool(w, ON_DEMAND) == w && 0 < |w| <= k && PoolSize(w) > minimum
    requires Resized(w, grown, PREEMPTIBLE, 1, zones)
    ensures History(zones, log, worlds) && Run(k, log) == Choosing(map[]) && NoRefusal(log)
    ensures worlds[0] == w && |worlds[|log|]| == |grown| - |w|
    ensures Pairs(log) == map[ON_DEMAND := ShiftConf(PREEMPTIBLE, minimum)]
  {
    var p := Pass(ON_DEMAND, PREEMPTIBLE, Names(w), map[]);
    NoneInOtherPool(w, ON_DEMAND, PREEMPTIBLE);
    ListingPresent(w, ON_DEMAND, w, p);
    ResizeKeepsSource(w, grown, p, 0, 0);
    Listed(zones, k, minimum, w);
    CordonAll(zones, k, minimum, w, p, 0);
    GrowOnce(zones, k, minimum, w, p, grown);
    var after := DrainAll(zones, k, minimum, w, p, 0, grown);
    TwoPoolsPaired(minimum);
    log, worlds :| Reaches(zones, k, log, worlds, minimum, w, Choosing(map[]), after);
  }

  lemma {:induction false} NoneInOtherPool(w: seq<Node>, pool: string, other: string)
    requires InPool(w, pool) == w && pool != other
    ensures InPool(w, other) == []
  {
    PoolParts(w, pool);
    PoolParts(w, other);
    SomeMember(InPool(w, other));
  }

  // ----- below the minimum -----

  /** Two zones, an on-demand pool of two nodes in one of them with a minimum of one node per zone: after a run without
      failures the pool is empty. */
  lemma {:induction false} BelowMinimumExample() returns (zones: set<string>, log: seq<Call>, worlds: seq<seq<Node>>)
    ensures |zones| == 2 && History(zones, log, worlds) && Run(2, log) == Choosing(map[]) && NoRefusal(log)
    ensures Pairs(log) == map[ON_DEMAND := ShiftConf(PREEMPTIBLE, 1)]
    ensures PoolSize(InPool(worlds[0], ON_DEMAND)) == 2 && PoolSize(InPool(worlds[|log|], ON_DEMAND)) == 0
  {
    zones := {"a", "b"};
    var w := SourceNodes(2, "a");
    SourceNodesFacts(2, "a", zones);
    var grown := OneMorePer(w, zones, zones);
    log, worlds := OneRound(zones, 2, w, 1, grown);
    FullShiftEmptiesPool(zones, 2, log, worlds, ON_DEMAND);
    EmptyPoolSize();
  }

  // ----- more zones than the pools have -----

  function Name(j: nat): string { seq(j, _ => 'o') }

  /** n on-demand nodes in one zone. */
  function SourceNodes(n: nat, zone: string): seq<Node> {
    seq(n, j requires 0 <= j < n => Node(Name(j), ON_DEMAND, zone))
  }

  lemma {:induction false} OnePoolOneZone(w: seq<Node>, pool: string, zone: string)
    requires forall i :: 0 <= i < |w| ==> w[i].pool == pool && w[i].zone == zone
    ensures InPool(w, pool) == w && forall z :: CountZone(w, z) == if z == zone then |w| else 0
  {
    if w != [] {
      OnePoolOneZone(w[..|w| - 1], pool, zone);
    }
  }

  lemma {:induction false} SourceNodesFacts(n: nat, zone: string, zones: set<string>)
    requires zone in zones
    ensures WellFormed(SourceNodes(n, zone), zones) && InPool(SourceNodes(n, zone), ON_DEMAND) == SourceNodes(n, zone)
    ensures PoolSize(SourceNodes(n, zone)) == n
  {
    var w := SourceNodes(n, zone);
    forall i, j | 0 <= i < j < |w| ensures w[i].name != w[j].name {
      assert |w[i].name| == i && |w[j].name| == j;
    }
    OnePoolOneZone(w, ON_DEMAND, zone);
    assert CountZone(w, zone) == n && IsPoolSize(w, n);
    PoolSizeUnique(w, n, PoolSize(w));
  }

  /** One preemptible node in each of some zones added to on-demand nodes. */
  lemma {:induction false} OneMorePer(w: seq<Node>, some: set<string>, zones: set<string>) returns (grown: seq<Node>)
    requires some <= zones && WellFormed(w, zones) && InPool(w, ON_DEMAND) == w
    requires forall i :: 0 <= i < |w| ==> w[i].name == Name(i)
    ensures WellFormed(grown, zones) && OutOfPool(grown, PREEMPTIBLE) == OutOfPool(w, PREEMPTIBLE)
    ensures forall z :: CountZone(InPool(grown, PREEMPTIBLE), z) == if z in some then 1 else 0
    ensures |grown| == |w| + |some|
    ensures w <= grown
    ensures forall i :: |w| <= i < |grown| ==> grown[i].zone in some && grown[i].name == "p" + grown[i].zone
    decreases |some|
  {
    if some == {} {
      grown := w;
      NoneInOtherPool(w, ON_DEMAND, PREEMPTIBLE);
    } else {
      var z :| z in some;
      var before := OneMorePer(w, some - {z}, zones);
      var new_ := Node("p" + z, PREEMPTIBLE, z);
      grown := before + [new_];
      assert grown[..|before|] == before;
      forall i | 0 <= i < |before| ensures before[i].name != new_.name {
        if i < |w| {
          assert before[i].name == Name(i) && (i == 0 || Name(i)[0] == 'o');
        } else {
          assert before[i].name[1..] == before[i].zone && new_.name[1..] == z;
        }
      }
      var all := InPool(grown, PREEMPTIBLE);
      assert all[..|all| - 1] == InPool(before, PREEMPTIBLE);
    }
  }

  /** When the code counts more zones than the pools have, a run without failures can lose nodes. */
  lemma {:induction false} CapacityLost(zones: set<string>, k: nat) returns (log: seq<Call>, worlds: seq<seq<Node>>)
    requires 0 < |zones| < k
    ensures History(zones, log, worlds) && Run(k, log) == Choosing(map[]) && NoRefusal(log)
    ensures |worlds[|log|]| == |zones| < |worlds[0]|
  {
    var zone :| zone in zones;
    var w := SourceNodes(k, zone);
    SourceNodesFacts(k, zone, zones);
    var grown := OneMorePer(w, zones, zones);
    log, worlds := OneRound(zones, k, w, 0, grown);
  }

  /** No run loses nodes if and only if the code counts at most the zones of the pools. */
  lemma {:induction false} CapacityIff(zones: set<string>, k: nat)
    requires zones != {} && k > 0
    ensures k <= |zones| <==> forall log, worlds :: History(zones, log, worlds) && Run(k, log) != Stuck ==>
                                |worlds[|log|]| >= |worlds[0]|
  {
    if k <= |zones| {
      forall log, worlds | History(zones, log, worlds) && Run(k, log) != Stuck
        ensures |worlds[|log|]| >= |worlds[0]|
      {
        CapacityConserved(zones, k, log, worlds, |log|);
      }
    } else {
      var log, worlds := CapacityLost(zones, k);
      assert Run(k, log) != Stuck;
    }
  }
}

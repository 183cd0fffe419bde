/** How large the targets of a shifter run become: exactly, at every point of every run, and at the end of a run without
    failures. */
module ShiftGrowth {
  import opened Common
  import opened NodePools
  import opened ShiftControl
  import opened ShiftCapacity
  import opened ShiftProgress
  import opened ShiftOutcome

  // ----- the size of a pool that is no source -----

  /** The granted resizes of a pool. */
  function GrownBy(log: seq<Call>, t: string): nat {
    if log == [] then 0
    else
      var c := log[|log| - 1];
      GrownBy(log[..|log| - 1], t) + if c.Resize? && c.pool == t && c.ok then 1 else 0
  }

  /** Every zone has the same number of nodes of the pool. */
  ghost predicate Even(nodes: seq<Node>, zones: set<string>, size: nat) {
    forall z :: z in zones ==> CountZone(nodes, z) == size
  }

  lemma {:induction false} EvenSize(nodes: seq<Node>, zones: set<string>, size: nat)
    requires zones != {} && Even(nodes, zones, size) && forall n :: n in nodes ==> n.zone in zones
    ensures PoolSize(nodes) == size
  {
    assert forall i :: 0 <= i < |nodes| ==> nodes[i] in nodes;
    forall z ensures CountZone(nodes, z) <= size {
      CountZonePositive(nodes, z);
    }
    var z :| z in zones;
    assert CountZone(nodes, z) == size && IsPoolSize(nodes, size);
    PoolSizeUnique(nodes, PoolSize(nodes), size);
  }

  lemma {:induction false} InZones(w: seq<Node>, pool: string, zones: set<string>)
    requires WellFormed(w, zones)
    ensures forall n :: n in InPool(w, pool) ==> n.zone in zones
  {
    PoolParts(w, pool);
  }

  /** Where a pool stands that began as w0 and was enlarged `grown` times; a size that was read is still right. */
  ghost predicate Stands(zones: set<string>, s: Stage, w0: seq<Node>, w: seq<Node>, t: string, grown: nat) {
    && (s.Resizing? ==> s.size == PoolSize(InPool(w, s.p.target)))
    && (s != Halted ==> PoolSize(InPool(w, t)) == PoolSize(InPool(w0, t)) + grown)
    && (s != Halted && grown > 0 ==> Even(InPool(w, t), zones, PoolSize(InPool(w0, t)) + grown))
    && (s != Halted && grown == 0 ==> InPool(w, t) == InPool(w0, t))
  }

  lemma {:induction false} StandsStep(zones: set<string>, k: nat, s: Stage, w0: seq<Node>, w: seq<Node>, c: Call,
                                      w': seq<Node>, t: string, grown: nat)
    requires k > 0 && zones != {} && WorldStep(zones, w, c, w') && Next(k, s, c) != Stuck
    requires PassInv(s, w) && CapacityInv(zones, k, 0, s, w) && (s.Deleting? ==> s.p.source != t)
    requires Stands(zones, s, w0, w, t, grown)
    ensures Stands(zones, Next(k, s, c), w0, w', t, grown + if c.Resize? && c.pool == t && c.ok then 1 else 0)
  {
    if s.Resizing? && s.p.target == t {
      if c.ok {
        InZones(w', t, zones);
        EvenSize(InPool(w', t), zones, s.size + 1);
      }
    } else {
      KeptPoolStep(zones, k, s, w, c, w', t);
    }
    if s.Measuring? && c.nodes.Some? {
      PoolSizeOrder(c.nodes.value, InPool(w, s.p.target));
    }
  }

  lemma {:induction false} StandsHolds(zones: set<string>, k: nat, log: seq<Call>, worlds: seq<seq<Node>>, t: string)
    requires k > 0 && zones != {} && History(zones, log, worlds) && Run(k, log) != Stuck && t !in Pairs(log)
    ensures Stands(zones, Run(k, log), worlds[0], worlds[|log|], t, GrownBy(log, t))
    decreases |log|
  {
    if log != [] {
      var i := |log| - 1;
      KnownAt(zones, k, log, worlds, i);
      HistoryPrefix(zones, log, worlds, i);
      StandsHolds(zones, k, log[..i], worlds[..i + 1], t);
      assert worlds[..i + 1][i] == worlds[i] && log[..i + 1] == log;
      StandsStep(zones, k, Run(k, log[..i]), worlds[0], worlds[i], log[i], worlds[i + 1], t, GrownBy(log[..i], t));
    }
  }

  /** At every point of a run that was not stopped a pool that is no source has grown by exactly one per granted resize,
      and then it has as many nodes in each of the zones. */
  lemma {:induction false} GrowsByResizes(zones: set<string>, k: nat, log: seq<Call>, worlds: seq<seq<Node>>, t: string)
    requires k > 0 && zones != {} && History(zones, log, worlds) && t !in Pairs(log)
    requires Run(k, log) !in {Stuck, Halted}
    ensures PoolSize(InPool(worlds[|log|], t)) == PoolSize(InPool(worlds[0], t)) + GrownBy(log, t)
    ensures GrownBy(log, t) > 0 ==>
              Even(InPool(worlds[|log|], t), zones, PoolSize(InPool(worlds[0], t)) + GrownBy(log, t))
    ensures GrownBy(log, t) == 0 ==> InPool(worlds[|log|], t) == InPool(worlds[0], t)
  {
    StandsHolds(zones, k, log, worlds, t);
  }

  // ----- the resizes for one source -----

  /** The granted resizes made while the pool was worked off. */
  ghost function GrownFor(k: nat, log: seq<Call>, q: string): nat
    requires k > 0
  {
    if log == [] then 0
    else
      var before, c := log[..|log| - 1], log[|log| - 1];
      GrownFor(k, before, q) +
      if c.Resize? && c.ok && Run(k, before).Resizing? && Run(k, before).p.source == q then 1 else 0
  }

  /** Without refusals: a source has had one resize per round of k deletions, and one more within a round begun. */
  ghost predicate RoundsInv(k: nat, s: Stage, removed: nat, grown: nat, q: string)
    requires k > 0
  {
    var mine := Current(s).Some? && Current(s).value.0 == q;
    && (s.Start? || q in Left(s) || (mine && Preparing(s)) ==> removed == 0 && grown == 0)
    && (mine && InDrainLoop(s) ==> s.d == removed && (s.Measuring? || s.Resizing? ==> removed % k == 0))
    && grown == Rounds(k, removed) + if mine && (s.Draining? || s.Deleting?) && removed % k == 0 then 1 else 0
  }

  lemma {:induction false} RoundsStep(k: nat, s: Stage, c: Call, removed: nat, grown: nat, q: string,
                                      plan: map<string, ShiftConf>)
    requires k > 0 && Next(k, s, c) != Stuck && Granted(c) && RoundsInv(k, s, removed, grown, q) && Planned(s, plan)
    ensures RoundsInv(k, Next(k, s, c),
                      removed + (if c.RemoveNode? && c.ok && s.Deleting? && s.p.source == q then 1 else 0),
                      grown + (if c.Resize? && c.ok && s.Resizing? && s.p.source == q then 1 else 0), q)
  {
    assert Rounds(k, 0) == 0;
    assert Rounds(k, removed + 1) == Rounds(k, removed) + if removed % k == 0 then 1 else 0;
  }

  lemma {:induction false} RoundsAdvance(k: nat, before: seq<Call>, c: Call, q: string)
    requires k > 0 && Run(k, before + [c]) != Stuck && Granted(c)
    requires RoundsInv(k, Run(k, before), RemovedFrom(k, before, q), GrownFor(k, before, q), q)
    ensures RoundsInv(k, Run(k, before + [c]), RemovedFrom(k, before + [c], q), GrownFor(k, before + [c], q), q)
  {
    assert (before + [c])[..|before|] == before;
    PlannedHolds(k, before);
    RoundsStep(k, Run(k, before), c, RemovedFrom(k, before, q), GrownFor(k, before, q), q, Pairs(before));
  }

  lemma {:induction false} RoundsHold(k: nat, log: seq<Call>, q: string)
    requires k > 0 && Run(k, log) != Stuck && NoRefusal(log)
    ensures RoundsInv(k, Run(k, log), RemovedFrom(k, log, q), GrownFor(k, log, q), q)
  {
    if log != [] {
      var before, c := log[..|log| - 1], log[|log| - 1];
      StuckStays(k, c);
      RoundsHold(k, before, q);
      assert log == before + [c];
      RoundsAdvance(k, before, c, q);
    }
  }

  lemma {:induction false} DrainCalls(k: nat, s: Stage, c: Call)
    requires k > 0 && Next(k, s, c) != Stuck
    ensures s.Deleting? <==> c.RemoveNode?
    ensures s.Resizing? <==> c.Resize?
  {
  }

  lemma {:induction false} TakenFromSource(zones: set<string>, k: nat, log: seq<Call>, worlds: seq<seq<Node>>,
                                           q: string)
    requires k > 0 && History(zones, log, worlds) && Run(k, log) == Choosing(map[]) && NoRefusal(log)
    requires q in Pairs(log)
    ensures RemovedFrom(k, log, q) == if PoolSize(InPool(worlds[0], q)) > Pairs(log)[q].onDemandMinNodeCount
                                      then |InPool(worlds[0], q)| else 0
  {
    RemainingNodes(zones, k, log, worlds, q);
    FullShiftEmptiesPool(zones, k, log, worlds, q);
  }

  /** A complete run without refusals made one resize per k nodes taken from a source, rounded up. */
  lemma {:induction false} ResizesPerSource(zones: set<string>, k: nat, log: seq<Call>, worlds: seq<seq<Node>>,
                                            q: string)
    requires k > 0 && History(zones, log, worlds) && Run(k, log) == Choosing(map[]) && NoRefusal(log)
    requires q in Pairs(log)
    ensures GrownFor(k, log, q) == Share(k, worlds[0], Pairs(log), q)
  {
    RoundsHold(k, log, q);
    TakenFromSource(zones, k, log, worlds, q);
    RoundsIsCeiling(k, RemovedFrom(k, log, q));
  }

  // ----- the targets of a run without failures -----

  /** What a source adds to its target per zone: nothing when it does not exceed its minimum, otherwise its nodes
      divided by k, rounded up. */
  ghost function Share(k: nat, w0: seq<Node>, plan: map<string, ShiftConf>, q: string): nat
    requires k > 0 && q in plan
  {
    if PoolSize(InPool(w0, q)) > plan[q].onDemandMinNodeCount then (|InPool(w0, q)| + k - 1) / k else 0
  }

  ghost function Shares(k: nat, w0: seq<Node>, plan: map<string, ShiftConf>, qs: seq<string>): nat
    requires k > 0 && forall q :: q in qs ==> q in plan
  {
    if qs == [] then 0
    else Shares(k, w0, plan, qs[..|qs| - 1]) + Share(k, w0, plan, qs[|qs| - 1])
  }

  ghost function GrownForAll(k: nat, log: seq<Call>, qs: seq<string>): nat
    requires k > 0
  {
    if qs == [] then 0 else GrownForAll(k, log, qs[..|qs| - 1]) + GrownFor(k, log, qs[|qs| - 1])
  }

  /** The sources of a target. */
  ghost predicate SourcesOf(qs: seq<string>, plan: map<string, ShiftConf>, t: string) {
    Distinct(qs) && forall q :: q in qs <==> q in plan && plan[q].preemptibleNP == t
  }

  /** One more call counts for at most one of the sources. */
  lemma {:induction false} GrownForAllStep(k: nat, log: seq<Call>, qs: seq<string>)
    requires k > 0 && log != [] && Distinct(qs)
    ensures var before, c := log[..|log| - 1], log[|log| - 1];
            var s := Run(k, before);
            GrownForAll(k, log, qs) ==
              GrownForAll(k, before, qs) + if c.Resize? && c.ok && s.Resizing? && s.p.source in qs then 1 else 0
  {
    if qs != [] {
      var init, last := qs[..|qs| - 1], qs[|qs| - 1];
      forall i, j | 0 <= i < j < |init| ensures init[i] != init[j] {
        assert qs[i] != qs[j];
      }
      GrownForAllStep(k, log, init);
      forall i | 0 <= i < |init| ensures init[i] != last {
        assert qs[i] != qs[|init|];
      }
    }
  }

  /** Every resize of a target belongs to one of its sources. */
  lemma {:induction false} GrownTogether(k: nat, log: seq<Call>, qs: seq<string>, t: string)
    requires k > 0 && Run(k, log) != Stuck && SourcesOf(qs, Pairs(log), t)
    ensures GrownBy(log, t) == GrownForAll(k, log, qs)
  {
    if log == [] {
      NoGrowth(k, qs);
    } else if |log| == 1 {
      GrownForAllStep(k, log, qs);
      NoGrowth(k, qs);
      DrainCalls(k, Start, log[0]);
    } else {
      var before, c := log[..|log| - 1], log[|log| - 1];
      StuckStays(k, c);
      GrownTogether(k, before, qs, t);
      GrownForAllStep(k, log, qs);
      PlannedHolds(k, before);
      DrainStages(k, Run(k, before), c);
    }
  }

  lemma {:induction false} NoGrowth(k: nat, qs: seq<string>)
    requires k > 0
    ensures GrownForAll(k, [], qs) == 0
  {
    if qs != [] {
      NoGrowth(k, qs[..|qs| - 1]);
    }
  }

  lemma {:induction false} SharesAre(zones: set<string>, k: nat, log: seq<Call>, worlds: seq<seq<Node>>,
                                     qs: seq<string>)
    requires k > 0 && History(zones, log, worlds) && Run(k, log) == Choosing(map[]) && NoRefusal(log)
    requires forall q :: q in qs ==> q in Pairs(log)
    ensures GrownForAll(k, log, qs) == Shares(k, worlds[0], Pairs(log), qs)
  {
    if qs != [] {
      assert qs[|qs| - 1] in qs;
      SharesAre(zones, k, log, worlds, qs[..|qs| - 1]);
      ResizesPerSource(zones, k, log, worlds, qs[|qs| - 1]);
    }
  }

  /** A complete run without refusals makes a target larger, in every zone alike, by what its sources add up to: each
      source that exceeds its minimum adds its number of nodes divided by k, rounded up. */
  lemma {:induction false} TargetEndsWith(zones: set<string>, k: nat, log: seq<Call>, worlds: seq<seq<Node>>,
                                          qs: seq<string>, t: string)
    requires k > 0 && zones != {}
    requires History(zones, log, worlds) && Run(k, log) == Choosing(map[]) && NoRefusal(log)
    requires SourcesOf(qs, Pairs(log), t) && t !in Pairs(log)
    ensures var grown, start := Shares(k, worlds[0], Pairs(log), qs), PoolSize(InPool(worlds[0], t));
            if grown == 0 then InPool(worlds[|log|], t) == InPool(worlds[0], t)
            else Even(InPool(worlds[|log|], t), zones, start + grown)
  {
    GrownTogether(k, log, qs, t);
    SharesAre(zones, k, log, worlds, qs);
    GrowsByResizes(zones, k, log, worlds, t);
  }
}

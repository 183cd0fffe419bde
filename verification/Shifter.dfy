/** The shifter (pkg/shifter/shifter.go) on a cloud whose answers and new nodes are arbitrary within WorldStep. */
module Shifter {
  import opened Common
  import opened NodePools
  import opened ShiftControl
  import opened ShiftCapacity
  import opened ShiftProgress

  /** The log was `before` when the run began, and the run is now at the given stage. */
  ghost predicate At(zones: nat, log: seq<Call>, before: seq<Call>, stage: Stage)
    requires zones > 0
  {
    before <= log && Run(zones, log[|before|..]) == stage
  }

  lemma {:induction false} Began(zones: nat, log: seq<Call>)
    requires zones > 0
    ensures At(zones, log, log, Start)
  {
  }

  lemma {:induction false} Advanced(zones: nat, log: seq<Call>, before: seq<Call>, stage: Stage, c: Call)
    requires zones > 0 && At(zones, log, before, stage)
    ensures At(zones, log + [c], before, Next(zones, stage, c))
  {
    assert (log + [c])[|before|..] == log[|before|..] + [c];
    RunSnoc(zones, log[|before|..], c);
  }

  /** The cluster together with the API in front of it. Every call is recorded with its answer, and the state of the
      cluster after it. */
  class Cloud {
    const zones: set<string>   // where the pools have their nodes
    const regionZones: nat     // how many zones the region has
    var nodes: seq<Node>
    var log: seq<Call>
    ghost var worlds: seq<seq<Node>>

    ghost predicate Valid()
      reads this
    {
      History(zones, log, worlds) && worlds[|log|] == nodes
    }

    constructor (zones: set<string>, regionZones: nat, nodes: seq<Node>)
      requires WellFormed(nodes, zones)
      ensures Valid() && this.zones == zones && this.regionZones == regionZones && this.nodes == nodes && log == []
    {
      this.zones, this.regionZones, this.nodes, log, worlds := zones, regionZones, nodes, [], [nodes];
    }

    method GetNumberOfZones() returns (zoneCount: nat)
      ensures zoneCount == regionZones
    {
      zoneCount := regionZones;
    }

    /** Records a call and moves to the state it leads to. */
    method Record(c: Call, after: seq<Node>)
      requires Valid() && WorldStep(zones, nodes, c, after)
      modifies this
      ensures Valid() && log == old(log) + [c] && nodes == after && worlds == old(worlds) + [after]
    {
      assert (log + [c])[..|log|] == log && (worlds + [after])[..|log| + 1] == worlds;
      nodes, log, worlds := after, log + [c], worlds + [after];
    }

    method ListNodePools() returns (answer: Option<seq<NodePool>>)
      requires Valid()
      modifies this
      ensures Valid() && log == old(log) + [ListPools(answer)] && worlds == old(worlds) + [nodes]
    {
      answer := *;
      if answer.Some? && !UniquePools(answer.value) {
        answer := None;
      }
      Record(ListPools(answer), nodes);
    }

    method GetNodes(pool: string) returns (answer: Option<seq<Node>>)
      requires Valid()
      modifies this
      ensures Valid() && log == old(log) + [ReadPool(pool, answer)] && worlds == old(worlds) + [nodes]
    {
      answer := *;
      if answer.Some? && !WorldStep(zones, nodes, ReadPool(pool, answer), nodes) {
        answer := None;
      }
      Record(ReadPool(pool, answer), nodes);
    }

    method GetNode(name: string) returns (ok: bool)
      requires Valid()
      modifies this
      ensures Valid() && log == old(log) + [FetchNode(name, ok)] && worlds == old(worlds) + [nodes]
    {
      ok := *;
      Record(FetchNode(name, ok), nodes);
    }

    method UpdateNode(name: string) returns (ok: bool)
      requires Valid()
      modifies this
      ensures Valid() && log == old(log) + [CordonNode(name, ok)] && worlds == old(worlds) + [nodes]
    {
      ok := *;
      Record(CordonNode(name, ok), nodes);
    }

    method SetNodePoolSize(pool: string, size: nat) returns (ok: bool)
      requires Valid()
      modifies this
      ensures Valid() && log == old(log) + [Resize(pool, size, ok)] && worlds == old(worlds) + [nodes]
    {
      ok := *;
      var after: seq<Node> := *;
      HistoryWellFormed(zones, log, worlds);
      if !WorldStep(zones, nodes, Resize(pool, size, ok), after) {
        ok, after := false, nodes;
      }
      Record(Resize(pool, size, ok), after);
    }

    method EvacuatePodsFromNode(name: string) returns (ok: bool)
      requires Valid()
      modifies this
      ensures Valid() && log == old(log) + [Evacuate(name, ok)] && worlds == old(worlds) + [nodes]
    {
      ok := *;
      Record(Evacuate(name, ok), nodes);
    }

    method DeleteNode(name: string) returns (ok: bool)
      requires Valid()
      modifies this
      ensures Valid() && log == old(log) + [RemoveNode(name, ok)] && worlds == old(worlds) + [nodes]
    {
      ok := *;
      Record(RemoveNode(name, ok), if ok then Without(nodes, name) else nodes);
    }
  }

  class ShifterService {
    const cloud: Cloud

    constructor (cloud: Cloud)
      ensures this.cloud == cloud
    {
      this.cloud := cloud;
    }

    /** The run that began with the log `before` and the cluster `start` is at the given stage. */
    ghost predicate Running(before: seq<Call>, start: seq<Node>, stage: Stage)
      reads cloud
    {
      && cloud.Valid() && cloud.regionZones > 0
      && At(cloud.regionZones, cloud.log, before, stage) && cloud.worlds[|before|] == start
    }

    method GetPoolSize(pool: string) returns (ghost answer: Option<seq<Node>>, size: Option<nat>)
      requires cloud.Valid()
      modifies cloud
      ensures cloud.Valid() && cloud.log == old(cloud.log) + [ReadPool(pool, answer)]
      ensures cloud.worlds == old(cloud.worlds) + [cloud.nodes]
      ensures size == if answer.None? then None else Some(PoolSize(answer.value))
    {
      var nodes := cloud.GetNodes(pool);
      answer := nodes;
      if nodes.None? {
        return answer, None;
      }
      var max := GetNodePoolSize(nodes.value);
      size := Some(max);
    }

    /** Reads one listed node afresh and cordons it. */
    method CordonOne(name: string, ghost p: Pass, ghost i: nat, ghost before: seq<Call>, ghost start: seq<Node>)
      returns (ok: bool)
      requires Running(before, start, Fetching(p, i)) && i < |p.names| && name == p.names[i]
      modifies cloud
      ensures Running(before, start, if ok then CordonLoop(cloud.regionZones, p, i + 1) else Choosing(p.todo))
    {
      ghost var log := cloud.log;
      ok := cloud.GetNode(name);
      Advanced(cloud.regionZones, log, before, Fetching(p, i), FetchNode(name, ok));
      if !ok {
        return false;
      }
      log := cloud.log;
      ok := cloud.UpdateNode(name);
      Advanced(cloud.regionZones, log, before, Cordoning(p, i), CordonNode(name, ok));
    }

    /** Reads every listed node afresh and cordons it; stops at the first failure. */
    method MakeNodeUnschedulable(nodes: seq<Node>, ghost p: Pass, ghost before: seq<Call>, ghost start: seq<Node>)
      returns (ok: bool)
      requires p.names == Names(nodes) && cloud.regionZones > 0
      requires Running(before, start, CordonLoop(cloud.regionZones, p, 0))
      modifies cloud
      ensures Running(before, start, if ok then DrainLoop(cloud.regionZones, p, 0, 0) else Choosing(p.todo))
    {
      for i := 0 to |nodes|
        invariant Running(before, start, CordonLoop(cloud.regionZones, p, i))
      {
        ok := CordonOne(nodes[i].name, p, i, before, start);
        if !ok {
          return false;
        }
      }
      ok := true;
    }

    method ResizeTarget(target: string, size: nat, ghost p: Pass, ghost i: nat, ghost d: nat, ghost before: seq<Call>,
                        ghost start: seq<Node>)
      returns (ok: bool)
      requires Running(before, start, Resizing(p, i, d, size)) && target == p.target
      modifies cloud
      ensures Running(before, start, if ok then Draining(p, i, d) else Halted)
    {
      ghost var log := cloud.log;
      ok := cloud.SetNodePoolSize(target, size + 1);
      Advanced(cloud.regionZones, log, before, Resizing(p, i, d, size), Resize(target, size + 1, ok));
    }

    /** Grows the target pool by one node per zone; on failure the whole run is over. */
    method GrowTarget(ghost p: Pass, target: string, ghost i: nat, ghost d: nat, ghost before: seq<Call>,
                      ghost start: seq<Node>)
      returns (ok: bool)
      requires Running(before, start, Measuring(p, i, d)) && target == p.target
      modifies cloud
      ensures Running(before, start, if ok then Draining(p, i, d) else Halted)
    {
      ghost var log := cloud.log;
      ghost var answer;
      var preemptibleNPSize;
      answer, preemptibleNPSize := GetPoolSize(target);
      Advanced(cloud.regionZones, log, before, Measuring(p, i, d), ReadPool(target, answer));
      if preemptibleNPSize.None? {
        return false;
      }
      ok := ResizeTarget(target, preemptibleNPSize.value, p, i, d, before, start);
    }

    method DeleteDrained(name: string, ghost p: Pass, ghost i: nat, ghost d: nat, ghost before: seq<Call>,
                         ghost start: seq<Node>)
      returns (deleted: bool)
      requires Running(before, start, Deleting(p, i, d)) && i < |p.names| && name == p.names[i]
      modifies cloud
      ensures Running(before, start, DrainLoop(cloud.regionZones, p, i + 1, if deleted then d + 1 else d))
    {
      ghost var log := cloud.log;
      deleted := cloud.DeleteNode(name);
      Advanced(cloud.regionZones, log, before, Deleting(p, i, d), RemoveNode(name, deleted));
    }

    /** Evacuates and deletes one node; a failure leaves it and goes on with the next. */
    method DrainAndDelete(name: string, ghost p: Pass, ghost i: nat, ghost d: nat, ghost before: seq<Call>,
                          ghost start: seq<Node>)
      returns (deleted: bool)
      requires Running(before, start, Draining(p, i, d)) && i < |p.names| && name == p.names[i]
      modifies cloud
      ensures Running(before, start, DrainLoop(cloud.regionZones, p, i + 1, if deleted then d + 1 else d))
    {
      ghost var log := cloud.log;
      var ok := cloud.EvacuatePodsFromNode(name);
      Advanced(cloud.regionZones, log, before, Draining(p, i, d), Evacuate(name, ok));
      if !ok {
        return false;
      }
      deleted := DeleteDrained(name, p, i, d, before, start);
    }

    /** The loop over the listed nodes of one source pool. */
    method ShiftNodes(nodes: seq<Node>, target: string, numberofZones: nat, ghost p: Pass, ghost before: seq<Call>,
                      ghost start: seq<Node>)
      returns (halted: bool)
      requires p.names == Names(nodes) && p.target == target && 0 < numberofZones == cloud.regionZones
      requires Running(before, start, DrainLoop(cloud.regionZones, p, 0, 0))
      modifies cloud
      ensures Running(before, start, if halted then Halted else Choosing(p.todo))
    {
      var nodesDeleted := 0;
      for i := 0 to |nodes|
        invariant nodesDeleted >= 0
        invariant Running(before, start, DrainLoop(cloud.regionZones, p, i, nodesDeleted))
      {
        if nodesDeleted % numberofZones == 0 {
          var grown := GrowTarget(p, target, i, nodesDeleted, before, start);
          if !grown {
            return true;
          }
        }
        var deleted := DrainAndDelete(nodes[i].name, p, i, nodesDeleted, before, start);
        if deleted {
          nodesDeleted := nodesDeleted + 1;
        }
      }
      halted := false;
    }

    /** One pair of pools. */
    method ShiftPool(source: string, npInfo: ShiftConf, numberofZones: nat, ghost todo: map<string, ShiftConf>,
                     ghost before: seq<Call>, ghost start: seq<Node>)
      returns (halted: bool)
      requires source in todo && npInfo == todo[source] && numberofZones == cloud.regionZones
      requires Running(before, start, Choosing(todo))
      modifies cloud
      ensures Running(before, start, if halted then Halted else Choosing(todo - {source}))
    {
      ghost var log := cloud.log;
      ghost var answer;
      var onDemandNPSize;
      answer, onDemandNPSize := GetPoolSize(source);
      Advanced(cloud.regionZones, log, before, Choosing(todo), ReadPool(source, answer));
      if onDemandNPSize.None? {
        return false;
      }
      if onDemandNPSize.value > npInfo.onDemandMinNodeCount {
        log := cloud.log;
        var onDemandNodes := cloud.GetNodes(source);
        Advanced(cloud.regionZones, log, before, Sized(todo - {source}, source, npInfo.preemptibleNP),
                 ReadPool(source, onDemandNodes));
        if onDemandNodes.None? {
          return false;
        }
        var nodes := onDemandNodes.value;
        ghost var p := Pass(source, npInfo.preemptibleNP, Names(nodes), todo - {source});
        var ok := MakeNodeUnschedulable(nodes, p, before, start);
        if !ok {
          return false;
        }
        halted := ShiftNodes(nodes, npInfo.preemptibleNP, numberofZones, p, before, start);
      } else {
        halted := false;
      }
    }

    /** One run. Its calls and the states of the cluster are a history with a complete log of the automaton, so that
        what is proved of these holds of the run; and if the region has no more zones than the pools, the cluster has at
        every point at least as many nodes as at the start. */
    method Shift()
      requires cloud.Valid() && cloud.regionZones > 0
      modifies cloud
      ensures cloud.Valid() && old(cloud.log) <= cloud.log
      ensures Run(cloud.regionZones, cloud.log[|old(cloud.log)|..]) ==
              if HaltCause(cloud.log[|old(cloud.log)|..]) then Halted else Choosing(map[])
      ensures History(cloud.zones, cloud.log[|old(cloud.log)|..], cloud.worlds[|old(cloud.log)|..])
      ensures cloud.worlds[|old(cloud.log)|] == old(cloud.nodes)
      ensures cloud.regionZones <= |cloud.zones| ==>
                forall i :: |old(cloud.log)| <= i <= |cloud.log| ==> |cloud.worlds[i]| >= |old(cloud.nodes)|
    {
      ghost var before, start := cloud.log, cloud.nodes;
      Began(cloud.regionZones, cloud.log);
      var numberofZones := cloud.GetNumberOfZones();
      var nps := cloud.ListNodePools();
      Advanced(cloud.regionZones, before, before, Start, ListPools(nps));
      if nps.None? {
        RunKeepsCapacity(cloud.zones, cloud.regionZones, before, cloud.log, cloud.worlds);
        return;
      }
      var todo := GetNodePoolMap(nps.value);
      while todo.Keys != {}
        invariant Running(before, start, Choosing(todo))
        decreases todo.Keys
      {
        var source :| source in todo.Keys;
        var halted := ShiftPool(source, todo[source], numberofZones, todo, before, start);
        if halted {
          RunKeepsCapacity(cloud.zones, cloud.regionZones, before, cloud.log, cloud.worlds);
          return;
        }
        todo := todo - {source};
      }
      assert todo == map[];
      RunKeepsCapacity(cloud.zones, cloud.regionZones, before, cloud.log, cloud.worlds);
    }
  }

  lemma {:induction false} RunKeepsCapacity(zones: set<string>, k: nat, before: seq<Call>, log: seq<Call>,
                                            worlds: seq<seq<Node>>)
    requires k > 0 && History(zones, log, worlds) && before <= log
    requires Run(k, log[|before|..]) != Stuck
    ensures Run(k, log[|before|..]) == Halted <==> HaltCause(log[|before|..])
    ensures History(zones, log[|before|..], worlds[|before|..])
    ensures k <= |zones| ==> forall i :: |before| <= i <= |log| ==> |worlds[i]| >= |worlds[|before|]|
  {
    var b := |before|;
    HistorySuffix(zones, log, worlds, b);
    PlanApart(zones, log[b..], worlds[b..]);
    HaltedIff(k, log[b..]);
    if k <= |zones| {
      forall i | b <= i <= |log| ensures |worlds[i]| >= |worlds[b]| {
        CapacityConserved(zones, k, log[b..], worlds[b..], i - b);
      }
    }
  }
}

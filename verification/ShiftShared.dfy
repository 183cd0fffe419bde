/** A shifter run in a cluster from which others remove nodes too, such as the killer or the autoscaler. */
module ShiftShared {
  import opened Common
  import opened NodePools
  import opened ShiftControl
  import opened ShiftCapacity

  /** A call of the run, or the removal of a node by somebody else. */
  datatype Event =
    | Own(c: Call)
    | Lost(name: string)

  predicate SharedStep(zones: set<string>, w: seq<Node>, e: Event, w': seq<Node>) {
    match e
    case Own(c) => WorldStep(zones, w, c, w')
    case Lost(name) => w' == Without(w, name)
  }

  ghost predicate SharedHistory(zones: set<string>, events: seq<Event>, worlds: seq<seq<Node>>)
    decreases |events|
  {
    && |worlds| == |events| + 1
    && if events == [] then WellFormed(worlds[0], zones)
       else
         var i := |events| - 1;
         && SharedStep(zones, worlds[i], events[i], worlds[i + 1])
         && SharedHistory(zones, events[..i], worlds[..i + 1])
  }

  /** The calls of the run, without what others did. */
  function OwnCalls(events: seq<Event>): seq<Call> {
    if events == [] then []
    else
      var before := OwnCalls(events[..|events| - 1]);
      match events[|events| - 1]
      case Own(c) => before + [c]
      case Lost(_) => before
  }

  function Losses(events: seq<Event>): nat {
    if events == [] then 0
    else Losses(events[..|events| - 1]) + if events[|events| - 1].Lost? then 1 else 0
  }

  /** Somebody else removes a node: a measured size is then no smaller than the pool, and the cluster one node short. */
  lemma {:induction false} LossStep(zones: set<string>, k: nat, start: int, s: Stage, w: seq<Node>, name: string)
    requires k > 0 && CapacityInv(zones, k, start, s, w)
    ensures CapacityInv(zones, k, start - 1, s, Without(w, name))
  {
    WithoutFacts(w, name, zones);
    if s.Resizing? {
      WithoutSize(w, name, s.p.target);
    }
  }

  lemma {:induction false} SharedCapacityHolds(zones: set<string>, k: nat, events: seq<Event>, worlds: seq<seq<Node>>)
    requires k > 0 && SharedHistory(zones, events, worlds) && Run(k, OwnCalls(events)) != Stuck
    ensures CapacityInv(zones, k, |worlds[0]| - Losses(events), Run(k, OwnCalls(events)), worlds[|events|])
    decreases |events|
  {
    if events != [] {
      var i := |events| - 1;
      var before, start := OwnCalls(events[..i]), |worlds[0]| - Losses(events[..i]);
      match events[i]
      case Own(c) =>
        RunSnoc(k, before, c);
        StuckStays(k, c);
        SharedCapacityHolds(zones, k, events[..i], worlds[..i + 1]);
        CapacityStep(zones, k, start, Run(k, before), worlds[i], c, worlds[i + 1]);
      case Lost(name) =>
        SharedCapacityHolds(zones, k, events[..i], worlds[..i + 1]);
        LossStep(zones, k, start, Run(k, before), worlds[i], name);
    }
  }

  /** Whatever others remove while the shifter runs, the cluster is short of no more nodes than they removed. */
  lemma {:induction false} SharedCapacityConserved(zones: set<string>, k: nat, events: seq<Event>,
                                                   worlds: seq<seq<Node>>)
    requires 0 < k <= |zones| && SharedHistory(zones, events, worlds) && Run(k, OwnCalls(events)) != Stuck
    ensures |worlds[|events|]| >= |worlds[0]| - Losses(events)
  {
    SharedCapacityHolds(zones, k, events, worlds);
  }
}

/** What a shifter run gets done whatever fails: when it may stop, which pools it looks at, which nodes it tries, and
    what it asks of a target. */
module ShiftProgress {
  import opened Common
  import opened NodePools
  import opened ShiftControl
  import opened ShiftCapacity

  // ----- the size asked of a target -----

  /** A resize comes right after the read its size is taken from. */
  ghost predicate MeasuredInv(s: Stage, log: seq<Call>) {
    s.Resizing? ==>
      && |log| > 0 && log[|log| - 1].ReadPool? && log[|log| - 1].pool == s.p.target
      && log[|log| - 1].nodes.Some? && IsPoolSize(log[|log| - 1].nodes.value, s.size)
  }

  lemma {:induction false} MeasuredHolds(k: nat, log: seq<Call>)
    requires k > 0
    ensures MeasuredInv(Run(k, log), log)
  {
  }

  /** A resize asks for one more than the largest number of nodes per zone that the call before it listed in the same
      pool; that pool is the target of a pair. */
  lemma {:induction false} ResizeByOne(k: nat, log: seq<Call>, i: nat) returns (nodes: seq<Node>)
    requires k > 0 && Run(k, log) != Stuck && i < |log| && log[i].Resize?
    ensures i > 0 && log[i - 1] == ReadPool(log[i].pool, Some(nodes))
    ensures log[i].size > 0 && IsPoolSize(nodes, log[i].size - 1)
    ensures exists q :: q in Pairs(log) && Pairs(log)[q].preemptibleNP == log[i].pool
  {
    var s := Run(k, log[..i]);
    StepAt(k, log, i);
    DrainStages(k, s, log[i]);
    MeasuredHolds(k, log[..i]);
    PlannedHolds(k, log[..i]);
    assert log[..i][i - 1] == log[i - 1];
    nodes := log[i - 1].nodes.value;
    assert s.p.source in Pairs(log);
  }

  // ----- the end of a run -----

  /** The run was stopped by its last call: the pools could not be listed, or a resize was refused, or a pool that is no
      source could not be read. */
  ghost predicate HaltCause(log: seq<Call>) {
    log != [] &&
    match log[|log| - 1]
    case ListPools(answer) => |log| == 1 && answer.None?
    case Resize(_, _, ok) => !ok
    case ReadPool(pool, nodes) => nodes.None? && pool !in Pairs(log)
    case _ => false
  }

  /** These are the only reasons to stop before all pairs are done, and each of them does stop the run. */
  lemma {:induction false} HaltedIff(k: nat, log: seq<Call>)
    requires k > 0 && Run(k, log) != Stuck && Apart(Pairs(log))
    ensures Run(k, log) == Halted <==> HaltCause(log)
  {
    if log != [] {
      var before, c := log[..|log| - 1], log[|log| - 1];
      PlannedHolds(k, before);
      PlannedHolds(k, log);
      StuckStays(k, c);
    }
  }

  ghost predicate WasRead(log: seq<Call>, q: string) {
    exists i :: 0 <= i < |log| && log[i].ReadPool? && log[i].pool == q
  }

  lemma {:induction false} ReadOrLeft(k: nat, log: seq<Call>, q: string)
    requires k > 0 && Run(k, log) !in {Stuck, Halted} && q in Pairs(log)
    ensures q in Left(Run(k, log)) || WasRead(log, q)
  {
    var i := |log| - 1;
    var before, c := log[..i], log[i];
    if i > 0 {
      StuckStays(k, c);
      ReadOrLeft(k, before, q);
      if WasRead(before, q) {
        var j :| 0 <= j < |before| && before[j].ReadPool? && before[j].pool == q;
        assert log[j] == before[j];
      } else if q !in Left(Run(k, log)) {
        LeftShrinks(k, Run(k, before), c, q);
        assert log[i].ReadPool? && log[i].pool == q;
      }
    }
  }

  lemma {:induction false} LeftShrinks(k: nat, s: Stage, c: Call, q: string)
    requires k > 0 && Next(k, s, c) !in {Stuck, Halted} && q in Left(s) && q !in Left(Next(k, s, c))
    ensures c.ReadPool? && c.pool == q
  {
  }

  /** A run that ends and was not stopped has looked at every source of a pair, whatever failed. */
  lemma {:induction false} EveryPairRead(k: nat, log: seq<Call>, q: string)
    requires k > 0 && Run(k, log) == Choosing(map[]) && q in Pairs(log)
    ensures WasRead(log, q)
  {
    ReadOrLeft(k, log, q);
  }

  /** Some zone has more nodes than the minimum, or the minimum is negative. */
  ghost predicate Exceeds(nodes: seq<Node>, minimum: int) {
    minimum < 0 || exists z :: CountZone(nodes, z) > minimum
  }

  /** Right after a source is looked at it is listed once more if and only if it exceeds its minimum. */
  lemma {:induction false} SizeTest(k: nat, log: seq<Call>, i: nat)
    requires k > 0 && Run(k, log) != Stuck && i + 1 < |log| && Run(k, log[..i]).Choosing?
    ensures log[i].ReadPool? && log[i].pool in Pairs(log)
    ensures (log[i + 1].ReadPool? && log[i + 1].pool == log[i].pool) <==>
              (log[i].nodes.Some? && Exceeds(log[i].nodes.value, Pairs(log)[log[i].pool].onDemandMinNodeCount))
  {
    StepAt(k, log, i);
    StepAt(k, log, i + 1);
    PlannedHolds(k, log[..i]);
    LeftStep(k, Run(k, log[..i]), log[i], log[i].pool);
    if log[i].nodes.Some? {
      assert IsPoolSize(log[i].nodes.value, PoolSize(log[i].nodes.value));
    }
  }

  // ----- the nodes of a pass -----

  /** Since the last cordon call, that is, within the current pass: the nodes asked to be evacuated, those of them that
      were evacuated, and the nodes asked to be deleted. */
  function Tried(log: seq<Call>): seq<string> {
    if log == [] || log[|log| - 1].CordonNode? then []
    else
      var rest, c := Tried(log[..|log| - 1]), log[|log| - 1];
      if c.Evacuate? then rest + [c.name] else rest
  }

  function Emptied(log: seq<Call>): seq<string> {
    if log == [] || log[|log| - 1].CordonNode? then []
    else
      var rest, c := Emptied(log[..|log| - 1]), log[|log| - 1];
      if c.Evacuate? && c.ok then rest + [c.name] else rest
  }

  function AskedToDelete(log: seq<Call>): seq<string> {
    if log == [] || log[|log| - 1].CordonNode? then []
    else
      var rest, c := AskedToDelete(log[..|log| - 1]), log[|log| - 1];
      if c.RemoveNode? then rest + [c.name] else rest
  }

  ghost predicate TriedInv(s: Stage, log: seq<Call>) {
    match s
    case Measuring(p, i, _) => i < |p.names| && Tried(log) == p.names[..i] && AskedToDelete(log) == Emptied(log)
    case Resizing(p, i, _, _) => i < |p.names| && Tried(log) == p.names[..i] && AskedToDelete(log) == Emptied(log)
    case Draining(p, i, _) => i < |p.names| && Tried(log) == p.names[..i] && AskedToDelete(log) == Emptied(log)
    case Deleting(p, i, _) =>
      && i < |p.names| && Tried(log) == p.names[..i + 1]
      && Emptied(log) == AskedToDelete(log) + [p.names[i]]
    case _ => true
  }

  lemma {:induction false} TriedSnoc(log: seq<Call>, c: Call)
    ensures Tried(log + [c]) == if c.CordonNode? then [] else Tried(log) + if c.Evacuate? then [c.name] else []
    ensures Emptied(log + [c]) ==
            if c.CordonNode? then [] else Emptied(log) + if c.Evacuate? && c.ok then [c.name] else []
    ensures AskedToDelete(log + [c]) ==
            if c.CordonNode? then [] else AskedToDelete(log) + if c.RemoveNode? then [c.name] else []
  {
    assert (log + [c])[..|log|] == log;
  }

  predicate InDrainLoop(s: Stage) { s.Measuring? || s.Resizing? || s.Draining? || s.Deleting? }

  lemma {:induction false} TriedStep(k: nat, s: Stage, log: seq<Call>, c: Call)
    requires k > 0 && TriedInv(s, log) && Next(k, s, c) != Stuck
    ensures TriedInv(Next(k, s, c), log + [c])
    ensures InDrainLoop(s) && !InDrainLoop(Next(k, s, c)) && Next(k, s, c) != Halted ==>
              Tried(log + [c]) == s.p.names && AskedToDelete(log + [c]) == Emptied(log + [c])
  {
    TriedSnoc(log, c);
    if s.Draining? {
      assert s.p.names[..s.i + 1] == s.p.names[..s.i] + [s.p.names[s.i]];
    }
    if InDrainLoop(s) {
      assert s.p.names[..|s.p.names|] == s.p.names;
    }
  }

  lemma {:induction false} TriedHolds(k: nat, log: seq<Call>)
    requires k > 0 && Run(k, log) != Stuck
    ensures TriedInv(Run(k, log), log)
  {
    if log != [] {
      var before, c := log[..|log| - 1], log[|log| - 1];
      StuckStays(k, c);
      TriedHolds(k, before);
      TriedStep(k, Run(k, before), before, c);
      assert log == before + [c];
    }
  }

  /** A pass that reached its drain loop and was not stopped has asked to evacuate every listed node exactly once, in
      the order of the listing, and to delete exactly those that were evacuated, whatever was refused. */
  lemma {:induction false} PassTriesAll(k: nat, log: seq<Call>, i: nat)
    requires k > 0 && Run(k, log) != Stuck && i < |log|
    requires InDrainLoop(Run(k, log[..i])) && !InDrainLoop(Run(k, log[..i + 1])) && Run(k, log[..i + 1]) != Halted
    ensures Tried(log[..i + 1]) == Run(k, log[..i]).p.names
    ensures AskedToDelete(log[..i + 1]) == Emptied(log[..i + 1])
  {
    StepAt(k, log, i);
    PrefixAccepted(k, log, i);
    TriedHolds(k, log[..i]);
    TriedStep(k, Run(k, log[..i]), log[..i], log[i]);
    assert log[..i + 1] == log[..i] + [log[i]];
  }
}

/** What a shifter run leaves of the pools it shifts: how many nodes remain after any failures, and the exact end of a
    run without failures. */
module ShiftOutcome {
  import opened Common
  import opened NodePools
  import opened ShiftControl
  import opened ShiftCapacity
  import opened ShiftProgress

  // ----- how many nodes remain -----

  /** The granted deletions made while the pool was worked off. */
  ghost function RemovedFrom(k: nat, log: seq<Call>, q: string): nat
    requires k > 0
  {
    if log == [] then 0
    else
      var before, c := log[..|log| - 1], log[|log| - 1];
      RemovedFrom(k, before, q) +
      if c.RemoveNode? && c.ok && Run(k, before).Deleting? && Run(k, before).p.source == q then 1 else 0
  }

  lemma {:induction false} SourcePoolStep(zones: set<string>, k: nat, s: Stage, w: seq<Node>, c: Call, w': seq<Node>,
                                          q: string, plan: map<string, ShiftConf>)
    requires k > 0 && WorldStep(zones, w, c, w') && Next(k, s, c) != Stuck
    requires PassInv(s, w) && CapacityInv(zones, k, 0, s, w)
    requires Planned(s, plan) && Apart(plan) && q in plan
    ensures s.Deleting? && s.p.source == q && c.ok ==> |InPool(w', q)| == |InPool(w, q)| - 1
    ensures !(s.Deleting? && s.p.source == q && c.ok) ==> InPool(w', q) == InPool(w, q)
  {
    if s.Deleting? && s.p.source == q {
      if c.ok {
        var m :| 0 <= m < |w| && w[m].name == c.name && w[m].pool == q;
        WithoutPresent(w, m);
      }
    } else {
      KeptPoolStep(zones, k, s, w, c, w', q);
    }
  }

  /** What is known before the call at position i of a log. */
  lemma {:induction false} KnownAt(zones: set<string>, k: nat, log: seq<Call>, worlds: seq<seq<Node>>, i: nat)
    requires k > 0 && History(zones, log, worlds) && Run(k, log) != Stuck && i < |log|
    ensures var s := Run(k, log[..i]);
            && WorldStep(zones, worlds[i], log[i], worlds[i + 1])
            && Run(k, log[..i + 1]) == Next(k, s, log[i]) != Stuck
            && PassInv(s, worlds[i]) && CapacityInv(zones, k, 0, s, worlds[i])
            && Planned(s, Pairs(log)) && Apart(Pairs(log)) && (s.Start? <==> i == 0)
  {
    StepAt(k, log, i);
    HistoryPrefix(zones, log, worlds, i);
    PrefixAccepted(k, log, i);
    PassHolds(zones, k, log[..i], worlds[..i + 1]);
    CapacityHolds(zones, k, log[..i], worlds[..i + 1]);
    assert worlds[..i + 1][i] == worlds[i];
    PlanApart(zones, log, worlds);
    PlannedHolds(k, log[..i]);
  }

  lemma {:induction false} SourcePoolAt(zones: set<string>, k: nat, log: seq<Call>, worlds: seq<seq<Node>>, i: nat,
                                        q: string)
    requires k > 0 && History(zones, log, worlds) && Run(k, log) != Stuck && i < |log| && q in Pairs(log)
    ensures var s := Run(k, log[..i]);
            && (s.Deleting? && s.p.source == q ==> log[i].RemoveNode?)
            && |InPool(worlds[i + 1], q)| ==
               |InPool(worlds[i], q)| - (if s.Deleting? && s.p.source == q && log[i].ok then 1 else 0)
            && (!(s.Deleting? && s.p.source == q) ==> InPool(worlds[i + 1], q) == InPool(worlds[i], q))
  {
    KnownAt(zones, k, log, worlds, i);
    SourcePoolStep(zones, k, Run(k, log[..i]), worlds[i], log[i], worlds[i + 1], q, Pairs(log));
  }

  /** At every point of every run, whatever failed, a pool that is shifted has its starting nodes but for the granted
      deletions. */
  lemma {:induction false} RemainingNodes(zones: set<string>, k: nat, log: seq<Call>, worlds: seq<seq<Node>>, q: string)
    requires k > 0 && History(zones, log, worlds) && Run(k, log) != Stuck && q in Pairs(log)
    ensures |InPool(worlds[|log|], q)| == |InPool(worlds[0], q)| - RemovedFrom(k, log, q)
    decreases |log|
  {
    var i := |log| - 1;
    SourcePoolAt(zones, k, log, worlds, i, q);
    HistoryPrefix(zones, log, worlds, i);
    PrefixAccepted(k, log, i);
    assert worlds[..i + 1][i] == worlds[i];
    if i > 0 {
      RemainingNodes(zones, k, log[..i], worlds[..i + 1], q);
    }
  }

  // ----- which pools are shifted -----

  predicate Granted(c: Call) {
    match c
    case ListPools(answer) => answer.Some?
    case ReadPool(_, nodes) => nodes.Some?
    case _ => c.ok
  }

  predicate NoRefusal(log: seq<Call>) {
    forall i :: 0 <= i < |log| ==> Granted(log[i])
  }

  /** The stages after the size test and before the drain loop. */
  predicate Preparing(s: Stage) { s.Sized? || s.Fetching? || s.Cordoning? }

  /** The pool q began as w0 and is now as in w: unchanged until its drain loop, unchanged for good when it is no larger
      than its minimum, and, when nothing was refused, empty once it has been shifted. */
  ghost predicate Fate(s: Stage, w0: seq<Node>, w: seq<Node>, q: string, minimum: int, clean: bool) {
    var size := PoolSize(InPool(w0, q));
    var mine := Current(s).Some? && Current(s).value.0 == q;
    && (q in Left(s) || size <= minimum || (mine && Preparing(s)) ==> InPool(w, q) == InPool(w0, q))
    && (mine ==> size > minimum)
    && (clean && InDrainLoop(s) ==> s.d == s.i)
    && (clean && Over(s, q) && size > minimum ==> InPool(w, q) == [])
    && (clean ==> !s.Halted?)
  }

  lemma {:induction false} NothingLeft(p: Pass, i: nat, d: nat, w: seq<Node>)
    requires SourceInv(p, i, d, w) && d == i == |p.names|
    ensures InPool(w, p.source) == []
  {
    PoolParts(w, p.source);
    SomeMember(InPool(w, p.source));
  }

  /** The steps that change the cluster. */
  lemma {:induction false} FateWrite(zones: set<string>, k: nat, s: Stage, w0: seq<Node>, w: seq<Node>, c: Call,
                                     w': seq<Node>, q: string, plan: map<string, ShiftConf>, clean: bool)
    requires k > 0 && WorldStep(zones, w, c, w') && Next(k, s, c) != Stuck
    requires PassInv(s, w) && CapacityInv(zones, k, 0, s, w)
    requires Planned(s, plan) && Apart(plan) && q in plan && (s.Resizing? || s.Deleting?)
    requires Fate(s, w0, w, q, plan[q].onDemandMinNodeCount, clean)
    ensures Fate(Next(k, s, c), w0, w', q, plan[q].onDemandMinNodeCount, clean && Granted(c))
  {
    SourcePoolStep(zones, k, s, w, c, w', q, plan);
    if s.Deleting? && s.p.source == q && c.ok {
      DeletionKeepsSource(w, s.p, s.i, s.d);
      if clean && s.i + 1 == |s.p.names| {
        NothingLeft(s.p, s.i + 1, s.d + 1, w');
      }
    }
  }

  lemma {:induction false} FateRead(zones: set<string>, k: nat, s: Stage, w0: seq<Node>, w: seq<Node>, c: Call,
                                    q: string, plan: map<string, ShiftConf>, clean: bool)
    requires k > 0 && WorldStep(zones, w, c, w) && Next(k, s, c) != Stuck
    requires Planned(s, plan) && q in plan && !s.Start? && !s.Resizing? && !s.Deleting?
    requires Fate(s, w0, w, q, plan[q].onDemandMinNodeCount, clean)
    ensures Fate(Next(k, s, c), w0, w, q, plan[q].onDemandMinNodeCount, clean && Granted(c))
  {
    match s
    case Choosing(todo) =>
      if c.nodes.Some? {
        PoolSizeOrder(c.nodes.value, InPool(w, c.pool));
      }
    case Sized(todo, source, target) =>
      if c.nodes.Some? && c.nodes.value == [] {
        assert |multiset(InPool(w, source))| == 0;
      }
    case _ =>
  }

  /** The step that lists the pools. */
  lemma {:induction false} FateStart(zones: set<string>, k: nat, w: seq<Node>, c: Call, w': seq<Node>, q: string)
    requires k > 0 && WorldStep(zones, w, c, w') && Next(k, Start, c) != Stuck && q in Left(Next(k, Start, c))
    ensures Fate(Next(k, Start, c), w, w', q, Left(Next(k, Start, c))[q].onDemandMinNodeCount, Granted(c))
  {
  }

  lemma {:induction false} FateStep(zones: set<string>, k: nat, s: Stage, w0: seq<Node>, w: seq<Node>, c: Call,
                                    w': seq<Node>, q: string, plan: map<string, ShiftConf>, clean: bool)
    requires k > 0 && WorldStep(zones, w, c, w') && Next(k, s, c) != Stuck
    requires PassInv(s, w) && CapacityInv(zones, k, 0, s, w)
    requires Planned(s, plan) && Apart(plan) && q in plan && !s.Start?
    requires Fate(s, w0, w, q, plan[q].onDemandMinNodeCount, clean)
    ensures Fate(Next(k, s, c), w0, w', q, plan[q].onDemandMinNodeCount, clean && Granted(c))
  {
    if s.Resizing? || s.Deleting? {
      FateWrite(zones, k, s, w0, w, c, w', q, plan, clean);
    } else {
      FateRead(zones, k, s, w0, w, c, q, plan, clean);
    }
  }

  lemma {:induction false} NoRefusalSnoc(log: seq<Call>)
    requires log != []
    ensures NoRefusal(log) <==> NoRefusal(log[..|log| - 1]) && Granted(log[|log| - 1])
  {
  }

  lemma {:induction false} FateAdvances(zones: set<string>, k: nat, log: seq<Call>, worlds: seq<seq<Node>>, q: string)
    requires k > 0 && History(zones, log, worlds) && Run(k, log) != Stuck && q in Pairs(log) && |log| > 1
    requires var i := |log| - 1;
             Fate(Run(k, log[..i]), worlds[0], worlds[i], q, Pairs(log)[q].onDemandMinNodeCount, NoRefusal(log[..i]))
    ensures Fate(Run(k, log), worlds[0], worlds[|log|], q, Pairs(log)[q].onDemandMinNodeCount, NoRefusal(log))
  {
    var i := |log| - 1;
    KnownAt(zones, k, log, worlds, i);
    assert log[..i + 1] == log;
    NoRefusalSnoc(log);
    FateStep(zones, k, Run(k, log[..i]), worlds[0], worlds[i], log[i], worlds[i + 1], q, Pairs(log),
             NoRefusal(log[..i]));
  }

  lemma {:induction false} FateHolds(zones: set<string>, k: nat, log: seq<Call>, worlds: seq<seq<Node>>, q: string)
    requires k > 0 && History(zones, log, worlds) && Run(k, log) != Stuck && q in Pairs(log)
    ensures Fate(Run(k, log), worlds[0], worlds[|log|], q, Pairs(log)[q].onDemandMinNodeCount, NoRefusal(log))
    decreases |log|
  {
    var i := |log| - 1;
    HistoryPrefix(zones, log, worlds, i);
    if i == 0 {
      NoRefusalSnoc(log);
      FateStart(zones, k, worlds[0], log[0], worlds[1], q);
    } else {
      PrefixAccepted(k, log, i);
      FateHolds(zones, k, log[..i], worlds[..i + 1], q);
      assert worlds[..i + 1][i] == worlds[i];
      FateAdvances(zones, k, log, worlds, q);
    }
  }

  /** A complete run without refused calls leaves a pool that is larger than its minimum without any node, and any
      other pool of the pairing as it was. */
  lemma {:induction false} FullShiftEmptiesPool(zones: set<string>, k: nat, log: seq<Call>, worlds: seq<seq<Node>>,
                                                q: string)
    requires k > 0 && History(zones, log, worlds) && Run(k, log) == Choosing(map[]) && NoRefusal(log)
    requires q in Pairs(log)
    ensures InPool(worlds[|log|], q) ==
            if PoolSize(InPool(worlds[0], q)) > Pairs(log)[q].onDemandMinNodeCount then [] else InPool(worlds[0], q)
  {
    FateHolds(zones, k, log, worlds, q);
  }

  /** So the minimum of a pool is kept exactly when there is nothing above it to shift, or no minimum at all. */
  lemma {:induction false} MinimumKeptIff(zones: set<string>, k: nat, log: seq<Call>, worlds: seq<seq<Node>>, q: string)
    requires k > 0 && History(zones, log, worlds) && Run(k, log) == Choosing(map[]) && NoRefusal(log)
    requires q in Pairs(log) && PoolSize(InPool(worlds[0], q)) >= Pairs(log)[q].onDemandMinNodeCount
    ensures PoolSize(InPool(worlds[|log|], q)) >= Pairs(log)[q].onDemandMinNodeCount
       <==> PoolSize(InPool(worlds[0], q)) <= Pairs(log)[q].onDemandMinNodeCount
            || Pairs(log)[q].onDemandMinNodeCount <= 0
  {
    FullShiftEmptiesPool(zones, k, log, worlds, q);
    EmptyPoolSize();
  }

  /** At every point of every run, whatever failed, a pool no larger than its minimum is as it was. */
  lemma {:induction false} SmallPoolUntouched(zones: set<string>, k: nat, log: seq<Call>, worlds: seq<seq<Node>>,
                                              q: string)
    requires k > 0 && History(zones, log, worlds) && Run(k, log) != Stuck && q in Pairs(log)
    requires PoolSize(InPool(worlds[0], q)) <= Pairs(log)[q].onDemandMinNodeCount
    ensures InPool(worlds[|log|], q) == InPool(worlds[0], q)
  {
    FateHolds(zones, k, log, worlds, q);
  }

  // ----- a failed cordon -----

  lemma {:induction false} OverKeepsNodes(zones: set<string>, k: nat, log: seq<Call>, worlds: seq<seq<Node>>, a: nat,
                                          b: nat, q: string)
    requires k > 0 && History(zones, log, worlds) && Run(k, log) != Stuck && q in Pairs(log)
    requires 0 < a <= b <= |log| && Over(Run(k, log[..a]), q)
    ensures InPool(worlds[b], q) == InPool(worlds[a], q)
    decreases b
  {
    if a < b {
      OverKeepsNodes(zones, k, log, worlds, a, b - 1, q);
      OverLater(k, log, a, b - 1, q);
      SourcePoolAt(zones, k, log, worlds, b - 1, q);
    }
  }

  /** After a failed fetch or cordon the pool has exactly its starting nodes for the rest of the run. */
  lemma {:induction false} CordonFailureKeepsNodes(zones: set<string>, k: nat, log: seq<Call>, worlds: seq<seq<Node>>,
                                                   c: nat)
    requires k > 0 && History(zones, log, worlds) && Run(k, log) != Stuck && c < |log|
    requires (log[c].FetchNode? || log[c].CordonNode?) && !log[c].ok
    ensures (Run(k, log[..c]).Fetching? || Run(k, log[..c]).Cordoning?)
    ensures InPool(worlds[|log|], Run(k, log[..c]).p.source) == InPool(worlds[0], Run(k, log[..c]).p.source)
  {
    CordonFailureEndsPass(k, log, c);
    var q := Run(k, log[..c]).p.source;
    PlannedHolds(k, log[..c]);
    PrefixAccepted(k, log, c);
    HistoryPrefix(zones, log, worlds, c);
    FateHolds(zones, k, log[..c], worlds[..c + 1], q);
    OverKeepsNodes(zones, k, log, worlds, c + 1, |log|, q);
  }
}

/** The control flow of one shifter run (shift in pkg/shifter/shifter.go) as an automaton over its API calls, and what
    every call log it accepts satisfies: order of the calls, accounting of the resizes, capacity of the cluster. */
module ShiftControl {
  import opened Common
  import opened NodePools

  /** An API call with its answer. ReadPool lists the nodes of a pool; Evacuate is the killer's EvacuatePodsFromNode. */
  datatype Call =
    | ListPools(answer: Option<seq<NodePool>>)
    | ReadPool(pool: string, nodes: Option<seq<Node>>)
    | FetchNode(name: string, ok: bool)
    | CordonNode(name: string, ok: bool)
    | Resize(pool: string, size: nat, ok: bool)
    | Evacuate(name: string, ok: bool)
    | RemoveNode(name: string, ok: bool)

  /** The work on one pair of pools: the listed source nodes, and the pairs left for later. */
  datatype Pass = Pass(source: string, target: string, names: seq<string>, todo: map<string, ShiftConf>)

  datatype Stage =
    | Start
    | Choosing(todo: map<string, ShiftConf>)
    | Sized(todo: map<string, ShiftConf>, source: string, target: string)
    | Fetching(p: Pass, k: nat)
    | Cordoning(p: Pass, k: nat)
    | Measuring(p: Pass, i: nat, d: nat)
    | Resizing(p: Pass, i: nat, d: nat, size: nat)
    | Draining(p: Pass, i: nat, d: nat)
    | Deleting(p: Pass, i: nat, d: nat)
    | Halted
    | Stuck

  function Names(nodes: seq<Node>): seq<string> {
    seq(|nodes|, i requires 0 <= i < |nodes| => nodes[i].name)
  }

  /** The head of the loop over the drained nodes: i nodes are done, d of them deleted. */
  function DrainLoop(zones: nat, p: Pass, i: nat, d: nat): Stage
    requires zones > 0
  {
    if i >= |p.names| then Choosing(p.todo)
    else if d % zones == 0 then Measuring(p, i, d)
    else Draining(p, i, d)
  }

  /** The head of the cordoning loop. */
  function CordonLoop(zones: nat, p: Pass, k: nat): Stage
    requires zones > 0
  {
    if k >= |p.names| then DrainLoop(zones, p, 0, 0) else Fetching(p, k)
  }

  ghost function Next(zones: nat, s: Stage, c: Call): Stage
    requires zones > 0
  {
    match (s, c)
    case (Start, ListPools(None)) => Halted
    case (Start, ListPools(Some(nps))) => Choosing(PoolMap(nps))
    case (Choosing(todo), ReadPool(source, answer)) =>
      if source !in todo then Stuck
      else
        var rest, conf := todo - {source}, todo[source];
        if answer.Some? && PoolSize(answer.value) > conf.onDemandMinNodeCount
        then Sized(rest, source, conf.preemptibleNP) else Choosing(rest)
    case (Sized(todo, source, target), ReadPool(pool, answer)) =>
      if pool != source then Stuck
      else if answer.None? then Choosing(todo)
      else CordonLoop(zones, Pass(source, target, Names(answer.value), todo), 0)
    case (Fetching(p, k), FetchNode(name, ok)) =>
      if k >= |p.names| || name != p.names[k] then Stuck
      else if ok then Cordoning(p, k) else Choosing(p.todo)
    case (Cordoning(p, k), CordonNode(name, ok)) =>
      if k >= |p.names| || name != p.names[k] then Stuck
      else if ok then CordonLoop(zones, p, k + 1) else Choosing(p.todo)
    case (Measuring(p, i, d), ReadPool(pool, answer)) =>
      if pool != p.target then Stuck
      else if answer.None? then Halted else Resizing(p, i, d, PoolSize(answer.value))
    case (Resizing(p, i, d, size), Resize(pool, newSize, ok)) =>
      if pool != p.target || newSize != size + 1 then Stuck
      else if ok then Draining(p, i, d) else Halted
    case (Draining(p, i, d), Evacuate(name, ok)) =>
      if i >= |p.names| || name != p.names[i] then Stuck
      else if ok then Deleting(p, i, d) else DrainLoop(zones, p, i + 1, d)
    case (Deleting(p, i, d), RemoveNode(name, ok)) =>
      if i >= |p.names| || name != p.names[i] then Stuck
      else DrainLoop(zones, p, i + 1, if ok then d + 1 else d)
    case _ => Stuck
  }

  ghost function Run(zones: nat, log: seq<Call>): Stage
    requires zones > 0
  {
    if log == [] then Start else Next(zones, Run(zones, log[..|log| - 1]), log[|log| - 1])
  }

  lemma {:induction false} RunSnoc(zones: nat, log: seq<Call>, c: Call)
    requires zones > 0
    ensures Run(zones, log + [c]) == Next(zones, Run(zones, log), c)
  {
    assert (log + [c])[..|log|] == log;
  }

  lemma {:induction false} StuckStays(zones: nat, c: Call)
    requires zones > 0
    ensures Next(zones, Stuck, c) == Stuck && Next(zones, Halted, c) == Stuck
  {
  }

  lemma {:induction false} PrefixAccepted(zones: nat, log: seq<Call>, i: nat)
    requires zones > 0 && i <= |log| && Run(zones, log) != Stuck
    ensures Run(zones, log[..i]) != Stuck
    decreases |log|
  {
    if i < |log| {
      StuckStays(zones, log[|log| - 1]);
      PrefixAccepted(zones, log[..|log| - 1], i);
      assert log[..|log| - 1][..i] == log[..i];
    } else {
      assert log[..i] == log;
    }
  }

  lemma {:induction false} StepAt(zones: nat, log: seq<Call>, i: nat)
    requires zones > 0 && i < |log| && Run(zones, log) != Stuck
    ensures Run(zones, log[..i + 1]) == Next(zones, Run(zones, log[..i]), log[i])
    ensures Run(zones, log[..i + 1]) != Stuck
  {
    var before, c, upTo := log[..i], log[i], log[..i + 1];
    assert upTo == before + [c];
    RunSnoc(zones, before, c);
    PrefixAccepted(zones, log, i + 1);
  }

  // ----- the pairs of pools -----

  /** The pairs of the run: none until the pools are listed. */
  function Pairs(log: seq<Call>): map<string, ShiftConf> {
    if log != [] && log[0].ListPools? && log[0].answer.Some? then PoolMap(log[0].answer.value) else map[]
  }

  ghost predicate PartOf(todo: map<string, ShiftConf>, plan: map<string, ShiftConf>) {
    forall k :: k in todo ==> k in plan && todo[k] == plan[k]
  }

  /** What is left for later. */
  function Left(s: Stage): map<string, ShiftConf> {
    match s
    case Start => map[]
    case Choosing(todo) => todo
    case Sized(todo, _, _) => todo
    case Halted => map[]
    case Stuck => map[]
    case _ => s.p.todo
  }

  /** The pair being worked on: source and target. */
  function Current(s: Stage): Option<(string, string)> {
    match s
    case Start => None
    case Choosing(_) => None
    case Sized(_, source, target) => Some((source, target))
    case Halted => None
    case Stuck => None
    case _ => Some((s.p.source, s.p.target))
  }

  /** Every pair worked on, now or later, is one of the plan, and the current one is not left for later. */
  ghost predicate Planned(s: Stage, plan: map<string, ShiftConf>) {
    && PartOf(Left(s), plan)
    && match Current(s)
       case Some((source, target)) => source !in Left(s) && source in plan && plan[source].preemptibleNP == target
       case None => true
  }

  lemma {:induction false} PlannedStep(zones: nat, s: Stage, c: Call, plan: map<string, ShiftConf>)
    requires zones > 0 && Planned(s, plan) && !s.Start?
    ensures Planned(Next(zones, s, c), plan)
  {
  }

  lemma {:induction false} PlannedHolds(zones: nat, log: seq<Call>)
    requires zones > 0
    ensures Planned(Run(zones, log), Pairs(log))
    ensures log != [] ==> !Run(zones, log).Start?
  {
    if |log| > 1 {
      PlannedHolds(zones, log[..|log| - 1]);
      PlannedStep(zones, Run(zones, log[..|log| - 1]), log[|log| - 1], Pairs(log));
    }
  }

  /** The pool is not, and will not be, shifted away. */
  ghost predicate Over(s: Stage, q: string) {
    !s.Start? && q !in Left(s) && (Current(s).Some? ==> Current(s).value.0 != q)
  }

  lemma {:induction false} OverStep(zones: nat, s: Stage, c: Call, q: string)
    requires zones > 0 && Over(s, q)
    ensures Over(Next(zones, s, c), q)
  {
  }

  lemma {:induction false} OverLater(zones: nat, log: seq<Call>, a: nat, b: nat, q: string)
    requires zones > 0 && Run(zones, log) != Stuck && a <= b <= |log| && Over(Run(zones, log[..a]), q)
    ensures Over(Run(zones, log[..b]), q)
    decreases b
  {
    if a < b {
      OverLater(zones, log, a, b - 1, q);
      StepAt(zones, log, b - 1);
      OverStep(zones, Run(zones, log[..b - 1]), log[b - 1], q);
    }
  }

  lemma {:induction false} LeftStep(zones: nat, s: Stage, c: Call, q: string)
    requires zones > 0 && Next(zones, s, c) != Stuck
    ensures !s.Start? && q !in Left(s) ==> q !in Left(Next(zones, s, c))
    ensures s.Choosing? ==> c.ReadPool? && c.pool in s.todo && c.pool !in Left(Next(zones, s, c))
  {
  }

  lemma {:induction false} LeftLater(zones: nat, log: seq<Call>, a: nat, b: nat, q: string)
    requires zones > 0 && Run(zones, log) != Stuck && 0 < a <= b <= |log| && q !in Left(Run(zones, log[..a]))
    ensures q !in Left(Run(zones, log[..b]))
    decreases b
  {
    if a < b {
      LeftLater(zones, log, a, b - 1, q);
      StepAt(zones, log, b - 1);
      PlannedHolds(zones, log[..b - 1]);
      LeftStep(zones, Run(zones, log[..b - 1]), log[b - 1], q);
    }
  }

  /** A pool is chosen at most once in a run. */
  lemma {:induction false} PoolChosenOnce(zones: nat, log: seq<Call>, i: nat, j: nat)
    requires zones > 0 && Run(zones, log) != Stuck && i < j < |log|
    requires Run(zones, log[..i]).Choosing? && Run(zones, log[..j]).Choosing?
    ensures log[i].ReadPool? && log[j].ReadPool? && log[i].pool != log[j].pool
  {
    StepAt(zones, log, i);
    StepAt(zones, log, j);
    LeftStep(zones, Run(zones, log[..i]), log[i], "");
    LeftStep(zones, Run(zones, log[..j]), log[j], "");
    LeftLater(zones, log, i + 1, j, log[i].pool);
  }

  // ----- order -----

  function CordonCall(names: seq<string>, m: nat): Call
    requires m < 2 * |names|
  {
    if m % 2 == 0 then FetchNode(names[m / 2], true) else CordonNode(names[m / 2], true)
  }

  /** After the listing at position j the first `done` calls of the cordoning loop follow, all granted. */
  ghost predicate CordonStarted(log: seq<Call>, p: Pass, j: nat, nodes: seq<Node>, done: nat) {
    && p.names == Names(nodes) && done <= 2 * |p.names| && j + 1 + done <= |log|
    && log[j] == ReadPool(p.source, Some(nodes))
    && forall m :: 0 <= m < done ==> log[j + 1 + m] == CordonCall(p.names, m)
  }

  /** All listed nodes are cordoned and since then no node was fetched or cordoned. */
  ghost predicate AllCordoned(log: seq<Call>, p: Pass, j: nat, nodes: seq<Node>) {
    && CordonStarted(log, p, j, nodes, 2 * |p.names|)
    && forall m :: j + 1 + 2 * |p.names| <= m < |log| ==> !log[m].FetchNode? && !log[m].CordonNode?
  }

  ghost predicate CordonedPass(log: seq<Call>, p: Pass) {
    exists j: nat, nodes :: AllCordoned(log, p, j, nodes)
  }

  ghost predicate CordoningPass(log: seq<Call>, p: Pass, done: nat) {
    exists j: nat, nodes :: CordonStarted(log, p, j, nodes, done) && j + 1 + done == |log|
  }

  ghost predicate OrderInv(s: Stage, log: seq<Call>) {
    match s
    case Fetching(p, k) => k < |p.names| && CordoningPass(log, p, 2 * k)
    case Cordoning(p, k) => k < |p.names| && CordoningPass(log, p, 2 * k + 1)
    case Measuring(p, i, _) => i < |p.names| && CordonedPass(log, p)
    case Resizing(p, i, _, _) => i < |p.names| && CordonedPass(log, p)
    case Draining(p, i, _) => i < |p.names| && CordonedPass(log, p)
    case Deleting(p, i, _) =>
      i < |p.names| && CordonedPass(log, p) && |log| > 0 && log[|log| - 1] == Evacuate(p.names[i], true)
    case _ => true
  }

  lemma {:induction false} PassKept(log: seq<Call>, p: Pass, c: Call)
    requires CordonedPass(log, p) && !c.FetchNode? && !c.CordonNode?
    ensures CordonedPass(log + [c], p)
  {
    var j: nat, nodes :| AllCordoned(log, p, j, nodes);
    assert AllCordoned(log + [c], p, j, nodes);
  }

  lemma {:induction false} PassListed(log: seq<Call>, p: Pass, nodes: seq<Node>)
    requires p.names == Names(nodes)
    ensures CordoningPass(log + [ReadPool(p.source, Some(nodes))], p, 0)
    ensures nodes == [] ==> CordonedPass(log + [ReadPool(p.source, Some(nodes))], p)
  {
    var all := log + [ReadPool(p.source, Some(nodes))];
    assert CordonStarted(all, p, |log|, nodes, 0);
    if nodes == [] {
      assert AllCordoned(all, p, |log|, nodes);
    }
  }

  lemma {:induction false} CordonAdvances(log: seq<Call>, p: Pass, done: nat)
    requires CordoningPass(log, p, done) && done < 2 * |p.names|
    ensures CordoningPass(log + [CordonCall(p.names, done)], p, done + 1)
    ensures done + 1 == 2 * |p.names| ==> CordonedPass(log + [CordonCall(p.names, done)], p)
  {
    var all := log + [CordonCall(p.names, done)];
    var j: nat, nodes :| CordonStarted(log, p, j, nodes, done) && j + 1 + done == |log|;
    assert CordonStarted(all, p, j, nodes, done + 1);
    if done + 1 == 2 * |p.names| {
      assert AllCordoned(all, p, j, nodes);
    }
  }

  lemma {:induction false} CordonLoopStep(zones: nat, s: Stage, log: seq<Call>, c: Call)
    requires zones > 0 && OrderInv(s, log)
    requires s.Sized? || s.Fetching? || s.Cordoning?
    ensures OrderInv(Next(zones, s, c), log + [c])
  {
    if Next(zones, s, c) != Stuck {
      match s
      case Sized(todo, source, target) =>
        if c.nodes.Some? {
          PassListed(log, Pass(source, target, Names(c.nodes.value), todo), c.nodes.value);
        }
      case Fetching(p, k) =>
        assert CordonCall(p.names, 2 * k) == FetchNode(p.names[k], true);
        CordonAdvances(log, p, 2 * k);
      case Cordoning(p, k) =>
        assert CordonCall(p.names, 2 * k + 1) == CordonNode(p.names[k], true);
        CordonAdvances(log, p, 2 * k + 1);
    }
  }

  lemma {:induction false} OrderStep(zones: nat, s: Stage, log: seq<Call>, c: Call)
    requires zones > 0 && OrderInv(s, log)
    ensures OrderInv(Next(zones, s, c), log + [c])
  {
    if s.Sized? || s.Fetching? || s.Cordoning? {
      CordonLoopStep(zones, s, log, c);
    } else if Next(zones, s, c) != Stuck && (s.Measuring? || s.Resizing? || s.Draining? || s.Deleting?) {
      PassKept(log, s.p, c);
    }
  }

  lemma {:induction false} OrderHolds(zones: nat, log: seq<Call>)
    requires zones > 0
    ensures OrderInv(Run(zones, log), log)
  {
    if log != [] {
      var before, c := log[..|log| - 1], log[|log| - 1];
      OrderHolds(zones, before);
      OrderStep(zones, Run(zones, before), before, c);
      assert log == before + [c];
    }
  }

  lemma {:induction false} DrainStages(zones: nat, s: Stage, c: Call)
    requires zones > 0 && Next(zones, s, c) != Stuck
    ensures c.Evacuate? ==> s.Draining? && s.i < |s.p.names| && c.name == s.p.names[s.i]
    ensures c.RemoveNode? ==> s.Deleting? && s.i < |s.p.names| && c.name == s.p.names[s.i]
    ensures c.Resize? ==> s.Resizing? && (!c.ok ==> Next(zones, s, c) == Halted)
    ensures s.Measuring? ==> c.ReadPool? && (c.nodes.None? ==> Next(zones, s, c) == Halted)
  {
  }

  /** When a node is evacuated or deleted, all nodes of the listing it comes from have been fetched and cordoned before,
      each successfully, and nothing was fetched or cordoned in between. */
  lemma {:induction false} CordonedBeforeEvacuated(zones: nat, log: seq<Call>, i: nat)
    returns (p: Pass, j: nat, nodes: seq<Node>)
    requires zones > 0 && Run(zones, log) != Stuck && i < |log| && (log[i].Evacuate? || log[i].RemoveNode?)
    ensures AllCordoned(log[..i], p, j, nodes) && log[i].name in p.names
    ensures (Run(zones, log[..i]).Draining? || Run(zones, log[..i]).Deleting?) && Run(zones, log[..i]).p == p
  {
    StepAt(zones, log, i);
    DrainStages(zones, Run(zones, log[..i]), log[i]);
    OrderHolds(zones, log[..i]);
    p := Run(zones, log[..i]).p;
    j, nodes :| AllCordoned(log[..i], p, j, nodes);
  }

  /** Once a fetch or a cordon failed, no node of that pool is evacuated or deleted for the rest of the run: whatever is
      evacuated or deleted later belongs to another pool, listed and cordoned completely after the failure. */
  lemma {:induction false} CordonFailureSkipsPool(zones: nat, log: seq<Call>, c: nat, i: nat)
    returns (p: Pass, j: nat, nodes: seq<Node>)
    requires zones > 0 && Run(zones, log) != Stuck && c < i < |log|
    requires (log[c].FetchNode? || log[c].CordonNode?) && !log[c].ok
    requires log[i].Evacuate? || log[i].RemoveNode?
    ensures AllCordoned(log[..i], p, j, nodes) && log[i].name in p.names && c < j
    ensures (Run(zones, log[..i]).Draining? || Run(zones, log[..i]).Deleting?) && Run(zones, log[..i]).p == p
    ensures (Run(zones, log[..c]).Fetching? || Run(zones, log[..c]).Cordoning?)
    ensures p.source != Run(zones, log[..c]).p.source
  {
    p, j, nodes := CordonedBeforeEvacuated(zones, log, i);
    assert log[..i][c] == log[c];
    if j <= c {
      CordonsGranted(log[..i], p, j, nodes, c);
    }
    CordonFailureEndsPass(zones, log, c);
    OverLater(zones, log, c + 1, i, Run(zones, log[..c]).p.source);
  }

  lemma {:induction false} CordonFailureEndsPass(zones: nat, log: seq<Call>, c: nat)
    requires zones > 0 && Run(zones, log) != Stuck && c < |log|
    requires (log[c].FetchNode? || log[c].CordonNode?) && !log[c].ok
    ensures (Run(zones, log[..c]).Fetching? || Run(zones, log[..c]).Cordoning?)
    ensures Over(Run(zones, log[..c + 1]), Run(zones, log[..c]).p.source)
  {
    StepAt(zones, log, c);
    PlannedHolds(zones, log[..c]);
  }

  lemma {:induction false} CordonsGranted(log: seq<Call>, p: Pass, j: nat, nodes: seq<Node>, c: nat)
    requires AllCordoned(log, p, j, nodes) && j <= c < |log|
    ensures log[c].FetchNode? || log[c].CordonNode? ==> log[c].ok
  {
    if j < c < j + 1 + 2 * |p.names| {
      assert log[j + 1 + (c - j - 1)] == CordonCall(p.names, c - j - 1);
    }
  }

  /** A node is deleted only right after its own successful evacuation. */
  lemma {:induction false} EvacuatedBeforeDeleted(zones: nat, log: seq<Call>, i: nat)
    requires zones > 0 && Run(zones, log) != Stuck && i < |log| && log[i].RemoveNode?
    ensures i > 0 && log[i - 1] == Evacuate(log[i].name, true)
  {
    StepAt(zones, log, i);
    DrainStages(zones, Run(zones, log[..i]), log[i]);
    OrderHolds(zones, log[..i]);
    assert log[..i][|log[..i]| - 1] == log[i - 1];
  }

  lemma {:induction false} HaltedIsEnd(zones: nat, log: seq<Call>, i: nat)
    requires zones > 0 && Run(zones, log) != Stuck && i <= |log| && Run(zones, log[..i]) == Halted
    ensures i == |log|
  {
    if i < |log| {
      StepAt(zones, log, i);
      StuckStays(zones, log[i]);
    }
  }

  /** A refused resize, or a target size that cannot be read, ends the run: no call of any kind follows. */
  lemma {:induction false} ResizeFailureEndsRun(zones: nat, log: seq<Call>, i: nat)
    requires zones > 0 && Run(zones, log) != Stuck && i < |log|
    requires (log[i].Resize? && !log[i].ok)
          || (Run(zones, log[..i]).Measuring? && log[i].ReadPool? && log[i].nodes.None?)
    ensures i == |log| - 1
  {
    StepAt(zones, log, i);
    DrainStages(zones, Run(zones, log[..i]), log[i]);
    HaltedIsEnd(zones, log, i + 1);
  }

  // ----- accounting -----

  /** Counts since the last cordon call, that is, within the drain loop of the current pair of pools. */
  function Deletions(log: seq<Call>): nat {
    if log == [] || log[|log| - 1].CordonNode? then 0
    else
      var c := log[|log| - 1];
      Deletions(log[..|log| - 1]) + if c.RemoveNode? && c.ok then 1 else 0
  }

  function Resizes(log: seq<Call>): nat {
    if log == [] || log[|log| - 1].CordonNode? then 0
    else
      var c := log[|log| - 1];
      Resizes(log[..|log| - 1]) + if c.Resize? && c.ok then 1 else 0
  }

  /** Failed evacuations and deletions at a moment when the number of deletions was a multiple of the zones. */
  function BoundaryFailures(zones: nat, log: seq<Call>): nat
    requires zones > 0
  {
    if log == [] || log[|log| - 1].CordonNode? then 0
    else
      var c, before := log[|log| - 1], log[..|log| - 1];
      BoundaryFailures(zones, before) +
      if (c.Evacuate? || c.RemoveNode?) && !c.ok && Deletions(before) % zones == 0 then 1 else 0
  }

  /** How many multiples of `zones` lie below d. */
  function Rounds(zones: nat, d: nat): nat
    requires zones > 0
  {
    if d == 0 then 0 else Rounds(zones, d - 1) + if (d - 1) % zones == 0 then 1 else 0
  }

  lemma {:induction false} MultipleIsFar(zones: nat, k: int)
    requires zones > 0 && k != 0
    ensures zones * k >= zones || zones * k <= 0 - zones
  {
    if k > 0 {
      assert zones * (k - 1) >= 0;
    } else {
      assert zones * (-k - 1) >= 0;
    }
  }

  lemma {:induction false} QuotientIs(zones: nat, d: nat, q: int, r: nat)
    requires zones > 0 && r < zones && d == zones * q + r
    ensures d / zones == q && d % zones == r
  {
    var k := q - d / zones;
    assert zones * k == d % zones - r;
    if k != 0 {
      MultipleIsFar(zones, k);
    }
  }

  lemma {:induction false} RemainderStep(zones: nat, d: nat)
    requires zones > 0
    ensures (d + 1) % zones == if d % zones == zones - 1 then 0 else d % zones + 1
  {
    var q, r := d / zones, d % zones;
    if r == zones - 1 {
      assert d + 1 == zones * (q + 1);
      QuotientIs(zones, d + 1, q + 1, 0);
    } else {
      QuotientIs(zones, d + 1, q, r + 1);
    }
  }

  /** What is missing to the next multiple. */
  function Padding(zones: nat, d: nat): nat
    requires zones > 0
  {
    if d % zones == 0 then 0 else zones - d % zones
  }

  lemma {:induction false} RoundsPadded(zones: nat, d: nat)
    requires zones > 0
    ensures zones * Rounds(zones, d) == d + Padding(zones, d)
  {
    if d > 0 {
      RoundsPadded(zones, d - 1);
      RemainderStep(zones, d - 1);
      OneMoreRound(zones, Rounds(zones, d - 1));
      assert d % zones < zones;
    }
  }

  lemma {:induction false} OneMoreRound(zones: nat, r: nat)
    ensures zones * (r + 1) == zones * r + zones
  {
  }

  /** Rounds is the quotient rounded up. */
  lemma {:induction false} RoundsIsCeiling(zones: nat, d: nat)
    requires zones > 0
    ensures Rounds(zones, d) == (d + zones - 1) / zones
    ensures d <= zones * Rounds(zones, d)
  {
    RoundsPadded(zones, d);
    QuotientIs(zones, d + zones - 1, Rounds(zones, d), zones - 1 - Padding(zones, d));
  }

  /** The accounting at every stage: resizes = rounds of deletions + failures at a boundary, and one more between a
      resize and the end of the iteration that made it. */
  ghost predicate AccountInv(zones: nat, s: Stage, log: seq<Call>)
    requires zones > 0
  {
    var d, r, f := Deletions(log), Resizes(log), BoundaryFailures(zones, log);
    match s
    case Measuring(_, _, n) => n == d && d % zones == 0 && r == Rounds(zones, d) + f
    case Resizing(_, _, n, _) => n == d && d % zones == 0 && r == Rounds(zones, d) + f
    case Draining(_, _, n) => n == d && r == Rounds(zones, d) + f + if d % zones == 0 then 1 else 0
    case Deleting(_, _, n) => n == d && r == Rounds(zones, d) + f + if d % zones == 0 then 1 else 0
    case Stuck => true
    case Fetching(p, k) => r == Rounds(zones, d) + f && k < |p.names|
    case Cordoning(p, k) => r == Rounds(zones, d) + f && k < |p.names|
    case _ => r == Rounds(zones, d) + f
  }

  lemma {:induction false} CountsStep(zones: nat, log: seq<Call>, c: Call)
    requires zones > 0
    ensures c.CordonNode? ==> Deletions(log + [c]) == Resizes(log + [c]) == BoundaryFailures(zones, log + [c]) == 0
    ensures !c.CordonNode? ==>
              && Deletions(log + [c]) == Deletions(log) + (if c.RemoveNode? && c.ok then 1 else 0)
              && Resizes(log + [c]) == Resizes(log) + (if c.Resize? && c.ok then 1 else 0)
              && BoundaryFailures(zones, log + [c]) == BoundaryFailures(zones, log) +
                   if (c.Evacuate? || c.RemoveNode?) && !c.ok && Deletions(log) % zones == 0 then 1 else 0
  {
    assert (log + [c])[..|log|] == log;
  }

  lemma {:induction false} AccountStep(zones: nat, s: Stage, log: seq<Call>, c: Call)
    requires zones > 0 && AccountInv(zones, s, log)
    ensures AccountInv(zones, Next(zones, s, c), log + [c])
  {
    CountsStep(zones, log, c);
    assert Rounds(zones, 0) == 0;
  }

  lemma {:induction false} AccountHolds(zones: nat, log: seq<Call>)
    requires zones > 0
    ensures AccountInv(zones, Run(zones, log), log)
  {
    if log != [] {
      var before, c := log[..|log| - 1], log[|log| - 1];
      AccountHolds(zones, before);
      AccountStep(zones, Run(zones, before), before, c);
      assert log == before + [c];
    }
  }

  /** The iteration that made a resize is not over yet. */
  ghost predicate MidIteration(zones: nat, log: seq<Call>)
    requires zones > 0
  {
    var s := Run(zones, log);
    (s.Draining? || s.Deleting?) && Deletions(log) % zones == 0
  }

  /** At every point of every run, within the drain loop of the current pair: the successful resizes are the deletions
      divided by the zones, rounded up, plus the failures at a boundary, plus the resize of an unfinished iteration;
      hence there are never more deletions than zones times resizes. */
  lemma {:induction false} ExactAccounting(zones: nat, log: seq<Call>)
    requires zones > 0 && Run(zones, log) != Stuck
    ensures Resizes(log) == (Deletions(log) + zones - 1) / zones + BoundaryFailures(zones, log)
                            + if MidIteration(zones, log) then 1 else 0
    ensures Deletions(log) <= zones * Resizes(log)
  {
    AccountHolds(zones, log);
    RoundsIsCeiling(zones, Deletions(log));
    Monotone(zones, Rounds(zones, Deletions(log)), Resizes(log));
  }

  lemma {:induction false} Monotone(k: nat, a: nat, b: nat)
    requires a <= b
    ensures k * a <= k * b
  {
  }
}

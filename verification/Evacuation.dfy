/** The control flow of one thread of the killer, read as an automaton over its API calls
    (EvacuatePodsFromNode, startNodeDrain, waitforDrainToFinish and deleteNode in pkg/killer/node.go),
    and what every call log the automaton accepts satisfies. */
module Evacuation {
  import opened Common
  import opened Pods

  /** An API call together with its answer. ClockCheck is the elapsed-time test of the polling loop. */
  datatype Call =
    | FetchNode(node: string, ok: bool)
    | CordonNode(node: string, ok: bool)
    | ListPods(node: string, answer: Option<seq<Pod>>)
    | RemovePod(node: string, pod: Pod, ok: bool)
    | ClockCheck(node: string, timedOut: bool)
    | RemoveNode(node: string, ok: bool)
    | RemoveInstance(node: string, zone: string, ok: bool)

  datatype Stage =
    | Idle
    | Fetched(node: string)
    | Cordoned(node: string)
    | Removing(node: string, rest: seq<Pod>)
    | Waiting(node: string)
    | Checking(node: string)
    | Drained(node: string)
    | Unregistered(node: string)
    | Stuck

  /** The loop over the pods to delete; it is left when none remains. */
  function RemovalLoop(node: string, rest: seq<Pod>): Stage {
    if rest == [] then Waiting(node) else Removing(node, rest)
  }

  function Next(s: Stage, c: Call): Stage {
    if !s.Idle? && !s.Stuck? && s.node != c.node then Stuck
    else
      match (s, c)
      case (Idle, FetchNode(n, ok)) => if ok then Fetched(n) else Idle
      case (Fetched(n), CordonNode(_, ok)) => if ok then Cordoned(n) else Idle
      case (Cordoned(n), ListPods(_, None)) => Idle
      case (Cordoned(n), ListPods(_, Some(pods))) => RemovalLoop(n, ToBeDeleted(pods))
      case (Removing(n, rest), RemovePod(_, pod, ok)) =>
        if rest == [] || pod != rest[0] then Stuck
        else if ok then RemovalLoop(n, rest[1..]) else Idle
      case (Waiting(n), ListPods(_, None)) => Idle
      case (Waiting(n), ListPods(_, Some(pods))) => if ToBeDeleted(pods) == [] then Drained(n) else Checking(n)
      case (Checking(n), ClockCheck(_, timedOut)) => if timedOut then Idle else Waiting(n)
      case (Drained(n), RemoveNode(_, ok)) => if ok then Unregistered(n) else Idle
      case (Unregistered(n), RemoveInstance(_, _, _)) => Idle
      case _ => Stuck
  }

  /** Only the killer deletes the instance after the node; the shifter goes on with its next node. */
  function NextFor(instances: bool, s: Stage, c: Call): Stage {
    if !instances && c.RemoveNode? && Next(s, c) != Stuck then Idle else Next(s, c)
  }

  function RunFor(instances: bool, from: Stage, log: seq<Call>): Stage {
    if log == [] then from else NextFor(instances, RunFor(instances, from, log[..|log| - 1]), log[|log| - 1])
  }

  /** The automaton of the killer. */
  function Run(from: Stage, log: seq<Call>): Stage {
    RunFor(true, from, log)
  }

  lemma {:induction false} RunSnoc(instances: bool, from: Stage, log: seq<Call>, c: Call)
    ensures RunFor(instances, from, log + [c]) == NextFor(instances, RunFor(instances, from, log), c)
  {
    assert (log + [c])[..|log|] == log;
  }

  lemma {:induction false} RunConcat(from: Stage, a: seq<Call>, b: seq<Call>)
    ensures Run(from, a + b) == Run(Run(from, a), b)
  {
    if b == [] {
      assert a + b == a;
    } else {
      RunConcat(from, a, b[..|b| - 1]);
      assert (a + b)[..|a + b| - 1] == a + b[..|b| - 1];
    }
  }

  /** Every prefix of an accepted log is accepted. */
  lemma {:induction false} PrefixAccepted(instances: bool, from: Stage, log: seq<Call>, i: nat)
    requires i <= |log| && RunFor(instances, from, log) != Stuck
    ensures RunFor(instances, from, log[..i]) != Stuck
    decreases |log|
  {
    if i < |log| {
      StuckStays(log[|log| - 1]);
      PrefixAccepted(instances, from, log[..|log| - 1], i);
      assert log[..|log| - 1][..i] == log[..i];
    } else {
      assert log[..i] == log;
    }
  }

  lemma {:induction false} StuckStays(c: Call)
    ensures Next(Stuck, c) == Stuck
  {
  }

  lemma {:induction false} StepAt(instances: bool, log: seq<Call>, i: nat)
    requires i < |log| && RunFor(instances, Idle, log) != Stuck
    ensures RunFor(instances, Idle, log[..i + 1]) == NextFor(instances, RunFor(instances, Idle, log[..i]), log[i])
    ensures RunFor(instances, Idle, log[..i + 1]) != Stuck
  {
    PrefixAccepted(instances, Idle, log, i + 1);
    LastStep(instances, log[..i + 1]);
    assert log[..i + 1][..i] == log[..i];
  }

  lemma {:induction false} LastStep(instances: bool, log: seq<Call>)
    requires log != []
    ensures RunFor(instances, Idle, log) ==
            NextFor(instances, RunFor(instances, Idle, log[..|log| - 1]), log[|log| - 1])
  {
  }

  lemma {:induction false} ShifterStages(log: seq<Call>)
    ensures !RunFor(false, Idle, log).Unregistered?
  {
    if log != [] {
      ShifterStages(log[..|log| - 1]);
    }
  }

  /** A node is deleted from one stage only, and so is an instance. */
  lemma {:induction false} DeletionStages(s: Stage, c: Call)
    requires Next(s, c) != Stuck
    ensures c.RemoveNode? ==> s == Drained(c.node) && Next(s, c) == if c.ok then Unregistered(c.node) else Idle
    ensures c.RemoveInstance? ==> s == Unregistered(c.node) && Next(s, c) == Idle
    ensures s.Unregistered? ==> c.RemoveInstance?
    ensures s.Idle? ==> c.FetchNode?
  {
  }

  /** The calls that ask for the removal of the given pods, all granted. */
  function Removals(node: string, pods: seq<Pod>): seq<Call> {
    seq(|pods|, i requires 0 <= i < |pods| => RemovePod(node, pods[i], true))
  }

  /** From position j on the log holds a cordon of the node, the listing of its pods and the granted removal of
      the first `done` pods of what getPodsToBeDeleted makes of that listing. */
  ghost predicate DrainStarted(log: seq<Call>, node: string, j: nat, pods: seq<Pod>, done: nat) {
    && done <= |ToBeDeleted(pods)|
    && j + 2 + done <= |log|
    && log[j] == CordonNode(node, true)
    && log[j + 1] == ListPods(node, Some(pods))
    && log[j + 2..j + 2 + done] == Removals(node, ToBeDeleted(pods)[..done])
  }

  /** From position k on the log only polls the pods of the node and the clock. */
  ghost predicate OnlyPolls(log: seq<Call>, node: string, k: nat) {
    forall i :: k <= i < |log| ==> log[i].node == node && (log[i].ListPods? || log[i].ClockCheck?)
  }

  ghost predicate FullDrain(log: seq<Call>, node: string, j: nat, pods: seq<Pod>) {
    && DrainStarted(log, node, j, pods, |ToBeDeleted(pods)|)
    && OnlyPolls(log, node, j + 2 + |ToBeDeleted(pods)|)
  }

  /** The last call listed the pods of the node and nothing had to be deleted. */
  ghost predicate EndsEmpty(log: seq<Call>, node: string) {
    && |log| > 0 && log[|log| - 1].ListPods? && log[|log| - 1].node == node
    && log[|log| - 1].answer.Some? && ToBeDeleted(log[|log| - 1].answer.value) == []
  }

  /** What the log tells when the thread is at a given stage. */
  ghost predicate StageInv(s: Stage, log: seq<Call>) {
    match s
    case Cordoned(n) => |log| > 0 && log[|log| - 1] == CordonNode(n, true)
    case Removing(n, rest) =>
      exists j: nat, pods, done: nat ::
        DrainStarted(log, n, j, pods, done) && j + 2 + done == |log| && rest == ToBeDeleted(pods)[done..]
    case Waiting(n) => exists j: nat, pods :: FullDrain(log, n, j, pods)
    case Checking(n) => exists j: nat, pods :: FullDrain(log, n, j, pods)
    case Drained(n) => (exists j: nat, pods :: FullDrain(log, n, j, pods)) && EndsEmpty(log, n)
    case Unregistered(n) => |log| > 0 && log[|log| - 1] == RemoveNode(n, true)
    case _ => true
  }

  lemma {:induction false} PollKept(before: seq<Call>, c: Call)
    requires c.ListPods? || c.ClockCheck?
    ensures forall j: nat, pods :: FullDrain(before, c.node, j, pods) ==> FullDrain(before + [c], c.node, j, pods)
  {
    forall j: nat, pods | FullDrain(before, c.node, j, pods) ensures FullDrain(before + [c], c.node, j, pods) {
      var end := j + 2 + |ToBeDeleted(pods)|;
      assert (before + [c])[j + 2..end] == before[j + 2..end];
    }
  }

  lemma {:induction false} RemovalAdded(before: seq<Call>, n: string, j: nat, pods: seq<Pod>, done: nat)
    requires DrainStarted(before, n, j, pods, done) && j + 2 + done == |before| && done < |ToBeDeleted(pods)|
    ensures DrainStarted(before + [RemovePod(n, ToBeDeleted(pods)[done], true)], n, j, pods, done + 1)
  {
    var all := ToBeDeleted(pods);
    var c := RemovePod(n, all[done], true);
    assert (before + [c])[j + 2..j + 2 + done + 1] == before[j + 2..j + 2 + done] + [c];
    assert Removals(n, all[..done + 1]) == Removals(n, all[..done]) + [c];
  }

  lemma {:induction false} RemovalKept(before: seq<Call>, n: string, rest: seq<Pod>)
    requires rest != [] && StageInv(Removing(n, rest), before)
    ensures StageInv(RemovalLoop(n, rest[1..]), before + [RemovePod(n, rest[0], true)])
  {
    var j: nat, pods, done: nat :|
      DrainStarted(before, n, j, pods, done) && j + 2 + done == |before| && rest == ToBeDeleted(pods)[done..];
    RemovalAdded(before, n, j, pods, done);
    assert rest[1..] == ToBeDeleted(pods)[done + 1..];
    if rest[1..] == [] {
      assert FullDrain(before + [RemovePod(n, rest[0], true)], n, j, pods);
    }
  }

  lemma {:induction false} StageInvStep(s: Stage, before: seq<Call>, c: Call)
    requires StageInv(s, before)
    ensures StageInv(Next(s, c), before + [c])
  {
    var log := before + [c];
    match (s, c)
    case (Cordoned(n), ListPods(_, Some(pods))) =>
      if c.node == n {
        var j := |before| - 1;
        assert log[j + 2..j + 2] == Removals(n, ToBeDeleted(pods)[..0]);
        assert DrainStarted(log, n, j, pods, 0);
        assert ToBeDeleted(pods)[0..] == ToBeDeleted(pods);
        if ToBeDeleted(pods) == [] {
          assert FullDrain(log, n, j, pods);
        }
      }
    case (Removing(n, rest), RemovePod(_, pod, ok)) =>
      if c.node == n && rest != [] && pod == rest[0] && ok {
        RemovalKept(before, n, rest);
      }
    case (Waiting(n), ListPods(_, Some(pods))) => PollKept(before, c);
    case (Checking(n), ClockCheck(_, timedOut)) => PollKept(before, c);
    case _ =>
  }

  lemma {:induction false} StageInvHolds(instances: bool, log: seq<Call>)
    ensures StageInv(RunFor(instances, Idle, log), log)
  {
    if log != [] {
      var before, c := log[..|log| - 1], log[|log| - 1];
      StageInvHolds(instances, before);
      StageInvStep(RunFor(instances, Idle, before), before, c);
      assert log == before + [c];
    }
  }

  /** In every accepted log of the killer or the shifter a node is deleted only right after a listing of its pods in
      which nothing had to go; before that the node was cordoned, every pod of the listing that had to go was asked to
      be removed, in order, each request granted, and from there on the thread did nothing but poll. */
  lemma {:induction false} NodeRemovedOnlyWhenDrained(instances: bool, log: seq<Call>, i: nat)
    returns (j: nat, pods: seq<Pod>)
    requires RunFor(instances, Idle, log) != Stuck && i < |log| && log[i].RemoveNode?
    ensures FullDrain(log[..i], log[i].node, j, pods)
    ensures i > 0 && log[i - 1].ListPods? && log[i - 1].node == log[i].node
    ensures log[i - 1].answer.Some? && forall p :: p in log[i - 1].answer.value ==> !Drainable(p)
  {
    var n, before := log[i].node, log[..i];
    assert RunFor(instances, Idle, before) == Drained(n) by {
      StepAt(instances, log, i);
      DeletionStages(RunFor(instances, Idle, before), log[i]);
    }
    StageInvHolds(instances, before);
    j, pods :| FullDrain(before, n, j, pods);
    assert before[i - 1] == log[i - 1];
    NothingToDelete(log[i - 1].answer.value);
  }

  /** An instance is deleted only right after the node was deleted successfully, and never by the shifter. */
  lemma {:induction false} InstanceRemovedOnlyAfterNode(instances: bool, log: seq<Call>, i: nat)
    requires RunFor(instances, Idle, log) != Stuck && i < |log| && log[i].RemoveInstance?
    ensures instances && i > 0 && log[i - 1] == RemoveNode(log[i].node, true)
  {
    StepAt(instances, log, i);
    DeletionStages(RunFor(instances, Idle, log[..i]), log[i]);
    StageInvHolds(instances, log[..i]);
    ShifterStages(log[..i]);
  }

  /** One evacuation with the deletion that may follow: it starts by reading the node and is about that node only. */
  ghost predicate Segment(node: string, log: seq<Call>) {
    && log != [] && log[0].FetchNode?
    && Run(Idle, log) == Idle
    && (forall i :: 0 <= i < |log| ==> log[i].node == node)
    && (forall i :: 0 < i < |log| ==> !log[i].FetchNode?)
  }

  /** The log of a pass over the given nodes: their segments in order. */
  ghost predicate PassLog(nodes: seq<string>, log: seq<Call>) {
    if nodes == [] then log == []
    else exists k: nat :: PassLogCut(nodes, log, k)
  }

  ghost predicate PassLogCut(nodes: seq<string>, log: seq<Call>, k: nat)
    requires nodes != []
  {
    && k <= |log|
    && PassLog(nodes[..|nodes| - 1], log[..k])
    && Segment(nodes[|nodes| - 1], log[k..])
  }

  /** How often a call of a kind was made for a node. */
  function Count(log: seq<Call>, p: Call -> bool): nat {
    if log == [] then 0
    else Count(log[..|log| - 1], p) + if p(log[|log| - 1]) then 1 else 0
  }

  lemma {:induction false} CountConcat(a: seq<Call>, b: seq<Call>, p: Call -> bool)
    ensures Count(a + b, p) == Count(a, p) + Count(b, p)
  {
    if b == [] {
      assert a + b == a;
    } else {
      CountConcat(a, b[..|b| - 1], p);
      assert (a + b)[..|a + b| - 1] == a + b[..|b| - 1];
    }
  }

  lemma {:induction false} CountNone(log: seq<Call>, p: Call -> bool)
    requires forall i :: 0 <= i < |log| ==> !p(log[i])
    ensures Count(log, p) == 0
  {
    if log != [] {
      CountNone(log[..|log| - 1], p);
    }
  }

  /** A call that happens at one position at most is counted once at most. */
  lemma {:induction false} CountUnique(log: seq<Call>, p: Call -> bool, at: nat)
    requires forall i :: 0 <= i < |log| && p(log[i]) ==> i == at
    ensures Count(log, p) <= 1
    ensures at < |log| && p(log[at]) ==> Count(log, p) == 1
  {
    if log != [] {
      if at == |log| - 1 {
        CountNone(log[..|log| - 1], p);
      } else {
        CountUnique(log[..|log| - 1], p, at);
      }
    }
  }

  function FetchOf(node: string): Call -> bool { (c: Call) => c.FetchNode? && c.node == node }
  function RemovalOf(node: string): Call -> bool { (c: Call) => c.RemoveNode? && c.node == node }
  function InstanceRemovalOf(node: string): Call -> bool { (c: Call) => c.RemoveInstance? && c.node == node }

  /** A segment that is idle again is over. */
  lemma {:induction false} SegmentOver(node: string, log: seq<Call>, i: nat)
    requires Segment(node, log) && 0 < i <= |log| && Run(Idle, log[..i]) == Idle
    ensures i == |log|
  {
    if i < |log| {
      StepAt(true, log, i);
      DeletionStages(Run(Idle, log[..i]), log[i]);
    }
  }

  /** The deletions of a segment are its last calls. */
  lemma {:induction false} DeletionsLast(node: string, log: seq<Call>, i: nat)
    requires Segment(node, log) && i < |log| && (log[i].RemoveNode? || log[i].RemoveInstance?)
    ensures i == |log| - 1 || (log[i].RemoveNode? && i == |log| - 2 && log[i + 1].RemoveInstance?)
  {
    StepAt(true, log, i);
    DeletionStages(Run(Idle, log[..i]), log[i]);
    if Run(Idle, log[..i + 1]) == Idle {
      SegmentOver(node, log, i + 1);
    } else {
      assert log[..|log|] == log;
      StepAt(true, log, i + 1);
      DeletionStages(Run(Idle, log[..i + 1]), log[i + 1]);
      SegmentOver(node, log, i + 2);
    }
  }

  lemma {:induction false} SegmentCounts(node: string, log: seq<Call>, n: string)
    requires Segment(node, log)
    ensures Count(log, FetchOf(n)) == if n == node then 1 else 0
    ensures Count(log, RemovalOf(n)) <= if n == node then 1 else 0
    ensures Count(log, InstanceRemovalOf(n)) <= if n == node then 1 else 0
  {
    if n != node {
      CountNone(log, FetchOf(n));
      CountNone(log, RemovalOf(n));
      CountNone(log, InstanceRemovalOf(n));
    } else {
      CountUnique(log, FetchOf(n), 0);
      forall i | 0 <= i < |log| && (log[i].RemoveNode? || log[i].RemoveInstance?)
        ensures i == |log| - 1 || (log[i].RemoveNode? && i == |log| - 2 && log[i + 1].RemoveInstance?)
      {
        DeletionsLast(node, log, i);
      }
      CountUnique(log, InstanceRemovalOf(n), |log| - 1);
      CountUnique(log, RemovalOf(n),
                  if log[|log| - 1].RemoveNode? then |log| - 1 else if |log| >= 2 then |log| - 2 else 0);
    }
  }

  lemma {:induction false} PassAccepted(nodes: seq<string>, log: seq<Call>)
    requires PassLog(nodes, log)
    ensures Run(Idle, log) == Idle
  {
    if nodes != [] {
      var k: nat :| PassLogCut(nodes, log, k);
      PassAccepted(nodes[..|nodes| - 1], log[..k]);
      RunConcat(Idle, log[..k], log[k..]);
      assert log == log[..k] + log[k..];
    }
  }

  /** Whatever happened in a pass, each of its deletions comes right after a full drain of its node. */
  lemma {:induction false} PassDrained(nodes: seq<string>, log: seq<Call>, i: nat) returns (j: nat, pods: seq<Pod>)
    requires PassLog(nodes, log) && i < |log| && log[i].RemoveNode?
    ensures FullDrain(log[..i], log[i].node, j, pods) && EndsEmpty(log[..i], log[i].node)
    ensures log[i].node in nodes
  {
    PassAccepted(nodes, log);
    var owner := PassOrder(nodes, log);
    j, pods := NodeRemovedOnlyWhenDrained(true, log, i);
    NothingToDelete(log[i - 1].answer.value);
  }

  /** The call failed; for the elapsed-time test that means that it gives up. */
  predicate Refused(c: Call) {
    match c
    case ListPods(_, answer) => answer.None?
    case ClockCheck(_, timedOut) => timedOut
    case _ => !c.ok
  }

  /** The work on a node is over after a refused call and after its last deletion, and at no other moment. */
  lemma {:induction false} OverIff(instances: bool, s: Stage, c: Call)
    requires NextFor(instances, s, c) != Stuck
    ensures NextFor(instances, s, c) == Idle <==> Refused(c) || c.RemoveInstance? || (!instances && c.RemoveNode?)
    ensures s == Idle <==> c.FetchNode?
  {
  }

  /** In a pass the work on a node goes on after a call if and only if the call was granted and did not delete the
      instance; otherwise the next call, if any, reads another node. */
  lemma {:induction false} PassGoesOn(nodes: seq<string>, log: seq<Call>, i: nat)
    requires PassLog(nodes, log) && i < |log|
    ensures i + 1 < |log| && !log[i + 1].FetchNode? <==> !Refused(log[i]) && !log[i].RemoveInstance?
  {
    PassAccepted(nodes, log);
    StepAt(true, log, i);
    OverIff(true, RunFor(true, Idle, log[..i]), log[i]);
    if i + 1 < |log| {
      StepAt(true, log, i + 1);
      OverIff(true, RunFor(true, Idle, log[..i + 1]), log[i + 1]);
    } else {
      assert log[..i + 1] == log;
    }
  }

  /** So a pass deletes the instance of each node it deleted, right after it. */
  lemma {:induction false} PassDeletesInstance(nodes: seq<string>, log: seq<Call>, i: nat)
    requires PassLog(nodes, log) && i < |log| && log[i].RemoveNode? && log[i].ok
    ensures i + 1 < |log| && log[i + 1].RemoveInstance? && log[i + 1].node == log[i].node
  {
    PassGoesOn(nodes, log, i);
    PassAccepted(nodes, log);
    StepAt(true, log, i);
    StepAt(true, log, i + 1);
    DeletionStages(RunFor(true, Idle, log[..i]), log[i]);
    DeletionStages(RunFor(true, Idle, log[..i + 1]), log[i + 1]);
  }

  lemma {:induction false} EmptyPoll(s: Stage, c: Call)
    requires Next(s, c) != Stuck && !s.Cordoned? && c.ListPods? && c.answer.Some? && ToBeDeleted(c.answer.value) == []
    ensures Next(s, c) == Drained(c.node)
  {
  }

  lemma {:induction false} AfterDrained(s: Stage, c: Call)
    requires Next(s, c) != Stuck && s.Drained?
    ensures c == RemoveNode(s.node, c.ok)
  {
  }

  /** And it asks to delete each node that is drained: when a listing other than the one right after the cordon leaves
      nothing to delete, the next call deletes the node. */
  lemma {:induction false} PassDeletesDrained(nodes: seq<string>, log: seq<Call>, i: nat)
    requires PassLog(nodes, log) && 0 < i < |log| && !log[i - 1].CordonNode?
    requires log[i].ListPods? && log[i].answer.Some? && forall p :: p in log[i].answer.value ==> !Drainable(p)
    ensures i + 1 < |log| && log[i + 1].RemoveNode? && log[i + 1].node == log[i].node
  {
    PassGoesOn(nodes, log, i);
    PassAccepted(nodes, log);
    NothingToDelete(log[i].answer.value);
    StageInvHolds(true, log[..i]);
    StepAt(true, log, i);
    StepAt(true, log, i + 1);
    EmptyPoll(RunFor(true, Idle, log[..i]), log[i]);
    AfterDrained(RunFor(true, Idle, log[..i + 1]), log[i + 1]);
  }

  /** In a pass over distinct nodes each listed node is read exactly once, whatever failed for the nodes before it,
      and its deletion and the deletion of its instance are asked for once at most; no other node is touched. */
  lemma {:induction false} PassCounts(nodes: seq<string>, log: seq<Call>, n: string)
    requires PassLog(nodes, log) && Distinct(nodes)
    ensures Count(log, FetchOf(n)) == if n in nodes then 1 else 0
    ensures Count(log, RemovalOf(n)) <= if n in nodes then 1 else 0
    ensures Count(log, InstanceRemovalOf(n)) <= if n in nodes then 1 else 0
  {
    if nodes != [] {
      var init, last := nodes[..|nodes| - 1], nodes[|nodes| - 1];
      var k: nat :| PassLogCut(nodes, log, k);
      PassCounts(init, log[..k], n);
      SegmentCounts(last, log[k..], n);
      assert log == log[..k] + log[k..];
      CountConcat(log[..k], log[k..], FetchOf(n));
      CountConcat(log[..k], log[k..], RemovalOf(n));
      CountConcat(log[..k], log[k..], InstanceRemovalOf(n));
      assert n in nodes <==> n in init || n == last;
    }
  }

  /** The nodes are processed in listing order: the calls about a node come before all calls about a later one. */
  lemma {:induction false} PassOrder(nodes: seq<string>, log: seq<Call>)
    returns (owner: seq<nat>)
    requires PassLog(nodes, log)
    ensures |owner| == |log|
    ensures forall a :: 0 <= a < |log| ==> owner[a] < |nodes| && log[a].node == nodes[owner[a]]
    ensures forall a, b :: 0 <= a < b < |log| ==> owner[a] <= owner[b]
  {
    owner := [];
    if nodes != [] {
      var k: nat :| PassLogCut(nodes, log, k);
      var before := PassOrder(nodes[..|nodes| - 1], log[..k]);
      owner := before + seq(|log| - k, _ => |nodes| - 1);
      forall a | 0 <= a < |log| ensures owner[a] < |nodes| && log[a].node == nodes[owner[a]] {
        if a < k {
          assert log[a] == log[..k][a];
        } else {
          assert log[a] == log[k..][a - k];
        }
      }
    }
  }
}

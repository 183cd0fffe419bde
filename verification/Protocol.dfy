/** The server as a whole: any number of spotter, killer, preemption and shifter threads that read and write node
    objects one API call at a time, interleaved with the cluster's own steps.
    Writes are whole objects and carry the version that was read; the API refuses a stale version. */
module Protocol {
  import opened Common
  import opened Pods
  import opened Clock
  import opened TimeSpans
  import opened Expiry
  import E = Evacuation
  import Killer

  /** A stored node: creation timestamp with its location, expiry annotation, cordon bit, everything else, version. */
  datatype Obj = Obj(created: int, offset: int -> int, expiry: Option<Text>, cordoned: bool, payload: int, version: nat)

  datatype Job =
    | Resting
    | Spotting
    | Killing(queue: seq<string>, passTime: int)
    | Preempting
    | Shifting

  /** A thread: its job, its place in an evacuation, and the objects it has read and may still write back. */
  datatype Agent = Agent(job: Job, stage: E.Stage, snaps: map<string, Obj>)

  datatype State = State(
    store: map<string, Obj>,
    placed: set<(string, Pod)>,
    agents: map<nat, Agent>,
    clock: int,
    next: nat,
    used: set<string>)

  datatype Label =
    // the cluster
    | Tick(dt: nat)
    | CreateNode(n: string, offset: int -> int, payload: int)
    | Touch(n: string, payload: int)
    | Vanish(n: string)
    | Bind(n: string, pod: Pod)
    | Terminate(n: string, pod: Pod)
    // a spotter pass: list, then per listed node an update or nothing
    | SpotList(a: nat, listed: set<string>)
    | SpotUpdate(a: nat, n: string, text: Text, ok: bool)
    | SpotSkip(a: nat, n: string)
    // a killer pass starts with a listing
    | KillList(a: nat, listing: seq<string>)
    // an evacuation, call by call; the shifter's own cordon loop
    | Begin(a: nat, job: Job)
    | Evac(a: nat, c: E.Call)
    | ShiftFetch(a: nat, n: string)
    | ShiftCordon(a: nat, n: string, ok: bool)
    | Finish(a: nat)
    // the server process stops in the middle of a job and is started again
    | Crash(a: nat)

  // ----- what the threads do -----

  /** A text a spotter may write: server processes may be configured with different windows, `lists` holds the
      whitelists of them all. */
  ghost predicate ChosenText(created: int, offset: int -> int, lists: set<seq<Span>>, text: Text) {
    exists spans :: spans in lists && ExpiryText(created, offset, spans, text)
  }

  function NodeOf(n: string, o: Obj): Killer.Node {
    Killer.Node(n, o.created, o.offset, o.expiry, "")
  }

  function Listing(store: map<string, Obj>, names: seq<string>): seq<Killer.Node>
    requires forall i :: 0 <= i < |names| ==> names[i] in store
  {
    seq(|names|, i requires 0 <= i < |names| => NodeOf(names[i], store[names[i]]))
  }

  /** The node selection of a killer pass. */
  function Selected(store: map<string, Obj>, names: seq<string>, now: int): seq<string>
    requires forall i :: 0 <= i < |names| ==> names[i] in store
  {
    Killer.Names(Killer.ExpiredNodes(Listing(store, names), now))
  }

  /** The API accepts a write only when the object still has the version that was read. */
  predicate Current(s: State, n: string, snap: Obj) {
    n in s.store && s.store[n].version == snap.version
  }

  function Written(s: State, n: string, o: Obj): State {
    s.(store := s.store[n := o.(version := s.next)], next := s.next + 1)
  }

  predicate Evacuates(job: Job) { job.Killing? || job.Preempting? || job.Shifting? }

  /** When an evacuation is over the killer goes on with its next node, the shifter with its loop; the handler
      returns. */
  function AfterEvacuation(job: Job, stage: E.Stage): Job {
    if stage != E.Idle then job
    else
      match job
      case Killing(queue, now) => if queue == [] then job else Killing(queue[1..], now)
      case Preempting => Resting
      case _ => job
  }

  ghost predicate EvacEnabled(s: State, ag: Agent, c: E.Call) {
    && Evacuates(ag.job) && E.Next(ag.stage, c) != E.Stuck
    && match c
       case FetchNode(n, ok) =>
         && (ag.job.Killing? ==> ag.job.queue != [] && ag.job.queue[0] == n)
         && (ok ==> n in s.store)
       case CordonNode(n, ok) => n in ag.snaps && (ok ==> Current(s, n, ag.snaps[n]))
       case ListPods(n, answer) =>
         answer.Some? ==> forall p :: p in answer.value <==> (n, p) in s.placed
       case RemoveNode(n, ok) => !ag.job.Preempting? && (ok ==> n in s.store)
       case _ => true
  }

  ghost predicate Enabled(lists: set<seq<Span>>, s: State, l: Label) {
    match l
    case Tick(_) => true
    case CreateNode(n, _, _) => n !in s.used
    case Touch(n, _) => n in s.store
    case Vanish(n) => n in s.store
    case Bind(n, pod) => n in s.store && (s.store[n].cordoned ==> !Drainable(pod))
    case Terminate(n, pod) => true
    case SpotList(a, listed) => a in s.agents && s.agents[a].job.Resting? && listed <= s.store.Keys
    case SpotUpdate(a, n, text, ok) =>
      && a in s.agents && s.agents[a].job.Spotting? && n in s.agents[a].snaps
      && var snap := s.agents[a].snaps[n];
         && snap.expiry.None? && ChosenText(snap.created, snap.offset, lists, text)
         && (ok ==> Current(s, n, snap))
    case SpotSkip(a, n) => a in s.agents && s.agents[a].job.Spotting?
    case KillList(a, listing) =>
      && a in s.agents && s.agents[a].job.Resting? && Distinct(listing)
      && forall i :: 0 <= i < |listing| ==> listing[i] in s.store
    case Begin(a, job) => a in s.agents && s.agents[a].job.Resting? && (job.Preempting? || job.Shifting?)
    case Evac(a, c) => a in s.agents && EvacEnabled(s, s.agents[a], c)
    case ShiftFetch(a, n) =>
      a in s.agents && s.agents[a].job.Shifting? && s.agents[a].stage.Idle? && n in s.store
    case ShiftCordon(a, n, ok) =>
      && a in s.agents && s.agents[a].job.Shifting? && s.agents[a].stage.Idle? && n in s.agents[a].snaps
      && (ok ==> Current(s, n, s.agents[a].snaps[n]))
    case Finish(a) =>
      && a in s.agents
      && (s.agents[a].job.Killing? ==> s.agents[a].job.queue == [])
      && (s.agents[a].stage.Idle? || (s.agents[a].stage.Drained? && s.agents[a].job.Preempting?))
    case Crash(a) => a in s.agents
  }

  /** The effect of an evacuation call on the cluster. */
  function EvacStore(s: State, ag: Agent, c: E.Call): State {
    match c
    case CordonNode(n, true) => if n in ag.snaps then Written(s, n, ag.snaps[n].(cordoned := true)) else s
    case RemoveNode(n, true) => s.(store := s.store - {n})
    case _ => s
  }

  function EvacAgent(s: State, ag: Agent, c: E.Call): Agent {
    var stage := E.NextFor(ag.job.Killing?, ag.stage, c);
    var snaps := if c.FetchNode? && c.ok && c.node in s.store then map[c.node := s.store[c.node]] else ag.snaps;
    Agent(AfterEvacuation(ag.job, stage), stage, snaps)
  }

  /** The change of the cluster, without the threads. */
  function ApplyStore(s: State, l: Label): State {
    match l
    case Tick(dt) => s.(clock := s.clock + dt)
    case CreateNode(n, offset, payload) =>
      Written(s, n, Obj(s.clock, offset, None, false, payload, 0)).(used := s.used + {n})
    case Touch(n, payload) => if n in s.store then Written(s, n, s.store[n].(payload := payload)) else s
    case Vanish(n) => s.(store := s.store - {n})
    case Bind(n, pod) => s.(placed := s.placed + {(n, pod)})
    case Terminate(n, pod) => s.(placed := s.placed - {(n, pod)})
    case SpotUpdate(a, n, text, ok) =>
      if ok && a in s.agents && n in s.agents[a].snaps
      then Written(s, n, s.agents[a].snaps[n].(expiry := Some(text))) else s
    case Evac(a, c) => if a in s.agents then EvacStore(s, s.agents[a], c) else s
    case ShiftCordon(a, n, ok) =>
      if ok && a in s.agents && n in s.agents[a].snaps
      then Written(s, n, s.agents[a].snaps[n].(cordoned := true)) else s
    case _ => s
  }

  /** The thread a step belongs to, and that thread after the step. */
  function Mover(l: Label): Option<nat> {
    match l
    case SpotList(a, _) => Some(a)
    case SpotUpdate(a, _, _, _) => Some(a)
    case SpotSkip(a, _) => Some(a)
    case KillList(a, _) => Some(a)
    case Begin(a, _) => Some(a)
    case Evac(a, _) => Some(a)
    case ShiftFetch(a, _) => Some(a)
    case ShiftCordon(a, _, _) => Some(a)
    case Finish(a) => Some(a)
    case Crash(a) => Some(a)
    case _ => None
  }

  ghost function Moved(s: State, l: Label, ag: Agent): Agent {
    match l
    case SpotList(_, listed) => Agent(Spotting, E.Idle, map n | n in listed && n in s.store :: s.store[n])
    case SpotUpdate(_, n, _, _) => ag.(snaps := ag.snaps - {n})
    case SpotSkip(_, n) => ag.(snaps := ag.snaps - {n})
    case KillList(_, listing) =>
      if forall i :: 0 <= i < |listing| ==> listing[i] in s.store
      then Agent(Killing(Selected(s.store, listing, s.clock), s.clock), E.Idle, map[]) else ag
    case Begin(_, job) => Agent(job, E.Idle, map[])
    case Evac(_, c) => EvacAgent(s, ag, c)
    case ShiftFetch(_, n) => if n in s.store then ag.(snaps := ag.snaps[n := s.store[n]]) else ag
    case ShiftCordon(_, n, _) => ag.(snaps := ag.snaps - {n})
    case Finish(_) => Agent(Resting, E.Idle, map[])
    case Crash(_) => Agent(Resting, E.Idle, map[])
    case _ => ag
  }

  ghost function Apply(s: State, l: Label): State {
    var s' := ApplyStore(s, l);
    match Mover(l)
    case Some(a) => if a in s.agents then s'.(agents := s.agents[a := Moved(s, l, s.agents[a])]) else s'
    case None => s'
  }

  ghost predicate Step(lists: set<seq<Span>>, s: State, l: Label, s': State) {
    Enabled(lists, s, l) && s' == Apply(s, l)
  }

  /** Every annotation in the cluster was written by a spotter, of this server process or of an earlier one. */
  ghost predicate StoreOk(lists: set<seq<Span>>, s: State) {
    forall n :: n in s.store ==>
      && n in s.used && s.store[n].version < s.next
      && (s.store[n].expiry.Some? ==>
            ChosenText(s.store[n].created, s.store[n].offset, lists, s.store[n].expiry.value))
  }

  /** All threads rest when the server starts; nodes may have been annotated and cordoned before. */
  ghost predicate Init(lists: set<seq<Span>>, s: State) {
    StoreOk(lists, s) && forall a :: a in s.agents ==> s.agents[a] == Agent(Resting, E.Idle, map[])
  }

  ghost predicate IsRun(lists: set<seq<Span>>, states: seq<State>, labels: seq<Label>) {
    && |states| == |labels| + 1
    && Init(lists, states[0])
    && forall i :: 0 <= i < |labels| ==> Step(lists, states[i], labels[i], states[i + 1])
  }

  // ----- how the cluster evolves -----

  /** A later version of the same object: the annotation and the cordon bit, once set, are as they were. */
  ghost predicate Grown(o: Obj, o': Obj) {
    && o'.created == o.created && o'.offset == o.offset
    && (o.expiry.Some? ==> o'.expiry == o.expiry)
    && (o.cordoned ==> o'.cordoned)
  }

  /** What any step guarantees to every thread. */
  ghost predicate Evolves(s: State, s': State) {
    && s.clock <= s'.clock && s.next <= s'.next && s.used <= s'.used
    && (forall n :: n in s.used && n in s'.store ==>
          && n in s.store && Grown(s.store[n], s'.store[n])
          && (s'.store[n] == s.store[n] || s'.store[n].version >= s.next))
    && (forall n, p :: n in s.used && (n, p) in s'.placed && (n, p) !in s.placed && Drainable(p) ==>
          n in s.store && !s.store[n].cordoned)
  }

  ghost predicate SnapOk(s: State, n: string, snap: Obj) {
    && n in s.used && snap.version < s.next
    && (n in s.store ==> Grown(snap, s.store[n]) && (s.store[n].version == snap.version ==> s.store[n] == snap))
  }

  /** What the killer knows of a node it selected. */
  ghost predicate SelectedOk(s: State, n: string, passTime: int) {
    n in s.used && (n in s.store ==> Killer.Expired(NodeOf(n, s.store[n]), passTime))
  }

  ghost predicate Cordoned(s: State, n: string) {
    n in s.used && (n in s.store ==> s.store[n].cordoned)
  }

  ghost predicate Empty(s: State, n: string) {
    n in s.store ==> forall p :: (n, p) in s.placed ==> !Drainable(p)
  }

  ghost predicate StageOk(s: State, ag: Agent) {
    match ag.stage
    case Idle => true
    case Fetched(n) => n in ag.snaps
    case Cordoned(n) => Cordoned(s, n)
    case Removing(n, _) => Cordoned(s, n)
    case Waiting(n) => Cordoned(s, n)
    case Checking(n) => Cordoned(s, n)
    case Drained(n) => Cordoned(s, n) && Empty(s, n)
    case Unregistered(n) => true
    case Stuck => false
  }

  ghost predicate JobOk(s: State, ag: Agent) {
    && (ag.job.Killing? ==>
          && ag.job.passTime <= s.clock
          && (forall i :: 0 <= i < |ag.job.queue| ==> SelectedOk(s, ag.job.queue[i], ag.job.passTime))
          && (ag.stage != E.Idle && ag.stage != E.Stuck ==> ag.job.queue != [] && ag.stage.node == ag.job.queue[0]))
    && (!Evacuates(ag.job) ==> ag.stage == E.Idle)
    && (ag.stage.Unregistered? ==> ag.job.Killing?)
  }

  ghost predicate AgentOk(s: State, ag: Agent) {
    && (forall n :: n in ag.snaps ==> SnapOk(s, n, ag.snaps[n]))
    && StageOk(s, ag) && JobOk(s, ag)
  }

  ghost predicate Inv(lists: set<seq<Span>>, s: State) {
    StoreOk(lists, s) && forall a :: a in s.agents ==> AgentOk(s, s.agents[a])
  }

  /** A thread's knowledge survives every step of everybody else. */
  lemma {:induction false} AgentStable(s: State, s': State, ag: Agent)
    requires AgentOk(s, ag) && Evolves(s, s')
    ensures AgentOk(s', ag)
  {
    forall n | n in ag.snaps ensures SnapOk(s', n, ag.snaps[n]) {
      assert SnapOk(s, n, ag.snaps[n]);
    }
    if ag.job.Killing? {
      forall i | 0 <= i < |ag.job.queue| ensures SelectedOk(s', ag.job.queue[i], ag.job.passTime) {
        assert SelectedOk(s, ag.job.queue[i], ag.job.passTime);
      }
    }
  }

  /** A granted write of an object that differs from what was read in a permitted way. */
  lemma {:induction false} WriteEvolves(lists: set<seq<Span>>, s: State, n: string, snap: Obj, o: Obj)
    requires StoreOk(lists, s) && SnapOk(s, n, snap) && Current(s, n, snap) && Grown(snap, o)
    requires o.expiry.Some? ==> ChosenText(o.created, o.offset, lists, o.expiry.value)
    ensures Evolves(s, Written(s, n, o)) && StoreOk(lists, Written(s, n, o))
    ensures s.store[n] == snap
  {
  }

  lemma {:induction false} StoreStep(lists: set<seq<Span>>, s: State, l: Label)
    requires Inv(lists, s) && Enabled(lists, s, l)
    ensures Evolves(s, ApplyStore(s, l)) && StoreOk(lists, ApplyStore(s, l))
  {
    match l
    case Touch(n, payload) => WriteEvolves(lists, s, n, s.store[n], s.store[n].(payload := payload));
    case SpotUpdate(a, n, text, ok) =>
      var snap := s.agents[a].snaps[n];
      assert AgentOk(s, s.agents[a]) && SnapOk(s, n, snap);
      if ok {
        WriteEvolves(lists, s, n, snap, snap.(expiry := Some(text)));
      }
    case Evac(a, c) =>
      assert AgentOk(s, s.agents[a]);
      if c.CordonNode? && c.ok {
        var snap := s.agents[a].snaps[c.node];
        assert SnapOk(s, c.node, snap);
        WriteEvolves(lists, s, c.node, snap, snap.(cordoned := true));
      }
    case ShiftCordon(a, n, ok) =>
      var snap := s.agents[a].snaps[n];
      assert AgentOk(s, s.agents[a]) && SnapOk(s, n, snap);
      if ok {
        WriteEvolves(lists, s, n, snap, snap.(cordoned := true));
      }
    case _ =>
  }

  lemma {:induction false} SelectedMember(store: map<string, Obj>, names: seq<string>, now: int, n: string)
    requires forall i :: 0 <= i < |names| ==> names[i] in store
    ensures n in Selected(store, names, now) <==> n in names && Killer.Expired(NodeOf(n, store[n]), now)
  {
    var nodes := Listing(store, names);
    var chosen := Killer.ExpiredNodes(nodes, now);
    if n in Selected(store, names, now) {
      var i :| 0 <= i < |chosen| && Killer.Names(chosen)[i] == n;
      Killer.ExpiredNodesMember(nodes, now, chosen[i]);
      var k :| 0 <= k < |nodes| && nodes[k] == chosen[i];
      assert names[k] == n;
    }
    if n in names && Killer.Expired(NodeOf(n, store[n]), now) {
      var k :| 0 <= k < |names| && names[k] == n;
      assert nodes[k] == NodeOf(n, store[n]);
      Killer.ExpiredNodesMember(nodes, now, nodes[k]);
      var i :| 0 <= i < |chosen| && chosen[i] == nodes[k];
      assert Killer.Names(chosen)[i] == n;
    }
  }

  /** The evacuating thread itself after a call. */
  lemma {:induction false} EvacMover(lists: set<seq<Span>>, s: State, a: nat, c: E.Call)
    requires Inv(lists, s) && Enabled(lists, s, Evac(a, c))
    ensures AgentOk(ApplyStore(s, Evac(a, c)), Moved(s, Evac(a, c), s.agents[a]))
  {
    var ag, s' := s.agents[a], ApplyStore(s, Evac(a, c));
    var ag' := EvacAgent(s, ag, c);
    assert AgentOk(s, ag);
    StoreStep(lists, s, Evac(a, c));
    AgentStable(s, s', ag);
    forall n | n in ag'.snaps ensures SnapOk(s', n, ag'.snaps[n]) {
      if c.FetchNode? && c.ok {
        assert n == c.node && SnapOk(s, n, s.store[n]);
      }
    }
    EvacStage(s, s', ag, c);
  }

  lemma {:induction false} EvacStage(s: State, s': State, ag: Agent, c: E.Call)
    requires AgentOk(s, ag) && AgentOk(s', ag) && EvacEnabled(s, ag, c) && s' == EvacStore(s, ag, c)
    ensures StageOk(s', EvacAgent(s, ag, c)) && JobOk(s', EvacAgent(s, ag, c))
  {
    var ag' := EvacAgent(s, ag, c);
    match c
    case ListPods(n, answer) =>
      if answer.Some? {
        NothingToDelete(answer.value);
      }
    case _ =>
  }

  lemma {:induction false} MoverStep(lists: set<seq<Span>>, s: State, l: Label, a: nat)
    requires Inv(lists, s) && Enabled(lists, s, l) && Mover(l) == Some(a)
    ensures AgentOk(ApplyStore(s, l), Moved(s, l, s.agents[a]))
  {
    var ag, s' := s.agents[a], ApplyStore(s, l);
    StoreStep(lists, s, l);
    AgentStable(s, s', ag);
    match l
    case Evac(_, c) => EvacMover(lists, s, a, c);
    case KillList(_, listing) =>
      var queue := Selected(s.store, listing, s.clock);
      forall i | 0 <= i < |queue| ensures SelectedOk(s', queue[i], s.clock) {
        SelectedMember(s.store, listing, s.clock, queue[i]);
      }
    case _ =>
  }

  /** The invariant is kept by every step of every thread and of the cluster. */
  lemma {:induction false} InvStep(lists: set<seq<Span>>, s: State, l: Label)
    requires Inv(lists, s) && Enabled(lists, s, l)
    ensures Inv(lists, Apply(s, l)) && Evolves(s, Apply(s, l))
  {
    var s', after := ApplyStore(s, l), Apply(s, l);
    StoreStep(lists, s, l);
    forall b | b in after.agents ensures AgentOk(after, after.agents[b]) {
      if Mover(l) == Some(b) {
        MoverStep(lists, s, l, b);
        AgentStable(s', after, Moved(s, l, s.agents[b]));
      } else {
        AgentStable(s, s', s.agents[b]);
        AgentStable(s', after, s.agents[b]);
      }
    }
  }

  lemma {:induction false} InvHolds(lists: set<seq<Span>>, states: seq<State>, labels: seq<Label>, i: nat)
    requires IsRun(lists, states, labels) && i <= |labels|
    ensures Inv(lists, states[i])
  {
    if i > 0 {
      InvHolds(lists, states, labels, i - 1);
      assert Step(lists, states[i - 1], labels[i - 1], states[i - 1 + 1]);
      InvStep(lists, states[i - 1], labels[i - 1]);
    }
  }
}

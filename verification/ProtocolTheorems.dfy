/** What holds in every run of the server, under every interleaving of its threads and of the cluster, and over restarts
    of the server. */
module ProtocolTheorems {
  import opened Common
  import opened Pods
  import opened Clock
  import opened TimeSpans
  import opened Expiry
  import opened Protocol
  import E = Evacuation

  lemma {:induction false} StepOf(lists: set<seq<Span>>, states: seq<State>, labels: seq<Label>, i: nat)
    requires IsRun(lists, states, labels) && i < |labels|
    ensures Inv(lists, states[i]) && Enabled(lists, states[i], labels[i])
    ensures states[i + 1] == Apply(states[i], labels[i])
    ensures Evolves(states[i], states[i + 1]) && Inv(lists, states[i + 1])
  {
    InvHolds(lists, states, labels, i);
    assert Step(lists, states[i], labels[i], states[i + 1]);
    InvStep(lists, states[i], labels[i]);
  }

  // ----- write safety -----

  /** From any moment to any later one, a node that is still there has grown. */
  lemma {:induction false} GrownOverRun(lists: set<seq<Span>>, states: seq<State>, labels: seq<Label>, i: nat, j: nat,
                                        n: string)
    requires IsRun(lists, states, labels) && i <= j <= |labels|
    requires n in states[i].used && n in states[j].store
    ensures n in states[i].store && Grown(states[i].store[n], states[j].store[n])
    ensures n in states[j].used
    decreases j
  {
    if i < j {
      StepOf(lists, states, labels, j - 1);
      UsedOverRun(lists, states, labels, i, j - 1);
      GrownOverRun(lists, states, labels, i, j - 1, n);
    } else {
      assert n in states[i].store;
    }
  }

  lemma {:induction false} UsedOverRun(lists: set<seq<Span>>, states: seq<State>, labels: seq<Label>, i: nat, j: nat)
    requires IsRun(lists, states, labels) && i <= j <= |labels|
    ensures states[i].used <= states[j].used
    decreases j
  {
    if i < j {
      UsedOverRun(lists, states, labels, i, j - 1);
      StepOf(lists, states, labels, j - 1);
    }
  }

  /** An expiry annotation is never lost or changed, and a cordon is never undone, as long as the node exists. */
  lemma {:induction false} AnnotationAndCordonStay(lists: set<seq<Span>>, states: seq<State>, labels: seq<Label>,
                                                   i: nat, j: nat, n: string)
    requires IsRun(lists, states, labels) && i <= j <= |labels|
    requires n in states[i].store && n in states[j].store
    ensures states[i].store[n].expiry.Some? ==> states[j].store[n].expiry == states[i].store[n].expiry
    ensures states[i].store[n].cordoned ==> states[j].store[n].cordoned
  {
    InvHolds(lists, states, labels, i);
    GrownOverRun(lists, states, labels, i, j, n);
  }

  /** The store changes at one node, which was there and becomes `o` with a new version. */
  ghost predicate Overwrites(s: State, s': State, n: string, o: Obj) {
    n in s.store && s'.store == s.store[n := o.(version := s.next)]
  }

  /** A granted write goes on top of the object as it is stored at that moment, so it undoes nobody's write: only the
      annotation, or only the cordon bit, and the version change. */
  lemma {:induction false} NoLostUpdate(lists: set<seq<Span>>, states: seq<State>, labels: seq<Label>, i: nat)
    requires IsRun(lists, states, labels) && i < |labels|
    ensures var s, s', l := states[i], states[i + 1], labels[i];
            match l
            case SpotUpdate(_, n, text, true) =>
              n in s.store && s.store[n].expiry.None? && Overwrites(s, s', n, s.store[n].(expiry := Some(text)))
            case ShiftCordon(_, n, true) =>
              n in s.store && Overwrites(s, s', n, s.store[n].(cordoned := true))
            case Evac(_, CordonNode(n, true)) =>
              n in s.store && Overwrites(s, s', n, s.store[n].(cordoned := true))
            case _ => true
  {
    var s, l := states[i], labels[i];
    StepOf(lists, states, labels, i);
    if l.SpotUpdate? || l.ShiftCordon? {
      assert AgentOk(s, s.agents[l.a]) && SnapOk(s, l.n, s.agents[l.a].snaps[l.n]);
    }
    if l.Evac? && l.c.CordonNode? {
      assert AgentOk(s, s.agents[l.a]) && SnapOk(s, l.c.node, s.agents[l.a].snaps[l.c.node]);
    }
  }

  /** The annotation of a node is successfully written at most once, whichever spotters try. */
  lemma {:induction false} ExpiryWrittenOnce(lists: set<seq<Span>>, states: seq<State>, labels: seq<Label>,
                                             i: nat, j: nat, n: string)
    requires IsRun(lists, states, labels) && i < |labels| && j < |labels|
    requires labels[i].SpotUpdate? && labels[i].ok && labels[i].n == n
    requires labels[j].SpotUpdate? && labels[j].ok && labels[j].n == n
    ensures i == j
  {
    NoLostUpdate(lists, states, labels, i);
    NoLostUpdate(lists, states, labels, j);
    if i < j {
      AnnotationAndCordonStay(lists, states, labels, i + 1, j, n);
    } else if j < i {
      AnnotationAndCordonStay(lists, states, labels, j + 1, i, n);
    }
  }

  // ----- drain safety -----

  /** When a thread of the server asks to delete a node, the node is cordoned or gone, and no pod is left on it that a
      drain has to get rid of, whatever was scheduled, terminated or written between the steps of the thread; the
      deletion, if granted, takes this node and no other. */
  lemma {:induction false} DeletedNodeIsDrained(lists: set<seq<Span>>, states: seq<State>, labels: seq<Label>, i: nat)
    requires IsRun(lists, states, labels) && i < |labels|
    requires labels[i].Evac? && labels[i].c.RemoveNode?
    ensures var s, n := states[i], labels[i].c.node;
            && (n in s.store ==> s.store[n].cordoned && forall p :: (n, p) in s.placed ==> !Drainable(p))
            && (labels[i].c.ok ==> n in s.store)
            && states[i + 1].store == if labels[i].c.ok then s.store - {n} else s.store
  {
    StepOf(lists, states, labels, i);
    var s, l := states[i], labels[i];
    assert AgentOk(s, s.agents[l.a]);
    E.DeletionStages(s.agents[l.a].stage, l.c);
  }

  // ----- expiry, end to end -----

  /** The instant read back from a text of the spotter is the instant chosen when the zone is a whole minute, and less
      than a minute away from it otherwise. */
  lemma {:induction false} TextInstant(created: int, offset: int -> int, spans: seq<Span>, text: Text)
    returns (t: int)
    requires ExpiryText(created, offset, spans, text)
    ensures Outcome(created, spans, t) && text == Format(t, offset(t)) && Parse(text).Some?
    ensures offset(t) % 60 == 0 ==> Parse(text) == Some(t)
    ensures t - MINUTE < Parse(text).value < t + MINUTE
  {
    t :| Outcome(created, spans, t) && text == Format(t, offset(t));
    FormatParseError(t, offset(t));
    FormatParse(t, offset(t));
    WholeSeconds(t);
  }

  lemma {:induction false} WholeSeconds(t: int)
    requires WholeMinute(t)
    ensures t % SECOND == 0
  {
    assert t == t / MINUTE * 60 * SECOND;
  }

  /** The whitelists of the server's configurations, each a list of windows. */
  ghost function Whitelists(configs: set<seq<Window>>): set<seq<Span>> {
    set windows | windows in configs :: Whitelist(windows)
  }

  ghost predicate ValidConfigs(configs: set<seq<Window>>) {
    forall windows: seq<Window>, w :: windows in configs && 0 <= w < |windows| ==> windows[w].Valid()
  }

  /** An annotation, read back: the instant a spotter chose under one of the configurations. */
  lemma {:induction false} AnnotationMeaning(configs: set<seq<Window>>, s: State, n: string)
    returns (t: int, windows: seq<Window>)
    requires ValidConfigs(configs) && StoreOk(Whitelists(configs), s) && n in s.store && s.store[n].expiry.Some?
    ensures s.store[n].expiry == Some(Format(t, s.store[n].offset(t))) && Parse(s.store[n].expiry.value).Some?
    ensures s.store[n].created < t < s.store[n].created + DAY
    ensures windows in configs && exists w :: 0 <= w < |windows| && windows[w].Contains(TimeOfDay(t))
    ensures s.store[n].offset(t) % 60 == 0 ==> Parse(s.store[n].expiry.value) == Some(t)
    ensures t - MINUTE < Parse(s.store[n].expiry.value).value < t + MINUTE
  {
    var o := s.store[n];
    var spans :| spans in Whitelists(configs) && ExpiryText(o.created, o.offset, spans, o.expiry.value);
    windows :| windows in configs && Whitelist(windows) == spans;
    t := TextInstant(o.created, o.offset, spans, o.expiry.value);
    OutcomeBounds(o.created, windows, t);
  }

  /** Every node the killer deletes, or asks to delete while it is there, carries an expiry chosen by a spotter strictly
      between its creation and 24 hours later, in one of the windows configured then, and that expiry was not after the
      clock of the pass. */
  lemma {:induction false} KilledNodeHadExpired(configs: set<seq<Window>>, states: seq<State>, labels: seq<Label>,
                                                i: nat)
    returns (t: int, windows: seq<Window>)
    requires ValidConfigs(configs) && IsRun(Whitelists(configs), states, labels) && i < |labels|
    requires labels[i].Evac? && labels[i].c.RemoveNode? && (labels[i].c.ok || labels[i].c.node in states[i].store)
    requires labels[i].a in states[i].agents && states[i].agents[labels[i].a].job.Killing?
    ensures var s, n := states[i], labels[i].c.node;
            var pass := s.agents[labels[i].a].job.passTime;
            && n in s.store && s.store[n].expiry == Some(Format(t, s.store[n].offset(t)))
            && s.store[n].created < t < s.store[n].created + DAY
            && windows in configs && (exists w :: 0 <= w < |windows| && windows[w].Contains(TimeOfDay(t)))
            && pass <= s.clock && t < pass + MINUTE
            && (s.store[n].offset(t) % 60 == 0 ==> t <= pass)
  {
    StepOf(Whitelists(configs), states, labels, i);
    var s, l := states[i], labels[i];
    var n, ag := l.c.node, s.agents[l.a];
    assert AgentOk(s, ag);
    E.DeletionStages(ag.stage, l.c);
    assert SelectedOk(s, ag.job.queue[0], ag.job.passTime);
    t, windows := AnnotationMeaning(configs, s, n);
  }

  /** During the life of the node its location is a whole number of minutes away from UTC. */
  ghost predicate WholeMinuteZone(o: Obj) {
    forall t :: o.created < t < o.created + DAY ==> o.offset(t) % 60 == 0
  }

  /** A killer pass that starts 24 hours after the creation of an annotated node or later selects the node when it lists
      it; with a zone that is no whole minute that is so one minute later. */
  lemma {:induction false} OverdueNodeIsSelected(configs: set<seq<Window>>, states: seq<State>, labels: seq<Label>,
                                                 i: nat, n: string)
    requires ValidConfigs(configs) && IsRun(Whitelists(configs), states, labels) && i < |labels|
    requires labels[i].KillList? && n in labels[i].listing
    requires n in states[i].store && states[i].store[n].expiry.Some?
    requires var o := states[i].store[n];
             states[i].clock >= o.created + DAY + if WholeMinuteZone(o) then 0 else MINUTE
    ensures var job := states[i + 1].agents[labels[i].a].job;
            job.Killing? && n in job.queue && job.passTime == states[i].clock
  {
    StepOf(Whitelists(configs), states, labels, i);
    var s, l := states[i], labels[i];
    var t, windows := AnnotationMeaning(configs, s, n);
    SelectedMember(s.store, l.listing, s.clock, n);
  }

  /** A killer pass selects an annotated node it lists exactly when the instant chosen for it is not after the clock of
      the pass, if the annotation is in a zone of whole minutes. */
  lemma {:induction false} SelectedIffExpired(configs: set<seq<Window>>, states: seq<State>, labels: seq<Label>,
                                              i: nat, n: string)
    returns (t: int, windows: seq<Window>)
    requires ValidConfigs(configs) && IsRun(Whitelists(configs), states, labels) && i < |labels|
    requires labels[i].KillList? && n in labels[i].listing
    requires n in states[i].store && states[i].store[n].expiry.Some?
    ensures var o := states[i].store[n];
            && o.expiry == Some(Format(t, o.offset(t))) && o.created < t < o.created + DAY
            && windows in configs && (exists w :: 0 <= w < |windows| && windows[w].Contains(TimeOfDay(t)))
            && (o.offset(t) % 60 == 0 ==>
                  (n in states[i + 1].agents[labels[i].a].job.queue <==> t <= states[i].clock))
  {
    StepOf(Whitelists(configs), states, labels, i);
    var s, l := states[i], labels[i];
    t, windows := AnnotationMeaning(configs, s, n);
    SelectedMember(s.store, l.listing, s.clock, n);
  }

  // ----- the threads and the code -----

  /** The thread begins or ends a job, or stops in the middle of it. */
  predicate Resets(l: Label, a: nat) {
    (l.Finish? || l.Crash? || l.SpotList? || l.KillList? || l.Begin?) && l.a == a
  }

  /** The evacuation calls of a thread since it last began, ended or broke off a job. */
  function CallsOf(labels: seq<Label>, a: nat): seq<E.Call> {
    if labels == [] then []
    else
      var before, l := labels[..|labels| - 1], labels[|labels| - 1];
      if l.Evac? && l.a == a then CallsOf(before, a) + [l.c]
      else if Resets(l, a) then [] else CallsOf(before, a)
  }

  lemma {:induction false} StageMoves(lists: set<seq<Span>>, s: State, l: Label, a: nat)
    requires Enabled(lists, s, l) && a in Apply(s, l).agents
    ensures a in s.agents
    ensures var stage := Apply(s, l).agents[a].stage;
            if l.Evac? && l.a == a then stage == E.NextFor(s.agents[a].job.Killing?, s.agents[a].stage, l.c) != E.Stuck
            else if Resets(l, a) then stage == E.Idle else stage == s.agents[a].stage
    ensures Resets(l, a) || (Apply(s, l).agents[a].job.Killing? <==> s.agents[a].job.Killing?)
  {
  }

  lemma {:induction false} CallsGrow(before: seq<Label>, l: Label, a: nat)
    ensures CallsOf(before + [l], a) ==
            if l.Evac? && l.a == a then CallsOf(before, a) + [l.c] else if Resets(l, a) then [] else CallsOf(before, a)
  {
    assert (before + [l])[..|before|] == before;
  }

  lemma {:induction false} ThreadMoves(lists: set<seq<Span>>, s: State, l: Label, before: seq<Label>, a: nat)
    requires Enabled(lists, s, l) && a in s.agents && a in Apply(s, l).agents
    requires s.agents[a].stage == E.RunFor(s.agents[a].job.Killing?, E.Idle, CallsOf(before, a)) != E.Stuck
    ensures var ag := Apply(s, l).agents[a];
            ag.stage == E.RunFor(ag.job.Killing?, E.Idle, CallsOf(before + [l], a)) != E.Stuck
  {
    StageMoves(lists, s, l, a);
    CallsGrow(before, l, a);
    if l.Evac? && l.a == a {
      E.RunSnoc(s.agents[a].job.Killing?, E.Idle, CallsOf(before, a), l.c);
    }
  }

  /** In every run the calls of a thread are a log the automaton of its code accepts, with instances deleted by killer
      threads only, and the thread is where that log leads; so all that is proved of accepted logs holds of the
      threads. */
  lemma {:induction false} ThreadsFollowTheCode(lists: set<seq<Span>>, states: seq<State>, labels: seq<Label>, i: nat,
                                                a: nat)
    requires IsRun(lists, states, labels) && i <= |labels| && a in states[i].agents
    ensures var ag := states[i].agents[a];
            ag.stage == E.RunFor(ag.job.Killing?, E.Idle, CallsOf(labels[..i], a)) != E.Stuck
    decreases i
  {
    if i > 0 {
      var s, l, before := states[i - 1], labels[i - 1], labels[..i - 1];
      assert Step(lists, s, l, states[i - 1 + 1]);
      StageMoves(lists, s, l, a);
      ThreadsFollowTheCode(lists, states, labels, i - 1, a);
      assert labels[..i] == before + [l];
      ThreadMoves(lists, s, l, before, a);
    }
  }

  /** The log of a thread up to and with its next call. */
  lemma {:induction false} NextCallAccepted(lists: set<seq<Span>>, states: seq<State>, labels: seq<Label>, i: nat)
    requires IsRun(lists, states, labels) && i < |labels| && labels[i].Evac?
    ensures labels[i].a in states[i].agents
    ensures var a := labels[i].a;
            E.RunFor(states[i].agents[a].job.Killing?, E.Idle, CallsOf(labels[..i], a) + [labels[i].c]) != E.Stuck
  {
    var a, c := labels[i].a, labels[i].c;
    StepOf(lists, states, labels, i);
    StageMoves(lists, states[i], labels[i], a);
    ThreadsFollowTheCode(lists, states, labels, i, a);
    E.RunSnoc(states[i].agents[a].job.Killing?, E.Idle, CallsOf(labels[..i], a), c);
  }

  /** What the code promises about a deletion, carried over to every thread of every run. */
  lemma {:induction false} ThreadDrainedFully(lists: set<seq<Span>>, states: seq<State>, labels: seq<Label>, i: nat)
    returns (j: nat, pods: seq<Pod>)
    requires IsRun(lists, states, labels) && i < |labels| && labels[i].Evac? && labels[i].c.RemoveNode?
    ensures E.FullDrain(CallsOf(labels[..i], labels[i].a), labels[i].c.node, j, pods)
  {
    var a, c := labels[i].a, labels[i].c;
    NextCallAccepted(lists, states, labels, i);
    var calls := CallsOf(labels[..i], a);
    j, pods := E.NodeRemovedOnlyWhenDrained(states[i].agents[a].job.Killing?, calls + [c], |calls|);
    assert (calls + [c])[..|calls|] == calls;
  }

  /** In every run an instance is deleted by a killer thread only, right after its own granted deletion of the node. */
  lemma {:induction false} ThreadDeletesInstance(lists: set<seq<Span>>, states: seq<State>, labels: seq<Label>, i: nat)
    requires IsRun(lists, states, labels) && i < |labels| && labels[i].Evac? && labels[i].c.RemoveInstance?
    ensures labels[i].a in states[i].agents && states[i].agents[labels[i].a].job.Killing?
    ensures var calls := CallsOf(labels[..i], labels[i].a);
            calls != [] && calls[|calls| - 1] == E.RemoveNode(labels[i].c.node, true)
  {
    var a, c := labels[i].a, labels[i].c;
    NextCallAccepted(lists, states, labels, i);
    var calls := CallsOf(labels[..i], a);
    E.InstanceRemovedOnlyAfterNode(states[i].agents[a].job.Killing?, calls + [c], |calls|);
  }

  // ----- a pass of the killer -----

  function NodesRead(calls: seq<E.Call>): seq<string> {
    if calls == [] then []
    else
      var rest, c := NodesRead(calls[..|calls| - 1]), calls[|calls| - 1];
      if c.FetchNode? then rest + [c.node] else rest
  }

  /** The nodes a killer thread has not begun with. */
  function Unread(ag: Agent): seq<string> {
    if !ag.job.Killing? then []
    else if ag.stage.Idle? || ag.job.queue == [] then ag.job.queue else ag.job.queue[1..]
  }

  lemma {:induction false} UnreadMoves(s: State, ag: Agent, c: E.Call)
    requires AgentOk(s, ag) && EvacEnabled(s, ag, c) && ag.job.Killing?
    ensures EvacAgent(s, ag, c).job.Killing?
    ensures Unread(ag) == (if c.FetchNode? then [c.node] else []) + Unread(EvacAgent(s, ag, c))
  {
    E.OverIff(true, ag.stage, c);
  }

  lemma {:induction false} NodesReadSnoc(calls: seq<E.Call>, c: E.Call)
    ensures NodesRead(calls + [c]) == NodesRead(calls) + if c.FetchNode? then [c.node] else []
  {
    assert (calls + [c])[..|calls|] == calls;
  }

  /** Within a pass only its own calls change a killer thread. */
  lemma {:induction false} KillerMoves(lists: set<seq<Span>>, s: State, l: Label, a: nat)
    requires Enabled(lists, s, l) && a in s.agents && s.agents[a].job.Killing? && !Resets(l, a)
    ensures a in Apply(s, l).agents
    ensures Apply(s, l).agents[a] == if l.Evac? && l.a == a then EvacAgent(s, s.agents[a], l.c) else s.agents[a]
  {
  }

  /** The thread is in a pass, and its list of nodes, those read and those not begun with, is the given one. */
  ghost predicate InPass(ag: Agent, calls: seq<E.Call>, nodes: seq<string>) {
    ag.job.Killing? && NodesRead(calls) + Unread(ag) == nodes
  }

  lemma {:induction false} PassCall(s: State, ag: Agent, c: E.Call, calls: seq<E.Call>, nodes: seq<string>)
    requires AgentOk(s, ag) && EvacEnabled(s, ag, c) && InPass(ag, calls, nodes)
    ensures InPass(EvacAgent(s, ag, c), calls + [c], nodes)
  {
    NodesReadSnoc(calls, c);
    UnreadMoves(s, ag, c);
  }

  /** A step of a killer thread that is not its last keeps that list. */
  lemma {:induction false} PassMoves(lists: set<seq<Span>>, s: State, l: Label, before: seq<Label>, a: nat,
                                     nodes: seq<string>)
    requires Inv(lists, s) && Enabled(lists, s, l) && a in s.agents && !Resets(l, a)
    requires InPass(s.agents[a], CallsOf(before, a), nodes)
    ensures a in Apply(s, l).agents && InPass(Apply(s, l).agents[a], CallsOf(before + [l], a), nodes)
  {
    KillerMoves(lists, s, l, a);
    CallsGrow(before, l, a);
    if l.Evac? && l.a == a {
      assert AgentOk(s, s.agents[a]);
      PassCall(s, s.agents[a], l.c, CallsOf(before, a), nodes);
    }
  }

  lemma {:induction false} PassBegins(lists: set<seq<Span>>, s: State, l: Label, before: seq<Label>)
    requires Enabled(lists, s, l) && l.KillList?
    ensures l.a in Apply(s, l).agents && Apply(s, l).agents[l.a].job.Killing?
    ensures InPass(Apply(s, l).agents[l.a], CallsOf(before + [l], l.a), Apply(s, l).agents[l.a].job.queue)
  {
    CallsGrow(before, l, l.a);
  }

  lemma {:induction false} PassAt(lists: set<seq<Span>>, states: seq<State>, labels: seq<Label>, i: nat, j: nat)
    requires IsRun(lists, states, labels) && i < j <= |labels| && labels[i].KillList?
    requires forall m :: i < m < j ==> !Resets(labels[m], labels[i].a)
    ensures labels[i].a in states[i + 1].agents && states[i + 1].agents[labels[i].a].job.Killing?
    ensures labels[i].a in states[j].agents
    ensures InPass(states[j].agents[labels[i].a], CallsOf(labels[..j], labels[i].a),
                   states[i + 1].agents[labels[i].a].job.queue)
    decreases j
  {
    StepOf(lists, states, labels, j - 1);
    assert labels[..j] == labels[..j - 1] + [labels[j - 1]];
    if i < j - 1 {
      PassAt(lists, states, labels, i, j - 1);
      PassMoves(lists, states[j - 1], labels[j - 1], labels[..j - 1], labels[i].a,
                states[i + 1].agents[labels[i].a].job.queue);
    } else {
      PassBegins(lists, states[i], labels[i], labels[..i]);
    }
  }

  /** A killer pass that finishes has read exactly the nodes it selected, once each and in their order, whatever the
      other threads did and whatever failed. */
  lemma {:induction false} PassReadsAll(lists: set<seq<Span>>, states: seq<State>, labels: seq<Label>, i: nat, j: nat)
    requires IsRun(lists, states, labels) && i < j < |labels| && labels[i].KillList?
    requires labels[j] == Finish(labels[i].a) && forall m :: i < m < j ==> !Resets(labels[m], labels[i].a)
    ensures labels[i].a in states[i + 1].agents && states[i + 1].agents[labels[i].a].job.Killing?
    ensures NodesRead(CallsOf(labels[..j], labels[i].a)) == states[i + 1].agents[labels[i].a].job.queue
  {
    PassAt(lists, states, labels, i, j);
    StepOf(lists, states, labels, j);
  }
}

/** A run of the server in which a node is annotated, expires, is drained and is deleted by the killer. */
module ProtocolExample {
  import opened Common
  import opened Pods
  import opened Clock
  import opened TimeSpans
  import opened Expiry
  import opened Protocol
  import E = Evacuation
  import Killer

  const NODE := "n"
  const UTC: int -> int := t => 0
  const CREATED := WHITELIST_START + 600 * MINUTE
  const CHOSEN := CREATED + 120 * MINUTE

  /** The window 12:00-14:00; the node is created at 10:00 and may expire at 12:00. */
  ghost const WHITELISTS: set<seq<Span>> := {Whitelist([Window(720 * MINUTE, 840 * MINUTE)])}

  const BARE := Obj(CREATED, UTC, None, false, 0, 0)
  const ANNOTATED := Obj(CREATED, UTC, Some(Format(CHOSEN, 0)), false, 0, 1)
  const CORDONED := Obj(CREATED, UTC, Some(Format(CHOSEN, 0)), true, 0, 2)

  /** A cluster of that node alone and a server of one thread. */
  function With(o: Obj, ag: Agent, clock: int): State {
    State(map[NODE := o], {}, map[0 := ag], clock, o.version + 1, {NODE})
  }

  ghost predicate Reached(s: State) {
    exists states, labels :: IsRun(WHITELISTS, states, labels) && states[|labels|] == s
  }

  lemma {:induction false} Extended(states: seq<State>, labels: seq<Label>, l: Label, s: State)
    requires IsRun(WHITELISTS, states, labels) && Step(WHITELISTS, states[|labels|], l, s)
    ensures IsRun(WHITELISTS, states + [s], labels + [l])
  {
    var states', labels' := states + [s], labels + [l];
    forall i | 0 <= i < |labels'| ensures Step(WHITELISTS, states'[i], labels'[i], states'[i + 1]) {
      if i < |labels| {
        assert Step(WHITELISTS, states[i], labels[i], states[i + 1]);
      }
    }
  }

  lemma {:induction false} Goes(s: State, l: Label, s': State)
    requires Reached(s) && Step(WHITELISTS, s, l, s')
    ensures Reached(s')
  {
    var states, labels :| IsRun(WHITELISTS, states, labels) && states[|labels|] == s;
    Extended(states, labels, l, s');
    assert (states + [s'])[|labels + [l]|] == s';
  }

  lemma {:induction false} Start()
    ensures Reached(With(BARE, Agent(Resting, E.Idle, map[]), CREATED))
  {
    var s := With(BARE, Agent(Resting, E.Idle, map[]), CREATED);
    assert IsRun(WHITELISTS, [s], []);
  }

  /** The spotter lists the node. */
  lemma {:induction false} List()
    ensures Reached(With(BARE, Agent(Spotting, E.Idle, map[NODE := BARE]), CREATED))
  {
    var s, l := With(BARE, Agent(Resting, E.Idle, map[]), CREATED), SpotList(0, {NODE});
    Start();
    assert Moved(s, l, s.agents[0]).snaps == map[NODE := BARE];
    Goes(s, l, With(BARE, Agent(Spotting, E.Idle, map[NODE := BARE]), CREATED));
  }

  /** The spotter annotates the node. */
  lemma {:induction false} Annotate()
    ensures Reached(With(ANNOTATED, Agent(Spotting, E.Idle, map[]), CREATED))
  {
    var text := Format(CHOSEN, 0);
    TwelveHoursExample();
    assert ChosenText(CREATED, UTC, WHITELISTS, text);
    List();
    Goes(With(BARE, Agent(Spotting, E.Idle, map[NODE := BARE]), CREATED), SpotUpdate(0, NODE, text, true),
         With(ANNOTATED, Agent(Spotting, E.Idle, map[]), CREATED));
  }

  /** Two hours pass. */
  lemma {:induction false} Wait()
    ensures Reached(With(ANNOTATED, Agent(Resting, E.Idle, map[]), CHOSEN))
  {
    var s := With(ANNOTATED, Agent(Resting, E.Idle, map[]), CREATED);
    Annotate();
    Goes(With(ANNOTATED, Agent(Spotting, E.Idle, map[]), CREATED), Finish(0), s);
    Goes(s, Tick(120 * MINUTE), With(ANNOTATED, Agent(Resting, E.Idle, map[]), CHOSEN));
  }

  const JOB := Killing([NODE], CHOSEN)
  const SNAPS: map<string, Obj> := map[NODE := ANNOTATED]

  /** The killer selects the node. */
  lemma {:induction false} Select()
    ensures Reached(With(ANNOTATED, Agent(JOB, E.Idle, map[]), CHOSEN))
  {
    var s := With(ANNOTATED, Agent(Resting, E.Idle, map[]), CHOSEN);
    var nodes := Listing(s.store, [NODE]);
    FormatParse(CHOSEN, 0);
    assert nodes == [NodeOf(NODE, ANNOTATED)] && nodes[..0] == [];
    assert Killer.ExpiredNodes(nodes, CHOSEN) == nodes;
    assert Selected(s.store, [NODE], CHOSEN) == [NODE];
    Wait();
    Goes(s, KillList(0, [NODE]), With(ANNOTATED, Agent(JOB, E.Idle, map[]), CHOSEN));
  }

  /** It reads the node. */
  lemma {:induction false} Fetch()
    ensures Reached(With(ANNOTATED, Agent(JOB, E.Fetched(NODE), SNAPS), CHOSEN))
  {
    Select();
    Goes(With(ANNOTATED, Agent(JOB, E.Idle, map[]), CHOSEN), Evac(0, E.FetchNode(NODE, true)),
         With(ANNOTATED, Agent(JOB, E.Fetched(NODE), SNAPS), CHOSEN));
  }

  /** It cordons the node. */
  lemma {:induction false} Cordon()
    ensures Reached(With(CORDONED, Agent(JOB, E.Cordoned(NODE), SNAPS), CHOSEN))
  {
    Fetch();
    Goes(With(ANNOTATED, Agent(JOB, E.Fetched(NODE), SNAPS), CHOSEN), Evac(0, E.CordonNode(NODE, true)),
         With(CORDONED, Agent(JOB, E.Cordoned(NODE), SNAPS), CHOSEN));
  }

  /** There are no pods to delete. */
  lemma {:induction false} StartDrain()
    ensures Reached(With(CORDONED, Agent(JOB, E.Waiting(NODE), SNAPS), CHOSEN))
  {
    NothingToDelete([]);
    Cordon();
    Goes(With(CORDONED, Agent(JOB, E.Cordoned(NODE), SNAPS), CHOSEN), Evac(0, E.ListPods(NODE, Some([]))),
         With(CORDONED, Agent(JOB, E.Waiting(NODE), SNAPS), CHOSEN));
  }

  lemma {:induction false} Drain()
    ensures Reached(With(CORDONED, Agent(JOB, E.Drained(NODE), SNAPS), CHOSEN))
  {
    NothingToDelete([]);
    StartDrain();
    Goes(With(CORDONED, Agent(JOB, E.Waiting(NODE), SNAPS), CHOSEN), Evac(0, E.ListPods(NODE, Some([]))),
         With(CORDONED, Agent(JOB, E.Drained(NODE), SNAPS), CHOSEN));
  }

  /** A run that ends with a granted deletion by a killer thread. */
  lemma {:induction false} DeletionExample() returns (states: seq<State>, labels: seq<Label>)
    ensures IsRun(WHITELISTS, states, labels) && |labels| > 0
    ensures labels[|labels| - 1] == Evac(0, E.RemoveNode(NODE, true))
    ensures 0 in states[|labels| - 1].agents && states[|labels| - 1].agents[0].job.Killing?
    ensures NODE in states[|labels| - 1].store && NODE !in states[|labels|].store
  {
    Drain();
    var s := With(CORDONED, Agent(JOB, E.Drained(NODE), SNAPS), CHOSEN);
    var l := Evac(0, E.RemoveNode(NODE, true));
    states, labels :| IsRun(WHITELISTS, states, labels) && states[|labels|] == s;
    Extended(states, labels, l, Apply(s, l));
    states, labels := states + [Apply(s, l)], labels + [l];
  }
}

/** The killer (pkg/killer/killer.go, pkg/killer/node.go, pkg/killer/pod.go) on an API whose answers are arbitrary. */
module Killer {
  import opened Common
  import opened Pods
  import opened Clock
  import opened Evacuation
  import opened DrainClock

  /** A listed node: the fields the spotter and the killer read. `offset` is the location of the creation timestamp: the
      seconds east of UTC at an instant. */
  datatype Node = Node(name: string, created: int, offset: int -> int, expiry: Option<Text>, providerID: string)

  function Split(s: string, sep: char): seq<string> {
    if s == "" then [""]
    else
      var rest := Split(s[1..], sep);
      if s[0] == sep then [""] + rest else [[s[0]] + rest[0]] + rest[1..]
  }

  lemma {:induction false} SplitFirst(a: string, sep: char, rest: string)
    requires sep !in a
    ensures Split(a + [sep] + rest, sep) == [a] + Split(rest, sep)
  {
    if a == "" {
      assert a + [sep] + rest == [sep] + rest;
    } else {
      SplitFirst(a[1..], sep, rest);
      assert (a + [sep] + rest)[1..] == a[1..] + [sep] + rest;
      assert a == [a[0]] + a[1..];
    }
  }

  function GetZoneFromNode(node: Node): string
    requires |Split(node.providerID, '/')| > 3
  {
    Split(node.providerID, '/')[3]
  }

  /** The zone of a provider ID scheme//project/zone/name is its zone, whatever the instance name contains. */
  lemma {:induction false} ZoneOfProviderID(node: Node, project: string, zone: string, name: string)
    requires '/' !in project && '/' !in zone
    requires node.providerID == "gce:" + "/" + ("" + "/" + (project + "/" + (zone + "/" + name)))
    ensures |Split(node.providerID, '/')| > 3 && GetZoneFromNode(node) == zone
  {
    SplitFirst("gce:", '/', "" + "/" + (project + "/" + (zone + "/" + name)));
    SplitFirst("", '/', project + "/" + (zone + "/" + name));
    SplitFirst(project, '/', zone + "/" + name);
    SplitFirst(zone, '/', name);
  }

  function GetExpiryTime(node: Node): Text {
    match node.expiry
    case Some(text) => text
    case None => Blank
  }

  /** A node is expired when its annotation is a date not after now; a missing or unreadable one never is. */
  predicate Expired(node: Node, now: int) {
    node.expiry.Some? && Parse(node.expiry.value).Some? && Parse(node.expiry.value).value <= now
  }

  function ExpiredNodes(nodes: seq<Node>, now: int): seq<Node> {
    if nodes == [] then []
    else
      var last := nodes[|nodes| - 1];
      ExpiredNodes(nodes[..|nodes| - 1], now) + if Expired(last, now) then [last] else []
  }

  function Names(nodes: seq<Node>): seq<string> {
    seq(|nodes|, i requires 0 <= i < |nodes| => nodes[i].name)
  }

  /** A node is selected exactly when it is listed and its annotation is a date that is not after now. */
  lemma {:induction false} ExpiredNodesMember(nodes: seq<Node>, now: int, n: Node)
    ensures n in ExpiredNodes(nodes, now) <==> n in nodes && Expired(n, now)
    ensures n in ExpiredNodes(nodes, now) <==>
              n in nodes &&
              match n.expiry
              case Some(Stamp(local, zone)) => (local - zone * 60) * SECOND <= now
              case _ => false
  {
    if nodes != [] {
      ExpiredNodesMember(nodes[..|nodes| - 1], now, n);
    }
  }

  /** A node whose annotation prints the instant t, a whole second in a zone of whole minutes, is selected by every pass
      that lists it from t on and by none before. */
  lemma {:induction false} SelectedFromExpiryOn(nodes: seq<Node>, now: int, n: Node, t: int)
    requires n.expiry == Some(Format(t, n.offset(t))) && t % SECOND == 0 && n.offset(t) % 60 == 0
    ensures n in ExpiredNodes(nodes, now) <==> n in nodes && t <= now
  {
    ExpiredNodesMember(nodes, now, n);
    FormatParse(t, n.offset(t));
  }

  /** The selection keeps the order of the listing and takes no position twice. */
  lemma {:induction false} ExpiredNodesKeepOrder(nodes: seq<Node>, now: int) returns (at: seq<nat>)
    ensures |at| == |ExpiredNodes(nodes, now)|
    ensures forall i :: 0 <= i < |at| ==> at[i] < |nodes| && nodes[at[i]] == ExpiredNodes(nodes, now)[i]
    ensures forall i, j :: 0 <= i < j < |at| ==> at[i] < at[j]
  {
    at := [];
    if nodes != [] {
      var init := nodes[..|nodes| - 1];
      at := ExpiredNodesKeepOrder(init, now);
      assert forall i :: 0 <= i < |at| ==> init[at[i]] == nodes[at[i]];
      if Expired(nodes[|nodes| - 1], now) {
        at := at + [|nodes| - 1];
      }
    }
  }

  lemma {:induction false} ExpiredNamesDistinct(nodes: seq<Node>, now: int)
    requires Distinct(Names(nodes))
    ensures Distinct(Names(ExpiredNodes(nodes, now)))
  {
    if nodes != [] {
      var init, last := nodes[..|nodes| - 1], nodes[|nodes| - 1];
      assert Names(nodes) == Names(init) + [last.name];
      forall i, j | 0 <= i < j < |init| ensures Names(init)[i] != Names(init)[j] {
        assert Names(nodes)[i] != Names(nodes)[j];
      }
      ExpiredNamesDistinct(init, now);
      var before := ExpiredNodes(init, now);
      forall i | 0 <= i < |before| ensures before[i].name != last.name {
        assert before[i] in before;
        ExpiredNodesMember(init, now, before[i]);
        var k :| 0 <= k < |init| && init[k] == before[i];
        assert Names(nodes)[k] != Names(nodes)[|init|];
      }
      var after := ExpiredNodes(nodes, now);
      assert Names(after) == Names(before) + if Expired(last, now) then [last.name] else [];
      forall i, j | 0 <= i < j < |after| ensures Names(after)[i] != Names(after)[j] {
        if j < |before| {
          assert Names(before)[i] != Names(before)[j];
        }
      }
    }
  }

  /** What an API listing looks like: distinct names, provider IDs with a zone part. */
  predicate Conforming(nodes: seq<Node>) {
    && (forall i, j | 0 <= i < j < |nodes| :: nodes[i].name != nodes[j].name)
    && (forall i | 0 <= i < |nodes| :: |Split(nodes[i].providerID, '/')| > 3)
  }

  /** The clients the killer calls. Every answer is arbitrary, and so are the readings of the clock; those of a drain
      and its listings are given as functions. Every call is recorded together with its answer. */
  class Api {
    const clock: (nat, nat) -> int                // by drain and reading since its start, in milliseconds
    const listings: (nat, nat) -> Option<seq<Pod>>  // by drain and listing since its start
    var drains: nat
    var readings: nat
    var listed: nat
    var log: seq<Call>

    constructor (clock: (nat, nat) -> int, listings: (nat, nat) -> Option<seq<Pod>>)
      ensures this.clock == clock && this.listings == listings && log == []
      ensures drains == readings == listed == 0
    {
      this.clock, this.listings, drains, readings, listed, log := clock, listings, 0, 0, 0, [];
    }

    /** The reading that starts a drain. */
    method Start() returns (t: int)
      modifies this`drains, this`readings, this`listed
      ensures drains == old(drains) + 1 && readings == 1 && listed == 0 && t == clock(drains, 0)
    {
      drains, readings, listed := drains + 1, 1, 0;
      t := clock(drains, 0);
    }

    /** A later reading of the same drain. */
    method Now() returns (t: int)
      modifies this`readings
      ensures t == clock(drains, old(readings)) && readings == old(readings) + 1
    {
      t := clock(drains, readings);
      readings := readings + 1;
    }

    method GetNodes() returns (answer: Option<seq<Node>>)
      ensures answer.Some? ==> Conforming(answer.value)
    {
      answer := *;
      if answer.Some? && !Conforming(answer.value) {
        answer := None;
      }
    }

    method GetNode(name: string) returns (ok: bool)
      modifies this`log
      ensures log == old(log) + [FetchNode(name, ok)]
    {
      ok := *;
      log := log + [FetchNode(name, ok)];
    }

    method UpdateNode(name: string) returns (ok: bool)
      modifies this`log
      ensures log == old(log) + [CordonNode(name, ok)]
    {
      ok := *;
      log := log + [CordonNode(name, ok)];
    }

    method GetPodsInNode(name: string) returns (answer: Option<seq<Pod>>)
      modifies this`log, this`listed
      ensures log == old(log) + [ListPods(name, answer)]
      ensures answer == listings(drains, old(listed)) && listed == old(listed) + 1
    {
      answer := listings(drains, listed);
      log, listed := log + [ListPods(name, answer)], listed + 1;
    }

    method DeletePod(node: string, pod: Pod) returns (ok: bool)
      modifies this`log
      ensures log == old(log) + [RemovePod(node, pod, ok)]
    {
      ok := *;
      log := log + [RemovePod(node, pod, ok)];
    }

    method RecordCheck(node: string, timedOut: bool)
      modifies this`log
      ensures log == old(log) + [ClockCheck(node, timedOut)]
    {
      log := log + [ClockCheck(node, timedOut)];
    }

    method DeleteNode(name: string) returns (ok: bool)
      modifies this`log
      ensures log == old(log) + [RemoveNode(name, ok)]
    {
      ok := *;
      log := log + [RemoveNode(name, ok)];
    }

    method DeleteInstance(zone: string, name: string) returns (ok: bool)
      modifies this`log
      ensures log == old(log) + [RemoveInstance(name, zone, ok)]
    {
      ok := *;
      log := log + [RemoveInstance(name, zone, ok)];
    }
  }

  /** The calls of one evacuation so far: the node is read first and only then, no other node is touched, and an
      instance is deleted in the given zone only. */
  ghost predicate About(node: string, zone: string, seg: seq<Call>) {
    && seg != [] && seg[0].FetchNode?
    && (forall i :: 0 <= i < |seg| ==> seg[i].node == node)
    && (forall i :: 0 < i < |seg| ==> !seg[i].FetchNode?)
    && (forall i :: 0 <= i < |seg| && seg[i].RemoveInstance? ==> seg[i].zone == zone)
  }

  /** The log was `before` when the thread began to evacuate the node, and the thread is now at the given stage. */
  ghost predicate At(log: seq<Call>, before: seq<Call>, node: string, zone: string, stage: Stage) {
    before <= log && About(node, zone, log[|before|..]) && Run(Idle, log[|before|..]) == stage
  }

  lemma {:induction false} Started(log: seq<Call>, node: string, zone: string, ok: bool)
    ensures At(log + [FetchNode(node, ok)], log, node, zone, if ok then Fetched(node) else Idle)
  {
    var c := FetchNode(node, ok);
    assert (log + [c])[|log|..] == [] + [c];
    RunSnoc(true, Idle, [], c);
  }

  lemma {:induction false} Advanced(log: seq<Call>, before: seq<Call>, node: string, zone: string, stage: Stage,
                                    c: Call)
    requires At(log, before, node, zone, stage) && c.node == node && !c.FetchNode?
    requires c.RemoveInstance? ==> c.zone == zone
    ensures At(log + [c], before, node, zone, Next(stage, c))
  {
    assert (log + [c])[|before|..] == log[|before|..] + [c];
    RunSnoc(true, Idle, log[|before|..], c);
  }

  lemma {:induction false} NodeDeleted(log: seq<Call>, before: seq<Call>, node: string, zone: string, ok: bool)
    requires At(log, before, node, zone, Drained(node))
    ensures At(log + [RemoveNode(node, ok)], before, node, zone, if ok then Unregistered(node) else Idle)
  {
    Advanced(log, before, node, zone, Drained(node), RemoveNode(node, ok));
  }

  lemma {:induction false} InstanceDeleted(log: seq<Call>, before: seq<Call>, node: string, zone: string, ok: bool)
    requires At(log, before, node, zone, Unregistered(node))
    ensures At(log + [RemoveInstance(node, zone, ok)], before, node, zone, Idle)
  {
    Advanced(log, before, node, zone, Unregistered(node), RemoveInstance(node, zone, ok));
  }

  /** Every instance deletion names the zone of its own node. */
  ghost predicate RightZones(nodes: seq<Node>, log: seq<Call>) {
    forall i :: 0 <= i < |log| && log[i].RemoveInstance? ==>
      exists n :: n in nodes && n.name == log[i].node && |Split(n.providerID, '/')| > 3
        && log[i].zone == GetZoneFromNode(n)
  }

  lemma {:induction false} PassGrown(nodes: seq<Node>, i: nat, log: seq<Call>, before: seq<Call>, start: nat)
    requires i < |nodes| && start <= |before| && |Split(nodes[i].providerID, '/')| > 3
    requires PassLog(Names(nodes)[..i], before[start..]) && RightZones(nodes, before[start..])
    requires At(log, before, nodes[i].name, GetZoneFromNode(nodes[i]), Idle)
    ensures PassLog(Names(nodes)[..i + 1], log[start..]) && RightZones(nodes, log[start..])
  {
    var names, all, k := Names(nodes), log[start..], |before| - start;
    assert all[..k] == before[start..] && all[k..] == log[|before|..];
    assert names[..i + 1][..i] == names[..i];
    assert PassLogCut(names[..i + 1], all, k);
    forall j | 0 <= j < |all| && all[j].RemoveInstance?
      ensures exists n :: n in nodes && n.name == all[j].node && |Split(n.providerID, '/')| > 3
                && all[j].zone == GetZoneFromNode(n)
    {
      if j < k {
        assert all[j] == before[start..][j];
      } else {
        assert all[j] == log[|before|..][j - k] && nodes[i] in nodes;
      }
    }
  }

  class KillerService {
    const api: Api

    constructor (api: Api)
      ensures this.api == api
    {
      this.api := api;
    }

    /** The second result is the selection; the first is the listing it was made from. */
    method FindExpiredTimeNodes(now: int) returns (listed: Option<seq<Node>>, nodesToBeDeleted: Option<seq<Node>>)
      ensures listed.None? <==> nodesToBeDeleted.None?
      ensures listed.Some? ==> Conforming(listed.value) && nodesToBeDeleted.value == ExpiredNodes(listed.value, now)
    {
      var nodeList := api.GetNodes();
      listed := nodeList;
      if nodeList.None? {
        return listed, None;
      }
      var nodes := nodeList.value;
      var found: seq<Node> := [];
      for i := 0 to |nodes|
        invariant found == ExpiredNodes(nodes[..i], now)
      {
        assert nodes[..i + 1][..i] == nodes[..i];
        var timestamp := GetExpiryTime(nodes[i]);
        if timestamp == Blank {
          continue;
        }
        var expiryDatetime := Parse(timestamp);
        if expiryDatetime.None? {
          continue;
        }
        if expiryDatetime.value - now <= 0 {
          found := found + [nodes[i]];
        }
      }
      assert nodes[..|nodes|] == nodes;
      nodesToBeDeleted := Some(found);
    }

    method GetPodsToBeDeleted(name: string) returns (ghost answer: Option<seq<Pod>>, pods: Option<seq<Pod>>)
      modifies api`log, api`listed
      ensures api.log == old(api.log) + [ListPods(name, answer)]
      ensures answer == api.listings(api.drains, old(api.listed)) && api.listed == old(api.listed) + 1
      ensures pods == if answer.None? then None else Some(ToBeDeleted(answer.value))
    {
      var podList := api.GetPodsInNode(name);
      answer := podList;
      if podList.None? {
        return answer, None;
      }
      var filteredPodsByDaemonSet := FilterOutPodByOwnerReferenceKind(podList.value, DAEMON_SET);
      var podsToDelete := FilterMirrorPods(filteredPodsByDaemonSet);
      pods := Some(podsToDelete);
    }

    method StartNodeDrain(nodeName: string, ghost zone: string, ghost before: seq<Call>) returns (ok: bool)
      requires At(api.log, before, nodeName, zone, Cordoned(nodeName))
      modifies api`log, api`listed
      ensures At(api.log, before, nodeName, zone, if ok then Waiting(nodeName) else Idle)
    {
      ghost var answer;
      var filteredPodList;
      answer, filteredPodList := GetPodsToBeDeleted(nodeName);
      Advanced(old(api.log), before, nodeName, zone, Cordoned(nodeName), ListPods(nodeName, answer));
      if filteredPodList.None? {
        return false;
      }
      var pods := filteredPodList.value;
      assert pods[0..] == pods;
      for i := 0 to |pods|
        invariant At(api.log, before, nodeName, zone, RemovalLoop(nodeName, pods[i..]))
      {
        ghost var log := api.log;
        ok := api.DeletePod(nodeName, pods[i]);
        Advanced(log, before, nodeName, zone, Removing(nodeName, pods[i..]), RemovePod(nodeName, pods[i], ok));
        assert pods[i..][1..] == pods[i + 1..];
        if !ok {
          return false;
        }
      }
      ok := true;
    }

    /** One poll of the drain loop. */
    method PodsPending(nodeName: string, ghost zone: string, ghost before: seq<Call>) returns (pods: Option<seq<Pod>>)
      requires At(api.log, before, nodeName, zone, Waiting(nodeName))
      modifies api`log, api`listed
      ensures |api.log| == |old(api.log)| + 1 && api.log[|old(api.log)|].ListPods?
      ensures api.listed == old(api.listed) + 1
      ensures pods == Remaining(api.listings(api.drains, old(api.listed)))
      ensures At(api.log, before, nodeName, zone,
                 if pods.None? then Idle else if pods.value == [] then Drained(nodeName) else Checking(nodeName))
    {
      ghost var answer;
      answer, pods := GetPodsToBeDeleted(nodeName);
      Advanced(old(api.log), before, nodeName, zone, Waiting(nodeName), ListPods(nodeName, answer));
    }

    /** The elapsed-time test of the drain loop, in 32 bits. On a steady clock it gives up exactly when the timeout has
        passed. */
    method TimedOut(start: int, timeout: nat) returns (timedOut: bool)
      requires api.readings > 0 && start == api.clock(api.drains, 0)
      modifies api`readings
      ensures api.readings == old(api.readings) + 1
      ensures timedOut <==> Fires(api.clock, timeout, api.drains, old(api.readings))
      ensures Steady(api.clock, timeout, api.drains) && Patient(api.clock, timeout, api.drains, old(api.readings)) ==>
                (timedOut <==> Elapsed(api.clock, api.drains, old(api.readings)) >= timeout)
    {
      var now := api.Now();
      var elapsed := Truncated(now - start);
      timedOut := elapsed >= timeout;
      ghost var drain, k := api.drains, old(api.readings);
      if Steady(api.clock, timeout, drain) && Patient(api.clock, timeout, drain, k) {
        SteadyFires(api.clock, timeout, drain, k);
      }
    }

    /** One turn of the drain loop. */
    method PollOnce(nodeName: string, start: int, timeout: nat, ghost zone: string, ghost before: seq<Call>)
      returns (drained: Option<bool>)
      requires At(api.log, before, nodeName, zone, Waiting(nodeName))
      requires api.readings == api.listed + 1 && start == api.clock(api.drains, 0)
      modifies api`log, api`readings, api`listed
      ensures |old(api.log)| < |api.log| <= |old(api.log)| + 2
      ensures At(api.log, before, nodeName, zone,
                 if drained.None? then Waiting(nodeName) else if drained.value then Drained(nodeName) else Idle)
      ensures drained.Some? <==> Ends(api.clock, api.listings, timeout, api.drains, old(api.readings))
      ensures drained.Some? ==> drained.value == (Remaining(api.listings(api.drains, old(api.listed))) == Some([]))
      ensures drained.None? ==> api.readings == old(api.readings) + 1 && api.listed == old(api.listed) + 1
    {
      var podsPending := PodsPending(nodeName, zone, before);
      if podsPending.None? {
        return Some(false);
      }
      if |podsPending.value| == 0 {
        return Some(true);
      }
      var timedOut := TimedOut(start, timeout);
      ghost var log := api.log;
      api.RecordCheck(nodeName, timedOut);
      Advanced(log, before, nodeName, zone, Checking(nodeName), ClockCheck(nodeName, timedOut));
      drained := if timedOut then Some(false) else None;
    }

    /** The drain ends at the first poll whose listing fails, or leaves nothing to delete, or is followed by a test that
        gives up; it succeeds exactly when that listing leaves nothing to delete, whatever the time. */
    method WaitForDrainToFinish(nodeName: string, timeout: nat, ghost zone: string, ghost before: seq<Call>)
      returns (ok: bool, ghost polls: nat)
      requires At(api.log, before, nodeName, zone, Waiting(nodeName))
      requires Finite(api.clock, api.listings, timeout, api.drains + 1)
      modifies api`log, api`drains, api`readings, api`listed
      ensures At(api.log, before, nodeName, zone, if ok then Drained(nodeName) else Idle)
      ensures api.drains == old(api.drains) + 1
      ensures EndsAt(api.clock, api.listings, timeout, api.drains, polls, ok)
      ensures |api.log| - |old(api.log)| <= 2 * polls
    {
      var start := api.Start();
      ghost var drain := api.drains;
      ghost var last: nat :| Ends(api.clock, api.listings, timeout, drain, last);
      while true
        invariant At(api.log, before, nodeName, zone, Waiting(nodeName))
        invariant api.drains == drain && api.readings == api.listed + 1 && start == api.clock(drain, 0)
        invariant api.readings <= last && Undecided(api.clock, api.listings, timeout, drain, api.readings)
        invariant |api.log| - |old(api.log)| <= 2 * (api.readings - 1)
        decreases last - api.readings
      {
        ghost var k := api.readings;
        var drained := PollOnce(nodeName, start, timeout, zone, before);
        if drained.Some? {
          return drained.value, k;
        }
        UndecidedLonger(api.clock, api.listings, timeout, drain, k, last);
      }
    }

    method MakeNodeUnschedulable(name: string) returns (ok: bool)
      modifies api`log
      ensures api.log == old(api.log) + [CordonNode(name, ok)]
    {
      ok := api.UpdateNode(name);
    }

    /** A drain is made, if at all, under the given timeout, and decides the result. */
    method EvacuatePodsFromNode(name: string, timeout: nat, ghost zone: string) returns (ok: bool, ghost polls: nat)
      requires Finite(api.clock, api.listings, timeout, api.drains + 1)
      modifies api`log, api`drains, api`readings, api`listed
      ensures At(api.log, old(api.log), name, zone, if ok then Drained(name) else Idle)
      ensures if api.drains == old(api.drains) then !ok
              else api.drains == old(api.drains) + 1
                   && EndsAt(api.clock, api.listings, timeout, api.drains, polls, ok)
    {
      polls := 0;
      ok := api.GetNode(name);
      Started(old(api.log), name, zone, ok);
      if !ok {
        return;
      }
      ghost var log := api.log;
      ok := MakeNodeUnschedulable(name);
      Advanced(log, old(api.log), name, zone, Fetched(name), CordonNode(name, ok));
      if !ok {
        return;
      }
      ok := StartNodeDrain(name, zone, old(api.log));
      if !ok {
        return;
      }
      ok, polls := WaitForDrainToFinish(name, timeout, zone, old(api.log));
    }

    method DeleteNode(node: Node, ghost before: seq<Call>)
      requires |Split(node.providerID, '/')| > 3
      requires At(api.log, before, node.name, GetZoneFromNode(node), Drained(node.name))
      modifies api`log
      ensures At(api.log, before, node.name, GetZoneFromNode(node), Idle)
    {
      var zone := GetZoneFromNode(node);
      var ok := api.DeleteNode(node.name);
      NodeDeleted(old(api.log), before, node.name, zone, ok);
      if !ok {
        return;
      }
      ghost var log := api.log;
      ok := api.DeleteInstance(zone, node.name);
      InstanceDeleted(log, before, node.name, zone, ok);
    }

    /** One pass: the calls are those of a pass over the expired nodes of the listing, in its order, and every drain it
        makes ends as it has to under the given timeout. */
    method Kill(now: int, timeout: nat) returns (ghost listed: Option<seq<Node>>)
      requires forall drain: nat :: drain > api.drains ==> Finite(api.clock, api.listings, timeout, drain)
      modifies api`log, api`drains, api`readings, api`listed
      ensures listed.None? ==> api.log == old(api.log)
      ensures listed.Some? ==>
                && Conforming(listed.value)
                && old(api.log) <= api.log
                && PassLog(Names(ExpiredNodes(listed.value, now)), api.log[|old(api.log)|..])
                && RightZones(ExpiredNodes(listed.value, now), api.log[|old(api.log)|..])
      ensures DrainsEnd(api.clock, api.listings, timeout, old(api.drains), api.drains)
    {
      ghost var start := |api.log|;
      var nodesToDelete;
      listed, nodesToDelete := FindExpiredTimeNodes(now);
      if nodesToDelete.None? {
        return;
      }
      var nodes := nodesToDelete.value;
      for i := 0 to |nodes|
        invariant old(api.log) <= api.log && api.drains >= old(api.drains)
        invariant DrainsEnd(api.clock, api.listings, timeout, old(api.drains), api.drains)
        invariant PassLog(Names(nodes)[..i], api.log[start..]) && RightZones(nodes, api.log[start..])
      {
        ghost var before, drains := api.log, api.drains;
        var node := nodes[i];
        ExpiredNodesMember(listed.value, now, node);
        var ok;
        ghost var polls;
        ok, polls := EvacuatePodsFromNode(node.name, timeout, GetZoneFromNode(node));
        OneMoreDrain(api.clock, api.listings, timeout, old(api.drains), drains, api.drains, polls, ok);
        if ok {
          DeleteNode(node, before);
        }
        PassGrown(nodes, i, api.log, before, start);
      }
      assert Names(nodes)[..|nodes|] == Names(nodes);
    }
  }
}

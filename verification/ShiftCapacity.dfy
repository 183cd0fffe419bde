/** What a shifter run does to the cluster: over every run the automaton accepts and every behaviour of the API, the
    number of nodes never drops below that of the start, and only listed source nodes are ever removed. */
module ShiftCapacity {
  import opened Common
  import opened NodePools
  import opened ShiftControl

  /** What a call does to the cluster. A listing shows the nodes of the pool in some order. A granted resize gives every
      zone of the pool exactly the asked number of nodes; a refused one may have added nodes to the pool, but removed
      none. Only a granted deletion removes a node. */
  predicate WorldStep(zones: set<string>, w: seq<Node>, c: Call, w': seq<Node>) {
    match c
    case ReadPool(pool, answer) =>
      w' == w && (answer.Some? ==> multiset(answer.value) == multiset(InPool(w, pool)) && UniqueNames(answer.value))
    case ListPools(answer) => w' == w && (answer.Some? ==> UniquePools(answer.value))
    case Resize(pool, size, ok) =>
      if ok then Resized(w, w', pool, size, zones)
      else WellFormed(w', zones) && OutOfPool(w', pool) == OutOfPool(w, pool)
           && |InPool(w', pool)| >= |InPool(w, pool)|
    case RemoveNode(name, ok) => w' == if ok then Without(w, name) else w
    case _ => w' == w
  }

  /** The states of the cluster between the calls of a log. */
  ghost predicate History(zones: set<string>, log: seq<Call>, worlds: seq<seq<Node>>)
    decreases |log|
  {
    && |worlds| == |log| + 1
    && if log == [] then WellFormed(worlds[0], zones)
       else
         var k := |log| - 1;
         && WorldStep(zones, worlds[k], log[k], worlds[k + 1])
         && History(zones, log[..k], worlds[..k + 1])
  }

  lemma {:induction false} HistoryPrefix(zones: set<string>, log: seq<Call>, worlds: seq<seq<Node>>, i: nat)
    requires History(zones, log, worlds) && i <= |log|
    ensures History(zones, log[..i], worlds[..i + 1]) && worlds[..i + 1][0] == worlds[0]
    ensures i < |log| ==> WorldStep(zones, worlds[i], log[i], worlds[i + 1])
    decreases |log|
  {
    if i < |log| {
      var k := |log| - 1;
      HistoryPrefix(zones, log[..k], worlds[..k + 1], i);
      assert log[..k][..i] == log[..i] && worlds[..k + 1][..i + 1] == worlds[..i + 1];
    } else {
      assert log[..i] == log && worlds[..i + 1] == worlds;
    }
  }

  lemma {:induction false} HistoryWellFormed(zones: set<string>, log: seq<Call>, worlds: seq<seq<Node>>)
    requires History(zones, log, worlds)
    ensures WellFormed(worlds[|log|], zones)
    decreases |log|
  {
    if log != [] {
      var k := |log| - 1;
      HistoryWellFormed(zones, log[..k], worlds[..k + 1]);
      if log[k].RemoveNode? && log[k].ok {
        WithoutFacts(worlds[k], log[k].name, zones);
      }
    }
  }

  lemma {:induction false} HistorySuffix(zones: set<string>, log: seq<Call>, worlds: seq<seq<Node>>, b: nat)
    requires History(zones, log, worlds) && b <= |log|
    ensures History(zones, log[b..], worlds[b..])
    decreases |log|
  {
    var k := |log| - 1;
    if b == |log| {
      HistoryWellFormed(zones, log, worlds);
    } else {
      HistorySuffix(zones, log[..k], worlds[..k + 1], b);
      assert log[b..][..k - b] == log[..k][b..] && worlds[b..][..k - b + 1] == worlds[..k + 1][b..];
    }
  }

  // ----- capacity -----

  /** How many nodes the cluster holds at least above the start when `k` zones are counted: what is left of the last
      resize. */
  function Credit(k: nat, s: Stage): nat
    requires k > 0
  {
    match s
    case Draining(_, _, d) => k - d % k
    case Deleting(_, _, d) => k - d % k
    case _ => 0
  }

  /** The code counts `k` zones, those of the region; a resize adds a node in each of the zones of the pools. */
  ghost predicate CapacityInv(zones: set<string>, k: nat, start: int, s: Stage, w: seq<Node>)
    requires k > 0
  {
    && WellFormed(w, zones)
    && (s.Resizing? ==> s.size >= PoolSize(InPool(w, s.p.target)) && s.d % k == 0)
    && (s.Measuring? ==> s.d % k == 0)
    && (k <= |zones| ==> |w| >= start + Credit(k, s))
  }

  lemma {:induction false} ResizeKeepsCapacity(zones: set<string>, w: seq<Node>, pool: string, size: nat, ok: bool,
                                               w': seq<Node>)
    requires WellFormed(w, zones) && size >= PoolSize(InPool(w, pool))
    requires WorldStep(zones, w, Resize(pool, size + 1, ok), w')
    ensures WellFormed(w', zones) && |w'| >= |w| + if ok then |zones| else 0
  {
    if ok {
      ResizeGrows(w, w', pool, size, zones);
    } else {
      PoolParts(w, pool);
      PoolParts(w', pool);
    }
  }

  lemma {:induction false} CapacityStep(zones: set<string>, k: nat, start: int, s: Stage, w: seq<Node>, c: Call,
                                        w': seq<Node>)
    requires k > 0 && CapacityInv(zones, k, start, s, w)
    requires WorldStep(zones, w, c, w') && Next(k, s, c) != Stuck
    ensures CapacityInv(zones, k, start, Next(k, s, c), w')
  {
    match s
    case Measuring(p, i, d) =>
      if c.nodes.Some? {
        PoolSizeOrder(c.nodes.value, InPool(w, p.target));
      }
    case Resizing(p, i, d, size) => ResizeKeepsCapacity(zones, w, p.target, size, c.ok, w');
    case Deleting(p, i, d) =>
      WithoutFacts(w, c.name, zones);
      RemainderStep(k, d);
    case _ =>
  }

  lemma {:induction false} CapacityHolds(zones: set<string>, k: nat, log: seq<Call>, worlds: seq<seq<Node>>)
    requires k > 0 && History(zones, log, worlds) && Run(k, log) != Stuck
    ensures CapacityInv(zones, k, |worlds[0]|, Run(k, log), worlds[|log|])
    decreases |log|
  {
    if log != [] {
      var i := |log| - 1;
      StepAt(k, log, i);
      PrefixAccepted(k, log, i);
      CapacityHolds(zones, k, log[..i], worlds[..i + 1]);
      assert log[..i + 1] == log;
      CapacityStep(zones, k, |worlds[0]|, Run(k, log[..i]), worlds[i], log[i], worlds[i + 1]);
    }
  }

  /** At every point of every run, over any number of pool pairs, any distribution over the zones and any failures, the
      cluster has at least as many nodes as at the start, if the code counts no more zones than the pools have. */
  lemma {:induction false} CapacityConserved(zones: set<string>, k: nat, log: seq<Call>, worlds: seq<seq<Node>>, i: nat)
    requires 0 < k <= |zones| && History(zones, log, worlds) && Run(k, log) != Stuck
    requires i <= |log|
    ensures |worlds[i]| >= |worlds[0]|
  {
    PrefixAccepted(k, log, i);
    HistoryPrefix(zones, log, worlds, i);
    CapacityHolds(zones, k, log[..i], worlds[..i + 1]);
  }

  // ----- which nodes are removed -----

  ghost predicate Present(w: seq<Node>, name: string, pool: string) {
    exists m :: 0 <= m < |w| && w[m].name == name && w[m].pool == pool
  }

  /** The listed nodes from i on are still there, in the source pool; if nothing failed so far they are all it has. */
  ghost predicate SourceInv(p: Pass, i: nat, d: nat, w: seq<Node>) {
    && Distinct(p.names)
    && d <= i <= |p.names|
    && (forall j :: i <= j < |p.names| ==> Present(w, p.names[j], p.source))
    && (d == i ==> forall n :: n in w && n.pool == p.source ==> n.name in p.names[i..])
  }

  /** No target of a pair is the source of a pair. */
  ghost predicate Apart(plan: map<string, ShiftConf>) {
    forall a, b :: a in plan && b in plan ==> plan[a].preemptibleNP != b
  }

  lemma {:induction false} PairsApart(nps: seq<NodePool>)
    requires UniquePools(nps)
    ensures Apart(PoolMap(nps))
  {
    forall a, b | a in PoolMap(nps) && b in PoolMap(nps) ensures PoolMap(nps)[a].preemptibleNP != b {
      PoolMapMeaning(nps, a);
      PoolMapMeaning(nps, b);
      var o :| o in nps && !o.preemptible && o.name == a && LastMatch(nps, o).Some?;
      var q :| q in nps && !q.preemptible && q.name == b && LastMatch(nps, q).Some?;
      LastMatchIsLast(nps, o);
      var i :| 0 <= i < |nps| && nps[i] == q;
      var j: nat :| LastMatchAt(nps, o, j) && nps[j] == LastMatch(nps, o).value;
      assert i != j && (i < j || j < i);
    }
  }

  lemma {:induction false} PlanApart(zones: set<string>, log: seq<Call>, worlds: seq<seq<Node>>)
    requires History(zones, log, worlds)
    ensures Apart(Pairs(log))
  {
    if Pairs(log) != map[] {
      HistoryPrefix(zones, log, worlds, 0);
      PairsApart(log[0].answer.value);
    }
  }

  ghost predicate PassInv(s: Stage, w: seq<Node>) {
    match s
    case Fetching(p, _) => SourceInv(p, 0, 0, w)
    case Cordoning(p, _) => SourceInv(p, 0, 0, w)
    case Measuring(p, i, d) => SourceInv(p, i, d, w)
    case Resizing(p, i, d, _) => SourceInv(p, i, d, w)
    case Draining(p, i, d) => SourceInv(p, i, d, w)
    case Deleting(p, i, d) => SourceInv(p, i, d, w)
    case _ => true
  }

  lemma {:induction false} ListingPresent(w: seq<Node>, source: string, nodes: seq<Node>, p: Pass)
    requires multiset(nodes) == multiset(InPool(w, source)) && UniqueNames(nodes)
    requires p.names == Names(nodes) && p.source == source
    ensures SourceInv(p, 0, 0, w)
  {
    PoolParts(w, source);
    forall n ensures n in nodes <==> n in w && n.pool == source {
      assert n in nodes <==> n in multiset(nodes);
      assert n in InPool(w, source) <==> n in multiset(InPool(w, source));
    }
    forall j | 0 <= j < |p.names| ensures Present(w, p.names[j], source) {
      assert nodes[j] in nodes;
    }
    forall n | n in w && n.pool == source ensures n.name in p.names[0..] {
      var j :| 0 <= j < |nodes| && nodes[j] == n;
      assert p.names[j] == n.name;
    }
  }

  lemma {:induction false} ResizeKeepsSource(w: seq<Node>, w': seq<Node>, p: Pass, i: nat, d: nat)
    requires SourceInv(p, i, d, w) && OutOfPool(w', p.target) == OutOfPool(w, p.target) && p.source != p.target
    ensures SourceInv(p, i, d, w')
  {
    PoolParts(w, p.target);
    PoolParts(w', p.target);
    forall n: Node | n.pool == p.source ensures n in w' <==> n in w {
      assert n in OutOfPool(w', p.target) <==> n in OutOfPool(w, p.target);
    }
    forall j | i <= j < |p.names| ensures Present(w', p.names[j], p.source) {
      var m :| 0 <= m < |w| && w[m].name == p.names[j] && w[m].pool == p.source;
      assert w[m] in w';
    }
  }

  lemma {:induction false} DeletionKeepsSource(w: seq<Node>, p: Pass, i: nat, d: nat)
    requires SourceInv(p, i, d, w) && i < |p.names|
    ensures SourceInv(p, i + 1, d + 1, Without(w, p.names[i]))
  {
    var w' := Without(w, p.names[i]);
    forall n ensures n in w' <==> n in w && n.name != p.names[i] {
      WithoutMember(w, p.names[i], n);
    }
    forall j | i + 1 <= j < |p.names| ensures Present(w', p.names[j], p.source) {
      var m :| 0 <= m < |w| && w[m].name == p.names[j] && w[m].pool == p.source;
      assert p.names[i] != p.names[j];
      assert w[m] in w';
    }
    if d == i {
      forall n | n in w' && n.pool == p.source ensures n.name in p.names[i + 1..] {
        assert p.names[i..] == [p.names[i]] + p.names[i + 1..];
      }
    }
  }

  lemma {:induction false} PassStep(zones: set<string>, k: nat, s: Stage, w: seq<Node>, c: Call, w': seq<Node>,
                                    plan: map<string, ShiftConf>)
    requires k > 0 && PassInv(s, w) && WorldStep(zones, w, c, w') && Next(k, s, c) != Stuck
    requires Planned(s, plan) && Apart(plan)
    ensures PassInv(Next(k, s, c), w')
  {
    match s
    case Sized(todo, source, target) =>
      if c.nodes.Some? {
        ListingPresent(w, source, c.nodes.value, Pass(source, target, Names(c.nodes.value), todo));
      }
    case Resizing(p, i, d, _) => ResizeKeepsSource(w, w', p, i, d);
    case Deleting(p, i, d) =>
      if c.ok {
        DeletionKeepsSource(w, p, i, d);
      }
    case _ =>
  }

  lemma {:induction false} PassHolds(zones: set<string>, k: nat, log: seq<Call>, worlds: seq<seq<Node>>)
    requires k > 0 && History(zones, log, worlds) && Run(k, log) != Stuck
    ensures PassInv(Run(k, log), worlds[|log|])
    decreases |log|
  {
    if log != [] {
      var i := |log| - 1;
      StepAt(k, log, i);
      PrefixAccepted(k, log, i);
      PassHolds(zones, k, log[..i], worlds[..i + 1]);
      assert log[..i + 1] == log;
      PlanApart(zones, log[..i], worlds[..i + 1]);
      PlannedHolds(k, log[..i]);
      PassStep(zones, k, Run(k, log[..i]), worlds[i], log[i], worlds[i + 1], Pairs(log[..i]));
    }
  }

  /** A deletion removes a node of the pool being shifted: it is still there, and no other node has its name. */
  lemma {:induction false} OnlySourceNodesRemoved(zones: set<string>, k: nat, log: seq<Call>, worlds: seq<seq<Node>>,
                                                  i: nat)
    requires k > 0 && History(zones, log, worlds) && Run(k, log) != Stuck
    requires i < |log| && log[i].RemoveNode?
    ensures Run(k, log[..i]).Deleting?
    ensures var source := Run(k, log[..i]).p.source;
            && Present(worlds[i], log[i].name, source)
            && forall n :: n in worlds[i] && n.name == log[i].name ==> n.pool == source
  {
    var s := Run(k, log[..i]);
    StepAt(k, log, i);
    DrainStages(k, s, log[i]);
    PrefixAccepted(k, log, i);
    HistoryPrefix(zones, log, worlds, i);
    PassHolds(zones, k, log[..i], worlds[..i + 1]);
    HistoryWellFormed(zones, log[..i], worlds[..i + 1]);
    assert worlds[..i + 1][i] == worlds[i];
    NameInSource(zones, worlds[i], log[i].name, s.p.source);
  }

  lemma {:induction false} NameInSource(zones: set<string>, w: seq<Node>, name: string, pool: string)
    requires WellFormed(w, zones) && Present(w, name, pool)
    ensures forall n :: n in w && n.name == name ==> n.pool == pool
  {
    var m :| 0 <= m < |w| && w[m].name == name && w[m].pool == pool;
    forall n | n in w && n.name == name ensures n.pool == pool {
      var k :| 0 <= k < |w| && w[k] == n;
      assert k == m || k < m || m < k;
    }
  }

  // ----- pool by pool -----

  lemma {:induction false} WithoutSourceNode(zones: set<string>, w: seq<Node>, name: string, source: string, q: string)
    requires WellFormed(w, zones) && Present(w, name, source) && q != source
    ensures InPool(Without(w, name), q) == InPool(w, q)
  {
    NameInSource(zones, w, name, source);
    forall m | 0 <= m < |w| && w[m].name == name ensures w[m].pool != q {
      assert w[m] in w;
    }
    WithoutOtherPool(w, name, q);
  }

  lemma {:induction false} KeptPoolStep(zones: set<string>, k: nat, s: Stage, w: seq<Node>, c: Call, w': seq<Node>,
                                        q: string)
    requires k > 0 && WorldStep(zones, w, c, w') && Next(k, s, c) != Stuck
    requires PassInv(s, w) && CapacityInv(zones, k, 0, s, w) && (s.Deleting? ==> s.p.source != q)
    ensures |InPool(w', q)| >= |InPool(w, q)|
    ensures !(s.Resizing? && s.p.target == q) ==> InPool(w', q) == InPool(w, q)
  {
    match s
    case Resizing(p, i, d, size) =>
      if p.target != q {
        InOutPool(w, p.target, q);
        InOutPool(w', p.target, q);
      } else if c.ok {
        ResizeGrows(w, w', q, size, zones);
        PoolParts(w, q);
        PoolParts(w', q);
      }
    case Deleting(p, i, d) =>
      if c.ok {
        WithoutSourceNode(zones, w, c.name, p.source, q);
      }
    case _ =>
  }

  /** A pool that is no source of the pairing never loses a node, at any point of any run. */
  lemma {:induction false} OtherPoolsNeverShrink(zones: set<string>, k: nat, log: seq<Call>, worlds: seq<seq<Node>>,
                                                 q: string)
    requires k > 0 && History(zones, log, worlds) && Run(k, log) != Stuck && q !in Pairs(log)
    ensures |InPool(worlds[|log|], q)| >= |InPool(worlds[0], q)|
    decreases |log|
  {
    if log != [] {
      var i := |log| - 1;
      StepAt(k, log, i);
      PrefixAccepted(k, log, i);
      assert log[..i + 1] == log && worlds[..i + 1][i] == worlds[i];
      OtherPoolsNeverShrink(zones, k, log[..i], worlds[..i + 1], q);
      PassHolds(zones, k, log[..i], worlds[..i + 1]);
      CapacityHolds(zones, k, log[..i], worlds[..i + 1]);
      PlannedHolds(k, log[..i]);
      KeptPoolStep(zones, k, Run(k, log[..i]), worlds[i], log[i], worlds[i + 1], q);
    }
  }
}

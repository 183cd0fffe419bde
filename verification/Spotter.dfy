/** The spotter (pkg/spotter/spotter.go, pkg/spotter/expiry.go). */
module Spotter {
  import opened Common
  import opened Clock
  import opened TimeSpans
  import opened Expiry
  import opened Killer

  /** An API call of the spotter with its answer. */
  datatype SpotCall =
    | ListNodes(answer: Option<seq<Node>>)
    | UpdateNode(node: Node, ok: bool)

  ghost predicate NoExpiry(node: Node, spans: seq<Span>) {
    forall i :: 0 <= i < |spans| ==> Blocked(node.created, spans[i])
  }

  /** The nodes a pass annotates: those without the annotation whose creation time leaves some span free. */
  ghost function Pending(nodes: seq<Node>, spans: seq<Span>): seq<Node> {
    if nodes == [] then []
    else
      var last := nodes[|nodes| - 1];
      Pending(nodes[..|nodes| - 1], spans) + if last.expiry.None? && !NoExpiry(last, spans) then [last] else []
  }

  /** An update that writes the expiry annotation of the node and nothing else. */
  ghost predicate Annotates(call: SpotCall, node: Node, spans: seq<Span>) {
    && call.UpdateNode?
    && call.node.expiry.Some? && ExpiryText(node.created, node.offset, spans, call.node.expiry.value)
    && call.node == node.(expiry := call.node.expiry)
  }

  /** The calls of a pass after its listing: one update per pending node, in listing order. */
  ghost predicate SpotLog(calls: seq<SpotCall>, nodes: seq<Node>, spans: seq<Span>) {
    && |calls| == |Pending(nodes, spans)|
    && forall k :: 0 <= k < |calls| ==> Annotates(calls[k], Pending(nodes, spans)[k], spans)
  }

  lemma {:induction false} PendingMember(nodes: seq<Node>, spans: seq<Span>, n: Node)
    ensures n in Pending(nodes, spans) <==> n in nodes && n.expiry.None? && !NoExpiry(n, spans)
  {
    if nodes != [] {
      PendingMember(nodes[..|nodes| - 1], spans, n);
    }
  }

  lemma {:induction false} PendingLast(nodes: seq<Node>, spans: seq<Span>)
    requires nodes != []
    ensures var before := Pending(nodes[..|nodes| - 1], spans);
            Pending(nodes, spans) == before || Pending(nodes, spans) == before + [nodes[|nodes| - 1]]
  {
  }

  /** The nodes are taken in the order of the listing, no position twice. */
  lemma {:induction false} PendingKeepsOrder(nodes: seq<Node>, spans: seq<Span>) returns (at: seq<nat>)
    ensures |at| == |Pending(nodes, spans)|
    ensures forall i :: 0 <= i < |at| ==> at[i] < |nodes| && nodes[at[i]] == Pending(nodes, spans)[i]
    ensures forall i, j :: 0 <= i < j < |at| ==> at[i] < at[j]
  {
    at := [];
    if nodes != [] {
      var init := nodes[..|nodes| - 1];
      PendingLast(nodes, spans);
      at := PendingKeepsOrder(init, spans);
      assert forall i :: 0 <= i < |at| ==> init[at[i]] == nodes[at[i]];
      if |Pending(nodes, spans)| > |at| {
        at := at + [|nodes| - 1];
      }
    }
  }

  /** With three whitelist spans or more a pass asks to annotate every listed node without annotation, and no other. */
  lemma {:induction false} NoNodeLeftOut(nodes: seq<Node>, spans: seq<Span>, n: Node)
    requires ValidWhitelist(spans) && |spans| >= 3
    ensures n in Pending(nodes, spans) <==> n in nodes && n.expiry.None?
  {
    PendingMember(nodes, spans, n);
    var raw: nat -> nat := k => 0;
    ThreeSpansSuffice(n.created, spans, raw);
    FailsIff(n.created, spans, raw);
  }

  /** The log was `before` after the listing, and since then the given nodes have been handled. */
  ghost predicate Spotted(log: seq<SpotCall>, before: seq<SpotCall>, nodes: seq<Node>, spans: seq<Span>) {
    before <= log && SpotLog(log[|before|..], nodes, spans)
  }

  lemma {:induction false} NodeHandled(log: seq<SpotCall>, before: seq<SpotCall>, nodes: seq<Node>, i: nat,
                                       spans: seq<Span>, annotated: Node, ok: bool)
    requires i < |nodes| && Spotted(log, before, nodes[..i], spans)
    requires nodes[i].expiry.None? && !NoExpiry(nodes[i], spans)
    requires Annotates(UpdateNode(annotated, ok), nodes[i], spans)
    ensures Spotted(log + [UpdateNode(annotated, ok)], before, nodes[..i + 1], spans)
  {
    assert nodes[..i + 1][..i] == nodes[..i];
    assert (log + [UpdateNode(annotated, ok)])[|before|..] == log[|before|..] + [UpdateNode(annotated, ok)];
  }

  lemma {:induction false} NodeSkipped(log: seq<SpotCall>, before: seq<SpotCall>, nodes: seq<Node>, i: nat,
                                       spans: seq<Span>)
    requires i < |nodes| && Spotted(log, before, nodes[..i], spans)
    requires nodes[i].expiry.Some? || NoExpiry(nodes[i], spans)
    ensures Spotted(log, before, nodes[..i + 1], spans)
  {
    assert nodes[..i + 1][..i] == nodes[..i];
  }

  lemma {:induction false} ChoiceMeaning(node: Node, spans: seq<Span>, raw: nat -> nat)
    requires ValidWhitelist(spans)
    ensures ExpiryInstant(node.created, spans, raw).Err? <==> NoExpiry(node, spans)
    ensures ExpiryInstant(node.created, spans, raw).Ok? ==>
              ExpiryText(node.created, node.offset, spans,
                         Format(ExpiryInstant(node.created, spans, raw).value,
                                node.offset(ExpiryInstant(node.created, spans, raw).value)))
  {
    FailsIff(node.created, spans, raw);
    ChosenIsOutcome(node.created, spans, raw);
  }

  class NodeApi {
    var log: seq<SpotCall>

    constructor ()
      ensures log == []
    {
      log := [];
    }

    method GetNodes() returns (answer: Option<seq<Node>>)
      modifies this
      ensures log == old(log) + [ListNodes(answer)]
    {
      answer := *;
      log := log + [ListNodes(answer)];
    }

    method UpdateNodeObject(node: Node) returns (ok: bool)
      modifies this
      ensures log == old(log) + [UpdateNode(node, ok)]
    {
      ok := *;
      log := log + [UpdateNode(node, ok)];
    }
  }

  class SpotterService {
    const api: NodeApi
    var whiteListIntervals: seq<Span>

    constructor (api: NodeApi)
      ensures this.api == api && whiteListIntervals == []
    {
      this.api := api;
      whiteListIntervals := [];
    }

    /** Whatever it held before, the set becomes the whitelist of the configured windows. */
    method InitWhitelist(windows: seq<Window>)
      requires forall i :: 0 <= i < |windows| ==> windows[i].Valid()
      modifies this
      ensures whiteListIntervals == Whitelist(windows) && ValidWhitelist(whiteListIntervals)
    {
      whiteListIntervals := [];
      for i := 0 to |windows|
        invariant whiteListIntervals == Whitelist(windows[..i])
      {
        assert windows[..i + 1][..i] == windows[..i];
        var wl := windows[i];
        var start := WHITELIST_START + wl.start;
        var end := WHITELIST_START + wl.end;
        if end < start {
          whiteListIntervals := Insert(whiteListIntervals, Span(start, WHITELIST_END));
          start := WHITELIST_START;
        }
        whiteListIntervals := Insert(whiteListIntervals, Span(start, end));
      }
      assert windows[..|windows|] == windows;
      WhitelistValid(windows);
    }

    /** The callback of one day: it runs over the whitelist spans in order and appends a candidate per eligible one. */
    method ScanDay(projectedCT: int, projectedET: int, day: nat, raw: nat -> nat, found: seq<int>)
      returns (eligibleExpiryTimes: seq<int>)
      requires ValidWhitelist(whiteListIntervals) && day < 2
      ensures eligibleExpiryTimes == DayTimes(projectedCT, projectedET, whiteListIntervals, day, raw, found)
    {
      eligibleExpiryTimes := found;
      var spans := whiteListIntervals;
      for i := 0 to |spans|
        invariant eligibleExpiryTimes == DayTimes(projectedCT, projectedET, spans[..i], day, raw, found)
      {
        assert spans[..i + 1][..i] == spans[..i];
        var start, end := spans[i].start, spans[i].end;
        if day == 1 {
          start := start + DAY;
          end := end + DAY;
        }
        if projectedCT < start && end < projectedET {
          var timeToBeAdded := RandomMinutes(start, end, raw(|eligibleExpiryTimes|));
          eligibleExpiryTimes := eligibleExpiryTimes + [start + timeToBeAdded * MINUTE];
        }
      }
      assert spans[..|spans|] == spans;
    }

    /** The choice among the candidates, back in real time and checked against the 24 hours. */
    method ChooseExpiry(created: int, eligibleExpiryTimes: seq<int>, raw: nat -> nat) returns (r: Result<int, Refusal>)
      ensures r == Pick(created, eligibleExpiryTimes, raw)
    {
      if |eligibleExpiryTimes| == 0 {
        return Err(NoDate);
      }
      var saExpiryTime := eligibleExpiryTimes[Intn(raw(|eligibleExpiryTimes|), |eligibleExpiryTimes|)];
      var finalexp := Midnight(created) + (saExpiryTime - WHITELIST_START);
      if finalexp > created + DAY {
        return Err(TooLate);
      }
      r := Ok(finalexp);
    }

    /** The two days of the life of a node, scanned one after the other. */
    method ScanDays(created: int, raw: nat -> nat) returns (eligibleExpiryTimes: seq<int>)
      requires ValidWhitelist(whiteListIntervals)
      ensures eligibleExpiryTimes == EligibleTimes(created, whiteListIntervals, raw)
    {
      var truncatedCT := Midnight(created);
      var projectedCT := WHITELIST_START + (created - truncatedCT);
      var actualExpiry := created + DAY;
      var truncatedET := Midnight(actualExpiry);
      var projectedET := WHITELIST_START + (actualExpiry - truncatedET) + DAY;
      eligibleExpiryTimes := [];
      ghost var first := DayTimes(projectedCT, projectedET, whiteListIntervals, 0, raw, []);
      for day := 0 to 2
        invariant day == 0 ==> eligibleExpiryTimes == []
        invariant day == 1 ==> eligibleExpiryTimes == first
        invariant day == 2 ==>
                    eligibleExpiryTimes == DayTimes(projectedCT, projectedET, whiteListIntervals, 1, raw, first)
      {
        eligibleExpiryTimes := ScanDay(projectedCT, projectedET, day, raw, eligibleExpiryTimes);
      }
    }

    /** The method computes the function of the draws; it fails exactly when every span holds the creation time of day,
        and otherwise prints a whole minute of an eligible span. */
    method GetExpiryTimestamp(node: Node, raw: nat -> nat) returns (r: Result<Text, Refusal>)
      requires ValidWhitelist(whiteListIntervals)
      ensures r == match ExpiryInstant(node.created, whiteListIntervals, raw)
                   case Ok(t) => Ok(Format(t, node.offset(t)))
                   case Err(e) => Err(e)
      ensures r.Err? <==> NoExpiry(node, whiteListIntervals)
      ensures r.Ok? ==> ExpiryText(node.created, node.offset, whiteListIntervals, r.value)
    {
      var creationTsUTC := node.created;
      var eligibleExpiryTimes := ScanDays(creationTsUTC, raw);
      var finalexp := ChooseExpiry(creationTsUTC, eligibleExpiryTimes, raw);
      ChoiceMeaning(node, whiteListIntervals, raw);
      if finalexp.Err? {
        return Err(finalexp.error);
      }
      r := Ok(Format(finalexp.value, node.offset(finalexp.value)));
    }

    /** One pass: the nodes are listed once; then exactly the pending ones are updated, once each, in listing order,
        whether or not earlier updates failed, and an update changes nothing but the expiry annotation. */
    method Spot(raw: (nat, nat) -> nat) returns (ghost listed: Option<seq<Node>>)
      requires ValidWhitelist(whiteListIntervals)
      modifies api
      ensures whiteListIntervals == old(whiteListIntervals)
      ensures Spotted(api.log, old(api.log) + [ListNodes(listed)], if listed.None? then [] else listed.value,
                      whiteListIntervals)
    {
      var answer := api.GetNodes();
      listed := answer;
      if answer.None? {
        return;
      }
      var nodes := answer.value;
      ghost var before, spans := api.log, whiteListIntervals;
      for i := 0 to |nodes|
        invariant Spotted(api.log, before, nodes[..i], spans)
      {
        var node := nodes[i];
        if node.expiry.Some? {
          NodeSkipped(api.log, before, nodes, i, spans);
          continue;
        }
        var expiryTime := GetExpiryTimestamp(node, k => raw(i, k));
        if expiryTime.Err? {
          NodeSkipped(api.log, before, nodes, i, spans);
          continue;
        }
        var annotated := node.(expiry := Some(expiryTime.value));
        ghost var log := api.log;
        var ok := api.UpdateNodeObject(annotated);
        NodeHandled(log, before, nodes, i, spans, annotated, ok);
      }
      assert nodes[..|nodes|] == nodes;
    }
  }
}

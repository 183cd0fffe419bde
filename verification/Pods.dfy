/** The pod filters of the killer (pkg/killer/pod.go). */
module Pods {
  import opened Common

  const DAEMON_SET := "DaemonSet"
  const MIRROR_POD_ANNOTATION := "kubernetes.io/config.mirror"

  /** A pod; of an owner reference only its kind matters. */
  datatype Pod = Pod(name: string, namespace: string, owners: seq<string>, annotations: map<string, string>) {
    predicate Mirror() { MIRROR_POD_ANNOTATION in annotations }
  }

  /** How many owner references are of another kind. */
  function OthersIn(owners: seq<string>, kind: string): nat {
    if owners == [] then 0
    else OthersIn(owners[..|owners| - 1], kind) + if owners[|owners| - 1] != kind then 1 else 0
  }

  function Copies(p: Pod, k: nat): seq<Pod> { seq(k, _ => p) }

  function OwnedByOther(pods: seq<Pod>, kind: string): seq<Pod> {
    if pods == [] then []
    else
      var last := pods[|pods| - 1];
      OwnedByOther(pods[..|pods| - 1], kind) + Copies(last, OthersIn(last.owners, kind))
  }

  function WithoutMirrors(pods: seq<Pod>): seq<Pod> {
    if pods == [] then []
    else
      var last := pods[|pods| - 1];
      WithoutMirrors(pods[..|pods| - 1]) + if last.Mirror() then [] else [last]
  }

  /** What getPodsToBeDeleted makes of a listing. */
  function ToBeDeleted(pods: seq<Pod>): seq<Pod> {
    WithoutMirrors(OwnedByOther(pods, DAEMON_SET))
  }

  /** The pods a drain has to get rid of: not a mirror pod, and some owner is no DaemonSet. */
  ghost predicate Drainable(p: Pod) {
    !p.Mirror() && exists i :: 0 <= i < |p.owners| && p.owners[i] != DAEMON_SET
  }

  method FilterOutPodByOwnerReferenceKind(podList: seq<Pod>, kind: string) returns (output: seq<Pod>)
    ensures output == OwnedByOther(podList, kind)
  {
    output := [];
    for i := 0 to |podList|
      invariant output == OwnedByOther(podList[..i], kind)
    {
      var pod := podList[i];
      ghost var before := output;
      for j := 0 to |pod.owners|
        invariant output == before + Copies(pod, OthersIn(pod.owners[..j], kind))
      {
        assert pod.owners[..j + 1][..j] == pod.owners[..j];
        if pod.owners[j] != kind {
          output := output + [pod];
        }
      }
      assert pod.owners[..|pod.owners|] == pod.owners;
      assert podList[..i + 1][..i] == podList[..i];
    }
    assert podList[..|podList|] == podList;
  }

  method FilterMirrorPods(pods: seq<Pod>) returns (filteredPods: seq<Pod>)
    ensures filteredPods == WithoutMirrors(pods)
  {
    filteredPods := [];
    for i := 0 to |pods|
      invariant filteredPods == WithoutMirrors(pods[..i])
    {
      assert pods[..i + 1][..i] == pods[..i];
      if MIRROR_POD_ANNOTATION !in pods[i].annotations {
        filteredPods := filteredPods + [pods[i]];
      }
    }
    assert pods[..|pods|] == pods;
  }

  lemma {:induction false} CopiesCount(p: Pod, k: nat, q: Pod)
    ensures multiset(Copies(p, k))[q] == if p == q then k else 0
  {
    if k > 0 {
      CopiesCount(p, k - 1, q);
      assert Copies(p, k) == Copies(p, k - 1) + [p];
    }
  }

  lemma {:induction false} OwnerFilterCount(pods: seq<Pod>, kind: string, p: Pod)
    ensures multiset(OwnedByOther(pods, kind))[p] == multiset(pods)[p] * OthersIn(p.owners, kind)
  {
    if pods != [] {
      var init, last := pods[..|pods| - 1], pods[|pods| - 1];
      OwnerFilterCount(init, kind, p);
      assert pods == init + [last];
      OwnerFilterSplit(init, last, kind, p);
      OneMore(multiset(init)[p], OthersIn(p.owners, kind));
    }
  }

  lemma {:induction false} OneMore(n: nat, k: nat)
    ensures (n + 1) * k == n * k + k && (n + 0) * k == n * k
  {
  }

  /** One more pod adds its copies, and only its own. */
  lemma {:induction false} OwnerFilterSplit(init: seq<Pod>, last: Pod, kind: string, p: Pod)
    ensures multiset(OwnedByOther(init + [last], kind))[p]
         == multiset(OwnedByOther(init, kind))[p] + if last == p then OthersIn(p.owners, kind) else 0
    ensures multiset(init + [last])[p] == multiset(init)[p] + if last == p then 1 else 0
  {
    assert (init + [last])[..|init|] == init;
    CopiesCount(last, OthersIn(last.owners, kind), p);
  }

  lemma {:induction false} MirrorFilterCount(pods: seq<Pod>, p: Pod)
    ensures multiset(WithoutMirrors(pods))[p] == if p.Mirror() then 0 else multiset(pods)[p]
  {
    if pods != [] {
      var init, last := pods[..|pods| - 1], pods[|pods| - 1];
      MirrorFilterCount(init, p);
      assert pods == init + [last];
    }
  }

  /** One per owner reference of another kind. */
  lemma {:induction false} OthersCount(owners: seq<string>, kind: string)
    ensures OthersIn(owners, kind) == |set i | 0 <= i < |owners| && owners[i] != kind|
  {
    var all := set i | 0 <= i < |owners| && owners[i] != kind;
    if owners == [] {
      assert all == {};
    } else {
      var last := |owners| - 1;
      var init := set i | 0 <= i < last && owners[i] != kind;
      OthersCount(owners[..last], kind);
      assert init == set i | 0 <= i < |owners[..last]| && owners[..last][i] != kind;
      assert all == if owners[last] != kind then init + {last} else init;
    }
  }

  /** Each pod is listed once per owner that is no DaemonSet; a mirror pod never. */
  lemma {:induction false} ToBeDeletedCount(pods: seq<Pod>, p: Pod)
    ensures multiset(ToBeDeleted(pods))[p]
         == if p.Mirror() then 0 else multiset(pods)[p] * OthersIn(p.owners, DAEMON_SET)
    ensures multiset(ToBeDeleted(pods))[p]
         == if "kubernetes.io/config.mirror" in p.annotations then 0
            else multiset(pods)[p] * |set i | 0 <= i < |p.owners| && p.owners[i] != "DaemonSet"|
  {
    OthersCount(p.owners, DAEMON_SET);
    OwnerFilterCount(pods, DAEMON_SET, p);
    MirrorFilterCount(OwnedByOther(pods, DAEMON_SET), p);
  }

  lemma {:induction false} OthersPositive(owners: seq<string>, kind: string)
    ensures OthersIn(owners, kind) > 0 <==> exists i :: 0 <= i < |owners| && owners[i] != kind
  {
    if owners != [] {
      OthersPositive(owners[..|owners| - 1], kind);
    }
  }

  /** A pod is in the result exactly when it was listed and has to go. */
  lemma {:induction false} ToBeDeletedMember(pods: seq<Pod>, p: Pod)
    ensures p in ToBeDeleted(pods) <==> p in pods && Drainable(p)
    ensures p in ToBeDeleted(pods) <==>
              p in pods && "kubernetes.io/config.mirror" !in p.annotations
              && exists i :: 0 <= i < |p.owners| && p.owners[i] != "DaemonSet"
  {
    ToBeDeletedCount(pods, p);
    OthersPositive(p.owners, DAEMON_SET);
    assert p in ToBeDeleted(pods) <==> multiset(ToBeDeleted(pods))[p] > 0;
    assert p in pods <==> multiset(pods)[p] > 0;
  }

  /** The drain is over, by the code's test, exactly when no listed pod has to go. */
  lemma {:induction false} NothingToDelete(pods: seq<Pod>)
    ensures ToBeDeleted(pods) == [] <==> forall p :: p in pods ==> !Drainable(p)
  {
    forall p ensures p in ToBeDeleted(pods) <==> p in pods && Drainable(p) {
      ToBeDeletedMember(pods, p);
    }
    if ToBeDeleted(pods) != [] {
      assert ToBeDeleted(pods)[0] in ToBeDeleted(pods);
    }
  }

  ghost predicate OwnedByDaemonSet(p: Pod) {
    exists i :: 0 <= i < |p.owners| && p.owners[i] == DAEMON_SET
  }

  /** docs/README.md says that all pods but those owned by a DaemonSet are deleted. For a listed pod that is so exactly
      when it is a mirror pod of a DaemonSet, or an ordinary pod with an owner and without owners of both kinds. */
  lemma {:induction false} DocumentedFilterIff(pods: seq<Pod>, p: Pod)
    requires p in pods
    ensures (p in ToBeDeleted(pods) <==> !OwnedByDaemonSet(p))
       <==> if p.Mirror() then OwnedByDaemonSet(p)
            else p.owners != [] && !(OwnedByDaemonSet(p) && Drainable(p))
  {
    ToBeDeletedMember(pods, p);
    if p.owners != [] {
      assert p.owners[0] == DAEMON_SET || p.owners[0] != DAEMON_SET;
    }
  }

  /** A pod that nobody owns stays, and the drain does not wait for it. */
  lemma {:induction false} OrphanStays(name: string, namespace: string)
    ensures var p := Pod(name, namespace, [], map[]);
            ToBeDeleted([p]) == [] && !OwnedByDaemonSet(p)
  {
    var p := Pod(name, namespace, [], map[]);
    NothingToDelete([p]);
  }

  lemma {:induction false} WithoutMirrorsConcat(a: seq<Pod>, b: seq<Pod>)
    ensures WithoutMirrors(a + b) == WithoutMirrors(a) + WithoutMirrors(b)
  {
    if b == [] {
      assert a + b == a;
    } else {
      WithoutMirrorsConcat(a, b[..|b| - 1]);
      assert (a + b)[..|a + b| - 1] == a + b[..|b| - 1];
    }
  }

  lemma {:induction false} WithoutMirrorsCopies(p: Pod, k: nat)
    ensures WithoutMirrors(Copies(p, k)) == if p.Mirror() then [] else Copies(p, k)
  {
    if k > 0 {
      WithoutMirrorsCopies(p, k - 1);
      assert Copies(p, k)[..k - 1] == Copies(p, k - 1);
      assert Copies(p, k) == Copies(p, k - 1) + [p];
    }
  }

  /** The two filters can be applied in either order. */
  lemma {:induction false} FiltersCommute(pods: seq<Pod>, kind: string)
    ensures WithoutMirrors(OwnedByOther(pods, kind)) == OwnedByOther(WithoutMirrors(pods), kind)
  {
    if pods != [] {
      var init, last := pods[..|pods| - 1], pods[|pods| - 1];
      var copies := Copies(last, OthersIn(last.owners, kind));
      FiltersCommute(init, kind);
      WithoutMirrorsConcat(OwnedByOther(init, kind), copies);
      WithoutMirrorsCopies(last, OthersIn(last.owners, kind));
      assert OwnedByOther(pods, kind) == OwnedByOther(init, kind) + copies;
      if last.Mirror() {
        assert WithoutMirrors(pods) == WithoutMirrors(init);
      } else {
        assert WithoutMirrors(pods) == WithoutMirrors(init) + [last];
        assert WithoutMirrors(pods)[..|WithoutMirrors(pods)| - 1] == WithoutMirrors(init);
      }
    }
  }

  /** The listing order is kept: the result reads off a nondecreasing list of positions of the listing. */
  lemma {:induction false} ToBeDeletedKeepsOrder(pods: seq<Pod>) returns (at: seq<nat>)
    ensures |at| == |ToBeDeleted(pods)|
    ensures forall i :: 0 <= i < |at| ==> at[i] < |pods| && pods[at[i]] == ToBeDeleted(pods)[i]
    ensures forall i, j :: 0 <= i < j < |at| ==> at[i] <= at[j]
  {
    at := [];
    if pods != [] {
      var init, last := pods[..|pods| - 1], pods[|pods| - 1];
      var k := OthersIn(last.owners, DAEMON_SET);
      var before := ToBeDeletedKeepsOrder(init);
      var copies := if last.Mirror() then 0 else k;
      assert ToBeDeleted(pods) == ToBeDeleted(init) + Copies(last, copies) by {
        WithoutMirrorsConcat(OwnedByOther(init, DAEMON_SET), Copies(last, k));
        WithoutMirrorsCopies(last, k);
      }
      at := before + seq(copies, _ => |pods| - 1);
      forall i | 0 <= i < |at| ensures at[i] < |pods| && pods[at[i]] == ToBeDeleted(pods)[i] {
        if i < |before| {
          assert pods[before[i]] == init[before[i]];
        }
      }
    }
  }

  /** The plain filter: every listed pod that has to go, once. */
  ghost function PlainFilter(pods: seq<Pod>): seq<Pod> {
    if pods == [] then []
    else
      var last := pods[|pods| - 1];
      PlainFilter(pods[..|pods| - 1]) + if Drainable(last) then [last] else []
  }

  lemma {:induction false} SingleOwnerCopies(p: Pod)
    requires |p.owners| == 1
    ensures WithoutMirrors(Copies(p, OthersIn(p.owners, DAEMON_SET))) == if Drainable(p) then [p] else []
  {
    var k := OthersIn(p.owners, DAEMON_SET);
    assert OthersIn(p.owners[..0], DAEMON_SET) == 0;
    assert k == if p.owners[0] != DAEMON_SET then 1 else 0;
    assert Copies(p, k) == if k == 1 then [p] else [];
    WithoutMirrorsCopies(p, k);
  }

  /** With one owner per pod the nested loop is the plain filter. */
  lemma {:induction false} SingleOwnersPlain(pods: seq<Pod>)
    requires forall i :: 0 <= i < |pods| ==> |pods[i].owners| == 1
    ensures ToBeDeleted(pods) == PlainFilter(pods)
  {
    if pods != [] {
      var init, last := pods[..|pods| - 1], pods[|pods| - 1];
      SingleOwnersPlain(init);
      WithoutMirrorsConcat(OwnedByOther(init, DAEMON_SET), Copies(last, OthersIn(last.owners, DAEMON_SET)));
      SingleOwnerCopies(last);
    }
  }
}

# Silent-Assassin: a verified model of the server

Silent-Assassin deletes preemptible nodes at a chosen time before their 24-hour limit, drains a node whose preemption is
announced, and moves workloads from on-demand pools back to preemptible ones. The model covers the parts of the server
that decide which node is deleted, when, and after which calls.

| file | what it models |
|---|---|
| Pods.dfy | the pod filters (pkg/killer/pod.go) |
| Evacuation.dfy | one evacuation and the deletion after it as an automaton over API calls, and what every accepted call log satisfies |
| DrainClock.dfy | the polling of a drain: the elapsed time in 32 bits, how far apart polls may be, when a drain ends |
| Killer.dfy | the killer service, proved to produce accepted logs |
| Clock.dfy, TimeSpans.dfy, Expiry.dfy | instants and date texts, the set of time spans, the choice of an expiry time as a function of the random draws |
| Spotter.dfy | the spotter service |
| Windows.dfy | the shifter's window list and check |
| NodePools.dfy | pool sizes, pairing of pools, what a resize and a deletion do to the nodes |
| ShiftControl.dfy, ShiftCapacity.dfy | one shifter run as an automaton over API calls: order, accounting of resizes, capacity |
| ShiftProgress.dfy, ShiftGrowth.dfy | what a shifter run gets done whatever fails; how large its targets become |
| ShiftOutcome.dfy, ShiftExamples.dfy | what a shifter run leaves of the pools it shifts; runs that go below a minimum or lose capacity |
| ShiftShared.dfy | the capacity while others remove nodes too |
| Shifter.dfy | the shifter service, proved to produce accepted logs and to keep the capacity |
| Protocol.dfy, ProtocolTheorems.dfy | all threads of the server together with the cluster, one API call or cluster event per step, over restarts of the server |
| ProtocolExample.dfy | a run from the creation of a node to its deletion by the killer |

**How the code is modelled.** The services are classes. The clients they call (`Killer.Api`, `Spotter.NodeApi`,
`Shifter.Cloud`) give arbitrary answers and record every call with its answer, so a contract about the log holds for
every pattern of failures. A service method is proved to make exactly the calls of a small automaton
(`Evacuation.Next`, `ShiftControl.Next`); the properties are then proved of all logs the automaton accepts. The
concurrent model lets its threads follow the same evacuation automaton. A killer thread follows it as it is, so what the
killer's methods do call by call is what its threads do step by step; a shifter thread goes on with its next node after
DeleteNode, because the shifter never deletes an instance (`Evacuation.RunFor`).

**Assumptions about the environment.**

- A listing of a pool shows its nodes, in any order. Node names are unique, pool names are unique, zone labels are among
  the zones of the pools. `GetNumberOfZones` returns any positive number.
- A granted resize puts exactly the asked number of nodes in each zone of the pool; a refused one removes no node. During
  a run nothing but the shifter resizes pools; that nothing else removes nodes is assumed except in ShiftShared.
- The API refuses an update whose resource version is not the stored one, and versions are never reused. A node name is
  not reused. Nobody outside the server removes a cordon or writes the expiry annotation. Annotations that are there when
  the server starts were written by a spotter of an earlier process, possibly with other windows.
- No pod that a drain has to delete is bound to a cordoned node, and the owners of a bound pod do not change.
- The library set of time spans unites what is inserted, merges spans that touch, and enumerates them in ascending order.
- A drain ends some time: a listing fails or leaves nothing to delete, or the timeout test fires. It does so if a poll takes
  at least 1 ms and at most 2^32 ms minus the timeout (`DrainClock.TickingFinite`). The statements about when the test
  fires assume that the clock does not go back within the drain and that each poll takes no more than that. Nothing is
  assumed of the clock between drains.

**Where the code and its documentation differ.** The model follows the code.

- The repository's README.md:14 promises a life of at least 12 hours; the code does not check it (`Expiry.TwelveHoursIff`,
  `Expiry.TwelveHoursExample`).
- docs/README.md:23 says that all pods but those of a DaemonSet are deleted; pods without owners are neither deleted nor
  waited for, and pods with owners of both kinds are deleted (`Pods.DocumentedFilterIff`, `Pods.OrphanStays`).
- docs/README.md:30 can be read as shifting what exceeds the minimum; once the size of a pool exceeds its minimum all its
  nodes are shifted. A run without failures keeps the minimum of a pool exactly when nothing exceeds it or the minimum
  is not positive (`ShiftOutcome.MinimumKeptIff`); two nodes with a minimum of one end as none
  (`ShiftExamples.BelowMinimumExample`).
- docs/README.md:14 promises that a node gets a time before its 24-hour limit; a node created inside the only span gets
  none, however often the spotter tries (`Expiry.FailsIff`, `Expiry.OneSpanFailsIff`, `Expiry.NoDateExample`).
- The drain timeout (pkg/killer/node.go:69-71) is compared in 32 bits; a check that comes after the elapsed time has
  wrapped overlooks it (`DrainClock.DeadlineOverlookedExample`). The test is right on every clock whose polls take at
  most g if and only if g is at most 2^32 ms minus the timeout (`DrainClock.SafeGapIff`).
- The shifter resizes once per `GetNumberOfZones` deletions, which is meant to add the nodes before they are taken. That
  call counts the zones of the region (pkg/gcloud/client.go:169-181), a resize adds a node per zone of the pool: no run
  loses nodes if and only if the region has no more zones than the pools (`ShiftExamples.CapacityIff`).

## Model

| member | source | states |
|---|---|---|
| ShiftCapacity.CapacityConserved | pkg/shifter/shifter.go:214-260 | if the code counts at most the zones of the pools, the cluster has at every point of every run, over any pairs and failures, at least as many nodes as at the start |
| ShiftShared.SharedCapacityConserved | pkg/shifter/shifter.go:214-260 | while others remove nodes during the run, the cluster is short of no more nodes than they removed |
| ShiftExamples.CapacityIff | pkg/shifter/shifter.go:170-237 | no run loses nodes if and only if the number of zones counted is at most that of the zones of the pools |
| ShiftExamples.CapacityLost | pkg/gcloud/client.go:169-181 | for any larger number of zones counted, a complete run without failures that loses nodes |
| Shifter.ShifterService.Shift | pkg/shifter/shifter.go:169-263 | the calls and states are a history with a complete log of the automaton; the run is stopped exactly by a failed listing of the pools, a refused resize or an unreadable target, and otherwise does all pairs; the capacity is kept at every point unless the region has more zones than the pools |
| Shifter.ShifterService.ShiftPool | pkg/shifter/shifter.go:184-262 | one pair is worked off: either the run halts or exactly this pair leaves the work list |
| Shifter.ShifterService.ShiftNodes | pkg/shifter/shifter.go:214-260 | the drain loop follows the automaton with `nodesDeleted` as its counter, through every failure branch |
| Shifter.ShifterService.GrowTarget | pkg/shifter/shifter.go:218-237 | the target is read and resized to its size plus one; a failure of either halts the run |
| Shifter.ShifterService.DrainAndDelete | pkg/shifter/shifter.go:238-255 | a node counts as deleted only when evacuation and deletion both succeeded |
| Shifter.ShifterService.MakeNodeUnschedulable | pkg/shifter/shifter.go:152-167 | all listed nodes are fetched and cordoned in order, or the pair is given up at the first failure |
| ShiftControl.ExactAccounting | pkg/shifter/shifter.go:214-260 | successful resizes = deletions / zones rounded up + failures at a multiple of zones + the one of an unfinished iteration; so deletions <= zones * resizes |
| ShiftControl.RoundsIsCeiling | pkg/shifter/shifter.go:218 | the number of times the modulo test fires over d deletions is d / zones rounded up |
| ShiftControl.CordonedBeforeEvacuated | pkg/shifter/shifter.go:207-249 | when a node is evacuated or deleted, all nodes of its listing were fetched and cordoned before, successfully, and nothing was cordoned since |
| ShiftControl.CordonFailureSkipsPool | pkg/shifter/shifter.go:208-213 | after a failed fetch or cordon no node of that pool is evacuated or deleted in the run; what is belongs to another pool, listed and cordoned completely later |
| ShiftControl.PoolChosenOnce | pkg/shifter/shifter.go:184-193 | no pool is chosen as a source twice in a run |
| ShiftControl.EvacuatedBeforeDeleted | pkg/shifter/shifter.go:239-255 | each DeleteNode comes immediately after the successful evacuation of the same node |
| ShiftControl.ResizeFailureEndsRun | pkg/shifter/shifter.go:220-236 | a refused resize or an unreadable target size is the last call of the run |
| ShiftProgress.HaltedIff | pkg/shifter/shifter.go:171-236 | a run is stopped if and only if its last call is the failed listing of the pools, a refused resize, or a failed read of a pool that is no source |
| ShiftProgress.EveryPairRead | pkg/shifter/shifter.go:184-193 | a run that is not stopped looks at every source, whatever failed |
| ShiftProgress.SizeTest | pkg/shifter/shifter.go:187-200 | right after a source is looked at it is listed once more if and only if some zone has more nodes of it than the minimum |
| ShiftProgress.PassTriesAll | pkg/shifter/shifter.go:216-255 | a pass that is not stopped asks to evacuate every listed node once, in listing order, and to delete exactly those that were evacuated, whatever was refused |
| ShiftProgress.ResizeByOne | pkg/shifter/shifter.go:220-230 | a resize asks for one more than the largest number of nodes per zone in the listing of the same pool that comes right before it |
| ShiftGrowth.GrowsByResizes | pkg/shifter/shifter.go:218-237 | at every point of a run that is not stopped a target has grown by exactly one per granted resize, evenly over the zones |
| ShiftGrowth.ResizesPerSource | pkg/shifter/shifter.go:216-255 | a complete run without refusals makes one resize per k nodes of a source that exceeds its minimum, rounded up, and none for another |
| ShiftGrowth.TargetEndsWith | pkg/shifter/shifter.go:184-262 | it leaves a target with its starting size plus what all its sources add up to, in every zone |
| ShiftCapacity.CapacityStep | pkg/shifter/shifter.go:218-255 | the credit of a resize, zones minus deletions since, covers every later deletion of the round |
| ShiftCapacity.OnlySourceNodesRemoved | pkg/shifter/shifter.go:199-255 | every deletion removes a node that is still in the pool being shifted, and no other node has its name |
| ShiftOutcome.FullShiftEmptiesPool | pkg/shifter/shifter.go:184-262 | a complete run without refused calls leaves a source pool empty if its size exceeds its minimum and as it was otherwise |
| ShiftOutcome.MinimumKeptIff | docs/README.md:30 | such a run keeps a pool at its minimum if and only if the pool did not exceed it or the minimum is not positive |
| ShiftExamples.BelowMinimumExample | docs/README.md:30 | a complete run without refused calls that takes a pool of size two and minimum one to nothing |
| ShiftOutcome.RemainingNodes | pkg/shifter/shifter.go:199-260 | at every point, whatever failed, a source pool has its starting nodes less the granted deletions of its pass |
| ShiftOutcome.SmallPoolUntouched | pkg/shifter/shifter.go:196-200 | whatever failed, a source pool no larger than its minimum is never changed |
| ShiftOutcome.CordonFailureKeepsNodes | pkg/shifter/shifter.go:208-213 | after a failed fetch or cordon the pool has exactly its starting nodes to the end of the run |
| ShiftCapacity.OtherPoolsNeverShrink | pkg/shifter/shifter.go:184-262 | a pool that is no source of the pairing never loses a node during a run |
| NodePools.GetNodePoolSize | pkg/shifter/shifter.go:123-150 | the two loops compute the largest number of nodes in one zone |
| NodePools.PoolSizeOrder | pkg/shifter/shifter.go:123-150 | the size does not depend on the order of the listing |
| NodePools.PoolSizeBounds | pkg/shifter/shifter.go:121-150 | size <= nodes <= size * zones, and the size is 0 exactly for an empty pool |
| NodePools.ResizeGrows | pkg/shifter/shifter.go:220-230 | a granted resize to size + 1 adds at least one node per zone and shrinks no zone |
| NodePools.WithoutFacts | pkg/shifter/shifter.go:249 | a deletion by name removes one node at most and keeps the cluster well formed |
| NodePools.GetNodePoolMap | pkg/shifter/shifter.go:82-119 | the partition and the nested loops compute the pairing function |
| NodePools.PoolMapMeaning | pkg/shifter/shifter.go:102-118 | with unique names the keys are the on-demand pools with a matching preemptible pool, each mapped to the last such pool and its own minimum |
| NodePools.PairedIff | pkg/shifter/shifter.go:102-118 | written out: a pool is a key exactly when it is on-demand and some preemptible pool has labels, the same ones, and the same machine type; its value names the last such pool and its own minimum |
| NodePools.LastMatchIsLast | pkg/shifter/shifter.go:102-118 | the pool chosen matches, is preemptible, and no later one of the listing does |
| Windows.WindowAndBackPartition | pkg/shifter/interval.go:43-51 | for a != b exactly one of the windows a-b and b-a holds at a time |
| Windows.CheckAgreesWithWhitelist | pkg/shifter/interval.go:43-51 | the check agrees with the spotter's spans of the same window everywhere but at the two ends of a wrapping window |
| Windows.IntervalList.InitWhitelist | pkg/shifter/interval.go:18-39 | the list becomes the configured windows, in order, whatever it held |
| Expiry.ExactOutcomes | pkg/spotter/expiry.go:89-140 | some draws choose an instant if and only if it is a whole minute of a whitelist span of two days lying strictly inside the 24 hours |
| Expiry.ChosenIsOutcome | pkg/spotter/expiry.go:105-136 | whatever the draws, the choice is such a minute, and the final check never refuses |
| Expiry.OutcomeIsChosen | pkg/spotter/expiry.go:79-129 | draws that choose a given outcome |
| Expiry.OutcomeBounds | pkg/spotter/expiry.go:98-136 | the expiry is strictly after creation and strictly before creation + 24 h, at a time of day inside a configured window |
| Expiry.WindowsPreserved | pkg/spotter/expiry.go:49-71 | splitting and merging keep the union of the windows on the circle of the day |
| Expiry.WhitelistValid | pkg/spotter/expiry.go:49-71 | the whitelist is ascending, disjoint, inside one day, on whole minutes |
| Expiry.OneDayOnly | pkg/spotter/expiry.go:105-123 | a span contributes to one of the two days at most |
| Expiry.ProjectionIsTranslation | pkg/spotter/expiry.go:95-113 | the test on times projected to 2000-01-01 is the test on real times |
| Expiry.FailsIff | pkg/spotter/expiry.go:105-127 | no date is found exactly when every span holds the creation time of day, whatever the draws |
| Expiry.ThreeSpansSuffice | pkg/spotter/expiry.go:105-127 | with three spans a date is always found |
| Expiry.TwoSpansFailIff | pkg/spotter/expiry.go:105-127 | with two spans it fails exactly at midnight when one starts and the other ends there |
| Expiry.OneSpanFailsIff | pkg/spotter/expiry.go:105-127 | with one span it fails exactly for creation times inside it |
| Expiry.NoDateExample | docs/README.md:14 | a node created at 13:00 with the only window 12:00-14:00 gets no date, whatever the draws |
| Expiry.TwelveHoursIff | README.md:14 | every choice lies 12 hours after creation if and only if no eligible span starts earlier |
| Expiry.TwelveHoursExample | README.md:14 | a node and a window for which an expiry two hours after creation is possible |
| Clock.MidnightFacts | pkg/spotter/expiry.go:74-77 | midnight is the last whole day at or before an instant, and moves with whole days |
| Clock.FormatShows | pkg/spotter/expiry.go:137-139 | the text shows the wall clock of the location to the second and the whole minutes of its offset |
| Clock.FormatParse | pkg/spotter/expiry.go:137-139 | the text gives back the instant exactly when it is a whole second and the zone a whole minute |
| Clock.FormatParseError | pkg/killer/node.go:42-48 | by how much the instant read differs from the one printed |
| TimeSpans.InsertCanonical | pkg/spotter/expiry.go:65-68 | inserting keeps the spans ascending and apart |
| TimeSpans.InsertCovers | pkg/spotter/expiry.go:65-68 | inserting is union |
| Spotter.SpotterService.InitWhitelist | pkg/spotter/expiry.go:49-71 | the set becomes the whitelist of the windows, whatever it held |
| Spotter.SpotterService.ScanDay | pkg/spotter/expiry.go:107-121 | the callback appends one random minute per eligible span of the day |
| Spotter.SpotterService.GetExpiryTimestamp | pkg/spotter/expiry.go:89-140 | fails exactly when every span holds the creation time of day, otherwise prints an outcome with the offset its location has at that instant |
| Spotter.SpotterService.Spot | pkg/spotter/spotter.go:60-103 | exactly the unannotated nodes with a possible expiry are updated, once each, in order, whatever failed; only the annotation changes |
| Spotter.NoNodeLeftOut | pkg/spotter/spotter.go:70-96 | with three spans a pass asks to annotate every listed node without annotation and no other |
| Spotter.PendingKeepsOrder | pkg/spotter/spotter.go:70-96 | the nodes to annotate are taken in listing order, no position twice |
| Pods.FilterOutPodByOwnerReferenceKind | pkg/killer/pod.go:7-17 | the nested loop computes the owner filter |
| Pods.FilterMirrorPods | pkg/killer/pod.go:34-44 | the loop drops the mirror pods |
| Pods.ToBeDeletedCount | pkg/killer/pod.go:21-32 | each pod is listed once per owner that is no DaemonSet, mirror pods never |
| Pods.ToBeDeletedMember | pkg/killer/pod.go:21-32 | a pod is in the result exactly when it was listed, has no mirror annotation and has an owner that is no DaemonSet |
| Pods.OthersCount | pkg/killer/pod.go:8-12 | a pod is appended once per owner reference of another kind |
| Pods.ToBeDeletedKeepsOrder | pkg/killer/pod.go:7-44 | the order of the listing is kept |
| Pods.FiltersCommute | pkg/killer/pod.go:27-30 | the filters can be applied in either order |
| Pods.SingleOwnersPlain | pkg/killer/pod.go:7-17 | with one owner per pod the result is the plain filter |
| Pods.DocumentedFilterIff | docs/README.md:23 | when the documented rule decides a pod as the code does |
| Pods.OrphanStays | docs/README.md:23 | a pod without owners is not deleted although no DaemonSet owns it |
| Evacuation.NodeRemovedOnlyWhenDrained | pkg/killer/node.go:154-191 | the killer and the shifter delete a node only right after a listing with nothing left to delete, after a cordon, the granted removal of exactly the pods to delete, in order, and nothing but polls |
| Evacuation.InstanceRemovedOnlyAfterNode | pkg/killer/node.go:121-143 | DeleteInstance comes only right after the successful DeleteNode of the same node, and never from the shifter |
| Evacuation.PassDrained | pkg/killer/killer.go:74-87 | every deletion in a pass of the killer, whatever failed before, is of a listed node and comes right after its full drain |
| Evacuation.PassGoesOn | pkg/killer/killer.go:74-87 | in a pass the work on a node goes on after a call if and only if the call was granted and did not delete the instance |
| Evacuation.PassDeletesDrained | pkg/killer/killer.go:79-85 | a pass asks to delete every node it drained, right after the listing that shows it |
| Evacuation.PassDeletesInstance | pkg/killer/node.go:121-143 | a pass asks to delete the instance of every node it deleted, right after it |
| Evacuation.PassCounts | pkg/killer/killer.go:74-87 | each listed node is read exactly once whatever failed before, deleted at most once, its instance at most once, and no other node is touched |
| Evacuation.PassOrder | pkg/killer/killer.go:74-87 | all calls about a node come before all calls about a later one |
| Killer.KillerService.Kill | pkg/killer/killer.go:64-93 | the calls are those of a pass over the expired nodes of the listing, in order; instances are deleted in the zone of their node; every drain ends as it has to under the given timeout |
| Killer.ExpiredNamesDistinct | pkg/killer/node.go:36-54 | the selection lists no node twice when the listing does not |
| Killer.KillerService.FindExpiredTimeNodes | pkg/killer/node.go:25-57 | the listed nodes whose annotation is a date not after now, in order |
| Killer.ExpiredNodesMember | pkg/killer/node.go:36-54 | a node is selected exactly when it is listed and its annotation is a date not after now |
| Killer.SelectedFromExpiryOn | pkg/killer/node.go:36-54 | a node with a printed expiry is selected by every pass that lists it from that instant on, and by none before |
| Killer.ExpiredNodesKeepOrder | pkg/killer/node.go:36-54 | the selection keeps the order of the listing and takes no position twice |
| Killer.KillerService.EvacuatePodsFromNode | pkg/killer/node.go:154-191 | success means drained, failure means the evacuation is over; a drain, if made, is one under the given timeout and decides the result; nothing but this node is touched |
| Killer.KillerService.StartNodeDrain | pkg/killer/node.go:93-111 | the pods to delete are removed one by one in order, up to the first failure |
| Killer.KillerService.WaitForDrainToFinish | pkg/killer/node.go:72-89 | ends at the first poll whose listing fails or leaves nothing to delete or after which the test fires, and succeeds exactly when that listing leaves nothing to delete |
| DrainClock.InTime | pkg/killer/node.go:72-89 | a drain does not poll beyond the first reading at which the test fires, and on a steady clock not more often than the timeout has milliseconds if polls take one |
| DrainClock.DrainFailsIff | pkg/killer/node.go:69-89 | on a steady clock a drain fails exactly when its last listing failed, or left pods to delete and the timeout had passed |
| DrainClock.TickingFinite | pkg/killer/node.go:72-89 | on a steady clock on which each poll takes a millisecond every drain ends |
| DrainClock.SafeGapIff | pkg/killer/node.go:84-87 | the test gives up at the first reading after the timeout, on every clock whose polls take at most g, if and only if g is at most 2^32 ms minus the timeout |
| DrainClock.GapTooLong | pkg/killer/node.go:84-87 | for every timeout a clock with one poll a millisecond longer than that, on which the timeout is overlooked |
| Killer.KillerService.TimedOut | pkg/killer/node.go:84-87 | on a steady clock the 32-bit test gives up exactly when the timeout has passed |
| DrainClock.SteadyFires | pkg/killer/node.go:84-87 | on a steady clock the first reading at which the 32-bit test fires is the first at which the timeout has passed |
| DrainClock.SteadyBounded | pkg/killer/node.go:84-87 | on a steady clock the test fires at a reading at which the timeout has passed or before |
| DrainClock.DeadlineOverlooked | pkg/killer/node.go:84-87 | a passed deadline is overlooked exactly when the elapsed time has wrapped to below it |
| DrainClock.DeadlineOverlookedExample | pkg/killer/node.go:69-71 | a clock on which a poll after 2^32 ms does not end a drain of 300000 ms |
| DrainClock.DeadlineSeen | pkg/killer/node.go:84-87 | with gaps of at most 2^32 ms minus the timeout truncation changes no decision |
| Killer.ZoneOfProviderID | pkg/killer/node.go:115-119 | the zone taken from a provider ID is its zone |
| Protocol.InvStep | pkg/killer/node.go:61-67 | every step of every thread and of the cluster keeps the invariant: a snapshot with the current version equals the stored object |
| Protocol.AgentStable | pkg/killer/node.go:154-169 | what a thread knows survives every step of everybody else |
| ProtocolTheorems.ExpiryWrittenOnce | pkg/spotter/spotter.go:70-96 | under every interleaving the annotation of a node is successfully written at most once |
| ProtocolTheorems.AnnotationAndCordonStay | pkg/killer/node.go:61-67 | an annotation is never lost or changed and a cordon never undone while the node exists |
| ProtocolTheorems.NoLostUpdate | pkg/shifter/shifter.go:152-167 | a granted write changes only the annotation or only the cordon bit of the object as stored at that moment |
| ProtocolTheorems.DeletedNodeIsDrained | pkg/killer/killer.go:74-87 | when a deletion is asked for, the node is cordoned and holds no pod that a drain has to delete, unless it is gone; a granted deletion takes this node only |
| ProtocolTheorems.KilledNodeHadExpired | pkg/killer/node.go:34-54 | a node the killer deletes or asks to delete has an expiry that a spotter of this or an earlier server process chose between its creation and 24 h later, inside a window of its configuration, and not after the clock of the pass |
| ProtocolTheorems.AnnotationMeaning | pkg/spotter/expiry.go:89-140 | an annotation in the cluster reads back as an instant chosen under one of the configurations, to less than a minute |
| ProtocolExample.DeletionExample | pkg/killer/killer.go:64-93 | a run in which a node is annotated, selected, drained and deleted by the killer |
| ProtocolTheorems.ThreadsFollowTheCode | pkg/killer/node.go:121-191 | in every run the calls of a killer thread form a log that the automaton of the killer's code accepts, those of the others one that its variant without instances accepts, and lead to the stage the thread is at |
| ProtocolTheorems.ThreadDrainedFully | pkg/shifter/shifter.go:238-255 | any thread that deletes a node, the shifter at each of its deletions included, has cordoned it, removed exactly the pods to delete and then only polled |
| ProtocolTheorems.ThreadDeletesInstance | pkg/killer/node.go:121-143 | in every run only killer threads delete instances, right after their own granted deletion of the node |
| ProtocolTheorems.OverdueNodeIsSelected | pkg/killer/node.go:36-54 | a pass at or after creation + 24 h selects every annotated node it lists |
| ProtocolTheorems.SelectedIffExpired | pkg/killer/node.go:36-54 | a pass selects an annotated node it lists exactly when the instant chosen for it is not after the clock |
| ProtocolTheorems.PassReadsAll | pkg/killer/killer.go:74-87 | under every interleaving a killer pass that finishes has read exactly the nodes it selected, in order |

## Left out

- Client wrappers (pkg/gcloud, pkg/k8s): they appear only as calls that may fail.
- Notifier, logger, configuration, counters, HTTP handling and the informer's retry loop: they do not change the modelled state; a preemption is a thread that evacuates a node.
- The polling loops of the services and their sleeps: any number of passes at any time is allowed in the concurrent model.
- The shifter's start loop (pkg/shifter/shifter.go:52-78): it only truncates the time to a minute and applies the window check.
- Calendar fields of the date text: a text is local seconds and zone minutes.
- Parsing of window strings, missing autoscaling or configuration of a pool, zero zones, short provider IDs: the code panics there; windows are given as times of day.
- How likely a choice is: only which choices are possible.
- Saturation of time differences beyond 292 years.
- Shifter.Cloud.EvacuatePodsFromNode: is one call that succeeds or fails, because the shifter reaches the killer through an interface; its steps are modelled in Evacuation, Killer and Protocol.
- ShiftCapacity.CapacityConserved: does not cover other actors that remove nodes during the run, such as the autoscaler or the killer; ShiftShared.SharedCapacityConserved does, but nobody else may add nodes or resize.
- Killer.KillerService.Kill: assumes that each drain it may make ends at some poll, because otherwise its loop does not end.
- Killer.KillerService.WaitForDrainToFinish: does not bound the time of a single listing.
- Protocol.KillList: takes the listing and the clock in one step, where the code reads the clock just after the listing.

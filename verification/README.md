# Verified models of the Calico/VPP agent's control plane

The agent keeps records in memory that must agree with VPP across every sequence
of events, while any call to VPP may fail. This project models the components
where that is hardest and proves what they keep. Every VPP call is a method that
may fail; a failed call changes nothing. A constant of the environment
(`reliable`, `undoes`, `listing`, `diskReliable`) says that calls do not fail, and
appears in exactly the statements that need it; all other statements hold under
any failures.

| files | component |
|---|---|
| Srv6Types, Picking, CandidateSelection, CandidateCache, Srv6Vpp, PolicyEvents, Srv6Effects, Srv6Provider, Srv6Runs, ZeroBsid, BsidHandle | the SRv6 candidate-path engine: caching, selecting, installing and withdrawing BGP SR Policy candidates |
| DsrBsid, DsrWeights, DsrServices, DsrTracking, CountingCompare, ProviderDsr | steering of DSR services to remote backends |
| CniDsr | delivery of DSR services to local pods |
| IfBinding, LifecycleState, LifecycleReliable, Lifecycle, LifecycleRuns | the pod interface lifecycle service and the IF-4 binding table |
| Rollback | the cleanup stack of a pod creation |
| IpSet, FelixState, FelixMirror, FelixServer | IP sets and the two-phase synchronisation with Felix |
| Environment | whether a call succeeds, and which free id is used |

`dafny verify dfyconfig.toml` checks all of it.

## Main results

- Failover (`Srv6Provider.Provider.DelSRPolicy`): a withdraw moves every steering
  entry of the withdrawn BSID, in its own table, to the best valid survivor,
  installed first, or drops it, and leaves no entry without a policy; for which
  entries, exactly, is `Srv6Effects.FailoverSettlesIff`.
- Advertising (`Srv6Provider.Provider.AddPolicy`, `AddPrefix`): what is installed,
  and exactly when every steering entry has its policy afterwards.
- Runs (`Srv6Runs.Run`): every step does to VPP what its operation is for; under any
  failures and any other writer of VPP, replaying the published events gives the
  provider's record, in order, and each drop route is filed under the endpoint whose
  withdraw engaged it, which still has a candidate if no call failed.
- Cache (`Srv6Runs.CacheHoldsLastWord`, `StepKeepsBindings`): over runs of the
  provider the slices refine a finite map from keys to the last advertisement, a
  candidate without a BSID carries the one bound to its <endpoint, color>, and that
  binding lasts exactly until the last candidate of the color goes.
- Selection (`CandidateSelection.SelectIsBestOf`, `OrderIndependentIffUniqueBest`,
  `ColorSelectionIgnoresArrivalOrder`): which candidate is selected and what of it is
  installed, stated on the fields of the candidates and the routes of their segments.
- DSR steering (`ProviderDsr.Reconciler.ReconcileServices`) and delivery
  (`CniDsr.Server.Reconcile`, `CniDsr.Run`): no forgotten cleanup under any
  failure, from any state the desired one when nothing fails, VIP by VIP, or the
  exact reason why not, and an idle second reconcile. What VPP holds at the end is
  `DsrTracking.EndsTracked`, segment list by segment list
  `DsrServices.SettledIsDelivered`.
- Binding table (`LifecycleRuns.Run`): a partial bijection onto live handles in
  every run, with restarts from any older state file. If VPP does not fail, or does
  not restart, or every file was in order, an identity is bound only to an interface
  created for it, and a stored tuple is in the table or names a dead handle if and
  only if its handle was neither issued again for another pod nor left unbound.
  `Lifecycle.Server.Create` is a publication barrier, idempotent, leaves bound every
  pod that has none of its addresses and an index of its own, and leaves nothing
  behind when it fails; `Lifecycle.Server.Rescan` conserves ownership from any file.
- Rollback (`Rollback.CreatePod`): a pod is up with exactly the routes, tables and
  checks it needs, in the tables they belong to, or VPP is as it was.
- Felix (`FelixServer.Server.Connection`, `Connections`): two-phase synchronisation
  equals folding the messages one by one, succeeds exactly on admissible sequences,
  and VPP then holds exactly the values that the folded objects denote, whatever
  became of the connections before. The rules of a policy in each network are exactly
  those its last update means (`FelixState.LastUpdateStands`).

## Where the code does not do what one would expect

Each is kept as the code has it, shown by a concrete case or an exact condition.

- A candidate that BGP advertises without a BSID arrives with the zero address, which
  counts as a BSID: no dynamic one is ever bound to it, contrary to the comment at
  calico-vpp-agent/routing/bgp_watcher.go:361-363, it hides valid candidates it is
  preferred to, and an orphan whose best candidate it is ends neither steered nor
  dropped: `ZeroBsid.BgpCandidatesAreNeverBound`, `ZeroBsidHidesValidCandidate`,
  `ZeroTargetIsStranded`; conditions: `Srv6Effects.FailoverSettlesIff`,
  `ZeroBsid.NonzeroAdvertisementsSettle`.
- Withdrawing a candidate that has no BSID compacts the array but keeps the old
  length: `CandidateCache.WithdrawIsFilterIff`, `BsidlessWithdrawDuplicates`.
- Selecting by terminal behavior across colors depends on arrival order when ranks
  tie: `CandidateSelection.BehaviorSelectionDependsOnArrival`.
- The node address can stay steered into a BSID that has no policy, after an
  advertisement and after a learned prefix: `Srv6Effects.AdvertisementDanglesIff`,
  `NodeSteeringDanglesIff`, `ZeroBsid.NodeSteeringCanDangle`.
- A derived DSR BSID can leave the policy pool unless the pool length is a whole
  number of bytes and at most 120: `DsrBsid.InPoolIffByteAligned`.
- A DSR service is forgotten only if VPP still had both of its parts, whoever lost
  them: `ProviderDsr.Reconciler.RemoveService`. The code loses one itself when the
  new steering cannot be added after the old one was deleted
  (calico-vpp-agent/connectivity/srv6_dsr.go:149-154); if the backends then go back
  the VIP is skipped as installed and stays unsteered:
  `DsrServices.SkippedThoughUnsteered`. A BSID whose policy was lost can be handed
  out again: `DsrServices.LostBsidIsHandedOut`.
- A pod known to a VIP under a stale and a backing address loses the binding in the
  first pass and gets it back in the second: `CniDsr.ExactIffNoStaleAddress`,
  `StaleAddressUnbinds`, `SecondPassIsExact`. The comment of `updateDeliveryRoute`
  describes a delete before the add; the code replaces in one step, and the model
  follows the code.
- A restart of VPP starts its incarnations over, so a stored tuple can name a handle
  that is live and bound to another pod: `LifecycleRuns.SwappedSlots`. Withdrawing
  it removes nothing, because the identity is compared too.
- Revoking first clears the published tuple, so a pod without VRFs never has its
  interface destroyed: `Lifecycle.Server.DelOrphaned`. With VRFs present the stored
  index is deleted whoever has it now:
  `LifecycleState.TeardownDestroysOtherLifetimeIff`,
  `LifecycleRuns.DeleteDestroysAnother`.
- A listing that fails during a rescan can leave a kept pod unbound with the service
  ready: `LifecycleRuns.FailedListingUnbinds`; only if a dropped pod had stored the
  same index: `Lifecycle.Server.Rescan`.
- `DeletePodInterface` answers success when the state file could not be written, and
  then the disk keeps the deleted pod: `Lifecycle.Server.Delete`. If interface and
  VRFs could not be removed either, a restart from that file can keep the pod with
  its handle live and unbound: `LifecycleRuns.OlderFileLeavesUnbound`. If VPP had
  restarted in between, it can bind a pod to the interface of another:
  `LifecycleRuns.OlderFileMisbinds`, exactly if the stored handle was issued again
  for the other: `LifecycleState.ReplayLinksIff`.
- The comment at calico-vpp-agent/proto/podinterface/podinterface.proto:66 admits
  spaces in an identity; the code rejects them, and the model follows the code.
- Rolling back deletes a main-table route that the attempt overwrote:
  `Rollback.RolledBack`, `OverwrittenRouteIsLost`.
- Two names for one address in an IP set: `IpSet.ValuesRemoveIff`, `ReplacedIff`,
  `DroppingAnAliasLosesTheMember`, `FelixMirror.AliasDeltaIsUnfaithful`.
- A Felix connection lost while syncing leaves its pending state to the next one:
  `FelixState.LeftoversMatter`, `LeftoverIsConfigured`. Removing an endpoint that was
  only left over takes more with it: `FelixState.UnannouncedRemovalReachesFurther`;
  what it takes for the two starts to agree all the same is
  `FelixState.LeftoversMatterAnyway`.

## What is assumed of the environment

- VPP issues incarnations from one counter that a restart of VPP resets; the plugin
  binds only live handles.
- An attachment identity names one pod, so `Lifecycle.Server.Create` takes a request
  only with the namespace and interface its identity stands for. The caller forms it
  as container id and interface name
  (calico-vpp-agent/proto/podinterface/podinterface.proto:59-61), the service checks
  the name (calico-vpp-agent/cni/lifecycle_service.go:233-240), and a container id is
  given to one sandbox, which has one network namespace, and is not given out again.
- VPP accepts a steering entry whose BSID has no policy. The results about steering
  that dangles rest on it, and its only support here is the comment at
  calico-vpp-agent/connectivity/srv6.go:234-235, which calls such an entry a
  blackhole; VPP itself is not part of this model. VPP has no policy under the zero
  BSID, since vpplink adds none; effects on VPP are stated on that footing.
- A listing by VPP is complete when it succeeds; a delete may report that the object
  is already gone only if it is.
- A pod is added with addresses that no other live pod has, or is known already
  (`CniDsr.Addable`); a pod that goes away takes its namespace and its reverse-path
  table along, and one whose VRFs were lost gets an empty table.
- Textual IPv6 addresses contain no dash. Node prefixes may overlap: the backends are
  then placed in one of the possible ways.

## Model

| member | source | states |
|---|---|---|
| CandidateSelection.PreferredIsStrictOrder | calico-vpp-agent/connectivity/srv6.go:1114-1130 | the coded tie-break is irreflexive, transitive and total on candidates that differ in rank |
| CandidateSelection.OutranksIff | calico-vpp-agent/connectivity/srv6.go:1114-1130 | one candidate is not beaten by another if and only if it has the higher preference, or at equal preference the lower ASN, or these equal the smaller originator, or all equal a discriminator at least as high |
| CandidateSelection.StringLessIff | calico-vpp-agent/connectivity/srv6.go:1125-1127 | originators are compared as strings: smaller at the first difference, or a proper prefix |
| CandidateSelection.SelectIsBest | calico-vpp-agent/connectivity/srv6.go:1039-1112 | the scan over the slice returns an eligible candidate that no eligible one beats, and returns none exactly when none is eligible |
| CandidateSelection.SelectIsBestOf | calico-vpp-agent/connectivity/srv6.go:1039-1112 | in fields only: the selected candidate is of the color or behavior, has a BSID and a segment list that resolves, and outranks every other such candidate; none is selected exactly if there is none |
| CandidateSelection.UsableIsPicked | calico-vpp-agent/connectivity/srv6.go:1174-1197 | what is installed of a candidate is its policy with exactly the segment lists that resolve, in their order; nothing exactly if none does |
| CandidateSelection.UnresolvedIff | calico-vpp-agent/connectivity/srv6.go:1199-1237 | a list does not resolve if and only if its first segment, or one of the first 32 whose V-Flag is set, is looked up without a route or with one that only drops; a failed lookup counts as reachable |
| CandidateSelection.VFlagIff | calico-vpp-agent/connectivity/srv6.go:1199-1205 | the V-Flag of a segment is its binary digit in the mask |
| CandidateSelection.BestIsUniquePerColor | calico-vpp-agent/connectivity/srv6.go:1079-1112 | within one color of a slice without duplicate keys there is at most one best candidate |
| CandidateSelection.ColorSelectionIgnoresArrivalOrder | calico-vpp-agent/connectivity/srv6.go:1079-1112 | two slices with the same candidates in different order select the same one for a color |
| CandidateSelection.OrderIndependentIffUniqueBest | calico-vpp-agent/connectivity/srv6.go:1039-1073 | selection is independent of arrival order if and only if the best candidate is unique |
| CandidateSelection.BehaviorSelectionDependsOnArrival | calico-vpp-agent/connectivity/srv6.go:1039-1073 | two candidates of different colors and equal rank: selecting by behavior returns whichever arrived first |
| CandidateSelection.SidReachable | calico-vpp-agent/connectivity/srv6.go:1211-1237 | the cached answer is the direct lookup answer and the cache stays sound |
| CandidateSelection.SidListResolvable | calico-vpp-agent/connectivity/srv6.go:1199-1209 | a segment list is resolvable through the shared cache exactly when it is by direct lookup |
| CandidateSelection.ComputeUsablePolicy | calico-vpp-agent/connectivity/srv6.go:1174-1197 | validity and the usable segment lists computed through the shared cache are those of direct lookup |
| CandidateCache.Upsert | calico-vpp-agent/connectivity/srv6.go:591-613 | the in-place update replaces the candidate of the same key or appends, and reports a superseded BSID |
| Srv6Types.TunnelBsidIff | calico-vpp-agent/connectivity/srv6.go:1015-1023 | a candidate goes by the BSID of its policy, unless that is zero or there is no policy, and then by the advertised one |
| CandidateCache.UpsertRefinesMapUpdate | calico-vpp-agent/connectivity/srv6.go:591-613 | on a slice without duplicates an advertisement is a map update at its <endpoint, color, distinguisher> |
| CandidateCache.CompactInPlace | calico-vpp-agent/connectivity/srv6.go:789-799 | compacting over the array being read leaves the pure filter in front, the old tail behind, and collects exactly the matched BSIDs |
| CandidateCache.WithdrawIsFilterIff | calico-vpp-agent/connectivity/srv6.go:789-804 | a withdraw is the pure filter if and only if a withdrawn candidate had a BSID or none matched |
| CandidateCache.BsidlessWithdrawDuplicates | calico-vpp-agent/connectivity/srv6.go:789-804 | a concrete withdraw of a BSID-less candidate that duplicates another entry |
| CandidateCache.WithdrawRefinesMapRemoval | calico-vpp-agent/connectivity/srv6.go:789-855 | when cached candidates have BSIDs a withdraw is a map removal and keeps keys unique |
| CandidateCache.LookupBinds | calico-vpp-agent/connectivity/srv6.go:1136-1162 | selections move no key of a slice; what a key finds afterwards is what it found before, or that candidate with the BSID bound to its SR Policy |
| CandidateCache.BindingKeepsFaith | calico-vpp-agent/connectivity/srv6.go:1136-1162 | selections keep every key at its last word and bind a BSID only where a candidate waits for one |
| CandidateCache.AdvertisementIsHeard | calico-vpp-agent/connectivity/srv6.go:591-613 | an advertisement makes its candidate the last word on its key and keeps all others |
| CandidateCache.WithdrawIsHeard | calico-vpp-agent/connectivity/srv6.go:789-903 | a clean withdraw removes the last word on its key and keeps all others; the BSID of an SR Policy is released exactly with its last candidate |
| Srv6Vpp.Vpp.AddSRv6Policy | vpplink/srv6.go:76-128 | success installs exactly the policy; failure leaves under its BSID nothing, what was there or a leading part of the new lists, and every other BSID alone; without failures it succeeds exactly for a nonzero BSID with lists |
| Srv6Vpp.Vpp.AddModSRv6Policy | vpplink/srv6.go:52-74 | replacing a policy ends with exactly the new one, or fails leaving nothing, the old one or a prefix of the new lists under that BSID and nothing else changed |
| Srv6Vpp.Vpp.DelSRv6Policy | vpplink/srv6.go:130-141 | a delete removes that BSID only, fails or reports it already gone |
| Srv6Vpp.Vpp.AddSRv6Steering | vpplink/srv6.go:240-255 | one entry per table and prefix; a failed call changes nothing |
| Srv6Vpp.Vpp.DelSRv6Steering | vpplink/srv6.go:223-238 | removes that entry only, fails or reports it already gone |
| Srv6Vpp.Vpp.ListSRv6Policies | vpplink/srv6.go:29-50 | a listing names exactly the installed BSIDs |
| Srv6Vpp.Vpp.ListSRv6Steering | vpplink/srv6.go:257-281 | a listing is exactly the steering table |
| PolicyEvents.UninstallMatches | calico-vpp-agent/connectivity/srv6.go:395-411 | publishing Uninstalled and forgetting keeps record and replay equal and the log in order |
| PolicyEvents.InstallMatches | calico-vpp-agent/connectivity/srv6.go:395-411 | publishing Installed of a live BSID and recording it keeps record and replay equal and the log in order |
| PolicyEvents.StaysInstalled | calico-vpp-agent/connectivity/srv6.go:395-503 | between an Installed event and the next Uninstalled one a subscriber sees the same policy |
| PolicyEvents.BsidChangeIsAnnounced | calico-vpp-agent/connectivity/srv6.go:413-503 | in an orderly log a change of BSID has Uninstalled of the old one in between |
| Srv6Provider.Provider.EnsureBsid | calico-vpp-agent/connectivity/srv6.go:1136-1162 | all BSID-less candidates of an <endpoint, color> get the same bound address, an existing binding is kept, a new one is made only for the color asked about and never to the zero address, and a candidate that insists on its own BSID is never bound |
| Srv6Provider.Provider.SelectCandidate | calico-vpp-agent/connectivity/srv6.go:1039-1112 | what is returned is the best candidate of the slice as it then is, field by field, with its usable policy; the slice only gains bound BSIDs; when no call fails no wanted candidate is left waiting for one |
| Srv6Provider.Provider.ClearDropRoute | calico-vpp-agent/connectivity/srv6.go:265-282 | the tracked drop prefixes stay equal to the drop routes in VPP whatever fails |
| Srv6Provider.Provider.EngageDropRoute | calico-vpp-agent/connectivity/srv6.go:284-303 | a drop route is added and filed under the endpoint, or nothing changes; the tracked drop prefixes stay equal to the drop routes in VPP whatever fails |
| Srv6Provider.Provider.ReleaseDropsForNode | calico-vpp-agent/connectivity/srv6.go:305-317 | removes the drop routes of one endpoint only, still tracking those whose removal failed; with no failure VPP loses exactly those of the endpoint |
| Srv6Provider.Provider.DrainPendingBsidCleanup | calico-vpp-agent/connectivity/srv6.go:718-752 | every queued BSID is gone from VPP or still queued, no other is queued or deleted, and nothing a steering entry uses is deleted |
| Srv6Provider.Provider.UninstallColor | calico-vpp-agent/connectivity/srv6.go:436-464 | steering goes before the policy; success means both are gone and exactly one Uninstalled event; a failure leaves record and log alone |
| Srv6Provider.Provider.InstallColor | calico-vpp-agent/connectivity/srv6.go:466-503 | the BSID is in VPP when Installed is published, with exactly the selected policy unless the listing or the record already showed it; the published tunnel is the selected candidate with that policy; Uninstalled comes before it exactly if there was a record and the transition is forced, the policy another one or not in VPP; a failure leaves record and log alone |
| Srv6Provider.Provider.ReconcilePolicyColor | calico-vpp-agent/connectivity/srv6.go:421-503 | on success the record follows the selection, tunnel included, and the events are exactly those of the change; with no failure VPP gets the selected policy or loses the policy and steering of an invalid color, and it fails exactly if the best candidate has the zero BSID |
| Srv6Provider.Provider.DeleteMatched | calico-vpp-agent/connectivity/srv6.go:806-842 | exactly the entries of the withdrawn BSIDs are orphaned and their policies deleted |
| Srv6Provider.Provider.ResteerOrphan | calico-vpp-agent/connectivity/srv6.go:915-956 | an orphan is re-steered in its own table to the best valid survivor of its behavior, policy first, or dropped when asked; where that survivor has the zero BSID nothing happens at all |
| Srv6Provider.Provider.ResteerAll | calico-vpp-agent/connectivity/srv6.go:856-870 | every orphan is handled so whatever their order, with respect to the candidates as they are at the end, and no other entry moves; drop routes that are added are filed under the endpoint |
| Srv6Provider.Provider.ReleaseUnusedDynBsids | calico-vpp-agent/connectivity/srv6.go:888-903 | the dynamic binding goes exactly with the last candidate of its color |
| Srv6Effects.StableSelect | calico-vpp-agent/connectivity/srv6.go:1039-1162 | once a selection has bound what it wants, what later selections bind does not change what it selects |
| Srv6Effects.PointingResteers | calico-vpp-agent/connectivity/srv6.go:915-956 | installing a policy once per failover and pointing orphans at it leaves under every target the usable policy of a best candidate |
| Srv6Effects.ServedStable | calico-vpp-agent/connectivity/srv6.go:1039-1162 | what later selections bind leaves the policies in VPP those of best candidates |
| Srv6Effects.TargetSurvivesReconcile | calico-vpp-agent/connectivity/srv6.go:768-956 | with distinct BSIDs per color no failover target is the BSID that reconciling an invalid color removes |
| Srv6Effects.TargetIs | calico-vpp-agent/connectivity/srv6.go:915-935 | the target of an entry is the best candidate, field by field, that decapsulates its address family: End.DT6 for IPv6, End.DT4 for IPv4 |
| Srv6Effects.OrphanStaysHandled | calico-vpp-agent/connectivity/srv6.go:843-883 | a handled orphan stays handled through the reconcile, unless that removes its BSID, and through the deferred cleanup |
| Srv6Effects.FailoverLeavesNothingDangling | calico-vpp-agent/connectivity/srv6.go:768-956 | re-steering, reconciling and cleanup together leave no entry without its policy |
| Srv6Effects.FailoverComposes | calico-vpp-agent/connectivity/srv6.go:768-956 | tear-down, re-steering, reconcile and cleanup together are the failover guarantee |
| Srv6Effects.OtherStays | calico-vpp-agent/connectivity/srv6.go:768-956 | through tear-down, re-steering and reconcile an entry of another BSID keeps its BSID, or goes exactly if reconciling the withdrawn color removes that BSID |
| Srv6Effects.FailoverSettlesIff | calico-vpp-agent/connectivity/srv6.go:768-956 | an entry of a withdrawn BSID is settled if and only if the best remaining candidate of its behavior has a nonzero policy BSID that reconciling the withdrawn color leaves in place |
| Srv6Provider.Provider.DelSRPolicy | calico-vpp-agent/connectivity/srv6.go:768-883 | with no failure every entry steered through the withdrawn BSID goes, in its table, to the best valid survivor of the remaining candidates with the BSIDs they have by then, under which VPP has exactly the usable policy of a best candidate, or else is dropped if asked and some candidate remains, or left unsteered, or, where the survivor has the zero BSID, left neither steered nor dropped; an entry of another BSID stays exactly if reconciling the color does not remove that BSID; drop routes of the other entries stay, but with the last candidate those of the endpoint are released; nothing dangles; any other policy stays, unless it was queued for cleanup or goes with its color; Uninstalled is published exactly if the recorded BSID was withdrawn, or the SR Policy changed or was not in VPP; new drop routes are filed under the endpoint, and none of its own is left with its last candidate; it fails exactly if the best candidate of the color has the zero BSID. Record, log and drop routes agree, and the cache is the compacted slice with BSIDs bound, under any failures |
| Srv6Provider.Provider.CreateSRv6Tunnel | calico-vpp-agent/connectivity/srv6.go:231-256 | steering changes only after the policy is in VPP, in the main table and for that prefix |
| Srv6Provider.Provider.InstallPrefixes | calico-vpp-agent/connectivity/srv6.go:648-671 | each prefix is steered to the best valid candidate of its behavior, whose usable policy VPP then has, unless that has the zero BSID |
| Srv6Provider.Provider.SteerNodeIPViaSID | calico-vpp-agent/connectivity/srv6.go:321-347 | the node address, as a host prefix in the pod table, is steered to the best End.DT6 candidate, without installing it |
| Srv6Effects.NodeSteeringDanglesIff | calico-vpp-agent/connectivity/srv6.go:321-347 | after a prefix is learned an entry is without a policy if and only if the BSID of the node address was not there before and is no target of the node's prefixes |
| Srv6Effects.AdvertisementDanglesIff | calico-vpp-agent/connectivity/srv6.go:321-643 | after an advertisement an entry is without a policy if and only if, besides, that BSID is not the one of the color's best candidate and not one that the reconcile removes with its steering |
| Srv6Effects.IPv6PrefixBacksNode | calico-vpp-agent/connectivity/srv6.go:321-671 | with an IPv6 prefix whose target can be installed nothing dangles |
| ZeroBsid.NodeSteeringCanDangle | calico-vpp-agent/connectivity/srv6.go:321-643 | an End.DT4 candidate preferred to an End.DT6 one of the same color, on a node with an IPv4 prefix only: the node address stays steered into a BSID with no policy, after the advertisement and after the prefix |
| ZeroBsid.MixedExample | calico-vpp-agent/connectivity/srv6.go:321-643 | such a color exists |
| ZeroBsid.BgpCandidatesAreNeverBound | calico-vpp-agent/routing/bgp_watcher.go:361-379 | a candidate from BGP counts as having a BSID, the zero one if it came without, and no dynamic BSID is ever bound to it |
| ZeroBsid.ZeroBsidHidesValidCandidate | calico-vpp-agent/connectivity/srv6.go:1015-1073 | a preferred candidate from BGP without a BSID is selected before a valid one |
| ZeroBsid.ZeroTargetIsStranded | calico-vpp-agent/connectivity/srv6.go:915-956 | an orphan whose best candidate has the zero BSID ends neither steered nor dropped, also when dropping was asked for |
| ZeroBsid.NonzeroAdvertisementsSettle | calico-vpp-agent/connectivity/srv6.go:1039-1162 | if no advertisement of an endpoint had a zero policy BSID of its own, no selection finds one |
| Srv6Provider.Provider.AddPolicy | calico-vpp-agent/connectivity/srv6.go:591-643 | an advertisement replaces or appends its candidate and then only binds BSIDs; it lifts no drop route but of its prefixes and its address; on success the record follows the selection; a policy that is unchanged and in VPP is announced again without being withdrawn; with no failure the node is installed as InstallNode says, then the color is reconciled, then unused BSIDs are freed, only queued or superseded ones, every policy is the one that was there or the usable policy of a best candidate, and every steering entry has its policy if and only if the condition on the node address holds |
| Srv6Provider.Provider.InstallNode | calico-vpp-agent/connectivity/srv6.go:648-671 | prefixes first, then the node address, each to the best valid candidate of its behavior as the candidates are at the end; an endpoint without prefixes is left alone |
| Srv6Provider.Provider.AddPrefix | calico-vpp-agent/connectivity/srv6.go:512-643 | a learned prefix joins the node's list once; no other drop route is lifted; with no failure the node is installed with it, and every steering entry has its policy if and only if the condition on the node address holds |
| Srv6Provider.Provider.DelPrefixSteering | calico-vpp-agent/connectivity/srv6.go:958-1010 | the prefix loses its steering in every table and its place in the node's list; no other prefix does, and nothing is steered anew |
| Srv6Runs.Execute | calico-vpp-agent/connectivity/srv6.go:205-956 | every operation does to VPP what it is for, if no call fails: a withdraw fails over, an advertisement is taken up, a color is reconciled; it publishes exactly the change of the record; it keeps record, published events and drop routes in agreement under any failures and other writers, and changes cached candidates, bindings and drop routes only as the operation says; if no call fails every drop route stays filed under an endpoint that has a candidate |
| Srv6Runs.Run | calico-vpp-agent/connectivity/srv6.go:395-956 | every step of every run does what its operation is for, whatever other writers did before; after every run the record of each <endpoint, color> is what replaying its events gives, each Installed event found its BSID in VPP, tracked drops are the drop routes, each filed under the endpoint whose withdraw engaged it, which still has a candidate if no call failed, and a clean run leaves every cached candidate equal to its last advertisement, or that one with the BSID bound to its SR Policy |
| Srv6Runs.FiledAsEngaged | calico-vpp-agent/connectivity/srv6.go:284-317 | in every run a drop route is filed under the endpoint of the withdraw that engaged it and that it outlasted |
| Srv6Runs.StepKeepsHeld | calico-vpp-agent/connectivity/srv6.go:284-317 | with the last candidate of an endpoint its drop routes go, so every drop route is filed under an endpoint that has a candidate |
| Srv6Runs.CacheHoldsLastWord | calico-vpp-agent/connectivity/srv6.go:591-903 | after every clean run each key holds exactly the last unwithdrawn advertisement, once, with the BSID bound to its <endpoint, color> where it came without, and a BSID is bound only while the color has a candidate |
| Srv6Runs.StepKeepsBindings | calico-vpp-agent/connectivity/srv6.go:888-903 | no operation changes a binding; it goes only with the last candidate of its color |
| Srv6Runs.BgpRunsAreClean | calico-vpp-agent/routing/bgp_watcher.go:361-379 | where every advertised candidate counts as having a BSID, as those from BGP do, every run is clean and no BSID is ever bound |
| BsidHandle.HandleInjective | calico-vpp-agent/connectivity/srv6.go:1164-1168 | distinct <endpoint, color> pairs have distinct IPAM handles, for endpoints without a dash |
| BsidHandle.GroupKeyInjective | calico-vpp-agent/connectivity/srv6.go:359-361 | the map key determines endpoint and color |
| BsidHandle.DecimalReads | calico-vpp-agent/connectivity/srv6.go:1164-1168 | the digits written for a color are its own, without leading zeros |
| BsidHandle.HandleExample | calico-vpp-agent/connectivity/srv6.go:1164-1168 | what a handle and a key look like |
| DsrBsid.DsrBsidForVip | calico-vpp-agent/connectivity/srv6_dsr.go:258-274 | the byte loop computes the first free address among those with the pool's whole bytes, then the VIP's, and the low byte counted up and wrapping; none exactly if all of them are taken |
| DsrBsid.NthIsFirstFree | calico-vpp-agent/connectivity/srv6_dsr.go:258-274 | which that is, byte by byte |
| DsrBsid.ProbeOutcome | calico-vpp-agent/connectivity/srv6_dsr.go:267-273 | a result is free and differs in the low byte only; a failure has seen the next n values with wrap-around |
| DsrBsid.DerivationFailsIffAllTaken | calico-vpp-agent/connectivity/srv6_dsr.go:258-274 | derivation keeps the first 15 bytes and fails if and only if all 256 addresses that share them are taken |
| DsrBsid.InPoolIffByteAligned | calico-vpp-agent/connectivity/srv6_dsr.go:258-274 | derived addresses never leave the pool if and only if its length is a whole number of bytes and at most 120 |
| DsrBsid.LeavesPoolByVip | calico-vpp-agent/connectivity/srv6_dsr.go:262-265 | for every pool length that is not a whole number of bytes some VIP leads outside |
| DsrBsid.LeavesPoolByCollision | calico-vpp-agent/connectivity/srv6_dsr.go:267-273 | in a /128 pool a collision leads outside |
| DsrBsid.RoomForOneMore | calico-vpp-agent/connectivity/srv6_dsr.go:258-274 | with fewer than 256 addresses in use a free one is found |
| DsrBsid.DerivedIsNonzero | calico-vpp-agent/connectivity/srv6_dsr.go:258-274 | a pool with a nonzero byte that is taken over gives no zero address |
| DsrBsid.NeverZeroIff | calico-vpp-agent/connectivity/srv6_dsr.go:258-274 | no VIP and no collision lead to the zero address if and only if a byte taken over from the pool, and not counted up, is nonzero |
| CountingCompare.SameElements | calico-vpp-agent/connectivity/srv6_dsr.go:194-215 | counting up for one list and down for the other decides multiset equality |
| DsrWeights.FindNodeForPrefix | calico-vpp-agent/connectivity/srv6_dsr.go:218-228 | finds a node that owns the address, or none exactly when there is none |
| DsrWeights.ContainsIff | calico-vpp-agent/connectivity/srv6_dsr.go:218-228 | an IPv6 prefix contains exactly the addresses from its base up to its size |
| DsrWeights.PlacementIsUnique | calico-vpp-agent/connectivity/srv6_dsr.go:218-228 | where node prefixes do not overlap there is one way to place the backends |
| DsrWeights.ComputeWeights | calico-vpp-agent/connectivity/srv6_dsr.go:65-79 | the weight of each remote node is the number of backends placed on it |
| DsrWeights.BuildLists | calico-vpp-agent/connectivity/srv6_dsr.go:87-99 | exactly one segment list per node that has backends and a SID: that SID as its only segment, weighted with the backends |
| DsrWeights.InSomeOrder | calico-vpp-agent/connectivity/srv6_dsr.go:87-99 | as many lists with a SID and weight as nodes have them is one list of each node, in some order |
| DsrWeights.ListPerNodeUnique | calico-vpp-agent/connectivity/srv6_dsr.go:87-108 | any two builds of the lists are the same multiset |
| DsrWeights.WeightsAddUp | calico-vpp-agent/connectivity/srv6_dsr.go:65-99 | the weights of the lists sum to the number of backends on the usable nodes |
| DsrWeights.SameSidLists | calico-vpp-agent/connectivity/srv6_dsr.go:194-215 | decides equality of lists up to order |
| DsrServices.ServicesHaveDistinctBsids | calico-vpp-agent/connectivity/srv6_dsr.go:63-158 | in a consistent state no two services share a BSID |
| ProviderDsr.Reconciler.TakenBsids | calico-vpp-agent/connectivity/srv6_dsr.go:282-305 | the avoided addresses are the learned BSIDs and the installed ones but that of the excepted VIP; a failed listing counts as an empty one |
| ProviderDsr.Reconciler.AdoptExistingBsid | calico-vpp-agent/connectivity/srv6_dsr.go:235-251 | adopts the BSID of an entry that steers the VIP, and finds one if there is one |
| ProviderDsr.Reconciler.ChooseBsid | calico-vpp-agent/connectivity/srv6_dsr.go:110-129 | keeps, adopts or derives a BSID; a derived one belongs to no policy and no candidate, and a usable one is missing only if the VIP is steered to zero already or, unsteered, has no free nonzero address left |
| ProviderDsr.Reconciler.RemoveService | calico-vpp-agent/connectivity/srv6_dsr.go:164-190 | with no failure what is left of the record is exactly the parts VPP did not have, so it is forgotten exactly when both deletes found their object; a part that failed stays recorded |
| DsrServices.RemovalStaysConsistent | calico-vpp-agent/connectivity/srv6_dsr.go:164-190 | removing a service leaves record and VPP consistent for the others |
| DsrServices.InstallStaysConsistent | calico-vpp-agent/connectivity/srv6_dsr.go:130-158 | installing a service under a BSID it obtained leaves record and VPP consistent |
| ProviderDsr.Reconciler.Install | calico-vpp-agent/connectivity/srv6_dsr.go:130-158 | on success policy, steering and record are exactly the new ones; a failure leaves the record, and VPP with the replacement partway, or with the new policy and the old steering, or with the new policy and no steering |
| ProviderDsr.Reconciler.ProgramService | calico-vpp-agent/connectivity/srv6_dsr.go:63-158 | from any state, with no failure: without remote backends the record keeps exactly the parts VPP did not have; a record that carries the lists is skipped; otherwise the VIP is installed and tracked, VPP steering it in the main table into an encapsulating policy of exactly one single-segment list per usable node, or has no record and no BSID can be had for it. A VIP settled however its backends are placed costs no write |
| ProviderDsr.Reconciler.ReconcileServices | calico-vpp-agent/connectivity/srv6_dsr.go:49-60 | from any state that failures leave, with no failure, in any order, every desired VIP ends as programming it says and every other one as removing it says, given what VPP held at its turn, and each turn changes VPP by exactly its policy and steering; where there is room in the pool, records have distinct BSIDs and what may go is in VPP, all desired VIPs end settled and no other is left; a consistent state stays consistent; what is settled and in VPP is there with exactly one single-segment list per usable node; from any state in which every claimed BSID has its policy and no two VIPs claim one, a record with both parts is in VPP at the end if and only if the reconcile changed it or it was there before; a reconcile of a settled state writes nothing |
| DsrServices.ProgrammedOrWhyNot | calico-vpp-agent/connectivity/srv6_dsr.go:63-158 | a programmed VIP is settled, or unrecorded and denied a BSID, or without remote backends and recorded with a part that VPP did not have |
| DsrServices.NotDenied | calico-vpp-agent/connectivity/srv6_dsr.go:110-129 | with fewer than 256 addresses in use, a pool that is not all zero and no entry steering the VIP to zero, a BSID is had |
| DsrServices.ConsistentIsAmple | calico-vpp-agent/connectivity/srv6_dsr.go:49-60 | in a consistent state only the room in the pool is left to check |
| DsrServices.TurnOutcome | calico-vpp-agent/connectivity/srv6_dsr.go:49-60 | each VIP's turn finds the record it started with and leaves the one it ends with |
| DsrServices.RanSettles | calico-vpp-agent/connectivity/srv6_dsr.go:49-60 | from an ample state every turn settles its VIP or removes it |
| DsrServices.SettledIsDelivered | calico-vpp-agent/connectivity/srv6_dsr.go:87-148 | a settled service that is in VPP is steered in the main table into a policy of exactly one single-segment list per usable node |
| DsrServices.AddressRoundTrip | calico-vpp-agent/connectivity/srv6_dsr.go:258-265 | an address is the number of its sixteen bytes |
| DsrTracking.UndisputedStep | calico-vpp-agent/connectivity/srv6_dsr.go:49-60 | where no two VIPs claim one BSID and every claimed one has its policy, the turn of one VIP keeps it so |
| DsrTracking.TrackedKept | calico-vpp-agent/connectivity/srv6_dsr.go:49-60 | then no turn of another VIP puts a recorded service into VPP or takes it out |
| DsrTracking.OwnTracked | calico-vpp-agent/connectivity/srv6_dsr.go:63-158 | a VIP ends its own turn with its whole record in VPP if and only if the turn changed the record or VPP held it |
| DsrTracking.EndsTracked | calico-vpp-agent/connectivity/srv6_dsr.go:49-60 | over a whole reconcile a record with both parts ends in VPP if and only if it was changed or VPP held it before |
| DsrServices.SettledOneWay | calico-vpp-agent/connectivity/srv6_dsr.go:63-108 | where node prefixes do not overlap a settled VIP is settled however its backends are placed |
| DsrServices.SkippedThoughUnsteered | calico-vpp-agent/connectivity/srv6_dsr.go:103-154 | a failed update can leave a VIP unsteered with its old record; when the backends go back it is skipped as installed |
| DsrServices.LostBsidIsHandedOut | calico-vpp-agent/connectivity/srv6_dsr.go:258-305 | a BSID whose policy is not in VPP can be given to another VIP though a record names it |
| CniDsr.SamePaths | calico-vpp-agent/cni/cni_dsr.go:204-225 | decides multiset equality of route paths |
| CniDsr.NoPathIffNoLocal | calico-vpp-agent/cni/cni_dsr.go:79-97 | there is a delivery path exactly when there is a local backend |
| CniDsr.ExactIffNoStaleAddress | calico-vpp-agent/cni/cni_dsr.go:68-119 | after one pass the pods carrying the VIP are exactly its local backends if and only if no pod able to carry it is known under both a backing and a stale address |
| CniDsr.StaleAddressUnbinds | calico-vpp-agent/cni/cni_dsr.go:68-119 | a concrete pod with a backing and a stale address that one pass leaves without the VIP |
| CniDsr.SecondPassIsExact | calico-vpp-agent/cni/cni_dsr.go:68-119 | a second pass is always exact |
| CniDsr.Server.FindLocalPodByIP | calico-vpp-agent/cni/cni_dsr.go:228-238 | finds a pod with the address or none exactly when there is none |
| CniDsr.Server.BindVip | calico-vpp-agent/cni/cni_dsr.go:243-275 | adds or removes the VIP on one pod only; already so is a success; a failure changes nothing |
| CniDsr.Server.RpfRoute | calico-vpp-agent/cni/cni_dsr.go:280-299 | adds or removes the allowance of one pod only; a failure changes nothing |
| CniDsr.Server.CleanupPod | calico-vpp-agent/cni/cni_dsr.go:144-163 | reports completion only when no live pod with that address carries the VIP |
| CniDsr.Server.BindBackends | calico-vpp-agent/cni/cni_dsr.go:78-97 | one path and one record entry per local backend; only those pods gain the VIP |
| CniDsr.Server.Unbind | calico-vpp-agent/cni/cni_dsr.go:99-108 | a pod leaves the record only when it carries the VIP no more |
| CniDsr.Server.UpdateDeliveryRoute | calico-vpp-agent/cni/cni_dsr.go:171-201 | what it returns is the installed route whatever fails; equal paths are left alone |
| CniDsr.Server.ProgramVip | calico-vpp-agent/cni/cni_dsr.go:68-119 | record equals installed route and covers every carrying pod under any failure; with no failure record, route and pods are as desired; a settled record is not touched |
| CniDsr.Server.TeardownVip | calico-vpp-agent/cni/cni_dsr.go:124-138 | keeps what could not be removed; with no failure nothing of the VIP is left |
| CniDsr.Server.Reconcile | calico-vpp-agent/cni/cni_dsr.go:52-61 | for every VIP: accounted for under any failure, untouched if as desired, as desired when nothing fails |
| CniDsr.Server.ServiceAdded | calico-vpp-agent/cni/cni_dsr.go:27-35 | keeps every VIP accounted for, and settles all of them when nothing fails |
| CniDsr.Server.ServiceDeleted | calico-vpp-agent/cni/cni_dsr.go:37-45 | keeps every VIP accounted for, and settles all of them when nothing fails |
| CniDsr.Server.PodAdded | calico-vpp-agent/cni/cni_server.go:197-228 | a pod with addresses no other pod holds, or a known one that is added again, as it is or with a new interface and an empty reverse-path table, keeps every VIP accounted for; with no failure all VIPs end as desired |
| CniDsr.PodRenewed | calico-vpp-agent/cni/cni_server.go:197-228 | a known pod that gets a new interface and reverse-path table leaves no binding unaccounted for |
| CniDsr.Server.PodRemoved | calico-vpp-agent/cni/cni_server.go:367-369 | a removed pod takes its bindings along and every VIP stays accounted for |
| CniDsr.Run | calico-vpp-agent/cni/cni_dsr.go:52-201 | after every run with any failures the desired services and the known pods are those the operations say, each record is the installed route and every live pod carrying a VIP is recorded for cleanup |
| IfBinding.ValidateAttachmentID | vpplink/srv6ec_ifbind.go:134-149 | accepts exactly 1 to 255 characters from '!' to '~' |
| IfBinding.IncarnationOf | vpplink/srv6ec_ifbind.go:67-91 | returns an incarnation exactly when the dump names the index and names one incarnation for it |
| IfBinding.PlanRescan | calico-vpp-agent/cni/ifbinding.go:193-204 | fails closed exactly without identity, or with VRFs but no live handle |
| IfBinding.Plane.AttachmentAdd | vpplink/generated/private_plugins/cilium_srv6/cilium_srv6_ifbind_rules.h:150-175 | accepts, and when calls do not fail exactly, a new pair or an exact repeat for a live handle, refuses agreement on one side, keeps the table a partial bijection onto live handles; identities stay bound to their own interfaces if and only if this one was created for the identity |
| IfBinding.Plane.AttachmentDel | vpplink/generated/private_plugins/cilium_srv6/cilium_srv6_ifbind_rules.h:191-205 | removes on exact match only |
| IfBinding.Plane.DeleteInterface | calico-vpp-agent/cni/network_vpp.go:541-575 | the delete callback drops exactly the bindings of that interface |
| IfBinding.Plane.VrfsExist | calico-vpp-agent/cni/network_vpp.go:62-94 | a failed listing reads as absent |
| IfBinding.Plane.Realize | calico-vpp-agent/cni/network_vpp.go:265-404 | a new interface gets a free index and the next incarnation; what a failed attempt leaves is only new and only for that pod, and nothing where undoing does not fail |
| IfBinding.Plane.Restart | vpplink/generated/private_plugins/cilium_srv6/cilium_srv6_guard.c:285-296 | a VPP restart empties everything and starts the incarnation counter over |
| LifecycleState.InOrderIff | vpplink/generated/private_plugins/cilium_srv6/cilium_srv6_localep_rules.h:18-32 | a stored tuple is in the table or names a dead handle if and only if its handle has not been issued again, for another pod, since the last VPP restart |
| LifecycleState.NoHandleStoredTwice | vpplink/generated/private_plugins/cilium_srv6/cilium_srv6_localep_rules.h:18-32 | of two pods that store the same handle at most one had it issued since the last VPP restart; before any restart no two store the same |
| LifecycleState.OwnInOrderIff | vpplink/generated/private_plugins/cilium_srv6/cilium_srv6_localep_rules.h:18-32 | as long as no identity is bound to the interface of another, a stored tuple from whatever file is in order if and only if its handle was neither issued again for another pod nor left unbound |
| LifecycleState.ReplayLinksIff | calico-vpp-agent/cni/network_vpp.go:153-183 | sending a stored tuple again binds the identity to another's interface if and only if the handle was issued again for another pod |
| LifecycleReliable.MatchedInOrder | vpplink/generated/private_plugins/cilium_srv6/cilium_srv6_localep_rules.h:18-32 | where every live interface is bound to the identity it was created for, a stored tuple from whatever file is in order if and only if its handle was not issued again for another pod |
| LifecycleReliable.ReplayChangesNothing | calico-vpp-agent/cni/network_vpp.go:153-183 | there a tuple that the plugin would take is one it has |
| LifecycleReliable.TightTornDown | calico-vpp-agent/cni/network_vpp.go:419-539 | tearing a pod down without failures leaves every live interface bound to its identity, whether or not the file is written |
| LifecycleReliable.TightDropped | calico-vpp-agent/cni/lifecycle_server.go:188-232 | and so does tearing down a pod that was only on file |
| LifecycleReliable.TightRealized | calico-vpp-agent/cni/network_vpp.go:204-241 | and so does a new lifetime, or a failed attempt that was undone |
| LifecycleState.StoredKept | calico-vpp-agent/cni/ifbinding.go:97-125 | withdrawing and creating for one pod keeps every other stored tuple in order |
| LifecycleState.StoredTorn | calico-vpp-agent/cni/network_vpp.go:419-539 | tearing a pod down, with any of its calls failing, keeps every other stored tuple in order and unbinds at most pods that have the index it stored |
| Lifecycle.Server.Revoke | calico-vpp-agent/cni/ifbinding.go:107-125 | withdraws the exact stored tuple, best effort; no other lifetime's binding is removed |
| Lifecycle.Server.Publish | calico-vpp-agent/cni/ifbinding.go:58-95 | success means the tuple for the current handle is in the table and in the spec; failure changes nothing |
| Lifecycle.Server.HandleStillLive | calico-vpp-agent/cni/ifbinding.go:136-149 | a positive answer means, and when VPP does not fail is given exactly if, the published handle is live under the stored index |
| Lifecycle.Server.DelOrphaned | calico-vpp-agent/cni/network_vpp.go:550-575 | destroys the interface only if, and when VPP does not fail exactly if, the published handle is live under the stored index, and nothing at all once the published tuple is cleared |
| Lifecycle.Server.DelVppInterface | calico-vpp-agent/cni/network_vpp.go:419-539 | the binding is withdrawn or not, and where VRFs are seen interface and VRFs go or not, and nothing else changes; with no failure all of it happens; another lifetime's interface is destroyed only if, and with no failure exactly if, VRFs are present and the stored index is live under an incarnation other than the published one |
| Lifecycle.Server.Remove | calico-vpp-agent/cni/network_vpp.go:419-539 | tears a pod down and takes it out of the map; every other stored tuple stays in order; on a data plane that does not fail every live interface stays bound to its identity |
| LifecycleState.TeardownDestroysOtherLifetimeIff | calico-vpp-agent/cni/network_vpp.go:444-531 | tearing a pod down destroys another lifetime's interface if and only if the pod has VRFs and its stored index is live under another incarnation |
| LifecycleRuns.DeleteDestroysAnother | calico-vpp-agent/cni/network_vpp.go:419-539 | a run that gets there: an interface is lost, another pod gets its index, the first pod is deleted |
| Lifecycle.Server.RemoveConflicting | calico-vpp-agent/cni/network_vpp.go:96-129 | exactly the pods that hold one of the addresses are torn down, in any order, all that goes away is theirs or has one of their indices, and when VPP does not fail their bindings are withdrawn |
| Lifecycle.Server.RealizeAndPublish | calico-vpp-agent/cni/network_vpp.go:204-241 | success is exactly one new interface with VRFs and its binding; what a failed attempt leaves is at most a new interface and VRFs of that pod, and nothing where undoing does not fail |
| Lifecycle.Server.Replay | calico-vpp-agent/cni/network_vpp.go:153-183 | re-sends exactly the stored tuple and does nothing else, or fails and changes nothing; without failures it succeeds if and only if the handle is live and the plugin would take the pair |
| Lifecycle.Server.NewLifetime | calico-vpp-agent/cni/network_vpp.go:185-241 | conflicting pods give way and every other stored tuple stays in order; a failed attempt keeps no index of an interface it did not create and, where undoing does not fail, leaves nothing behind; when VPP does not fail the old tuple is withdrawn or is the new one again |
| Lifecycle.Server.AddVppInterface | calico-vpp-agent/cni/network_vpp.go:132-241 | with VRFs present the binding is replayed or refused and never moved; otherwise a new lifetime starts, once exactly the pods with one of the addresses have given way; all that goes away is of the pod and of those, or has one of their indices, and no other identity is bound |
| Lifecycle.Server.Create | calico-vpp-agent/cni/lifecycle_service.go:53-125 | a handle is returned only if the same tuple is in the table, the map and on disk; where undoing and the disk do not fail, any other answer leaves no interface, binding or VRF behind; a pod not served is not in the map, or is there as it was; an unready service or another identity changes nothing; each error is answered exactly in its case, an invalid argument exactly if the request is not supported; a new pod has the addresses asked for; every other pod stays in the map, unless it has one of the addresses, and all that goes away are tuples and VRFs of the pod and of those, and what has one of their indices; an admitted pod whose namespace is there, whose VRFs are not and whose identity is free is served when nothing fails; repeating it with VPP unchanged returns the same handle and creates nothing |
| LifecycleState.OtherStaysBound | calico-vpp-agent/cni/network_vpp.go:96-129 | a bound pod that has none of the requested addresses, and an index of its own, stays in the map and bound |
| LifecycleState.WellFormedIff | calico-vpp-agent/cni/lifecycle_service.go:210-300 | a request is supported if and only if its identity is 1 to 255 printable characters, what follows its last colon is the interface name, that is the configured one, and there are a namespace and well-formed addresses |
| Lifecycle.Server.Delete | calico-vpp-agent/cni/lifecycle_service.go:144-197 | deletes exactly under the identity it was attached as, and calls a request invalid exactly if its identity or names are; whatever fails nothing but its binding, its VRFs and the interface at its index goes away; the map loses that pod only and the file is the new map or stays as it was; when VPP does not fail its binding, its VRFs and whatever interface has its index are gone, which is another pod's exactly if the index was reused |
| Lifecycle.Server.Decide | calico-vpp-agent/cni/lifecycle_server.go:152-187 | a replay is decided only on a live published handle with VRFs present; when listings do not fail, a new lifecycle only without VRFs; when VPP does not fail both are if and only if |
| Lifecycle.Server.RescanOne | calico-vpp-agent/cni/lifecycle_server.go:152-232 | a stored pod, from whatever file, ends bound, or kept with the service not ready, or dropped because its namespace is gone; when VPP does not fail the service becomes not ready only for a pod that is not bound or has no valid identity; other bound pods stay bound, but for those with the index a dropped pod stored |
| Lifecycle.Server.Rescan | calico-vpp-agent/cni/lifecycle_server.go:136-240 | from any file with distinct addresses, in any order, whatever fails: every stored pod ends bound, or kept with the service not ready, or dropped because its namespace is gone, or kept while some dropped pod had stored its index; when listings do not fail and the file was in order the last does not happen and an entry whose VRFs survived is unchanged; nothing goes away but what the file names, and interfaces only at indices of dropped pods; when VPP does not fail the service becomes not ready only if it keeps a pod that is not bound; not-ready is never cleared; on a data plane that does not fail every live interface stays bound to its identity |
| LifecycleRuns.FailedListingUnbinds | calico-vpp-agent/cni/lifecycle_server.go:152-232 | a rescan with failing listings that leaves a kept pod unbound and the service ready |
| LifecycleRuns.OlderFileLeavesUnbound | calico-vpp-agent/cni/lifecycle_service.go:184-196 | a delete that withdraws the binding and then fails, and a restart from the file it could not write: a stored tuple is out of order though no other pod has its handle |
| LifecycleRuns.OlderFileMisbinds | calico-vpp-agent/cni/lifecycle_server.go:133-187 | after a VPP restart, writes that failed and calls that failed, a restart from the older file binds a pod to another's interface |
| LifecycleRuns.RestartService | calico-vpp-agent/cni/lifecycle_server.go:116-240 | a restart from what is on file, however old, keeps table, map and file the pods' own; the file stays in order if it was and the last write succeeded; the service starts with nothing and unready if the file cannot be read, and else with what the rescan leaves |
| LifecycleRuns.Execute | calico-vpp-agent/cni/lifecycle_server.go:116-240 | every operation does what it is for, and all that goes away is of the pods it is about or has one of their indices; every operation, a restart from an older file included, keeps table, map and file the pods' own, and on a data plane that does not fail every live interface bound to its identity; only a restart of the service clears not-ready |
| LifecycleRuns.Run | calico-vpp-agent/cni/ifbinding.go:58-149 | every step does what its operation is for; after every run of creates, deletes, restarts of the service and of VPP and index reuse, whatever calls and writes fail and however old the files restarted from, the table is a partial bijection onto live handles and no handle issued since the last VPP restart is stored twice; if VPP did not fail and every interface it began with was bound to its identity, or VPP did not restart, or every file was in order, no identity is bound to another's interface, and a stored tuple is in the table or names a dead handle if and only if its handle was neither issued again for another pod nor left unbound; in the first and the last case, if and only if it was not issued again; every file is in order if writes do not fail |
| LifecycleRuns.SafeOutcome | calico-vpp-agent/cni/ifbinding.go:58-149 | what every operation keeps gives these if-and-only-ifs |
| LifecycleRuns.SwappedSlots | vpplink/generated/private_plugins/cilium_srv6/cilium_srv6_localep_rules.h:18-32 | the run in which two pods come back from a VPP restart with each other's handles: the stale tuple is out of order, withdrawing it removes nothing, and both end bound |
| Rollback.CleanupStack.Execute | vpplink/helpers.go:86-90 | newest first: with working inverses all pushed resources are gone, tables included, although a table with routes cannot be deleted; nothing else is touched whatever fails |
| Rollback.Pushed | calico-vpp-agent/cni/network_vpp_routes.go:222-267 | creating and pushing keeps everything off the stack unchanged and every route above its table |
| Rollback.RolledBack | calico-vpp-agent/cni/network_vpp_routes.go:28-339 | rolling back restores the configuration if and only if nothing pushed was there before |
| Rollback.OverwrittenRouteIsLost | calico-vpp-agent/cni/network_vpp_routes.go:28-77 | a concrete route of another pod that is overwritten and then removed |
| Rollback.PodCreation.CreatePodVrf | calico-vpp-agent/cni/network_vpp_routes.go:222-267 | success means exactly a new table with default and multicast default route per family; whatever was created is on the stack |
| Rollback.PodCreation.RoutePodInterface | calico-vpp-agent/cni/network_vpp_routes.go:28-77 | success means exactly a route per address: in the main table, or in the pod's own table of that family; whatever was created is on the stack |
| Rollback.PodCreation.AddRpfRoutes | calico-vpp-agent/cni/network_vpp_routes.go:292-339 | success means exactly the reverse-path routes of every address and every source it may spoof; whatever was created is on the stack |
| Rollback.PodCreation.SetChecks | calico-vpp-agent/cni/network_vpp_routes.go:280-288 | success means exactly one check per family, that points at the pod's own reverse-path table |
| Rollback.PodCreation.ActivateStrictRpf | calico-vpp-agent/cni/network_vpp_routes.go:269-290 | success means exactly reverse-path tables, routes and checks; whatever was created is on the stack |
| Rollback.PodCreation.Realize | calico-vpp-agent/cni/network_vpp.go:265-404 | success means exactly what an L3 pod needs is created, in tables of its own; at every failure all that was created is on the stack |
| Rollback.CreatePod | calico-vpp-agent/cni/network_vpp.go:204-241 | it succeeds if nothing fails; success means a published binding and exactly what an L3 pod needs, each part leading where it should, everything else as before; without a table of its own the pod has each address routed in the main table to its interface, with one there, and then no main-table route changed; a failure at any point restores VPP if the inverses succeed, except main-table routes of the pod's addresses that were overwritten |
| Rollback.UpIsReached | calico-vpp-agent/cni/network_vpp_routes.go:28-77 | then every address is routed to the new interface in the table it belongs to |
| IpSet.ParseArray | calico-vpp-agent/felix/ipset.go:96-146 | parses all names or none |
| IpSet.DiffStringMap | calico-vpp-agent/felix/ipset.go:200-212 | what to add and what to remove, exactly |
| IpSet.ValuesRemoveIff | calico-vpp-agent/felix/ipset.go:286-332 | dropping names drops exactly their values if and only if no name that stays denotes one of them |
| IpSet.DroppingAnAliasLosesTheMember | calico-vpp-agent/felix/ipset.go:286-332 | two spellings of an address: dropping one takes it out of VPP though the other is a member |
| IpSet.IPSet.Create | calico-vpp-agent/felix/ipset.go:172-188 | on success VPP mirrors the members |
| IpSet.IPSet.Delete | calico-vpp-agent/felix/ipset.go:190-198 | removes the set and its id, or changes nothing |
| IpSet.IPSet.AddMembers | calico-vpp-agent/felix/ipset.go:238-284 | VPP mirrors the members after success and failure |
| IpSet.IPSet.RemoveMembers | calico-vpp-agent/felix/ipset.go:286-332 | after success VPP mirrors the members if and only if no remaining name denotes a removed value; a failure changes nothing |
| IpSet.IPSet.ReplaceMembers | calico-vpp-agent/felix/ipset.go:214-236 | success leaves exactly the new members, and VPP mirrors them if and only if every value shared by a retained and a removed name is denoted by an added one; where names are distinct VPP mirrors the members even when the second half fails and no retained member is absent after any call |
| IpSet.ReplacedIff | calico-vpp-agent/felix/ipset.go:214-236 | removing the values of the dropped names and adding those of the new ones gives the new values if and only if shared values are recovered |
| IpSet.CanonicalKeepsApart | calico-vpp-agent/felix/ipset.go:214-236 | canonical names meet the condition of a replacement |
| FelixState.StepGood | calico-vpp-agent/felix/felix_server.go:808-909 | every message keeps policies present in all networks or in none |
| FelixState.FoldAppend | calico-vpp-agent/felix/felix_server.go:543-613 | folding messages composes |
| FelixState.InSyncAnywhere | calico-vpp-agent/felix/felix_server.go:735-745 | where InSync falls among the messages makes no difference to the fold |
| FelixState.LeftoversMatter | calico-vpp-agent/felix/felix_server.go:1505-1506 | folding a sequence of messages over leftovers equals folding it over nothing if and only if every leftover name is rewritten or removed by the messages and every leftover endpoint updated or removed with its workload |
| FelixState.LeftoverObjectsMatter | calico-vpp-agent/felix/felix_server.go:1505-1506 | for IP sets, policies and profiles, whatever the messages |
| FelixState.LeftoversMatterAnyway | calico-vpp-agent/felix/felix_server.go:1505-1506 | for any messages, removals of unannounced endpoints included: the folds are equal if and only if every leftover name is rewritten or removed, and the last message that touches each endpoint updates it, or removes its workload over both starts, or over one while it is absent over the other |
| FelixState.AgreedIff | calico-vpp-agent/felix/felix_server.go:1081-1155 | the two folds agree about one endpoint if and only if that holds of it |
| FelixState.UnannouncedRemovalReachesFurther | calico-vpp-agent/felix/felix_server.go:1123-1155 | removing an endpoint that was only left over takes an announced one of the same workload with it |
| FelixState.LeftoverIsConfigured | calico-vpp-agent/felix/felix_server.go:1505-1506 | a leftover IP set is configured by a connection that never mentions it |
| FelixMirror.SetStaysMirrored | calico-vpp-agent/felix/ipset.go:172-236 | VPP goes on mirroring the record if and only if it got exactly the values the members denote |
| FelixMirror.RulesStayMirrored | calico-vpp-agent/felix/policy.go:150-244 | creating or updating rules keeps VPP equal to the configured objects |
| FelixMirror.OneNamePerValue | calico-vpp-agent/felix/ipset.go:214-332 | where no two member strings denote the same value every message is faithful |
| FelixMirror.AliasDeltaIsUnfaithful | calico-vpp-agent/felix/felix_server.go:773-788 | a delta that removes one of two spellings of an address is not |
| FelixServer.Server.CreateRules | calico-vpp-agent/felix/policy.go:150-198 | succeeds without VPP failure exactly when mentioned IP sets exist; the rules are then in VPP under a new id |
| FelixMirror.NeedsIff | calico-vpp-agent/felix/policy.go:150-173 | what rules need is exactly the IP sets that an inbound or outbound rule mentions |
| FelixMirror.EndpointNeedsIff | calico-vpp-agent/felix/workload_endpoint.go:71-107 | what an endpoint needs is exactly the policies of its network, ingress or egress, and the profiles it mentions |
| FelixServer.Server.PutRules | calico-vpp-agent/felix/felix_server.go:808-837 | pending and configured take the same step; once synced VPP follows |
| FelixServer.Server.DropRules | calico-vpp-agent/felix/felix_server.go:874-909 | pending and configured take the same step; once synced VPP follows |
| FelixServer.Server.IpsetRemoved | calico-vpp-agent/felix/felix_server.go:790-806 | one fold step in either phase; once synced VPP follows |
| FelixServer.Server.IpsetUpdated | calico-vpp-agent/felix/felix_server.go:747-771 | one fold step in either phase; without VPP failure it succeeds exactly if members parse and kinds agree; once synced VPP follows if and only if shared values are recovered |
| FelixServer.Server.IpsetChanged | calico-vpp-agent/felix/felix_server.go:773-788 | one fold step in either phase: adds, then removes; once synced VPP follows if and only if no remaining member denotes a removed value |
| FelixServer.Server.ReplaceSet | calico-vpp-agent/felix/felix_server.go:747-771 | replacing the members of a known set: the record gets exactly the new ones, and VPP the values they denote if and only if shared values are recovered |
| FelixServer.Server.ChangeSet | calico-vpp-agent/felix/felix_server.go:773-788 | adding, then removing members of a known set: a failure leaves the record as it was or with the additions only |
| FelixServer.Server.ProfileUpdated | calico-vpp-agent/felix/felix_server.go:911-942 | one fold step in either phase; without VPP failure it succeeds exactly if the IP sets it mentions exist |
| FelixServer.Server.ProfileRemoved | calico-vpp-agent/felix/felix_server.go:944-961 | one fold step in either phase; an unknown profile changes nothing |
| FelixServer.Server.PolicyUpdated | calico-vpp-agent/felix/felix_server.go:808-872 | one fold step in either phase, over all networks in any order; afterwards, and once synced in VPP, every network has exactly the policy's inbound rules of that network as inbound and its outbound ones as outbound rules, in order |
| FelixServer.FromProtoPolicy | calico-vpp-agent/felix/policy.go:82-130 | the loops pick exactly the rules annotated with the network, inbound and outbound, in order |
| Picking.PickedOnce | calico-vpp-agent/felix/policy.go:112-128 | picking by places, in order, determines the list: a network has one list of rules |
| FelixState.EmptyInstanceIff | calico-vpp-agent/felix/policy.go:82-130 | an instance has no rules if and only if the policy is untracked, or is pre-DNAT and has rules, or has no rule of the network |
| FelixState.LastUpdateStands | calico-vpp-agent/felix/felix_server.go:808-909 | whatever messages follow, until another is about the policy its instances are those its last update means |
| FelixServer.Server.PolicyRemoved | calico-vpp-agent/felix/felix_server.go:874-909 | one fold step in either phase; its early return is never taken while policies are in all networks or none |
| FelixServer.Server.EndpointUpdated | calico-vpp-agent/felix/felix_server.go:1081-1121 | one fold step in either phase; once synced it needs the policies and profiles mentioned |
| FelixServer.Server.EndpointRemoved | calico-vpp-agent/felix/felix_server.go:1123-1155 | one fold step in either phase: exactly the endpoints of its orchestrator and workload go, if the endpoint is there |
| FelixServer.Server.ConfigureEndpoints | calico-vpp-agent/felix/felix_server.go:1525-1537 | without VPP failure succeeds exactly if what endpoints with interfaces mention exists |
| FelixServer.Server.ApplyPending | calico-vpp-agent/felix/felix_server.go:1467-1546 | configured becomes pending and pending empty; without VPP failure, from whatever an earlier connection left in VPP, VPP ends with exactly those objects, and it succeeds exactly if all mentions resolve |
| FelixServer.Server.Handle | calico-vpp-agent/felix/felix_server.go:543-613 | a message that succeeds takes the current state one fold step; without VPP failure it succeeds exactly if it is in phase and accepted; VPP goes on mirroring the state if and only if the message is faithful |
| FelixServer.Server.Connection | calico-vpp-agent/felix/felix_server.go:486-540 | two-phase synchronisation refines folding: if all messages succeed the configured state is the fold of the messages over what was pending; without VPP failure, whatever an earlier connection left, they all succeed if and only if the sequence is admissible, and VPP then has exactly that state if the messages after synchronisation are faithful |
| FelixServer.Server.Connections | calico-vpp-agent/felix/felix_server.go:486-540 | over any sequence of connections, failed ones included: each begins with what is pending then, nothing after a synced one; without VPP failure each succeeds if and only if it is admissible over that, and after a last one that synced VPP has exactly the fold if its messages after synchronisation are faithful |

## Left out

- CandidateSelection.ComputeUsablePolicy: lookups are a fixed function during one operation, independent of the drop routes that operation adds.
- CandidateCache.WithdrawIsHeard: for clean withdraws, those that match nothing or a candidate with a BSID; what the others do is WithdrawIsFilterIff.
- Srv6Provider.Provider.DelSRPolicy: the effect on VPP is stated for withdraws that match a candidate with a BSID; the other withdraws return early.
- BsidHandle.HandleInjective: for endpoints without a dash, which textual IPv6 addresses are.
- DsrWeights.ComputeWeights: fewer than 2^32 backends per service, so that the 32-bit counters do not wrap.
- ProviderDsr.Reconciler.ReconcileServices: the SIDs of the nodes are given for the reconcile; interleaving with SR Policy changes on the same VPP tables is not modelled.
- CniDsr.Server.BindVip: VIPs and backends are IPv6, as the services server publishes them; for an IPv4 VIP the listing of IPv6 addresses would not see it.
- CniDsr.Server.PodAdded: two different live pods with one address are not modelled; IPAM does not hand one out twice.
- CniDsr.Server.RpfRoute: the additional memif path of the route is not modelled.
- Lifecycle.Server.Create: for requests whose attachment identity belongs to the pod they name, which is what an identity is, see above.
- LifecycleRuns.Run: the service restarts between operations, not within one.
- LifecycleRuns.Execute: what a step answers is in Create, Delete and Rescan.
- Lifecycle.Server.DelVppInterface: addresses, routes, uRPF and namespace cleanup are not part of this model.
- IfBinding.Plane.VrfsExist: VRFs of both families count as one.
- IfBinding.Plane.Realize: stands for the drivers, routes and announcements of a creation; Rollback models its routes and tables.
- Rollback.CleanupStack.Execute: typed removal calls instead of arbitrary functions and arguments.
- Rollback.PodCreation.CreateTun: one interface stands for the loopback and tuntap drivers.
- Rollback.PodCreation.RoutePodInterface: L3 interfaces in the default network; neighbors, which are not pushed, and secondary networks are not modelled.
- Rollback.CreatePod: the next hop of a reverse-path route is an address of the pod of that family; which one is not stated, since a later address may take over a source they both may spoof.
- IpSet.ParseArray: parsing is a given function from names to values.
- FelixState.LeftoversMatter: for sequences that remove only endpoints they have updated, where the condition is simple; of every sequence LeftoversMatterAnyway speaks.
- FelixServer.Server.Connections: what is pending after a connection that failed is not stated.
- FelixServer.Server.CreateRules: the rules of a policy are one object with its id, not created one by one.
- FelixServer.Server.PutRules: the maps of IP sets, policies and profiles are one map with tagged names and objects are values; sharing of one object between pending and configured state is not modelled.
- FelixServer.Server.ApplyPending: what VPP holds is stated when its calls succeed; interface configurations are not modelled.
- FelixServer.Server.PolicyRemoved: network definitions do not change during a connection.
- Host endpoints, host metadata, IPAM pools and WireGuard messages of Felix, and the agent's own host policies.
- Periodic revalidation order, local SIDs, the encapsulation source and the srv6egress manager.
- Policies shared by reference between the candidate cache and VPP calls: they are values here.
- VXLAN, IPIP, IPsec and WireGuard connectivity, host ports, port-based load balancing, memif, VCL and multiple networks: more branches without harder properties.
- Message plumbing to VPP, gRPC, JSON, netlink and IPAM internals: each is a call that succeeds or fails.

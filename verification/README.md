# Verification of the assisted installer's reconciliation loops

The assisted installer drives a node through its installation (`src/installer`) and, once the cluster
is up, a controller brings the installation to its end (`src/assisted_installer_controller`). Most of
what they do is reconciliation: poll a remote service and the Kubernetes API, compare, write what is
missing, and try again after a failure. This project models the loops with state of their own and
proves what they keep over whole runs, for every pattern of failures.

`dafny verify dfyconfig.toml` checks the project, which is written for Dafny 4.11.

| file | what it models |
|---|---|
| `Inventory.dfy` | hosts, stages and accepted reports; matching nodes with hosts; hosts seen fetching their ignition |
| `HostStages.dfy` | the controller's poll that moves hosts to Configuring, Joined and Done |
| `NodeLabels.dfy` | labels set on nodes while the worker pool is paused |
| `BareMetalHosts.dfy` | the allocation of Machines to BareMetalHosts |
| `KubeconfigLock.dfy` | any number of threads in the double-checked lock of the reboots notifier |
| `MonitoredOperators.dfy` | the inventory client's shared, partly renamed operator cache |
| `OlmWait.dfy` | the wait for OLM operators and the failing of those left |
| `ReadyNodes.dfy` | the bootstrap's wait for ready nodes |
| `ConfiguringLoop.dfy` | the bootstrap's search for hosts that fetched their ignition |
| `InstallNode.dfy` | the course of an installation as a trace of reports and milestones |
| `MachineConfigs.dfy` | the wait for consistent MachineConfig annotations |
| `Kargs.dfy`, `LogWriters.dfy`, `FreeSpace.dfy`, `YamlPath.dfy`, `Retry.dfy` | kernel arguments, output followers, partition growth, the YAML path update, retrying and its use against DNS address conflicts |
| `Wrappers.dfy` | options, sequences, 64-bit integers |

## How the code is modelled

- Remote state is explicit: a class holds the service's or the cluster's part, and every call comes
  with the answer it gets (`accept`, or a set of the calls that succeed). A failed call leaves the
  remote state as it was. A poll is one step; what others do happens between polls, within the limits
  a run states (`KeepsStages`, `KeepsConsumers`).
- A method follows the code's loop and is proved to compute a function of the answers; the lemmas are
  about that function and about runs of it. Go's map order is left open: loops over maps take any key.
- A host is known by its lower-case hostname, which is taken to be unique; host ids are folded into it.
  On the installer side reports for an empty host id are attempted like any other.
- The machine-config-server log is the set of hosts that the pattern search finds in it. Node
  readiness is one boolean. The version string is malformed, 4.8 or another one.
- `ClusterServiceVersionHandler.OnChange` has a value receiver, so its retry counter is lost and a
  Failed CSV is held back for ever (`OlmWait.HeldBackIff`). The model does what this code does; the comments that speak of
  tolerating ten failures (src/assisted_installer_controller/assisted_installer_controller.go:43-45)
  and of operators that reach "failed" (line 1096) are not what it does.
- Some properties one might expect hold only under a condition, and the condition is stated exactly:
  reports raise their hosts exactly when no two nodes are in conflict (`RaisesForEveryOutcome`); the
  label count decides exactly when there is no surplus (`CountIsEnoughIffNoSurplus`); renaming is
  undone exactly when the service has no "ocs" of its own (`ReportsUndoRenaming`,
  `SuccessSettlesIffNotShadowed`); kernel arguments come through exactly when no flag dangles or all read like the flag
  (`OverwriteArgsIffNotDangling`) and the scans agree exactly when no two flags are adjacent with
  something behind them (`ScansAgreeIffNoFlagPair`); the free percentage is right exactly when
  neither the total of the sizes nor the hundredfold of what it leaves wraps around, but for totals
  that wrap around harmlessly (`RightIff`). A lemma beside each shows an input that fails
  (`ConflictOccurs`, `SurplusOccurs`, `NativeOcsIsMistaken`, `ShadowedOcsStays`,
  `DanglingFlagLosesArgument`, `FlagPairDivides`, `WrappedTotalMisleads`).

## Model

| member | source | states |
|---|---|---|
| Inventory.AssistedService.UpdateHostInstallProgress | src/inventory_client/inventory_client.go:249-252 | an accepted report sets the stage of exactly that host and is logged; a failed call leaves the service as it was |
| Inventory.GetHostsInStatus | src/common/common.go:41-49 | keeps exactly the hosts whose status is, or with `isMatch` false is not, among the given ones |
| Inventory.BuildHostsMapIPAddressBased | src/common/common.go:174-182 | every address of every host is a key, and each key leads to a host that has the address, in whatever order the map is ranged over |
| Inventory.HostMatchByNameOrIPAddress | src/common/common.go:202-214 | by lower-case name if known, else by the last internal address that is indexed |
| Inventory.MatchIsKnown | src/common/common.go:202-214 | a match is always a value of one of the two maps searched |
| Inventory.GetInventoryHostsMap | src/installer/installer.go:995-1014 | the cached hosts, or exactly the enabled hosts without the bootstrap, or nothing if they cannot be fetched |
| Inventory.SetConfiguringStatusForHosts | src/common/common.go:51-84 | for any map order, logs and failures: the service accepts exactly one report, with the stage the role calls for, on each host that is before its ignition, found in the logs and accepted; the map the caller holds is updated for exactly these hosts |
| Inventory.ReportsOnceCounts | src/common/common.go:51-84 | of such a series of reports each host gets one if it is in the set and none otherwise |
| Inventory.ReplayConcat | src/common/common.go:51-84 | accepting two series of reports one after the other is accepting their concatenation |
| Inventory.RaisesConcat | src/assisted_installer_controller/assisted_installer_controller.go:230-314 | a series strictly raises its hosts exactly if its first part does and its second part does from where the first left the service |
| Inventory.ReplayUntouched | src/assisted_installer_controller/assisted_installer_controller.go:230-314 | a host nobody reports on keeps its record |
| Inventory.RaisingIsBounded | src/assisted_installer_controller/assisted_installer_controller.go:230-314 | if every accepted report raises its host, the rank climbed bounds the number of reports, and is at most three |
| Inventory.MatchedByName | src/common/common.go:202-205 | a node with a known lower-case name matches that host; otherwise its addresses decide |
| Inventory.MatchedByAddress | src/common/common.go:206-213 | by address a node matches the host of its last internal address that is indexed, and none exactly if there is no such address |
| Inventory.ReportedIffFound | src/common/common.go:51-84 | one report on a host exactly if it is in the map, not past its ignition, found in the logs, known and accepted, with the stage its role calls for; the map changes for these hosts only |
| HostStages.UpdateNodes | src/assisted_installer_controller/assisted_installer_controller.go:266-301 | the pass over the nodes makes exactly the reports of the specification, in node order, whichever calls fail |
| HostStages.UpdateNode | src/assisted_installer_controller/assisted_installer_controller.go:267-300 | one node: Joined if the cached stage is Configuring or Rebooting, then Done if ready and not Done yet; a failed Joined or untaint call ends the turn |
| HostStages.CountsDecide | src/assisted_installer_controller/assisted_installer_controller.go:245-258 | comparing the two counts decides whether every host that is not disabled is Installed or Error |
| HostStages.Remaining | src/assisted_installer_controller/assisted_installer_controller.go:245-258 | the pass may stop exactly if all hosts that are not disabled are settled |
| HostStages.UpdateConfiguring | src/assisted_installer_controller/assisted_installer_controller.go:303-312 | the hosts are fetched anew after the pass, and only those still before Configuring are reported as Configuring |
| HostStages.WaitAndUpdateNodesStatus | src/assisted_installer_controller/assisted_installer_controller.go:230-314 | one poll, for all failures: the accepted reports, the resulting stages, and an exit exactly when the hosts were fetched and are all settled |
| HostStages.PassRaises | src/assisted_installer_controller/assisted_installer_controller.go:266-301 | when no two nodes are in conflict every accepted report of a pass strictly raises its host |
| HostStages.ConflictRepeats | src/assisted_installer_controller/assisted_installer_controller.go:266-301 | two nodes in conflict whose reports are accepted make a pass repeat or lower a stage, whatever happens to the others |
| HostStages.RaisesForEveryOutcome | src/assisted_installer_controller/assisted_installer_controller.go:266-301 | every accepted report raises its host, whichever calls fail, exactly when no two nodes are in conflict; one-to-one matching is the case without any two nodes of one host |
| HostStages.ConflictOccurs | src/assisted_installer_controller/assisted_installer_controller.go:266-301 | a conflict from real nodes: two nodes with the two addresses of one rebooting host have it reported as joined twice |
| HostStages.LateReportsRaise | src/assisted_installer_controller/assisted_installer_controller.go:303-312 | because the hosts are fetched again, the Configuring reports after the pass raise their hosts too |
| HostStages.PollRaises | src/assisted_installer_controller/assisted_installer_controller.go:230-314 | all accepted reports of a poll together strictly raise their hosts |
| HostStages.PollReportsHaveNodes | src/assisted_installer_controller/assisted_installer_controller.go:266-313 | Done is only reported for a ready node that matches the host, Joined only for a matching node, nothing else but Configuring |
| HostStages.RunIsBounded | src/assisted_installer_controller/assisted_installer_controller.go:230-314 | over a whole run without another writer, reports accepted for a host are no more than its rank rises: at most three |
| HostStages.PassReportsIff | src/assisted_installer_controller/assisted_installer_controller.go:266-301 | a host is reported as joined exactly on account of a matched node whose host is cached as Configuring or Rebooting, and as done exactly on account of a ready one that did not fail to join |
| HostStages.SomeJoinsIff | src/assisted_installer_controller/assisted_installer_controller.go:273-282 | read out: there is such a node at some position |
| HostStages.SomeCompletesIff | src/assisted_installer_controller/assisted_installer_controller.go:284-300 | read out for the report that the node is done |
| HostStages.VisitOfNode | src/assisted_installer_controller/assisted_installer_controller.go:231-271 | nodes are matched by name with the hosts neither disabled nor installed, by address with all in the index |
| HostStages.LateReportsIff | src/assisted_installer_controller/assisted_installer_controller.go:303-312 | after the pass a host is reported as Configuring exactly if it is enabled, not past its ignition, found in the logs and accepted |
| HostStages.PollExitsIff | src/assisted_installer_controller/assisted_installer_controller.go:236-265 | a poll exits exactly if the hosts were fetched and all are disabled, installed or in error; then, or without hosts or nodes, it reports nothing |
| NodeLabels.Cluster.PatchMachineConfigPoolPaused | src/k8s_client/k8s_client.go:704-716 | an accepted patch sets the paused flag, a failed one changes nothing |
| NodeLabels.Cluster.PatchNodeLabels | src/k8s_client/k8s_client.go:647-651 | an accepted merge patch adds the labels to the one node of that name |
| NodeLabels.PatchNodesLabels | src/assisted_installer_controller/assisted_installer_controller.go:1269-1300 | the number returned is that of the ready, matched nodes that carry their host's labels or were patched; exactly the latter are changed |
| NodeLabels.CountCovers | src/assisted_installer_controller/assisted_installer_controller.go:1255-1258 | without surplus, a count that reaches the number of labelled hosts covers every one of them (pigeonhole) |
| NodeLabels.CountIsEnoughIffNoSurplus | src/assisted_installer_controller/assisted_installer_controller.go:1255-1258 | comparing the two counts is right for every pattern of failed patches exactly when, for each host without a labelled node, the ready nodes of the other hosts are fewer than the labelled hosts |
| NodeLabels.OneToOneHasNoSurplus | src/assisted_installer_controller/assisted_installer_controller.go:1269-1300 | matching ready nodes with labelled hosts one-to-one leaves no surplus |
| NodeLabels.SurplusOccurs | src/assisted_installer_controller/assisted_installer_controller.go:1255-1258 | a surplus from real nodes: two nodes with the two addresses of one labelled host make the count enough while another labelled host has no node |
| NodeLabels.CoveredIsLabelled | src/assisted_installer_controller/assisted_installer_controller.go:1269-1300 | a covered host has a ready node that carries all its labels after the pass |
| NodeLabels.GetAIHostsWithLabels | src/assisted_installer_controller/assisted_installer_controller.go:1197-1215 | exactly the hosts that are neither disabled nor in error and ask for labels |
| NodeLabels.ShouldPauseWorkerMCP | src/assisted_installer_controller/assisted_installer_controller.go:1225-1232 | true exactly if some labelled worker changes pools |
| NodeLabels.SetNodesLabels | src/assisted_installer_controller/assisted_installer_controller.go:1237-1267 | exits exactly under the stated conditions; an exit without surplus leaves a ready node with its labels for every labelled host; when a pause is needed all patches fall into the pause and an exit leaves the pool running; otherwise the pool is not touched |
| NodeLabels.CountsIff | src/assisted_installer_controller/assisted_installer_controller.go:1269-1300 | a node counts exactly if it is ready, matches a labelled host, and carries every label of it or is patched |
| NodeLabels.RelabelledNode | src/assisted_installer_controller/assisted_installer_controller.go:1269-1300 | a patched node gets its host's labels and keeps its others; nothing else of any node changes |
| BareMetalHosts.UnallocatedMachines | src/assisted_installer_controller/assisted_installer_controller.go:851-875 | filtering the list into its own front gives the order-preserving filter of the list as it was |
| BareMetalHosts.UnallocatedIsFree | src/assisted_installer_controller/assisted_installer_controller.go:851-875 | what is left are exactly the worker machines of the list that no host refers to, names still distinct |
| BareMetalHosts.Cluster.UpdateBMH | src/assisted_installer_controller/assisted_installer_controller.go:942-948 | an accepted update writes everything but the status; a failed one nothing |
| BareMetalHosts.Cluster.UpdateBMHStatus | src/assisted_installer_controller/assisted_installer_controller.go:877-904 | an accepted status update writes the status only |
| BareMetalHosts.UpdateConsumerRef | src/assisted_installer_controller/assisted_installer_controller.go:992-1008 | pops the head of the list for the host, or fails on an empty list |
| BareMetalHosts.UpdateBMHWithProvisioning | src/assisted_installer_controller/assisted_installer_controller.go:919-951 | one host with a provisioning CR, for all failures: its record, the machines left (one that was taken is gone even if the update fails), and success |
| BareMetalHosts.UpdateBMHWithNoProvisioning | src/assisted_installer_controller/assisted_installer_controller.go:956-990 | one host without a provisioning CR: status copied from the annotation, refreshed, annotation dropped, consumer set, for all failures |
| BareMetalHosts.TakeTurnsStep | src/assisted_installer_controller/assisted_installer_controller.go:1010-1034 | a host whose turn has not come is untouched, so its turn works on the listed record |
| BareMetalHosts.UpdateBMHs | src/assisted_installer_controller/assisted_installer_controller.go:1010-1034 | the hosts take their turns in listed order on one shrinking machine list; success only if all turns succeed |
| BareMetalHosts.PollOnce | src/assisted_installer_controller/assisted_installer_controller.go:820-849 | one poll, for all failures of listing, reading and writing |
| BareMetalHosts.TurnTakesTheHead | src/assisted_installer_controller/assisted_installer_controller.go:919-1008 | a turn changes a consumer only from unset to the head of the list, and only when it pops it |
| BareMetalHosts.TurnsKeepInjective | src/assisted_installer_controller/assisted_installer_controller.go:1010-1034 | turns keep consumers distinct and never hand out a machine twice |
| BareMetalHosts.PollKeepsInjective | src/assisted_installer_controller/assisted_installer_controller.go:820-1034 | a poll keeps the allocation injective, never changes a set consumer, and sets one only to a worker machine nobody referred to |
| BareMetalHosts.RunIsInjective | src/assisted_installer_controller/assisted_installer_controller.go:820-1034 | before and after every poll of a run with arbitrary failures no machine is the consumer of two hosts |
| BareMetalHosts.RunIsInjectiveThroughout | src/assisted_installer_controller/assisted_installer_controller.go:820-1034 | nor after any turn in the middle of a poll |
| BareMetalHosts.MidwayIsPoll | src/assisted_installer_controller/assisted_installer_controller.go:1010-1034 | the states in the middle of a poll lead from its beginning to its end |
| BareMetalHosts.RunNeverReassigns | src/assisted_installer_controller/assisted_installer_controller.go:820-1034 | a consumer once set stays for as long as its host exists |
| BareMetalHosts.TurnsWithoutFailure | src/assisted_installer_controller/assisted_installer_controller.go:1010-1034 | without failures the turns serve as many hosts as there are machines, and say whether that was all |
| BareMetalHosts.PollServes | src/assisted_installer_controller/assisted_installer_controller.go:820-1034 | without failures a poll assigns min(needy, free) machines and returns true exactly if needy <= free |
| BareMetalHosts.GoodTurnsSettle | src/assisted_installer_controller/assisted_installer_controller.go:1010-1034 | after a successful sweep nothing is left to do for any host |
| BareMetalHosts.SecondPollIsIdle | src/assisted_installer_controller/assisted_installer_controller.go:820-1034 | after a poll that returned true another one returns true and writes nothing |
| BareMetalHosts.TurnWithoutCR | src/assisted_installer_controller/assisted_installer_controller.go:877-904 | without a provisioning CR, field by field: the decoded status is written first, exactly if it can be decoded and is accepted; then one update drops the one annotation and sets the reference to the head of the list; nothing else changes |
| BareMetalHosts.TurnWithCR | src/assisted_installer_controller/assisted_installer_controller.go:919-951 | with a provisioning CR, field by field: one update marks the host, drops the pause annotation and sets the reference; the status never changes |
| BareMetalHosts.TurnInPoll | src/assisted_installer_controller/assisted_installer_controller.go:1010-1034 | in a poll every host takes exactly one turn, on its listed record |
| BareMetalHosts.PollCopiesStatus | src/assisted_installer_controller/assisted_installer_controller.go:877-990 | over a poll no status is lost: an annotation only goes if there was nothing in it or it was written to the status |
| BareMetalHosts.PollProvisions | src/assisted_installer_controller/assisted_installer_controller.go:919-951 | over a poll with a provisioning CR a host changes at most by the one update, and after a successful poll every unprovisioned host is marked and has a consumer |
| BareMetalHosts.PollStopsEarly | src/assisted_installer_controller/assisted_installer_controller.go:824-838 | without hosts, machines or the kind of cluster a poll changes nothing |
| KubeconfigLock.StepKeepsInv | src/assisted_installer_controller/reboots_notifier.go:56-75 | every step of every thread keeps mutual exclusion, the agreement on the path and the account of directories |
| KubeconfigLock.StepKeepsPath | src/assisted_installer_controller/reboots_notifier.go:56-75 | the stored path is never overwritten |
| KubeconfigLock.RunKeepsInv | src/assisted_installer_controller/reboots_notifier.go:56-75 | the invariant holds in every run of any number of threads, and the work left bounds the steps |
| KubeconfigLock.OneDownload | src/assisted_installer_controller/reboots_notifier.go:56-75 | at most one download succeeds, the path is written at most once, and all paths returned are the stored one |
| KubeconfigLock.OneDirectory | src/assisted_installer_controller/reboots_notifier.go:56-75 | when all threads are back, the directories are that of the path and those whose removal failed |
| KubeconfigLock.NoDeadlock | src/assisted_installer_controller/reboots_notifier.go:56-75 | while a thread has not returned some thread can take a step |
| KubeconfigLock.AllReturn | src/assisted_installer_controller/reboots_notifier.go:56-75 | no run is longer than six steps a thread, and a run that cannot go on has all threads back |
| KubeconfigLock.LateThreadsSucceed | src/assisted_installer_controller/reboots_notifier.go:57-59 | a thread that starts once the path is known returns it without waiting |
| KubeconfigLock.PathIsDownloaded | src/assisted_installer_controller/reboots_notifier.go:62-74 | the path is that of the one download of the run that goes well, by the choices alone, and unknown if there is none |
| KubeconfigLock.PathIffSuccess | src/assisted_installer_controller/reboots_notifier.go:62-74 | the path is d exactly if some step downloads into d and goes well |
| KubeconfigLock.FailsIffFailedItself | src/assisted_installer_controller/reboots_notifier.go:62-71 | a thread returns no path exactly if one of its own calls failed |
| KubeconfigLock.AllSucceed | src/assisted_installer_controller/reboots_notifier.go:56-75 | if no call fails all threads return the same path, that of the one download |
| KubeconfigLock.LeakedIffNotRemoved | src/assisted_installer_controller/reboots_notifier.go:68-71 | the directories left behind are exactly those whose removal failed |
| KubeconfigLock.OneDirectoryIfRemoved | src/assisted_installer_controller/reboots_notifier.go:56-75 | if every removal goes well there is never more than one directory |
| MonitoredOperators.FindOperator | src/inventory_client/inventory_client.go:297-334 | renaming entries in place until the name is met finds what a pure lookup over the renamed list finds |
| MonitoredOperators.CopyOlm | src/inventory_client/inventory_client.go:336-375 | the copies are the renamed OLM operators of the service's list, however much of the shared list was renamed before; an unreadable version fails exactly if there is one |
| MonitoredOperators.InventoryClient.GetMonitoredOperators | src/inventory_client/inventory_client.go:277-295 | the cached list if allowed and not expired, else the service's answer, which replaces it; a failed fetch keeps the cache |
| MonitoredOperators.InventoryClient.GetClusterMonitoredOperator | src/inventory_client/inventory_client.go:297-334 | the reply is the pure lookup over the list last fetched |
| MonitoredOperators.InventoryClient.GetClusterMonitoredOLMOperators | src/inventory_client/inventory_client.go:336-375 | the reply is the pure selection from the list last fetched |
| MonitoredOperators.Serve | src/inventory_client/inventory_client.go:277-375 | for every sequence of queries, cache expiries and answers, the replies are those of a client without shared pointers |
| MonitoredOperators.RepliesWereSent | src/inventory_client/inventory_client.go:277-334 | whatever the cache did, an operator returned by name is the renaming of a record the service had sent by then |
| MonitoredOperators.LookupFinds | src/inventory_client/inventory_client.go:314-333 | the lookup returns the first operator that goes by the name, and fails exactly if there is none |
| MonitoredOperators.NativeOcsIsMistaken | src/inventory_client/inventory_client.go:487-502 | an operator the service itself calls "ocs" is reported as "odf" |
| MonitoredOperators.ReportsUndoRenaming | src/inventory_client/inventory_client.go:487-502 | reporting under the name listed reaches the service's own name for all operators and versions exactly when the service calls none of them "ocs" |
| MonitoredOperators.LookupAsIs | src/inventory_client/inventory_client.go:297-334 | but for "odf" and "ocs" on 4.8, a query by name returns the first record of that name unchanged, none exactly if there is none |
| MonitoredOperators.LookupOcs | src/inventory_client/inventory_client.go:314-333 | on 4.8 "ocs" finds the first record called "odf" or "ocs"; an "odf" comes as "ocs" with the subscription "ocs-operator" and is otherwise its own |
| MonitoredOperators.NothingIsOdf | src/inventory_client/inventory_client.go:314-333 | on 4.8 nothing is found as "odf" |
| MonitoredOperators.OlmAsIs | src/inventory_client/inventory_client.go:336-375 | the OLM query returns exactly the OLM records in order, unchanged but for "odf" on 4.8 |
| MonitoredOperators.MalformedVersionFails | src/inventory_client/inventory_client.go:314-372 | a version that cannot be parsed fails every query by name, and the OLM query exactly if there is an OLM operator |
| MonitoredOperators.WhenTheCacheServes | src/inventory_client/inventory_client.go:277-295 | when the cached list serves a query, when the service is asked, and what is cached then |
| OlmWait.OperatorService.UpdateClusterOperator | src/inventory_client/inventory_client.go:487-502 | "ocs" is reported as "odf"; an accepted report sets that operator's status, a failed one nothing |
| OlmWait.ControllerStatus.OperatorError | src/assisted_installer_controller/assisted_installer_controller.go:177-181 | the operator is recorded, those recorded before stay |
| OlmWait.GetProgressingOLMOperators | src/assisted_installer_controller/assisted_installer_controller.go:1057-1070 | the OLM operators neither available nor failed, in list order |
| OlmWait.UpdatePendingOLMOperators | src/assisted_installer_controller/assisted_installer_controller.go:1072-1094 | fails and records the pending operators one by one up to the first report that is not accepted |
| OlmWait.SuccessSettlesIffNotShadowed | src/assisted_installer_controller/assisted_installer_controller.go:1072-1094 | success means that every operator is available or failed, whichever reports are accepted, exactly when no progressing "ocs" of the service is shadowed by an "odf" |
| OlmWait.ShadowedOcsStays | src/assisted_installer_controller/assisted_installer_controller.go:1072-1094 | a service with a progressing "ocs" next to "odf": the attempt succeeds, fails "odf" and leaves "ocs" progressing |
| OlmWait.RetryPending | src/assisted_installer_controller/assisted_installer_controller.go:619-632 | the attempts go on until one succeeds; what was recorded stays recorded |
| OlmWait.RetriesOnlyFail | src/assisted_installer_controller/assisted_installer_controller.go:619-632 | over all attempts nothing changes but progressing operators that are failed and recorded |
| OlmWait.RetriesSettle | src/assisted_installer_controller/assisted_installer_controller.go:619-632 | if the retries succeed every operator is available or failed, and each that was failed, in whichever attempt, is recorded |
| OlmWait.CheckAndUpdateOperatorAvailability | src/assisted_installer_controller/operator_handler.go:34-90 | for every kind of handler: true exactly if the service has the operator available or accepts to be told so; the status is reported exactly if it changed and the handler lets it through, so a failure is only withheld by a CSV handler |
| OlmWait.OnChange | src/assisted_installer_controller/operator_handler.go:284-296 | one call on each kind of handler: what it answers and records, and that it counts in its own copy; the other two kinds, lines 121-126 and 147-149, let everything through |
| OlmWait.HeldBackIff | src/assisted_installer_controller/operator_handler.go:284-296 | after any calls a new CSV handler holds a failure back exactly if the receiver is a value, as it is, or fewer than ten failures were seen |
| OlmWait.AvailableWasSent | src/assisted_installer_controller/operator_handler.go:77-90 | an operator seen as available in the list, cached or not, is one the service had sent as available |
| OlmWait.CheckAll | src/assisted_installer_controller/assisted_installer_controller.go:1115-1125 | one poll drops exactly the handlers whose operators are acknowledged |
| OlmWait.PollHandlers | src/assisted_installer_controller/assisted_installer_controller.go:1115-1128 | the polls succeed exactly if each handler's operator is acknowledged in one of them; CSV handlers stay as new and report and record no failure |
| OlmWait.WaitForCSV | src/assisted_installer_controller/assisted_installer_controller.go:1097-1129 | succeeds exactly if each operator progressing at the start is acknowledged as available in some poll |
| OlmWait.WaitForOLMOperators | src/assisted_installer_controller/assisted_installer_controller.go:614-687 | a phase that fails leads to the operators being failed; if that works no OLM operator is left progressing and each newly failed one is recorded; without it none is failed or recorded |
| OlmWait.PendingHolds | src/assisted_installer_controller/assisted_installer_controller.go:1057-1070 | pending are exactly the listed OLM operators neither available nor failed |
| OlmWait.PendingConcat | src/assisted_installer_controller/assisted_installer_controller.go:1057-1070 | in the order of the list |
| OlmWait.ListedAs | src/inventory_client/inventory_client.go:314-333 | an operator is listed under its own name, but "odf" as "ocs" on 4.8 |
| OlmWait.FailsAllIff | src/assisted_installer_controller/assisted_installer_controller.go:1083-1093 | failing the operators succeeds exactly if every report is accepted and has an operator to reach |
| OlmWait.RecordedInTurn | src/assisted_installer_controller/assisted_installer_controller.go:1083-1093 | operators are recorded up to the first whose report is refused, that one included |
| OlmWait.NoneRecordedBehind | src/assisted_installer_controller/assisted_installer_controller.go:1083-1093 | and none behind it |
| OlmWait.AttemptNeedsTheList | src/assisted_installer_controller/assisted_installer_controller.go:1078-1081 | an attempt that cannot fetch the list fails and changes nothing |
| OlmWait.RetriesSucceedIff | src/assisted_installer_controller/assisted_installer_controller.go:619-632 | retrying succeeds exactly if some attempt does on what the earlier ones left, and ends with the first that does |
| OlmWait.NoneSucceedsAt | src/assisted_installer_controller/assisted_installer_controller.go:619-632 | read out: no earlier attempt succeeded |
| OlmWait.LetThroughIff | src/assisted_installer_controller/operator_handler.go:284-296 | only a CSV handler that has held back fewer than ten failures holds one back; one that has held back ten records it |
| ReadyNodes.Waiter.UpdateReadyNodes | src/installer/installer.go:1016-1043 | the pass over the nodes up to the first error, on the list of ready nodes it extends |
| ReadyNodes.Waiter.SufficientNodes | src/installer/installer.go:847-908 | one poll, for all failures, with the address index of the hosts it works with; an error of the pass drops the cached hosts |
| ReadyNodes.WaitForNodes | src/installer/installer.go:843-923 | polls until one finds enough nodes and none before it did, or the context ends and none did |
| ReadyNodes.NoneEnoughSoFar | src/installer/installer.go:910-922 | read out: no poll of such a run had found enough nodes |
| ReadyNodes.VisitAllExtends | src/installer/installer.go:1016-1043 | a pass only adds ready nodes it sees, each once, with at most one accepted Joined for each |
| ReadyNodes.UnknownIsUnmatched | src/installer/installer.go:1016-1043 | "not in inventory" is about a ready node that matches no host |
| ReadyNodes.PollKeepsInv | src/installer/installer.go:847-908 | a poll forgets no ready node and no report and reports on no node twice |
| ReadyNodes.RunCounts | src/installer/installer.go:843-923 | over a whole wait: distinct nodes each seen ready, at most one accepted Joined for each name, and the polls ending with "not in inventory" number at most the unknown names |
| ReadyNodes.EnoughMeansReady | src/installer/installer.go:858-908 | the wait ends only if no node of the role is expected, or replicas-1 masters or the minimum, or one arbiter, were each observed ready |
| ReadyNodes.PollEndsIff | src/installer/installer.go:847-906 | a poll ends the wait exactly if no node of the role is expected, or its pass ends without error with enough nodes ready |
| ReadyNodes.PollDropsHostsIff | src/installer/installer.go:896-901 | the hosts are fetched anew after an error of the pass and only then |
| ReadyNodes.AllReadyCounted | src/installer/installer.go:1016-1043 | a pass without error leaves no ready node uncounted |
| ReadyNodes.SentForNode | src/installer/installer.go:1016-1043 | an accepted Joined is for a ready node and the host it matches, which is not installed |
| ReadyNodes.CountedBecause | src/installer/installer.go:1016-1043 | a node is counted because its host is installed, its Joined was accepted, or it is the one not in the inventory |
| ReadyNodes.FailedBecause | src/installer/installer.go:1016-1043 | an update fails because of a refused report on a ready node, which is not counted |
| ConfiguringLoop.FilterAlreadyUpdatedHosts | src/installer/installer.go:1054-1064 | drops exactly the hosts whose cached stage is in the filter set |
| ConfiguringLoop.VerifyHostCanMoveToConfigurationStatus | src/installer/installer.go:1045-1052 | reports on the hosts found in the logs, if these can be read |
| ConfiguringLoop.Search.Poll | src/installer/installer.go:1069-1093 | one poll, for all failures |
| ConfiguringLoop.PollShrinks | src/installer/installer.go:1045-1093 | the map only loses hosts, and every accepted report makes it strictly smaller |
| ConfiguringLoop.PollEndsWhenPast | src/installer/installer.go:1069-1093 | a poll ends the search exactly when the stage of every host it works with is in the filter set |
| ConfiguringLoop.CacheIsStillWaiting | src/installer/installer.go:1045-1093 | over a whole search the map holds exactly the fetched hosts that, with the accepted reports written to them, are not in the filter set |
| ConfiguringLoop.DoneWhenAllPast | src/installer/installer.go:1069-1093 | over a whole search: it is over exactly when the hosts were fetched and the cached stage of every host that was fetched, in whichever poll it left the map, is in the filter set |
| ConfiguringLoop.RunReportsOnce | src/installer/installer.go:1069-1093 | over a whole search the map is part of what was fetched, never with the bootstrap, and each host gets at most one accepted report |
| ConfiguringLoop.RunReportsStages | src/common/common.go:51-84 | workers are reported as waiting for ignition, all others as configuring |
| ConfiguringLoop.PollReportsFound | src/installer/installer.go:1045-1093 | a poll reports on exactly the hosts found in the logs, if these can be read, and they are gone from the map afterwards |
| ConfiguringLoop.RunReportsFound | src/installer/installer.go:1045-1093 | over a whole search a host is only reported on if it was found in the logs of some poll |
| InstallNode.PlanIsOrdered | src/installer/installer.go:100-298 | the plan of every kind of node is strictly ordered by its stage order; on a single node bootkube comes before the image is written |
| InstallNode.Installer.Open | src/installer/installer.go:100-124 | up to the Installing report, for all failures |
| InstallNode.Installer.GetIgnition | src/installer/installer.go:131-143 | a single node waits for bootkube and becomes a master; others download their ignition |
| InstallNode.Installer.WriteImageToDisk | src/installer/installer.go:394-412 | succeeds exactly if one of three tries does |
| InstallNode.Installer.CopyRegistry | src/installer/installer.go:159-186 | the registry data is copied on masters of the appliance flow only |
| InstallNode.Installer.WaitForControlPlane | src/installer/installer.go:597-642 | the reports and failures of the control-plane wait |
| InstallNode.Installer.WaitAsBootstrap | src/installer/installer.go:188-216 | control plane, workers and machine configs are waited for in this order, each only after the last succeeded |
| InstallNode.Installer.Finalize | src/installer/installer.go:265-298 | the Rebooting report comes before the node is handed over, in each of the three ways |
| InstallNode.Installer.Install | src/installer/installer.go:100-227 | for all outcomes the trace follows the plan, and reaches its end exactly if the installation succeeds, which is when the listed calls go well |
| InstallNode.RunInstaller | src/installer/installer.go:1196-1201 | Failed is reported, last, exactly if the installation failed |
| InstallNode.StagesInOrder | src/installer/installer.go:100-298 | the stages attempted never go down in the order of the node's kind |
| InstallNode.FinalizedLast | src/installer/installer.go:100-298 | a node is finalized only after every event of the plan's earlier phases |
| InstallNode.MilestonesBeforeFinalizing | src/installer/installer.go:145-226 | it is finalized only after the image was written and, on a bootstrap, the control-plane, worker and MachineConfig waits succeeded |
| InstallNode.NeverFailed | src/installer/installer.go:100-227 | InstallNode itself never reports Failed |
| InstallNode.PlanSpelledOut | src/installer/installer.go:100-298 | the whole plan by the configuration as given |
| InstallNode.GoesWellIff | src/installer/installer.go:100-298 | the calls that must not fail, one by one |
| MachineConfigs.AnnotationsConsistent | src/installer/installer.go:937-991 | true exactly if there are masters, their current and desired configs exist, and they all desire the same one |
| MachineConfigs.WaitForMCAnnotationsConsistent | src/installer/installer.go:934-993 | ends well at the first consistent poll, and fails only if there is none |
| Kargs.ConvertToInstallerKargs | src/installer/installer.go:333-339 | every argument is preceded by the flag, in order |
| Kargs.ConvertToOverwriteKargs | src/installer/installer.go:341-353 | the index-driven loop computes the skipping scan |
| Kargs.OverwriteArgs | src/installer/installer.go:384-387 | the installer arguments and then the converted kernel arguments are scanned together |
| Kargs.ApplyInstallKargs | src/ops/ops.go:204-236 | the loop computes the non-skipping scan; nothing is run without a change, and the deployment is only finalized after the change was applied |
| Kargs.OverwriteUndoesInstaller | src/installer/installer.go:333-353 | translating there and back gives every list, even of arguments that read like the flag |
| Kargs.OverwriteConcat | src/installer/installer.go:341-353 | the scan distributes over concatenation up to a dangling flag, which takes the first argument of the second part |
| Kargs.OverwriteArgsIffNotDangling | src/installer/installer.go:384-387 | the kernel arguments come through exactly when the installer arguments end in no dangling flag, or all of them read like the flag |
| Kargs.DanglingFlagLosesArgument | src/installer/installer.go:384-387 | installer arguments that are a lone flag make the kernel argument "quiet" come out as the flag itself |
| Kargs.FlagPairDivides | src/ops/ops.go:204-218 | two flags and an argument: the overwriting scan appends the second flag only, the other one both |
| Kargs.ScansAgreeIffNoFlagPair | src/ops/ops.go:204-218 | both scans append the same arguments exactly when no two adjacent flags have a third argument behind them |
| Kargs.NothingToApply | src/ops/ops.go:204-222 | nothing is run exactly when no flag has an argument behind it |
| Kargs.AppliesAppendsAndDeletes | src/ops/ops.go:204-218 | every argument behind an append or delete flag is appended or deleted if present, in order, and nothing else is passed on |
| Kargs.InstallConcat | src/ops/ops.go:204-218 | each change is passed on at its flag's place |
| Kargs.FlagsAsWritten | src/ops/ops.go:204-218 | the flags in the words the user writes |
| LogWriters.CoreosInstallerLogWriter.Write | src/coreos_logger/coreos_installer_log_writer.go:39-49 | buffer, log, last progress and accepted reports are those of the chunks written so far |
| LogWriters.CoreosInstallerLogWriter.ReportProgress | src/coreos_logger/coreos_installer_log_writer.go:51-68 | a report is made under the throttle's condition and remembered only if accepted |
| LogWriters.RsyncInstallerLogWriter.Write | src/rsync_logger/rsync_log_writer.go:43-52 | the same for rsync, where without a host stage nothing is sent |
| LogWriters.RsyncInstallerLogWriter.ReportProgress | src/rsync_logger/rsync_log_writer.go:54-88 | nothing after completion; a failed report is not remembered |
| LogWriters.NothingIsLost | src/coreos_logger/coreos_installer_log_writer.go:39-49 | lines handed on and the buffer concatenate to all that was written, and the buffer holds no terminator |
| LogWriters.LinesIffChunksTidy | src/coreos_logger/coreos_installer_log_writer.go:39-49 | the lines handed on are the terminator-delimited lines of the stream exactly when no chunk goes on after a terminator |
| LogWriters.ThrottlesAgreeIff | src/rsync_logger/rsync_log_writer.go:72-76 | the two conditions differ exactly on a percentage of at least 105 after 100 |
| LogWriters.ReportsAreOrderly | src/coreos_logger/coreos_installer_log_writer.go:51-68 | for percentages of 0 to 100 and any failures the accepted reports strictly increase, by at least five except into 100, and end with 100 |
| LogWriters.OrderlyIsShort | src/coreos_logger/coreos_installer_log_writer.go:61-67 | there are at most twenty of them |
| LogWriters.OrderlyIncreases | src/coreos_logger/coreos_installer_log_writer.go:61-67 | any two of them are in increasing order, five apart or the later one 100 |
| LogWriters.WritersAgree | src/rsync_logger/rsync_log_writer.go:54-88 | the two writers accept exactly the same reports |
| LogWriters.NothingLeftBehind | src/coreos_logger/coreos_installer_log_writer.go:51-68 | if all reports are accepted, no progress read is five points ahead of the last report, and completion is reported |
| LogWriters.HandedOnIff | src/coreos_logger/coreos_installer_log_writer.go:39-49 | a line is handed on, and the buffer emptied, exactly when it holds a carriage return or a newline |
| LogWriters.ReportedIff | src/coreos_logger/coreos_installer_log_writer.go:51-68 | a write brings about a report exactly when a line is handed on whose progress is far enough ahead, or the end, and it is accepted |
| FreeSpace.CalculateFreePercent | src/ops/ops.go:1121-1163 | the sum, the default of partition 4 and the percentage in wrapping 64-bit arithmetic, with all error cases |
| FreeSpace.RegistryFreePercent | src/ops/ops.go:1352-1371 | two and a half times the data, and an error below one percent |
| FreeSpace.OverwriteFreePercent | src/ops/ops.go:1220-1229 | the option is given exactly if the percentage is positive |
| FreeSpace.LargestIffNoWrap | src/ops/ops.go:1158-1161 | when the total does not wrap around, the answer is right (the largest whole percentage that leaves room, 0 without room) exactly when the hundredfold of what is left does not either |
| FreeSpace.RightIff | src/ops/ops.go:1158-1161 | for all sizes: the answer is right exactly when neither total nor product wraps around, or a total that does wrap around happens to be harmless in the stated way |
| FreeSpace.WrappedTotalMisleads | src/ops/ops.go:1158-1161 | a disk of 100 bytes with 4 used and 2^63-1 required is said to keep 97 percent free |
| FreeSpace.SoundDiskPercent | src/ops/ops.go:1121-1163 | without wrap-around it is between 0 and 100, the largest that leaves room, 0 without room, whether or not the partitions fit on the disk |
| FreeSpace.SmallDiskIsSound | src/ops/ops.go:1158-1161 | on disks up to (2^63-1)/100 bytes the product does not wrap around if the total does not |
| FreeSpace.RegistryNeverWraps | src/ops/ops.go:1358-1371 | neither total nor product wraps around when the partitions fit on a disk of up to (2^63-1)/100 bytes and the data has up to (2^63-1)/5 bytes |
| FreeSpace.RequestedIsTwoAndAHalf | src/ops/ops.go:1358-1360 | no wrap-around for data up to (2^63-1)/5 bytes |
| FreeSpace.CopiedIffOnePercentLeft | src/ops/ops.go:1358-1371 | the data is copied exactly if 100*(used+required) <= 99*disk, on a disk that is not empty, and then partition 4 gains at least what is required |
| FreeSpace.OverwriteDoubles | src/ops/ops.go:1155-1161 | when the image is overwritten with something left free, partition 4 can double its size |
| YamlPath.UpdateItem | src/k8s_client/k8s_client.go:313-323 | writing through the items changes the document as the tree update does, and not at all on an error |
| YamlPath.UpdateSlice | src/k8s_client/k8s_client.go:325-332 | the first item with the key is the one updated |
| YamlPath.GetAfterSet | src/k8s_client/k8s_client.go:313-332 | the update succeeds exactly if the path leads somewhere, and then the value is found there |
| YamlPath.SetAfterSet | src/k8s_client/k8s_client.go:313-332 | of two updates at a path the last one counts |
| YamlPath.SetWhatIsThere | src/k8s_client/k8s_client.go:313-332 | writing the value that is there changes nothing |
| YamlPath.OtherPaths | src/k8s_client/k8s_client.go:313-332 | what other paths lead to is unchanged |
| YamlPath.ChangesThePlace | src/k8s_client/k8s_client.go:313-332 | one place changes: the first in the document whose keys spell the path; every other place keeps its value, duplicates of the keys included |
| Retry.RetryWithContext | src/utils/utils.go:166-187 | at most max(1, attempts) calls, ending at the first that succeeds or is cancelled; nil exactly if the last call succeeded |
| Retry.WaitForeverForPredicateWithCancel | src/utils/utils.go:203-246 | nil exactly if the last worker call returned true; an error only once the context is done |
| Retry.FindServiceByIP | src/assisted_installer_controller/assisted_installer_controller.go:366-373 | the first service with the address, none exactly if no service has it |
| Retry.KillConflictingService | src/assisted_installer_controller/assisted_installer_controller.go:375-379 | up to five deletions of the service, ending at the first that succeeds |
| Retry.DeleteDNSOperatorPods | src/assisted_installer_controller/assisted_installer_controller.go:381-385 | up to five deletions of the pods, ending at the first that succeeds |
| Retry.HackDNSAddressConflict | src/assisted_installer_controller/assisted_installer_controller.go:316-364 | for all failures of 45 attempts, the calls that are made and their order |
| Retry.NothingAfterwards | src/assisted_installer_controller/assisted_installer_controller.go:351-354 | no call is made after the DNS service was found in place |
| Retry.DeletionsAreBounded | src/assisted_installer_controller/assisted_installer_controller.go:338-385 | no attempt makes more than five calls of either kind |
| Retry.CallsAreJustified | src/assisted_installer_controller/assisted_installer_controller.go:338-385 | only services found at the address are deleted, never the DNS service, and pods only right after a service was deleted (or their own deletion failed) |
| Retry.ConflictIsDeleted | src/assisted_installer_controller/assisted_installer_controller.go:355-362 | another service at the address is deleted up to the first success or five times, and then the pods in the same way exactly if that succeeded |
| Retry.NothingElseIsDeleted | src/assisted_installer_controller/assisted_installer_controller.go:339-354 | without such a service nothing is called |
| Retry.AttemptsAreMade | src/assisted_installer_controller/assisted_installer_controller.go:338-363 | every attempt before the one that finds the DNS service makes its calls |
| Retry.OverIff | src/assisted_installer_controller/assisted_installer_controller.go:351-354 | the attempts are over exactly if one of them found the DNS service in place |
| Retry.AtMost225 | src/assisted_installer_controller/assisted_installer_controller.go:338-385 | at most 225 deletions of services and 225 of pods |

## Left out

- HTTP, Kubernetes and OLM clients, command execution, ignition parsing and merging, log uploads, mocks and dry-run stand-ins: only success, failure and the remote state they change are kept.
- Time: tickers, timeouts and cache lifetimes are choices of the environment; waits that never end are not modelled, and a wait is given the polls it has before its context ends.
- The pattern that finds hosts in the machine-config-server logs, the patterns that find progress in a line of output, and rsync's trimming of the line: they are inputs.
- The two bootstrap loops together: they keep separate cached maps and run concurrently, so only each loop's own claims are stated.
- Concurrent queries of one inventory client: a query is one step.
- KubeconfigLock.OneDirectory: does not model Finalize, which removes the kubeconfig file and not its directory.
- HostStages.RunIsBounded: assumes that no one else writes stages and that no poll meets nodes in conflict; without the latter it fails, as `ConflictRepeats` shows.
- NodeLabels.SetNodesLabels: speaks of one call; if the labelled hosts change between calls, or the context ends, the pool may stay paused.
- BareMetalHosts.PollOnce: does not model the check whether the cluster has the machine API, nor the content of the status annotation beyond whether and to what it decodes.
- Kargs.OverwriteArgs: does not model that Go's append may write into spare capacity of the configured slice.
- YamlPath.UpdateSlice: takes the path split at its dots, and does not model values shared between items.
- OlmWait.WaitForOLMOperators: the phases before the CSVs, creating subscriptions and applying manifests, only succeed or fail.
- UntaintNode: one index search and one patch; whether it succeeds is an input of the loops that call it.
- InstallNode.Installer.WaitAsBootstrap: the waits for workers, control plane and etcd only succeed or fail here; the waits for nodes and machine configs have their own modules.
- Simple members: status conversions, areNodeLabelsUpdated's decoding, pod lookups, CSR approval, configuration defaults.

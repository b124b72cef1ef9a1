# topolvm-operator: the volume group reconciler and the status pipeline

A Dafny 4.11 model of the part of topolvm-operator that decides what happens to the volume groups of a
node and what is reported about it, with proofs of what that part promises.

- **The node.** `LvmHost` is the LVM state of one node: groups, labelled physical volumes, logical
  volumes placed on them, and the log of the commands issued. Commands may fail at any time.
  `vgremove`, `vgreduce` and `pvremove` are unguarded and destroy every logical volume on what they
  remove. `VolumeGroups` are the operations of `pkg/util/sys/lvm.go` over it.
- **The reconciler.** `PrepareVg.PrePareVg` is the controller object of one run, its maps and lists
  fields that the methods reassign. `ClassGroups` and `DeviceLists` hold the expansion and the shrinking of
  one group, `Reconciliation` the two together, `ClassSteps` what a run does to one class and what the
  report then says of it, `RunMaps` how the two class maps move through a run and from run to run,
  `RunStages` a whole run, `ClassStatus` the maps and their stored slices, `LvmdConfig` the lvmd
  configuration, `LoopRegistry` the loop devices. `NodeHistory` is what happens on a node over time: runs
  with any specs and any command failures, logical volumes that come and go between them, and device
  checks.
- **The status pipeline.** `ConfigMapPatch` is the patch of the node's ConfigMap and its two writers,
  `DeviceCheck` the device check of the discover daemon, `StatusCheck` and `StatusProperties` the
  periodic status check, `ClusterProtocol` the cluster status under ConfigMap handlers and checks in any
  order.
- **Discovery and parsing.** `LvmReport`, `Partitions`, `Disks`, `UdevDebounce`, with `Text` and
  `Fields` for the string functions and printed records they share. `Sequences` is the one fact about
  lists that are cut while they are walked.

`dafny verify dfyconfig.toml` checks the whole project.

Main results:

- *No logical volume is lost.* Every removal ever issued named only what carried no logical volume at
  the time (`LvmHost.Host.Valid`, kept by every method up to `NodeHistory.RunHistory`), so along the whole
  log the logical volumes change only where their users change them (`LvmHost.EachWasHarmless`,
  `LvmHost.HarmlessLogKeepsLvs`), and they end as their users last left them (`NodeHistory.RunHistory`).
- *One run is enough.* When nothing on a healthy node stands in the way of a spec with devices given by
  path, one run gives every group exactly its devices, and no later run for that spec issues a command,
  whatever happens to logical volumes and device checks in between (`NodeHistory.RunThenRepeat`,
  `NodeHistory.RepeatRuns`; per class `PrepareVg.PrePareVg.ProvisionClass`, along the run
  `RunStages.UnderwayNext`).
- *Expand and shrink converge.* On a healthy host, when what a recorded class lacks is in no group and what
  it is to release carries no logical volume, its group ends with exactly the spec's devices if and only if
  each of them was there or is resolved to by the spec. Without that proviso: commands are issued for a
  class with a group if and only if a device is missing, or one is to go and no logical volume forbids it
  (`PrepareVg.PrePareVg.ReconcileRecorded`).
- *The report says what was done.* After every run with distinct groups the entry of each class tells of the
  commands its stretch of the log holds: each device that joined is online, each failed pvcreate an error
  with LVM's words, earlier states of devices that stay are kept, and the message names the step that
  failed; a new group has its members online, and a failed one says what is missing
  (`RunStages.TraceIsTold`, from `Reconciliation.ToldBySteps`, `ClassSteps.CreationIsTold` and
  `ClassSteps.RetryIsTold`). A loop device that was created is the one its name stands for
  (`LoopRegistry.CheckLoopDevice`, `RunStages.LoopsResolved`).
- *The lvmd configuration lists exactly the successes.* `LvmdConfig.UpdateListsExactly` says when one
  update keeps it so, both ways; a stable binding of class names to groups is enough
  (`BindingFreesNames`), and `MovedClassStaysListed` is the stale entry without one. A new entry has
  everything the spec asks for, field by field (`LvmdConfig.UpdatedIsTold`, `RunMaps.UpdatedFollows`).
- *Reports are consistent* (`RunMaps.RunKeepsRecord`, `ClassStatus.RebuildExactly`), *updates are not
  lost* (`ConfigMapPatch.Interleave`, `ClusterProtocol.Interleave`), *checking again changes nothing*
  (`ClusterProtocol.Interleave` with `StatusProperties.ReadyHasClassIsSteady`), and *phases and metrics
  mean what they say* (`StatusProperties`).

Findings about the code, each stated by a member below:

- Expansion resolves the name of an automatic loop in a local copy, shrinking compares the raw one. A
  class with such a loop, whose device the spec does not name, is never at rest: on a healthy host with
  its group present each run issues commands, unless nothing is missing and a logical volume blocks the
  shrinking (`ClassGroups.AutoLoopIdleExactly`). When the spec names no device of the group and the group
  carries no logical volume, the run removes it, although nothing is missing
  (`ClassGroups.AutoLoopLosesGroup` is such a node).
- A run that stops before it writes its report has created loop devices that no registry knows. The next
  run creates the device of a name again if and only if the registry has no success for it and both specs
  want it (`NodeHistory.RunAfterAbort`, `LoopRegistry.CreatedTwiceExactly`);
  `LoopRegistry.LoopCreatedTwice` is such a registry and disk. Without such a stop each name has its
  device created once (`NodeHistory.RunHistory`).
- A disk given as a non-automatic loop whose registry entry had failed is registered a second time
  (`LoopRegistry.CheckDisk`). Failed entries do not arise from the code itself, which overwrites the
  failed status with success.
- The status check is idempotent on every status that handlers and checks produce, as long as reports do
  not claim to be Ready, which the writers of reports never do (`ClusterProtocol.Interleave`,
  `NodeHistory.RunHistory`). On a status edited by other hands it need not be:
  `StatusProperties.CheckAgainExactly` is the exact condition, `EditedStatusIsNotSteady` an input.

## Model

| member | source | states |
|---|---|---|
| LvmHost.EffectKeepsInv | pkg/util/sys/lvm.go:125-237 | whatever command LVM accepts, each physical volume stays labelled and in at most one group, and each logical volume within its group |
| LvmHost.EachWasHarmless | pkg/util/sys/lvm.go:125-184 | in a log of harmless commands each removal, whether it then succeeded or not, named only what carried no logical volume in the state it was issued in |
| LvmHost.HarmlessLogKeepsLvs | pkg/util/sys/lvm.go:125-184 | between any two points of such a log without a change by users, the logical volumes are the same |
| LvmHost.Host.Issue | pkg/util/sys/lvm.go:54-58 | one command: fails without effect or takes its full effect, destroying logical volumes where it may; the log records it with its answer and stays one of harmless commands when this command is harmless |
| VolumeGroups.RemoveVolumeGroup | pkg/util/sys/lvm.go:125-154 | no logical volume is lost; a group that carries one is refused without any command; success means the group and the labels of its members are gone; an error may leave the group already removed, and once a command is issued says that one failed; on a healthy host success is exactly that the group is there and carries no logical volume |
| VolumeGroups.RemoveLabels | pkg/util/sys/lvm.go:145-152 | pvremove in any order on physical volumes of no group loses no logical volume and changes no group |
| VolumeGroups.ShrinkVolumeGroup | pkg/util/sys/lvm.go:156-184 | no logical volume is lost, whatever devices are named; one that carries a logical volume makes it refuse without any command; success releases exactly the named members, and on a healthy host is exactly that none of them carries a logical volume |
| VolumeGroups.ExpandVolumeGroup | pkg/util/sys/lvm.go:186-194 | success adds exactly these physical volumes to the group, failure changes nothing |
| VolumeGroups.CreatePhysicalVolume | pkg/util/sys/lvm.go:196-200 | one pvcreate; success means the volume is labelled and in no group |
| VolumeGroups.CreateVolumeGroup | pkg/util/sys/lvm.go:220-237 | success means one pvcreate for each device in order, then a new group of exactly these devices; failure leaves all groups as they were |
| ClassStatus.GetVgNameMap | controllers/preparevg_controller.go:207-215 | the loop is the fold that files each entry by its group name |
| ClassStatus.MapIsKeyed | controllers/preparevg_controller.go:207-215 | each entry is filed under its own group name, exactly the names in the slice occur, and of several entries of a name the last one stays |
| ClassStatus.CollectStates | controllers/preparevg_controller.go:665-673 | the written slice holds each entry of the map once, in some order |
| ClassStatus.Rebuilt | controllers/preparevg_controller.go:207-215 | whatever the order of the slice, each rebuilt entry is a stored one, at the place it names, and each place named is filled |
| ClassStatus.RebuildExactly | controllers/preparevg_controller.go:308-309 | for every iteration order, writing a map and rebuilding it gives the same map if and only if each entry names its own group |
| ClassStatus.RebuildNearlyKeyed | controllers/preparevg_controller.go:236-238 | entries without a group name, as the first run records existing groups, meet under the empty name, where one of them survives if there is any; every other entry is rebuilt as it was |
| ClassStatus.DisjointCarriesOver | controllers/preparevg_controller.go:308-309 | disjoint success and fail maps are rebuilt disjoint, the success map unchanged |
| LvmdConfig.CreateLvmdConf | controllers/preparevg_controller.go:688-731 | a configuration of exactly the new groups, in order, each entry with the name, group, spare space, stripe, stripe size and flag of its class, or none when there are none |
| LvmdConfig.ApplyDefaults | controllers/preparevg_controller.go:614-620 | the nested loop sets, in place, the flag of each entry to that of the last spec class of its name, and changes nothing else |
| LvmdConfig.LastOneDecides | controllers/preparevg_controller.go:614-620 | the flag of an entry is that of the last spec class of its name; an entry without one keeps its own |
| LvmdConfig.DropUnrecorded | controllers/preparevg_controller.go:631-643 | the loop that cuts the list while it walks it terminates and is the order-preserving filter by recorded class names |
| LvmdConfig.KeepMembers | controllers/preparevg_controller.go:631-643 | the filter keeps exactly the entries with a recorded name and never lists a group twice that was listed once |
| LvmdConfig.UpdateLvmdConf | controllers/preparevg_controller.go:601-652 | defaults, then new groups, then the filter; old entries keep all but their flag, new ones have every field of their class, and the socket stays; creation when there was no configuration |
| LvmdConfig.UpdatedIsTold | controllers/preparevg_controller.go:601-652 | every entry has a recorded class and is an old one up to its flag, or has each field of a new group's class; no such entry is missing |
| LvmdConfig.KeepInOrder | controllers/preparevg_controller.go:631-643 | the filter keeps the order |
| LvmdConfig.UpdateListsExactly | controllers/preparevg_controller.go:601-652 | if the configuration listed exactly the successes before the run, it does so after it if and only if every group that left the success map freed its class name |
| LvmdConfig.BindingFreesNames | controllers/preparevg_controller.go:601-652 | under a binding of class names to groups that condition holds |
| LvmdConfig.MovedClassStaysListed | controllers/preparevg_controller.go:631-643 | witness: a class name that moves to another group leaves the entry of the old group in the configuration |
| LvmdConfig.DefaultsFollowSpec | controllers/preparevg_controller.go:614-643 | under a one-to-one binding every lvmd class carries the flag the current spec gives it |
| LvmdConfig.AtMostOneDefault | docs/user_manual.md:40-40 | a spec with one default class never yields two default lvmd classes |
| LoopRegistry.CheckDisk | controllers/preparevg_controller.go:735-790 | one disk: a loop device is created exactly for an automatic loop whose first entry is not a success; its entry and mapping then hold the device, file and failure that losetup answered, marked successful; a loop that was there is registered with its file; names stay unique if and only if the disk is not a non-automatic loop with a failed entry |
| LoopRegistry.CheckLoopDevice | controllers/preparevg_controller.go:733-792 | over any disks and any registry: loop devices are created exactly as often as the disks want them, and each created name is mapped to an entry with the answer; every automatic loop is mapped to its first entry; a sound registry stays sound and only grows, each new name having its device created once |
| LoopRegistry.CheckClasses | controllers/preparevg_controller.go:161-164 | the same over the classes of a node |
| LoopRegistry.AllDisksExactly | controllers/preparevg_controller.go:161-164 | the disks of all classes, each class in turn |
| LoopRegistry.CreatedAtMostOnce | controllers/preparevg_controller.go:112-116 | over any number of runs, each from the registry the one before wrote, no name has a loop device created twice |
| LoopRegistry.CreationsExactly | controllers/preparevg_controller.go:740-775 | over one registry a name has its loop device created at most once, and exactly when the registry has no success for it and some disk is an automatic loop of the name before any other loop registers it anew |
| LoopRegistry.CreatedTwiceExactly | controllers/preparevg_controller.go:733-792 | two runs from one registry both create the device of a name if and only if the registry has no success for it and both want it |
| LoopRegistry.LoopCreatedTwice | controllers/preparevg_controller.go:733-792 | witness: the empty registry and one automatic loop |
| DeviceLists.Surplus | controllers/preparevg_controller.go:455-470 | the members the spec does not name, each once, in any order; as many as there are members exactly when the spec names none |
| DeviceLists.DropStates | controllers/preparevg_controller.go:486-493 | the in-place cut of device states, with its index stepping back, is a filter |
| DeviceLists.WithoutAllMembers | controllers/preparevg_controller.go:486-493 | exactly the states of other devices survive the cut |
| DeviceLists.WithoutInOrder | controllers/preparevg_controller.go:486-493 | the cut keeps the order |
| DeviceLists.RecordState | controllers/preparevg_controller.go:516-520 | the first state of the device is replaced, or a state added at the end |
| DeviceLists.RecordedExactly | controllers/preparevg_controller.go:512-521 | of the states a failed class had, the first of each unavailable device is replaced, the others stay, and each unavailable device without one gets one |
| DeviceLists.StatesExactly | controllers/preparevg_controller.go:556-588 | one state for each name, with the given health and message |
| DeviceLists.WantedExactly | controllers/preparevg_controller.go:407-415 | expansion asks for the device behind each automatic loop that has one, and for every other disk by its name |
| DeviceLists.WantedInOrder | controllers/preparevg_controller.go:407-415 | in the order of the spec |
| DeviceLists.AbsentInOrder | controllers/preparevg_controller.go:416-425 | and what is missing is taken in that order |
| DeviceLists.NamedExactly | controllers/preparevg_controller.go:457-464 | the spec names a device when some disk has its name |
| DeviceLists.ResolvedExactly | controllers/preparevg_controller.go:556-566 | a class goes into its group by the device behind each automatic loop that has one, and by the name of every other disk |
| ClassGroups.ExpandClass | controllers/preparevg_controller.go:396-444 | each missing device is either labelled or reported in error with a warning, and the labelled ones join the group and the report together or not at all, with the expansion error; commands are issued only when a device is missing, and then always on a healthy host; when nothing stands in the way all missing devices join |
| ClassGroups.LabelAll | controllers/preparevg_controller.go:407-428 | each device is labelled or reported as an error with the expansion warning, once each |
| ClassGroups.ShrinkClass | controllers/preparevg_controller.go:446-497 | when the members can be listed: a group of which the spec names no member is removed or its entry says delete error; otherwise exactly the unnamed members and their states go or the entry says shrink error; a logical volume in the way means no command at all, and on a healthy host nothing else prevents success |
| ClassGroups.ByPathRests | controllers/preparevg_controller.go:407-466 | devices given by path can always be reached, and a group that holds exactly them is left alone |
| ClassGroups.AutoLoopIdleExactly | controllers/preparevg_controller.go:409-460 | a class with an automatic loop whose device the spec does not name is never at rest; it is idle if and only if nothing is missing and a logical volume blocks the shrinking |
| ClassGroups.AutoLoopLosesGroup | controllers/preparevg_controller.go:409-480 | witness: a node on which nothing is missing and a run on a healthy host removes the group |
| Reconciliation.HoldsExactly | controllers/preparevg_controller.go:396-497 | after expansion and shrinking the group holds the spec's names if and only if each was a member or is resolved to |
| Reconciliation.MovedBySteps | controllers/preparevg_controller.go:396-497 | expansion and shrinking together issue a command for a class with a group on a healthy host if and only if the class is not idle |
| Reconciliation.ToldBySteps | controllers/preparevg_controller.go:396-497 | after expansion and shrinking the entry of a class tells of the commands that were issued, and nothing else |
| Reconciliation.StatesToldBySteps | controllers/preparevg_controller.go:416-493 | each device that joined and stays has an online state, each failed pvcreate an error state with the answer; earlier states of devices that are not released survive, on a healthy host those of released ones go, and no state is made up or doubled |
| Reconciliation.MessageToldBySteps | controllers/preparevg_controller.go:418-482 | the message names the last step that failed: delete, shrink, expand or the expand warning, and stays otherwise; on a healthy host shrinking fails exactly when a logical volume is in its way |
| PrepareVg.PrePareVg.ResolveDevices | controllers/preparevg_controller.go:556-574 | automatic loops are resolved in place, and exactly the devices that are neither skipped nor available are listed |
| PrepareVg.PrePareVg.CreateVg | controllers/preparevg_controller.go:550-599 | on success a new group of exactly the resolved devices, all reported online; otherwise no group changes and the fail entry says why, without any command when a device is unavailable; on a healthy host success is exactly that all devices are available and LVM does not refuse the group |
| PrepareVg.PrePareVg.CreateVgRetry | controllers/preparevg_controller.go:499-538 | the same for a class that failed before: on success the entry moves from the fail map to the success map without device states; otherwise the fail entry is kept, with each unavailable device recorded over its earlier state |
| PrepareVg.PrePareVg.CheckVgIfExpand | controllers/preparevg_controller.go:396-444 | expansion on the success map: the entry of the class becomes the report of what was labelled, failed and joined, and nothing else changes |
| PrepareVg.PrePareVg.CheckVgIfShrink | controllers/preparevg_controller.go:446-497 | shrinking on the success map: the class leaves it exactly when its whole group was removed without an error; every other failure after the listing is noted in its message |
| PrepareVg.PrePareVg.ReconcileRecorded | controllers/preparevg_controller.go:313-324 | expand then shrink ends with exactly the spec's devices if and only if they can be reached, then without removing the group; an idle class costs no command, and on a healthy host every other class with a group does; a group none of whose devices the spec names goes if and only if it carries no logical volume; the entry tells of each device that joined, failed or stayed, and of the step that failed |
| PrepareVg.PrePareVg.CheckVgIfDelete | controllers/preparevg_controller.go:362-394 | both maps keep exactly the classes of the spec, even where the removal failed; no group of the spec is touched; on a healthy host only groups with logical volumes outlive their class |
| PrepareVg.PrePareVg.ProvisionClass | controllers/preparevg_controller.go:311-340 | one class of the spec is reconciled, tried again or created, taking one of the three steps of the maps and touching no other group; when nothing stands in its way it ends as a success whose group holds exactly its devices |
| PrepareVg.PrePareVg.ProvisionWithNodeStatus | controllers/preparevg_controller.go:296-360 | for distinct groups and disjoint stored maps the run ends with disjoint maps of spec groups only, every spec group in exactly one of them or removed from the host by shrinking; when nothing stands in the way every group ends as a success with exactly its devices; a run on classes all at rest issues no command |
| PrepareVg.PrePareVg.FirstClass | controllers/preparevg_controller.go:236-245 | a group that exists is not taken over: no command, and a fail entry without a group name; any other is created |
| PrepareVg.PrePareVg.ProvisionFirst | controllers/preparevg_controller.go:217-294 | the same for the first run, which reports every group that existed as failed, removes nothing, and writes nothing when groups cannot be listed |
| PrepareVg.PrePareVg.UpdateVgStatus | controllers/preparevg_controller.go:663-686 | the report holds both maps and the registry, and keeps the rest |
| PrepareVg.PrePareVg.Provision | controllers/preparevg_controller.go:174-204 | whichever of the two runs: no logical volume is lost, the report partitions the spec's groups into successes, failures and removed ones and tells of each what was done, an unhindered spec is achieved and an achieved one left alone, loops ask for the devices created for them, and for specs that keep their binding a good record becomes a good record whose new lvmd classes are those of the spec |
| RunMaps.StepProgress | controllers/preparevg_controller.go:311-340 | each class step leaves every class handled so far in exactly one place and the others as they were |
| RunMaps.FinishProgress | controllers/preparevg_controller.go:342-342 | with the classes outside the spec dropped, the spec's groups are partitioned into successes, failures and removed groups |
| RunMaps.RunKeepsRecord | controllers/preparevg_controller.go:308-357 | the record a run writes again has disjoint maps and a configuration of exactly the successes, each with the spec's flag, new ones with every field of the spec |
| RunMaps.UpdatedFollows | controllers/preparevg_controller.go:601-652 | the entry of a group that was not recorded before is that of its class in the spec, field by field; any other is the old one of its group; the socket stays |
| RunStages.UnderwayNext | controllers/preparevg_controller.go:311-340 | each class step keeps what a run has reached so far: the classes handled are in exactly one place, those unhindered are provided, and those to come stay unhindered |
| ClassSteps.CreationIsTold | controllers/preparevg_controller.go:550-599 | a created class has exactly its devices in its group, all online; a class with unavailable devices has exactly those offline; a failed creation says so |
| ClassSteps.RetryIsTold | controllers/preparevg_controller.go:499-538 | the same for a class that failed before, whose entry is kept with each unavailable device recorded over it |
| RunStages.ToldNext | controllers/preparevg_controller.go:311-340 | each class step leaves the entries of the classes handled before telling what was done for them |
| RunStages.TraceIsTold | controllers/preparevg_controller.go:311-340 | so after the classes of a run every entry tells of its class |
| RunStages.LoopsResolved | controllers/preparevg_controller.go:655-661 | each automatic loop asks for the device of its entry, which is the one created for it in this run if any was |
| RunStages.ClosingStep | controllers/preparevg_controller.go:311-340 | giving one group its devices does not hinder a class with another group and other devices |
| ClassSteps.AttainableIsCreatable | controllers/preparevg_controller.go:550-599 | a class that is not hindered asks LVM for nothing that it refuses |
| ClassSteps.EmptyNodeIsOpen | controllers/preparevg_controller.go:217-245 | a node without groups hinders no spec whose devices are available |
| RunStages.EndRun | controllers/preparevg_controller.go:342-342 | the removal of what the spec does not have leaves the groups of the spec as they are |
| ClassSteps.HeldByPathIsQuiet | controllers/preparevg_controller.go:311-324 | recorded classes given by path whose groups hold their devices leave a run nothing to do |
| RunStages.GoodRun | controllers/preparevg_controller.go:308-357 | the record written after an unhindered run is one from which a run for the same spec issues no command |
| NodeHistory.RunJob | controllers/preparevg_controller.go:73-97 | one job with the change of logical volumes before it and the device checks after it: the volumes are those the users left, the record stays good, the loop devices created are those the spec wants from the registry it saw, an unhindered spec is achieved and an achieved one left alone |
| NodeHistory.JobRests | controllers/preparevg_controller.go:73-97 | what the users and the device checks do around a run does not matter to what it achieves or leaves alone |
| NodeHistory.RunHistory | controllers/preparevg_controller.go:73-97 | any sequence of jobs, each a run with its report: every removal harmless, the volumes those of the last accepted user change, the record good after every run, its phase never set, one loop device per name while runs complete |
| NodeHistory.RepeatRuns | controllers/preparevg_controller.go:73-97 | once the node holds what the spec asks for, any number of runs for it issue no command |
| NodeHistory.RunThenRepeat | controllers/preparevg_controller.go:73-97 | one unhindered run on a healthy host achieves the spec, and from then on only users change the node |
| NodeHistory.RunAfterAbort | controllers/preparevg_controller.go:161-205 | a run that follows one that wrote nothing creates again exactly the loop devices that both want and the registry has no success for |
| NodeHistory.CheckedMap | pkg/operator/discover/discover.go:297-309 | a device check leaves the groups and names of the success map as they are |
| NodeHistory.DeviceCheckKeepsRecord | pkg/operator/discover/discover.go:226-238 | device checks between runs keep a good record good and a settled node settled |
| ConfigMapPatch.PatchRestoresExactly | pkg/operator/k8sutil/configmap.go:86-105 | a patch applied to the document it was diffed from (section 2 of RFC 7396) gives the new document if and only if nothing that differs holds a null |
| ConfigMapPatch.PatchMergesData | pkg/operator/k8sutil/configmap.go:86-105 | applied to a document that has moved on, a patch of the data changes exactly the keys its writer changed |
| ConfigMapPatch.OwnUpdate | pkg/operator/discover/discover.go:226-238 | a writer that read its own keys as they are stored writes exactly its updates |
| ConfigMapPatch.Store.PatchConfigMap | pkg/operator/k8sutil/configmap.go:86-105 | patching a copy of an old reading has the effect of writing the changed keys now |
| ConfigMapPatch.Interleave | controllers/preparevg_controller.go:306-354 | under every interleaving of readings and patches by the two writers no update is lost or undone |
| ConfigMapPatch.DirectKeepsOthers | pkg/operator/discover/discover.go:231-233 | a key that no patch names keeps its value |
| StatusCheck.ScanPod | pkg/operator/monitor/status.go:122-146 | phase and metric of a pod |
| StatusCheck.ObserveNodes | pkg/operator/monitor/status.go:105-164 | every monitored node has the phase of its last pod, or Failure without one, and one metric per pod |
| StatusCheck.ApplyConditions | pkg/operator/monitor/status.go:166-184 | a NodeReady condition seen as Unknown overrides phase and metrics of that node only |
| StatusCheck.MergePhases | pkg/operator/monitor/status.go:187-202 | entries of monitored nodes change their phase only; each monitored node without one gets one entry, in any order |
| StatusCheck.DemoteClasses | pkg/operator/monitor/status.go:204-230 | entries without a ready class become Failure and raise their metrics; the cluster counts as ready by the phase before that |
| StatusCheck.CheckStatus | pkg/operator/monitor/status.go:63-254 | a check computes the status and metrics so specified and writes exactly when the status changed |
| StatusProperties.ClusterReadyExactly | pkg/operator/monitor/status.go:204-238 | the cluster is Ready if and only if a monitored node is observed Ready or an unmonitored entry was stored as Ready |
| StatusProperties.ReadyNodeReadyCluster | pkg/operator/monitor/status.go:205-238 | a node left Ready has a ready class and makes the cluster Ready |
| StatusProperties.CheckAgainExactly | pkg/operator/monitor/status.go:186-245 | a second check that sees the same changes nothing if and only if the cluster did not owe Ready to an unmonitored entry without a ready class |
| StatusProperties.CheckedReadyHasClass | pkg/operator/monitor/status.go:205-216 | after a check every entry that says Ready has a ready class |
| StatusProperties.ReadyHasClassIsSteady | pkg/operator/monitor/status.go:186-245 | from such a status a second check that sees the same changes nothing |
| StatusProperties.EditedStatusIsNotSteady | pkg/operator/monitor/status.go:186-245 | witness: a Ready entry without classes of a node that is not monitored, which only other hands can write |
| StatusProperties.ReadyExactly | pkg/operator/monitor/status.go:105-216 | a monitored node is Ready if and only if its pod runs with all containers ready, its condition is not seen as Unknown, and a success class is ready |
| StatusProperties.ObservedExactly | pkg/operator/monitor/status.go:105-184 | what is observed of a node by its last pod, its container readiness and its condition: Unknown, Failure, Pending or Ready, Failure without a pod |
| StatusProperties.PhaseExactly | pkg/operator/monitor/status.go:105-216 | every phase a monitored node can be left with: Failure without a ready class, else what is observed |
| StatusProperties.UnmonitoredExactly | pkg/operator/monitor/status.go:205-216 | an entry of a node that is not monitored keeps its phase or, without a ready class, becomes Failure |
| StatusProperties.EntriesExactly | pkg/operator/monitor/status.go:187-202 | stored entries keep all but their phase, and a new one is empty and a Failure |
| StatusProperties.MetricsExactly | pkg/operator/monitor/status.go:116-163 | one metric for each pod of a monitored node, 0 for a running one with all containers ready, and a 1 for a node without a pod |
| StatusProperties.MetricMatchesPhase | pkg/operator/monitor/status.go:105-224 | its metric is 0 if and only if its phase is Ready |
| StatusProperties.MonitoredHaveMetrics | pkg/operator/monitor/status.go:148-163 | every monitored node has a metric |
| StatusProperties.CheckedUnique | pkg/operator/monitor/status.go:187-202 | a check never gives a node a second entry |
| ClusterProtocol.ReplacedMembers | controllers/topolvmcluster_controller.go:278-290 | replace-or-append changes the entry of one node and keeps entries unique |
| ClusterProtocol.ReplacedExactly | controllers/topolvmcluster_controller.go:278-290 | the entry is replaced where it stands, or comes last |
| ClusterProtocol.Cluster.UpdateStatus | controllers/topolvmcluster_controller.go:263-299 | the loop with its early exit is replace-or-append and leaves the cluster phase alone |
| ClusterProtocol.Cluster.OnAdd | controllers/lvmdconfig_controller.go:283-295 | a decodable report replaces or appends the entry of its node, any other changes nothing |
| ClusterProtocol.Cluster.OnUpdate | controllers/lvmdconfig_controller.go:206-222 | a report whose text did not change is the one already stored; a changed decodable one replaces or appends the entry of its node |
| ClusterProtocol.CheckKeepsReports | pkg/operator/monitor/status.go:186-202 | a check keeps every delivered report up to its phase |
| ClusterProtocol.Interleave | controllers/lvmdconfig_controller.go:107-222 | under every interleaving of handlers and checks each event takes its step, there is one entry per node, equal up to its phase to the last decodable report of that node; and while reports do not claim to be Ready, a second check that sees the same changes nothing |
| DeviceCheck.CheckDeviceClass | pkg/operator/discover/discover.go:291-310 | nothing is written when a group cannot be listed; otherwise each success class is checked and nothing else changes |
| DeviceCheck.CheckedClassReady | pkg/operator/discover/discover.go:297-309 | a checked class is ready if and only if all its tracked devices are members of its group, and every other device is offline |
| DeviceCheck.CheckedDevices | pkg/operator/discover/discover.go:297-309 | a missing device becomes offline, any other keeps its state, and the class keeps all but its health |
| DeviceCheck.CheckIdempotent | pkg/operator/discover/discover.go:291-310 | a second device check changes nothing |
| DeviceCheck.ReadyNodeHasWholeClass | pkg/operator/monitor/status.go:205-216 | a node whose last delivered report was that of a device check, and which a status check leaves Ready, has a class with no tracked device missing |
| LvmReport.ParseOneLine | pkg/util/sys/lvm.go:273-290 | the fields of a line, or the index error of a token without a value or a prefix |
| LvmReport.TokenExactly | pkg/util/sys/lvm.go:275-287 | a token is a prefix of five characters and a key, an equals sign and a value in quotes; without an equals sign or a whole prefix it is out of range |
| LvmReport.TokensExactly | pkg/util/sys/lvm.go:273-290 | a line has the keys of its tokens, each with the value of its last token |
| LvmReport.TokensFailExactly | pkg/util/sys/lvm.go:273-290 | a line fails exactly when some token that is not empty does |
| LvmReport.ParseLines | pkg/util/sys/lvm.go:260-271 | the records of the non-empty lines, in order |
| LvmReport.LinesExactly | pkg/util/sys/lvm.go:260-271 | the records come in the order of the lines |
| LvmReport.OneLine | pkg/util/sys/lvm.go:263-269 | a line gives its record, an empty one nothing |
| LvmReport.LinesFailExactly | pkg/util/sys/lvm.go:260-271 | a report fails exactly when some line that is not empty does |
| LvmReport.ReportRoundTrip | pkg/util/sys/lvm.go:260-290 | parsing a printed report gives back its records, whatever blank lines lie between them |
| LvmReport.GetPhysicalVolume | pkg/util/sys/lvm.go:77-91 | the set of names in the parsed report |
| LvmReport.ReportedPvs | pkg/util/sys/lvm.go:77-91 | for a printed listing of a group that is exactly its members |
| Fields.AnyFieldOrder | pkg/util/sys/lvm.go:273-290 | the order of the fields of a record does not matter |
| Text.SplitJoined | pkg/util/sys/lvm.go:260-276 | splitting undoes joining for parts without the separator |
| Text.JoinedSplit | pkg/util/sys/lvm.go:260-276 | joining undoes splitting, and no part holds the separator |
| Text.TrimExactly | pkg/util/sys/lvm.go:274-285 | trimming cuts from both ends what is to be cut, and no more |
| Text.LowerExactly | pkg/util/sys/lvm.go:284-284 | upper-case ASCII letters become lower-case ones, and nothing else changes |
| Text.UpperExactly | pkg/util/sys/lvm.go:284-284 | the printer's upper case: lower-case ASCII letters become upper-case ones, and nothing else changes |
| Partitions.ParseKeyValuePairString | pkg/util/sys/device.go:317-334 | the pairs of a line with exactly one equals sign, quotes removed |
| Partitions.PairsExactly | pkg/util/sys/device.go:317-334 | tokens with another number of equals signs are passed over, and each key has the value of its last pair |
| Partitions.RemoveQuotesExactly | pkg/util/sys/device.go:327-329 | quotes are removed piece by piece |
| Partitions.UnquotedStays | pkg/util/sys/device.go:327-329 | wherever a quote is, it goes, and nothing else does |
| Partitions.PairsRoundTrip | pkg/util/sys/device.go:314-334 | any map of keys and values without space, equals sign or double quote is recovered from its line, whatever the order |
| Partitions.ParseUintExactly | pkg/util/sys/device.go:147-154 | exactly the decimal numerals of numbers below 2^64 are parsed, to that number, leading zeros or not |
| Partitions.GetDevicePartitions | pkg/util/sys/device.go:122-182 | succeeds exactly when all sizes and udev records are readable; the partitions are those listed; unused space and partitions make up the device modulo 2^64, and exactly if and only if the partitions fit |
| Partitions.PartitionsExactly | pkg/util/sys/device.go:146-176 | one partition for each row of a partition of the device, in order, with the name and size of its row and the label and filesystem of its udev record |
| Partitions.DeviceSizeExactly | pkg/util/sys/device.go:133-145 | the size of the device is that of its last row |
| Partitions.NoDeviceRow | pkg/util/sys/device.go:137-145 | without a row of its own the device has size 0 |
| Partitions.ReadableExactly | pkg/util/sys/device.go:133-165 | what has to be readable: the size of each row of the device or its partitions, and the udev record of each partition |
| Disks.DiscoverDevices | pkg/util/sys/disks.go:146-192 | exactly the described devices, in the order they are listed, without parents of children when asked so |
| Disks.DiscoveredExactly | pkg/util/sys/disks.go:146-192 | a listed device is found as it was described; a whole disk for which more than one line is listed only when parents are asked for |
| Disks.DiscoveredInOrder | pkg/util/sys/disks.go:154-188 | devices are found in the order they are listed |
| Disks.GetAllDevices | pkg/util/sys/disks.go:33-104 | every described device with its verdict, in the order they are listed |
| Disks.FlagExactly | pkg/util/sys/disks.go:33-104 | a device is flagged exactly when it is at least 2 GiB, has no filesystem and no mount point, and is no whole disk with more than one line under its kernel name |
| Disks.JudgedExactly | pkg/util/sys/disks.go:44-96 | each reason with its message |
| Disks.GetAvailableDevices | pkg/util/sys/disks.go:106-143 | exactly the free devices without children, under their /dev path |
| Disks.OfferedExactly | pkg/util/sys/disks.go:106-192 | a listed device is offered exactly when it is at least 2 GiB, has no filesystem and no mount point, and is no whole disk with more than one line listed for it |
| Disks.ScansAgreeExactly | pkg/util/sys/disks.go:33-192 | the scans offer the same devices if and only if listed name and kernel name agree on the children of every free whole disk; so when the names are equal |
| UdevDebounce.Swallow | pkg/operator/discover/discover.go:86-97 | the inner loop takes exactly the events up to the timer, and fails to fire only on a closed channel |
| UdevDebounce.UdevBlockMonitor | pkg/operator/discover/discover.go:59-100 | emissions are at least a period apart, each one period after its event, and while the channel is open every event is followed by one within a period |

## Left out

- The choice of a node's device classes from the three forms of the spec (controllers/preparevg_controller.go:123-172): a run takes the classes as given.
- Undecodable status.json or lvmd.yaml in a run, and a failing patch: encoding is taken as lossless and API calls as successful; `ClusterProtocol` does model undecodable reports.
- The device list of a run (`GetAvailableDevices`) is an arbitrary set of names, the snapshot of a scan arbitrary data: real lsblk, udevadm, sgdisk, losetup and LVM output is not part of this model.
- Commands with several arguments take effect as a whole or not at all.
- Within a run no logical volume appears between a check and the removal it guards; logical volumes change between runs only.
- `checkVgIfExpand` and `createVg` each have one loop where the model has two, first over the devices and then over the missing ones; the order of commands is the same.
- NodeHistory.RunHistory: does not model two runs on one node at the same time, because the job runs once at a time.
- ConfigMapPatch.Interleave: does not cover the device check, because it shares status.json with the reconciler and its patch carries no version; nor the first creation of the ConfigMap.
- ConfigMapPatch.PatchRestoresExactly: does not cover JSON arrays and the list directives of strategic merge patches, because no writer changes a list.
- ClusterProtocol.Interleave: does not model failing API calls or deployments, because they do not change the stored reports.
- LvmReport.ReportRoundTrip: letters outside ASCII are not case-folded.
- UdevDebounce.UdevBlockMonitor: does not model a consumer that is not ready, because then the delay is the consumer's.
- Error messages returned by commands are arbitrary text; checkDeviceClass reading and writing the ConfigMap, and metric delivery over the channel, are left to the store.
- Kubernetes clients, informers, leader election, deployments, jobs, manifests, certificates, finalizers and loggers.
- `ReSetupLoop`, `CreateLoop` and the life of the checker goroutine.

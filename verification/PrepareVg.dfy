/** The node-side reconciler: one run per PrePareVg object, against the LVM state of the node. */
module PrepareVg {
  import opened ClusterTypes
  import opened LvmHost
  import opened VolumeGroups
  import opened LoopRegistry
  import opened DeviceLists
  import opened ClassStatus
  import opened ClassGroups
  import opened Reconciliation
  import opened RunMaps
  import opened ClassSteps
  import opened RunStages
  import LvmdConfig

  class PrePareVg {
    const nodeName: string
    const host: Host
    var classes: seq<DeviceClass>  // nodeDevices.DeviceClasses
    var loopsState: seq<LoopState>
    var loopMap: LoopMap
    var sucClass: ClassMap         // local to a run in the source, passed by reference
    var failClass: ClassMap

    constructor (nodeName: string, host: Host, classes: seq<DeviceClass>, loopsState: seq<LoopState>)
      ensures this.nodeName == nodeName && this.host == host
      ensures this.classes == classes && this.loopsState == loopsState && loopMap == map[]
      ensures sucClass == map[] && failClass == map[]
    {
      this.nodeName, this.host := nodeName, host;
      this.classes, this.loopsState, loopMap := classes, loopsState, map[];
      sucClass, failClass := map[], map[];
    }

    ghost function Now(): Moment
      reads this, host
    {
      Moment(host.st, host.log, sucClass, failClass)
    }

    // ----- creation -----

    /** Resolves the automatic loops of class i in place and lists what is not available. */
    method ResolveDevices(i: nat, avail: set<string>) returns (missing: seq<string>)
      requires i < |classes|
      modifies this`classes
      ensures classes == old(classes)[i := old(classes[i]).(devices := ResolvedAll(old(classes[i]).devices, loopMap))]
      ensures missing == Missing(old(classes[i]).devices, loopMap, avail)
    {
      var dev := classes[i];
      var devices := dev.devices;
      missing := [];
      for index := 0 to |devices|
        invariant |devices| == |dev.devices|
        invariant classes == old(classes)[i := dev.(devices := devices)]
        invariant forall j :: 0 <= j < index ==> devices[j] == Resolved(dev.devices[j], loopMap)
        invariant forall j :: index <= j < |devices| ==> devices[j] == dev.devices[j]
        invariant missing == Missing(dev.devices[..index], loopMap, avail)
      {
        MissingStep(dev.devices, loopMap, avail, index);
        var disk := devices[index];
        if IsAutoLoop(disk) {
          var name := LoopDevice(disk.name, loopMap);
          if name == "" {
            continue;
          }
          disk := disk.(name := name);
          devices := devices[index := disk];
          classes := classes[i := dev.(devices := devices)];
        }
        if disk.name !in avail {
          missing := missing + [disk.name];
        }
      }
      assert dev.devices[..|devices|] == dev.devices;
      assert devices == ResolvedAll(dev.devices, loopMap);
    }

    method MakeGroup(made: DeviceClass) returns (suc: bool)
      requires host.Valid()
      modifies host
      ensures host.Valid()
      ensures GroupMade(host.healthy, made, [], old(host.st), old(host.log), host.st, host.log, suc)
    {
      var r := CreateVolumeGroup(host, DeviceNames(made.devices), made.vgName);
      suc := r.Ok?;
    }

    /** A group this run has not recorded yet. */
    method CreateVg(avail: set<string>, i: nat) returns (suc: bool)
      requires host.Valid() && i < |classes|
      modifies this`classes, this`sucClass, this`failClass, host
      ensures host.Valid()
      ensures |classes| == |old(classes)| && classes == old(classes)[i := classes[i]]
      ensures CreateEffect(host.healthy, avail, loopMap, old(classes)[i], classes[i], old(Now()), Now(), suc)
    {
      var missing := ResolveDevices(i, avail);
      var dev := classes[i];
      var states := States(missing, Offline, DISK_UNAVAILABLE);
      var classState := ClassState(dev.className, dev.vgName, ClassUnset, "", states);
      if missing != [] {
        failClass := failClass[dev.vgName := classState];
        return false;
      }
      suc := MakeGroup(dev);
      if !suc {
        classState := classState.(message := CLASS_CREATE_FAIL, state := ClassUnReady, deviceStates := []);
        failClass := failClass[dev.vgName := classState];
        return;
      }
      classState := classState.(state := ClassReady, message := CLASS_CREATE_SUCCESSFUL,
                                deviceStates := States(DeviceNames(dev.devices), Online, ""));
      sucClass := sucClass[dev.vgName := classState];
    }

    /** A group that failed before. */
    method CreateVgRetry(avail: set<string>, i: nat) returns (suc: bool)
      requires host.Valid() && i < |classes| && classes[i].vgName in failClass
      modifies this`classes, this`sucClass, this`failClass, host
      ensures host.Valid()
      ensures |classes| == |old(classes)| && classes == old(classes)[i := classes[i]]
      ensures RetryEffect(host.healthy, avail, loopMap, old(classes)[i], classes[i], old(Now()), Now(), suc)
    {
      ghost var before := Now();
      var missing := ResolveDevices(i, avail);
      var dev := classes[i];
      var states := RecordMissing(failClass[dev.vgName].deviceStates, missing);
      failClass := failClass[dev.vgName := failClass[dev.vgName].(deviceStates := states)];
      if missing != [] {
        return false;
      }
      suc := MakeGroup(dev);
      if !suc {
        return;
      }
      sucClass := sucClass[dev.vgName :=
        ClassState(dev.className, dev.vgName, ClassReady, CLASS_CREATE_SUCCESSFUL, [])];
      failClass := failClass - {dev.vgName};
      assert failClass == before.fail - {dev.vgName};
    }

    // ----- expansion and shrinking -----

    method CheckVgIfExpand(i: nat)
      returns (r: Outcome, ghost errors: seq<DeviceState>, ghost newPvs: seq<string>, ghost extended: bool)
      requires host.Valid() && i < |classes| && classes[i].vgName in sucClass
      modifies this`sucClass, host
      ensures host.Valid()
      ensures ExpandEffect(host.healthy, old(host.st), old(host.log), host.st, host.log, classes[i], loopMap,
                           errors, newPvs, extended)
      ensures var vg := classes[i].vgName;
        sucClass == old(sucClass)[vg := ExpandReport(old(sucClass)[vg], errors, newPvs, extended)]
    {
      var state;
      state, r, errors, newPvs, extended := ExpandClass(host, classes[i], loopMap, sucClass[classes[i].vgName]);
      sucClass := sucClass[classes[i].vgName := state];
    }

    /** Shrinking: releases what the spec no longer names, or removes the whole group when it names
        none of what is there. */
    method CheckVgIfShrink(i: nat) returns (r: Outcome, ghost listed: bool)
      requires host.Valid() && i < |classes| && classes[i].vgName in sucClass
      modifies this`sucClass, host
      ensures host.Valid()
      ensures var vg := classes[i].vgName;
        && sucClass == (if vg in sucClass then old(sucClass)[vg := sucClass[vg]] else old(sucClass) - {vg})
        && ShrinkEffect(host.healthy, old(host.st), old(host.log), host.st, host.log, classes[i], old(sucClass)[vg],
                        if vg in sucClass then sucClass[vg] else old(sucClass)[vg], listed, vg !in sucClass, r.Ok?)
    {
      var vg := classes[i].vgName;
      var state, dropped;
      state, dropped, r, listed := ShrinkClass(host, classes[i], sucClass[vg]);
      if dropped {
        sucClass := sucClass - {vg};
      } else {
        sucClass := sucClass[vg := state];
      }
    }

    /** A class that is recorded as a success: expand, then shrink. */
    method ReconcileRecorded(i: nat)
      requires host.Valid() && i < |classes| && classes[i].vgName in sucClass
      modifies this`sucClass, host
      ensures host.Valid()
      ensures Reconciled(host.healthy, old(host.st), old(host.log), host.st, host.log, classes[i], loopMap,
                         old(sucClass), sucClass)
    {
      ghost var before, dev := Now(), classes[i];
      var r, errors, newPvs, extended := CheckVgIfExpand(i);
      ghost var mid := Now();
      ghost var listed;
      r, listed := CheckVgIfShrink(i);
      ReconciledBySteps(host.healthy, before.h, before.log, mid.h, mid.log, host.st, host.log, dev, loopMap,
                        errors, newPvs, extended, before.suc, mid.suc, sucClass, listed, r.Ok?);
    }

    // ----- one run -----

    /** One class of the spec. */
    method ProvisionClass(avail: set<string>, i: nat) returns (created: bool)
      requires host.Valid() && i < |classes|
      modifies this`classes, this`sucClass, this`failClass, host
      ensures host.Valid()
      ensures |classes| == |old(classes)| && classes == old(classes)[i := classes[i]]
      ensures Handled(host.healthy, false, avail, loopMap, old(classes)[i], classes[i], created, old(Now()), Now())
    {
      ghost var before, dev := Now(), classes[i];
      var vg := classes[i].vgName;
      if vg in sucClass {
        ReconcileRecorded(i);
        created := false;
        ReconciledIsHandled(host.healthy, avail, loopMap, dev, before, Now());
      } else if vg in failClass {
        created := CreateVgRetry(avail, i);
        RetriedIsHandled(host.healthy, avail, loopMap, dev, classes[i], before, Now(), created);
      } else {
        created := CreateVg(avail, i);
        CreatedIsHandled(host.healthy, false, avail, loopMap, dev, classes[i], before, Now(), created);
      }
    }

    method InSpec(vg: string) returns (found: bool)
      ensures found == (vg in VgNames(classes))
    {
      for i := 0 to |classes|
        invariant forall j :: 0 <= j < i ==> classes[j].vgName != vg
      {
        if classes[i].vgName == vg {
          assert classes[i] in classes;
          return true;
        }
      }
      found := false;
    }

    method DropSuccess(vg: string)
      requires host.Valid() && vg in sucClass
      modifies this`sucClass, host
      ensures host.Valid() && old(host.log) <= host.log && host.st.lvs == old(host.st.lvs)
      ensures sucClass == old(sucClass) - {vg}
      ensures host.st.vgs == old(host.st.vgs) || host.st.vgs == old(host.st.vgs) - {vg}
      ensures host.healthy && vg in host.st.vgs ==> VgCarriesLv(host.st, vg)
    {
      var r := RemoveVolumeGroup(host, vg);
      if r.Err? {
        sucClass := sucClass[vg := sucClass[vg].(message := CLASS_DELETE_ERROR)];
      }
      sucClass := sucClass - {vg};
    }

    method DropFailures()
      modifies this`failClass
      ensures failClass == old(failClass) - (old(failClass).Keys - VgNames(classes))
    {
      var rest := failClass.Keys;
      while rest != {}
        invariant rest <= old(failClass).Keys && classes == old(classes)
        invariant failClass == old(failClass) - ((old(failClass).Keys - rest) - VgNames(classes))
      {
        var vg :| vg in rest;
        var found := InSpec(vg);
        if !found {
          failClass := failClass - {vg};
        }
        rest := rest - {vg};
      }
      assert old(failClass).Keys - rest == old(failClass).Keys;
    }

    /** Drops what the spec no longer has. A success goes from the map even when its group could not
        be removed. */
    method CheckVgIfDelete()
      requires host.Valid()
      modifies this`sucClass, this`failClass, host
      ensures host.Valid() && old(host.log) <= host.log && host.st.lvs == old(host.st.lvs)
      ensures sucClass == old(sucClass) - (old(sucClass).Keys - VgNames(classes))
      ensures failClass == old(failClass) - (old(failClass).Keys - VgNames(classes))
      ensures Trimmed(old(host.st), host.st, old(sucClass).Keys - VgNames(classes), host.healthy)
      ensures old(sucClass).Keys <= VgNames(classes) ==> host.log == old(host.log) && host.st == old(host.st)
    {
      var rest := sucClass.Keys;
      ghost var dropped: set<string> := {};
      while rest != {}
        invariant rest <= old(sucClass).Keys
        invariant host.Valid() && old(host.log) <= host.log && host.st.lvs == old(host.st.lvs)
        invariant classes == old(classes) && failClass == old(failClass)
        invariant dropped == (old(sucClass).Keys - rest) - VgNames(classes)
        invariant sucClass == old(sucClass) - dropped
        invariant Trimmed(old(host.st), host.st, dropped, host.healthy)
        invariant dropped == {} ==> host.log == old(host.log) && host.st == old(host.st)
      {
        var vg :| vg in rest;
        var found := InSpec(vg);
        if !found {
          ghost var h := host.st;
          DropSuccess(vg);
          TrimmedMore(old(host.st), h, host.st, dropped, vg, host.healthy);
          dropped := dropped + {vg};
        }
        rest := rest - {vg};
      }
      assert old(sucClass).Keys - rest == old(sucClass).Keys;
      DropFailures();
    }

    /** One iteration of the loop over the classes of the spec. */
    method ProvisionNext(avail: set<string>, i: nat, before: seq<DeviceClass>, ghost spec: seq<DeviceClass>,
                         ghost start: Moment, ghost trace: seq<Step>)
      returns (newVgs: seq<DeviceClass>, ghost steps: seq<Step>)
      requires host.Valid() && i < |spec| && InStep(spec, classes, i)
      requires |trace| == i && Now() == Last(start, trace) && Collected(trace, before)
      requires Traced(host.healthy, avail, loopMap, spec, start, trace)
      modifies this`classes, this`sucClass, this`failClass, host
      ensures host.Valid() && InStep(spec, classes, i + 1)
      ensures |steps| == i + 1 && Now() == Last(start, steps) && Collected(steps, newVgs)
      ensures Traced(host.healthy, avail, loopMap, spec, start, steps)
    {
      var created := ProvisionClass(avail, i);
      newVgs := Grown(before, classes[i], created);
      ghost var step := Step(classes[i], created, Now());
      TraceGrows(host.healthy, avail, loopMap, spec, start, trace, step);
      InStepNext(spec, old(classes), i, classes[i]);
      CollectedGrows(trace, before, step);
      steps := trace + [step];
    }

    /** The loop over the classes of the spec. */
    method ProvisionClasses(avail: set<string>) returns (newVgs: seq<DeviceClass>, ghost steps: seq<Step>)
      requires host.Valid()
      modifies this`classes, this`sucClass, this`failClass, host
      ensures host.Valid() && SameClasses(old(classes), classes)
      ensures |steps| == |classes| && Now() == Last(old(Now()), steps) && Collected(steps, newVgs)
      ensures Traced(host.healthy, avail, loopMap, old(classes), old(Now()), steps)
    {
      ghost var spec, start := classes, Now();
      newVgs, steps := [], [];
      for i := 0 to |classes|
        invariant host.Valid() && InStep(spec, classes, i)
        invariant |steps| == i && Now() == Last(start, steps) && Collected(steps, newVgs)
        invariant Traced(host.healthy, avail, loopMap, spec, start, steps)
      {
        newVgs, steps := ProvisionNext(avail, i, newVgs, spec, start, steps);
      }
    }

    /** The loop over the classes, and the removal of the others. */
    method ProvisionAndDelete(avail: set<string>) returns (newVgs: seq<DeviceClass>, ghost gone: set<string>)
      requires host.Valid()
      modifies this`classes, this`sucClass, this`failClass, host
      ensures host.Valid() && SameClasses(old(classes), classes)
      ensures RunEnded(host.healthy, false, avail, loopMap, old(classes), old(Now()), Now(), newVgs, gone)
    {
      ghost var spec, start := classes, Now();
      ghost var steps;
      newVgs, steps := ProvisionClasses(avail);
      gone := GoneIn(spec, start, steps);
      ghost var now := Now();
      SameVgNames(spec, classes);
      CheckVgIfDelete();
      TraceIsUnderway(host.healthy, avail, loopMap, spec, start, steps, newVgs);
      if DistinctVgs(spec) {
        TraceIsTold(host.healthy, avail, loopMap, spec, start, steps);
      }
      EndRun(host.healthy, avail, loopMap, spec, start, now, Now(), newVgs, gone);
    }

    /** updateVgStatus: the report of this run, over the one it started from. */
    method UpdateVgStatus(state: NodeStorageState) returns (status: NodeStorageState)
      ensures status == state.(failClasses := status.failClasses, successClasses := status.successClasses,
                               loops := loopsState)
      ensures Enumerates(status.successClasses, sucClass) && Enumerates(status.failClasses, failClass)
    {
      var sucSlice := CollectStates(sucClass);
      var failSlice := CollectStates(failClass);
      status := state.(failClasses := failSlice, successClasses := sucSlice, loops := loopsState);
    }

    method LoadMaps(rec: NodeRecord)
      requires rec.status.Some?
      modifies this`sucClass, this`failClass
      ensures sucClass == Successes(rec) && failClass == Failures(rec)
      ensures Keyed(sucClass) && Keyed(failClass)
    {
      sucClass := GetVgNameMap(rec.status.value.successClasses);
      failClass := GetVgNameMap(rec.status.value.failClasses);
      MapIsKeyed(rec.status.value.successClasses);
      MapIsKeyed(rec.status.value.failClasses);
    }

    method WriteRecord(state: NodeStorageState, lvmd: Option<LvmdConf>) returns (rec': NodeRecord)
      ensures Written(rec', sucClass, failClass) && rec'.lvmd == lvmd
      ensures rec'.status.value == state.(failClasses := rec'.status.value.failClasses,
                successClasses := rec'.status.value.successClasses, loops := loopsState)
    {
      var status := UpdateVgStatus(state);
      rec' := NodeRecord(Some(status), lvmd);
    }

    /** A run on a node that has reported before. */
    method ProvisionWithNodeStatus(avail: set<string>, rec: NodeRecord)
      returns (rec': NodeRecord, newVgs: seq<DeviceClass>, ghost gone: set<string>)
      requires host.Valid() && rec.status.Some?
      modifies this`classes, this`sucClass, this`failClass, host
      ensures host.Valid() && SameClasses(old(classes), classes)
      ensures RunEnded(host.healthy, false, avail, loopMap, old(classes),
                       StartOf(old(host.st), old(host.log), rec), Now(), newVgs, gone)
      ensures Written(rec', sucClass, failClass)
      ensures rec'.status.value == rec.status.value.(failClasses := rec'.status.value.failClasses,
                successClasses := rec'.status.value.successClasses, loops := loopsState)
      ensures rec'.lvmd == LvmdConfig.Updated(rec.lvmd, classes, newVgs, sucClass)
    {
      LoadMaps(rec);
      newVgs, gone := ProvisionAndDelete(avail);
      var lvmd := LvmdConfig.UpdateLvmdConf(rec.lvmd, classes, newVgs, sucClass);
      rec' := WriteRecord(rec.status.value, lvmd);
    }

    // ----- the first run -----

    /** One class of the first run. */
    method FirstClass(avail: set<string>, vgs: set<string>, i: nat) returns (created: bool)
      requires host.Valid() && i < |classes|
      modifies this`classes, this`sucClass, this`failClass, host
      ensures host.Valid()
      ensures |classes| == |old(classes)| && classes == old(classes)[i := classes[i]]
      ensures FirstEffect(host.healthy, avail, loopMap, vgs, old(classes)[i], classes[i], old(Now()), Now(), created)
    {
      var dev := classes[i];
      if dev.vgName in vgs {
        failClass := failClass[dev.vgName := ClassState(dev.className, "", ClassUnReady, VG_EXISTING, [])];
        created := false;
      } else {
        created := CreateVg(avail, i);
      }
    }

    method FirstNext(avail: set<string>, vgs: set<string>, i: nat, before: seq<DeviceClass>,
                     ghost spec: seq<DeviceClass>, ghost start: Moment, ghost trace: seq<Step>)
      returns (newVgs: seq<DeviceClass>, ghost steps: seq<Step>)
      requires host.Valid() && i < |spec| && InStep(spec, classes, i)
      requires |trace| == i && Now() == Last(start, trace) && Collected(trace, before)
      requires FirstTraced(host.healthy, avail, loopMap, spec, vgs, start, trace)
      modifies this`classes, this`sucClass, this`failClass, host
      ensures host.Valid() && InStep(spec, classes, i + 1)
      ensures |steps| == i + 1 && Now() == Last(start, steps) && Collected(steps, newVgs)
      ensures FirstTraced(host.healthy, avail, loopMap, spec, vgs, start, steps)
    {
      var created := FirstClass(avail, vgs, i);
      newVgs := Grown(before, classes[i], created);
      ghost var step := Step(classes[i], created, Now());
      FirstTraceGrows(host.healthy, avail, loopMap, spec, vgs, start, trace, step);
      InStepNext(spec, old(classes), i, classes[i]);
      CollectedGrows(trace, before, step);
      steps := trace + [step];
    }

    method FirstClasses(avail: set<string>, vgs: set<string>)
      returns (newVgs: seq<DeviceClass>, ghost steps: seq<Step>)
      requires host.Valid()
      modifies this`classes, this`sucClass, this`failClass, host
      ensures host.Valid() && SameClasses(old(classes), classes)
      ensures |steps| == |classes| && Now() == Last(old(Now()), steps) && Collected(steps, newVgs)
      ensures FirstTraced(host.healthy, avail, loopMap, old(classes), vgs, old(Now()), steps)
    {
      ghost var spec, start := classes, Now();
      newVgs, steps := [], [];
      for i := 0 to |classes|
        invariant host.Valid() && InStep(spec, classes, i)
        invariant |steps| == i && Now() == Last(start, steps) && Collected(steps, newVgs)
        invariant FirstTraced(host.healthy, avail, loopMap, spec, vgs, start, steps)
      {
        newVgs, steps := FirstNext(avail, vgs, i, newVgs, spec, start, steps);
      }
    }

    /** A run on a node that has not reported yet. It writes nothing when the groups cannot be
        listed. */
    method ProvisionFirst(avail: set<string>, rec: NodeRecord)
      returns (rec': NodeRecord, done: bool, newVgs: seq<DeviceClass>)
      requires host.Valid() && rec.status.None?
      requires sucClass == failClass == map[]
      modifies this`classes, this`sucClass, this`failClass, host
      ensures host.Valid() && old(host.log) <= host.log && NoVgRemove(host.log, |old(host.log)|)
      ensures host.st.lvs == old(host.st.lvs)
      ensures host.healthy ==> done
      ensures !done ==> rec' == rec && host.log == old(host.log)
      ensures done ==> SameClasses(old(classes), classes) && Written(rec', sucClass, failClass)
      ensures done ==> rec'.status.value.node == nodeName && rec'.status.value.loops == loopsState
      ensures done ==> rec'.status.value.phase == ConditionUnset
      ensures done ==> rec'.lvmd == LvmdConfig.Created(rec.lvmd, newVgs)
      ensures done && DistinctVgs(old(classes)) ==>
                && (forall d :: d in old(classes) && d.vgName in old(host.st.vgs) ==> IsTaken(d, failClass))
                && RunEnded(host.healthy, true, avail, loopMap, old(classes), old(Now()), Now(), newVgs, {})
    {
      ghost var spec, start := classes, Now();
      var vgs;
      done, vgs := host.ListVgs();
      if !done {
        rec', newVgs := rec, [];
        return;
      }
      ghost var steps;
      newVgs, steps := FirstClasses(avail, vgs);
      FirstTraceIsBegun(host.healthy, avail, loopMap, spec, vgs, start, steps, newVgs);
      if DistinctVgs(spec) {
        FirstTraceIsTold(host.healthy, avail, loopMap, spec, vgs, start, steps, newVgs);
        EndFirst(host.healthy, avail, loopMap, spec, vgs, start, Now(), newVgs);
      }
      var lvmd := LvmdConfig.CreateLvmdConf(rec.lvmd, newVgs);
      rec' := WriteRecord(NodeStorageState(nodeName, ConditionUnset, [], [], []), lvmd);
    }

    // ----- all runs -----

    /** The loop devices of the spec, when the cluster uses any. */
    method CheckLoops(useLoop: bool) returns (ghost calls: seq<string>, ghost answers: map<string, LoopAnswer>)
      modifies this`loopsState, this`loopMap
      ensures LoopsChecked(useLoop, old(classes), old(loopsState), old(loopMap), loopsState, loopMap, calls, answers)
    {
      calls, answers := [], map[];
      if useLoop {
        loopsState, loopMap, calls, answers := CheckClasses(classes, loopsState, loopMap);
        LoopsResolved(classes, old(loopsState), old(loopMap), loopsState, loopMap, calls, answers);
      }
    }

    /** The classes of the spec, as a first run or a later one. */
    method ProvisionOnce(avail: set<string>, rec: NodeRecord)
      returns (rec': NodeRecord, done: bool, newVgs: seq<DeviceClass>, ghost gone: set<string>)
      requires host.Valid()
      requires sucClass == failClass == map[]
      modifies this`classes, this`sucClass, this`failClass, host
      ensures host.Valid() && old(host.log) <= host.log && host.st.lvs == old(host.st.lvs)
      ensures host.healthy || rec.status.Some? ==> done
      ensures !done ==> rec' == rec && host.log == old(host.log)
      ensures done ==> SameClasses(old(classes), classes)
      ensures done ==> Written(rec', sucClass, failClass) && rec'.status.value.loops == loopsState
      ensures done ==> rec'.status.value.phase == PhaseOf(rec)
      ensures done ==> rec'.lvmd == LvmdOf(rec, classes, newVgs, sucClass)
      ensures done && DistinctVgs(old(classes)) ==>
                RunEnded(host.healthy, rec.status.None?, avail, loopMap, old(classes),
                         StartOf(old(host.st), old(host.log), rec), Now(), newVgs, gone)
    {
      if rec.status.Some? {
        rec', newVgs, gone := ProvisionWithNodeStatus(avail, rec);
        done := true;
      } else {
        gone := {};
        rec', done, newVgs := ProvisionFirst(avail, rec);
      }
    }

    /** A run. */
    method Provision(avail: set<string>, useLoop: bool, rec: NodeRecord, ghost bind: map<string, string>)
      returns (rec': NodeRecord, done: bool, ghost calls: seq<string>, ghost answers: map<string, LoopAnswer>,
               ghost gone: set<string>)
      requires host.Valid()
      requires sucClass == failClass == map[]
      modifies this, host
      ensures host.Valid() && old(host.log) <= host.log && host.st.lvs == old(host.st.lvs)
      ensures LoopsChecked(useLoop, old(classes), old(loopsState), old(loopMap), loopsState, loopMap, calls, answers)
      ensures host.healthy || rec.status.Some? ==> done
      ensures !done ==> rec' == rec && host.log == old(host.log)
      ensures done ==> Written(rec', sucClass, failClass) && rec'.status.value.loops == loopsState
      ensures done ==> rec'.status.value.phase == PhaseOf(rec)
      ensures done ==>
                Outcomes(host.healthy, avail, loopMap, old(classes), rec, old(host.st), old(host.log),
                         rec', Now(), gone)
      ensures done ==> KeepsGood(bind, old(classes), rec, rec')
    {
      calls, answers := CheckLoops(useLoop);
      ghost var newVgs;
      rec', done, newVgs, gone := ProvisionOnce(avail, rec);
      if done && DistinctVgs(old(classes)) {
        ghost var start := StartOf(old(host.st), old(host.log), rec);
        GoodRun(host.healthy, rec.status.None?, avail, loopMap, old(classes), rec, rec', start, Now(), newVgs, gone);
        RecordKept(bind, host.healthy, rec.status.None?, avail, loopMap, old(classes), classes, rec, rec', start, Now(),
                   newVgs, gone);
      }
    }
  }
}

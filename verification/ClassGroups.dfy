/** What the reconciler does to the volume group of one class, on the host and on the entry of the
    class in a report. */
module ClassGroups {
  import opened ClusterTypes
  import opened LvmHost
  import opened VolumeGroups
  import opened LoopRegistry
  import opened DeviceLists
  import opened ClassStatus

  const CLASS_EXPAND_WARNING := "expand warning"
  const CLASS_EXPAND_ERROR := "expand error"
  const CLASS_SHRINK_ERROR := "shrink error"
  const CLASS_DELETE_ERROR := "delete error"
  const CLASS_CREATE_SUCCESSFUL := "create successful"
  const CLASS_CREATE_FAIL := "create failed"
  const VG_EXISTING := "create failed vg existing"
  const DISK_UNAVAILABLE := "disk may has filesystem or is not raw disk please check"

  /** Nothing but this group was created, changed or removed. */
  ghost predicate OthersKept(before: HostState, after: HostState, vg: string) {
    forall v :: v != vg ==>
      (v in before.vgs <==> v in after.vgs) && (v in before.vgs ==> before.vgs[v] == after.vgs[v])
  }

  /** The names an availability check misses: the devices that are neither skipped nor available. */
  function Missing(devices: seq<Disk>, loopMap: LoopMap, avail: set<string>): seq<string> {
    Absent(Wanted(devices, loopMap), avail)
  }

  lemma MissingStep(devices: seq<Disk>, loopMap: LoopMap, avail: set<string>, n: nat)
    requires n < |devices|
    ensures Missing(devices[..n + 1], loopMap, avail) == Missing(devices[..n], loopMap, avail)
              + if Skipped(devices[n], loopMap) || Resolved(devices[n], loopMap).name in avail then []
                else [Resolved(devices[n], loopMap).name]
  {
    assert devices[..n + 1][..n] == devices[..n];
    var front := Wanted(devices[..n], loopMap);
    if !Skipped(devices[n], loopMap) {
      assert (front + [Resolved(devices[n], loopMap).name])[..|front|] == front;
    } else {
      assert front + [] == front;
    }
  }

  /** Only groups in dropped are missing, and on a healthy host only their logical volumes kept any
      of them. */
  ghost predicate Trimmed(before: HostState, after: HostState, dropped: set<string>, healthy: bool) {
    && (forall v :: v in after.vgs ==> v in before.vgs && after.vgs[v] == before.vgs[v])
    && (forall v :: v in before.vgs && v !in after.vgs ==> v in dropped)
    && (healthy ==> forall v :: v in dropped && v in after.vgs ==> VgCarriesLv(after, v))
  }

  lemma TrimmedMore(h: HostState, mid: HostState, after: HostState, dropped: set<string>, vg: string, healthy: bool)
    requires Trimmed(h, mid, dropped, healthy) && after.lvs == mid.lvs
    requires after.vgs == mid.vgs || after.vgs == mid.vgs - {vg}
    requires healthy && vg in after.vgs ==> VgCarriesLv(after, vg)
    ensures Trimmed(h, after, dropped + {vg}, healthy)
  {
  }

  method RecordMissing(before: seq<DeviceState>, missing: seq<string>) returns (states: seq<DeviceState>)
    ensures states == RecordedAll(before, missing, DISK_UNAVAILABLE)
  {
    states := before;
    for index := 0 to |missing|
      invariant states == RecordedAll(before, missing[..index], DISK_UNAVAILABLE)
    {
      assert missing[..index + 1][..index] == missing[..index];
      states := RecordState(states, DeviceState(missing[index], DeviceUnset, DISK_UNAVAILABLE));
    }
    assert missing[..|missing|] == missing;
  }

  /** Nothing stands in the way of an expansion: the group is there, its devices are distinct, and
      those it lacks are in no group. */
  ghost predicate Expandable(healthy: bool, h: HostState, dev: DeviceClass, loopMap: LoopMap) {
    && healthy && dev.vgName in h.vgs && Distinct(Wanted(dev.devices, loopMap))
    && forall n :: n in Wanted(dev.devices, loopMap) && n !in h.vgs[dev.vgName] ==> !InSomeVg(h, n)
  }

  function SpecNames(dev: DeviceClass): set<string> {
    Elements(DeviceNames(dev.devices))
  }

  ghost predicate NothingToShrink(h: HostState, dev: DeviceClass) {
    dev.vgName in h.vgs && h.vgs[dev.vgName] <= SpecNames(dev)
  }

  ghost predicate Narrowed(before: HostState, after: HostState, vg: string) {
    vg in after.vgs ==> vg in before.vgs && after.vgs[vg] <= before.vgs[vg]
  }

  /** The spec names no member of the group: it is going to be removed. */
  ghost predicate ShrinksAway(h: HostState, dev: DeviceClass) {
    dev.vgName in h.vgs && h.vgs[dev.vgName] != {} && h.vgs[dev.vgName] !! SpecNames(dev)
  }

  /** Some members stay, some go, and those that go carry no logical volume. */
  ghost predicate Shrinkable(h: HostState, dev: DeviceClass) {
    && dev.vgName in h.vgs && !NothingToShrink(h, dev) && !ShrinksAway(h, dev)
    && forall p :: p in h.vgs[dev.vgName] - SpecNames(dev) ==> !PvCarriesLv(h, p)
  }

  /** Some members stay, some should go, and one of those carries a logical volume. */
  ghost predicate Stuck(h: HostState, dev: DeviceClass) {
    dev.vgName in h.vgs && !NothingToShrink(h, dev) && !ShrinksAway(h, dev) && !Shrinkable(h, dev)
  }

  /** The group keeps exactly the members the spec names, and the report exactly the states of other
      devices than those released. */
  ghost predicate Shrunk(before: HostState, after: HostState, dev: DeviceClass, was: ClassState, state: ClassState)
  {
    && dev.vgName in before.vgs && dev.vgName in after.vgs
    && after.vgs[dev.vgName] == before.vgs[dev.vgName] * SpecNames(dev)
    && state == was.(deviceStates := state.deviceStates) && |state.deviceStates| <= |was.deviceStates|
    && forall s :: s in state.deviceStates <==>
         s in was.deviceStates && s.name !in before.vgs[dev.vgName] - SpecNames(dev)
  }

  /** A logical volume stands in the way of what shrinking would take. */
  ghost predicate Blocked(h: HostState, dev: DeviceClass) {
    Stuck(h, dev) || (ShrinksAway(h, dev) && VgCarriesLv(h, dev.vgName))
  }

  /** What shrinking does to the node and to the entry of the class. The group may be dropped, and the
      entry with it; listed says whether the members could be listed, ok whether no error came back. */
  ghost predicate ShrinkEffect(healthy: bool, h: HostState, log: seq<Entry>, h': HostState, log': seq<Entry>,
                               dev: DeviceClass, was: ClassState, state: ClassState,
                               listed: bool, dropped: bool, ok: bool)
  {
    && log <= log' && h'.lvs == h.lvs && OthersKept(h, h', dev.vgName) && Narrowed(h, h', dev.vgName)
    && state == was.(message := state.message, deviceStates := state.deviceStates)
    && (listed ==> dev.vgName in h.vgs)
    && (healthy && dev.vgName in h.vgs ==> listed)
    && (!listed || NothingToShrink(h, dev) ==> log' == log && h' == h && state == was && !dropped && ok == listed)
    && (!ShrinksAway(h, dev) ==> !dropped && NoVgRemove(log', |log|))
    && (dropped ==> dev.vgName in h.vgs && h'.vgs == h.vgs - {dev.vgName})
    && (listed && !NothingToShrink(h, dev) ==> ShrinkReport(h, h', dev, was, state, dropped, ok))
    && (Blocked(h, dev) ==> !ok && log' == log && h' == h)
    && (listed && !NothingToShrink(h, dev) && healthy && !Blocked(h, dev) ==> ok && log' != log)
    && OnlyRemovals(log'[|log|..], ok) && (log' == log ==> h' == h)
    && (ShrinksAway(h, dev) && log' != log ==> log'[|log|].command.VgRemove?)
  }

  /** Success drops the group when the spec names none of it, and cuts it down otherwise; each failure is
      noted in the message. */
  ghost predicate ShrinkReport(h: HostState, h': HostState, dev: DeviceClass, was: ClassState, state: ClassState,
                               dropped: bool, ok: bool)
  {
    if ShrinksAway(h, dev) then
      (ok <==> dropped) && state == if ok then was else was.(message := CLASS_DELETE_ERROR)
    else if ok then
      Shrunk(h, h', dev, was, state)
    else
      state == was.(message := CLASS_SHRINK_ERROR)
  }

  method ShrinkClass(host: Host, dev: DeviceClass, before: ClassState)
    returns (state: ClassState, dropped: bool, r: Outcome, ghost listed: bool)
    requires host.Valid()
    modifies host
    ensures host.Valid()
    ensures ShrinkEffect(host.healthy, old(host.st), old(host.log), host.st, host.log, dev, before, state,
                         listed, dropped, r.Ok?)
  {
    state, dropped := before, false;
    var done, pvs := host.ListPvs(dev.vgName);
    listed := done;
    if !done {
      r := Err("list pv failed");
      return;
    }
    var surplus := Surplus(pvs, dev.devices);
    NoElements(surplus);
    KeptMembers(pvs, SpecNames(dev), Elements(surplus));
    ghost var h, log := host.st, host.log;
    if |surplus| == |pvs| && |pvs| > 0 {
      r := RemoveVolumeGroup(host, dev.vgName);
      if r.Err? {
        state := state.(message := CLASS_DELETE_ERROR);
      } else {
        dropped := true;
      }
      RemovalShrinks(host.healthy, h, log, host.st, host.log, dev, before, r.Ok?);
      return;
    }
    r := Ok;
    if |surplus| > 0 {
      state, r := Release(host, dev.vgName, surplus, before);
      ReleaseShrinks(host.healthy, h, log, host.st, host.log, dev, before, state, Elements(surplus), r.Ok?);
    }
  }

  /** The removal of a group of which the spec names no member. */
  lemma RemovalShrinks(healthy: bool, h: HostState, log: seq<Entry>, h': HostState, log': seq<Entry>,
                       dev: DeviceClass, was: ClassState, ok: bool)
    requires ShrinksAway(h, dev) && log <= log' && h'.lvs == h.lvs
    requires h'.vgs == h.vgs - {dev.vgName} || (!ok && h'.vgs == h.vgs)
    requires healthy ==> (ok <==> !VgCarriesLv(h, dev.vgName))
    requires VgCarriesLv(h, dev.vgName) ==> !ok && h' == h && log' == log
    requires OnlyRemovals(log'[|log|..], ok) && (ok ==> log' != log) && (log' == log ==> h' == h)
    requires log' != log ==> log'[|log|].command == VgRemove(dev.vgName)
    ensures ShrinkEffect(healthy, h, log, h', log', dev, was,
              if ok then was else was.(message := CLASS_DELETE_ERROR), true, ok, ok)
  {
  }

  /** The release of the members that the spec does not name, when it names others. */
  lemma ReleaseShrinks(healthy: bool, h: HostState, log: seq<Entry>, h': HostState, log': seq<Entry>,
                       dev: DeviceClass, was: ClassState, state: ClassState, surplus: set<string>, ok: bool)
    requires dev.vgName in h.vgs && surplus == h.vgs[dev.vgName] - SpecNames(dev)
    requires !NothingToShrink(h, dev) && !ShrinksAway(h, dev) && log <= log' && h'.lvs == h.lvs
    requires h'.vgs == h.vgs[dev.vgName := h.vgs[dev.vgName] - surplus] || (!ok && h'.vgs == h.vgs)
    requires NoVgRemove(log', |log|) && OnlyRemovals(log'[|log|..], ok)
    requires (ok ==> log' != log) && (log' == log ==> h' == h)
    requires healthy ==> (ok <==> forall p :: p in surplus ==> !PvCarriesLv(h, p))
    requires (exists p :: p in surplus && PvCarriesLv(h, p)) ==> !ok && h' == h && log' == log
    requires !ok ==> state == was.(message := CLASS_SHRINK_ERROR)
    requires ok ==> state == was.(deviceStates := state.deviceStates)
    requires ok ==> forall s :: s in state.deviceStates <==> s in was.deviceStates && s.name !in surplus
    requires |state.deviceStates| <= |was.deviceStates|
    ensures ShrinkEffect(healthy, h, log, h', log', dev, was, state, true, false, ok)
  {
    KeptMembers(h.vgs[dev.vgName], SpecNames(dev), surplus);
  }

  lemma KeptMembers(pvs: set<string>, names: set<string>, surplus: set<string>)
    requires surplus == pvs - names
    ensures pvs - surplus == pvs * names
    ensures surplus == {} <==> pvs <= names
  {
    if surplus == {} {
      assert forall p :: p in pvs ==> p !in surplus;
    }
  }

  ghost predicate SameEntry(vg: string, before: ClassMap, after: ClassMap)
    requires vg in before
  {
    if vg in after then
      && after == before[vg := after[vg]]
      && after[vg] == before[vg].(message := after[vg].message, deviceStates := after[vg].deviceStates)
    else
      after == before - {vg}
  }

  /** The group holds exactly the devices the spec names. */
  ghost predicate Holds(h: HostState, dev: DeviceClass) {
    dev.vgName in h.vgs && h.vgs[dev.vgName] == SpecNames(dev)
  }

  /** What an expansion makes of the group. */
  ghost function Widened(h: HostState, dev: DeviceClass, loopMap: LoopMap): set<string> {
    (if dev.vgName in h.vgs then h.vgs[dev.vgName] else {}) + Elements(Wanted(dev.devices, loopMap))
  }

  /** The spec names some device, an expansion can be done, and what is then released carries no
      logical volume. */
  ghost predicate Reachable(healthy: bool, h: HostState, dev: DeviceClass, loopMap: LoopMap) {
    && Expandable(healthy, h, dev, loopMap) && SpecNames(dev) != {}
    && forall p :: p in Widened(h, dev, loopMap) - SpecNames(dev) ==> !PvCarriesLv(h, p)
  }

  /** The spec will name no member of the widened group. */
  ghost predicate WidensAway(h: HostState, dev: DeviceClass, loopMap: LoopMap) {
    Widened(h, dev, loopMap) != {} && Widened(h, dev, loopMap) !! SpecNames(dev)
  }

  /** Nothing for expansion or shrinking to do. */
  ghost predicate AtRest(h: HostState, dev: DeviceClass, loopMap: LoopMap) {
    NothingToExpand(h, dev, loopMap) && NothingToShrink(h, dev)
  }

  /** Devices given by path can always be reached, and a group that holds them is at rest. */
  lemma ByPathRests(h: HostState, dev: DeviceClass, loopMap: LoopMap)
    requires forall d :: d in dev.devices ==> !IsAutoLoop(d)
    ensures SpecNames(dev) <= Widened(h, dev, loopMap)
    ensures Holds(h, dev) ==> AtRest(h, dev, loopMap)
  {
    WantedByPath(dev.devices, loopMap);
  }

  lemma {:induction false} ResolvedIsWanted(devices: seq<Disk>, loopMap: LoopMap, d: Disk)
    requires d in devices && !Skipped(d, loopMap)
    ensures Resolved(d, loopMap).name in Wanted(devices, loopMap)
  {
    if d != devices[|devices| - 1] {
      assert devices == devices[..|devices| - 1] + [devices[|devices| - 1]];
      ResolvedIsWanted(devices[..|devices| - 1], loopMap, d);
    }
  }

  /** A healthy host makes no move for this class: it is at rest, or a logical volume keeps it from
      shrinking. */
  ghost predicate Idle(h: HostState, dev: DeviceClass, loopMap: LoopMap) {
    NothingToExpand(h, dev, loopMap) && (NothingToShrink(h, dev) || Blocked(h, dev))
  }

  /** What expansion adds for an automatic loop under its resolved name, shrinking wants to take under the
      raw one. When the spec does not name the device, only a logical volume can bring the class to a
      stand, and it is never at rest. */
  lemma AutoLoopIdleExactly(h: HostState, dev: DeviceClass, loopMap: LoopMap, d: Disk)
    requires d in dev.devices && IsAutoLoop(d) && !Skipped(d, loopMap)
    requires LoopDevice(d.name, loopMap) !in SpecNames(dev)
    ensures !AtRest(h, dev, loopMap)
    ensures Idle(h, dev, loopMap) <==> NothingToExpand(h, dev, loopMap) && Blocked(h, dev)
  {
    ResolvedIsWanted(dev.devices, loopMap, d);
    assert LoopDevice(d.name, loopMap) in Elements(Wanted(dev.devices, loopMap));
  }

  /** A node whose group v holds the loop device of its only disk, with no logical volume, and the class
      that asks for it. */
  const LOOP_CLASS := DeviceClass("a", "v", [AUTO_DISK], true, 0, 0, "")
  const LOOP_MAP: LoopMap := map["loop0" := LoopState("loop0", "/data/f", "/dev/loop7", SUCCESSFUL, "")]
  const LOOP_NODE := HostState(map["v" := {"/dev/loop7"}], {"/dev/loop7"}, map[])

  /** Nothing is missing there, and yet the class is not idle: it loses its group. */
  lemma AutoLoopLosesGroup()
    ensures HostInv(LOOP_NODE) && NothingToExpand(LOOP_NODE, LOOP_CLASS, LOOP_MAP)
    ensures Expandable(true, LOOP_NODE, LOOP_CLASS, LOOP_MAP) && WidensAway(LOOP_NODE, LOOP_CLASS, LOOP_MAP)
    ensures ShrinksAway(LOOP_NODE, LOOP_CLASS) && !VgCarriesLv(LOOP_NODE, "v")
    ensures !Idle(LOOP_NODE, LOOP_CLASS, LOOP_MAP)
  {
    var devices := [AUTO_DISK];
    assert devices[..0] == [] && Wanted(devices, LOOP_MAP) == ["/dev/loop7"];
    assert DeviceNames(devices) == ["loop0"];
    assert Elements(["/dev/loop7"]) == {"/dev/loop7"} && Elements(["loop0"]) == {"loop0"};
    assert "loop0" != "/dev/loop7" by { assert "loop0"[0] != "/dev/loop7"[0]; }
  }

  /** vgreduce and pvremove of these members, and the cut of their states. */
  method Release(host: Host, vg: string, surplus: seq<string>, before: ClassState)
    returns (state: ClassState, r: Outcome)
    requires host.Valid() && vg in host.st.vgs && Elements(surplus) <= host.st.vgs[vg]
    modifies host
    ensures host.Valid() && old(host.log) <= host.log && NoVgRemove(host.log, |old(host.log)|)
    ensures host.st.lvs == old(host.st.lvs)
    ensures host.st.vgs == old(host.st.vgs)
         || host.st.vgs == old(host.st.vgs)[vg := old(host.st.vgs)[vg] - Elements(surplus)]
    ensures r.Err? ==> state == before.(message := CLASS_SHRINK_ERROR)
    ensures (exists p :: p in surplus && PvCarriesLv(old(host.st), p)) ==>
              r.Err? && host.st == old(host.st) && host.log == old(host.log)
    ensures r.Ok? ==> |host.log| > |old(host.log)|
    ensures OnlyRemovals(host.log[|old(host.log)|..], r.Ok?)
    ensures r.Ok? ==> host.st.vgs == old(host.st.vgs)[vg := old(host.st.vgs)[vg] - Elements(surplus)]
    ensures r.Ok? ==> state == before.(deviceStates := WithoutAll(before.deviceStates, surplus))
    ensures |state.deviceStates| <= |before.deviceStates|
    ensures r.Ok? ==> forall s :: s in state.deviceStates <==> s in before.deviceStates && s.name !in Elements(surplus)
    ensures host.healthy ==> (r.Ok? <==> forall p :: p in Elements(surplus) ==> !PvCarriesLv(old(host.st), p))
  {
    assert forall p :: p in Elements(surplus) <==> p in surplus;
    r := ShrinkVolumeGroup(host, vg, surplus);
    if r.Err? {
      state := before.(message := CLASS_SHRINK_ERROR);
    } else {
      var states := DropStates(before.deviceStates, surplus);
      WithoutAllMembers(before.deviceStates, surplus);
      WithoutAllShorter(before.deviceStates, surplus);
      state := before.(deviceStates := states);
    }
  }

  /** An expansion adds wanted devices to the group and takes none away. */
  ghost predicate Bounded(before: HostState, after: HostState, dev: DeviceClass, loopMap: LoopMap) {
    && (dev.vgName in after.vgs <==> dev.vgName in before.vgs)
    && (dev.vgName in before.vgs ==>
          && before.vgs[dev.vgName] <= after.vgs[dev.vgName]
          && after.vgs[dev.vgName] <= before.vgs[dev.vgName] + Elements(Wanted(dev.devices, loopMap)))
  }

  ghost predicate NothingToExpand(h: HostState, dev: DeviceClass, loopMap: LoopMap) {
    dev.vgName in h.vgs && Elements(Wanted(dev.devices, loopMap)) <= h.vgs[dev.vgName]
  }

  lemma NoElements(s: seq<string>)
    ensures Elements(s) == {} <==> s == []
  {
    if s != [] {
      assert s[0] in Elements(s);
    }
  }

  /** How an expansion is reported: each failed pvcreate as a device in error, and with a warning; a
      failed vgextend as an error; otherwise each new device as online. */
  function ExpandReport(was: ClassState, errors: seq<DeviceState>, newPvs: seq<string>, extended: bool): ClassState {
    was.(message := if newPvs != [] && !extended then CLASS_EXPAND_ERROR
                    else if errors != [] then CLASS_EXPAND_WARNING else was.message,
         deviceStates := was.deviceStates + errors + if extended then States(newPvs, Online, "") else [])
  }

  /** The group is there and some wanted device is not in it. */
  ghost predicate Lacks(h: HostState, dev: DeviceClass, loopMap: LoopMap) {
    dev.vgName in h.vgs && !NothingToExpand(h, dev, loopMap)
  }

  /** Each of these devices was labelled or is in error, once each; all are labelled, in order, when they
      are free to be. */
  ghost predicate Attempted(free: bool, names: seq<string>, errors: seq<DeviceState>, newPvs: seq<string>) {
    && multiset(newPvs) + multiset(StateNames(errors)) == multiset(names)
    && (forall e :: e in errors ==> e.state == DeviceError)
    && (free ==> newPvs == names && errors == [])
  }

  /** How many pvcreate commands succeeded, or failed. */
  ghost function LabelCount(entries: seq<Entry>, ok: bool): nat {
    if entries == [] then 0
    else
      var last := entries[|entries| - 1];
      LabelCount(entries[..|entries| - 1], ok) + if last.command.PvCreate? && last.result.Ok? == ok then 1 else 0
  }

  lemma LabelCountSnoc(entries: seq<Entry>, e: Entry, ok: bool)
    ensures LabelCount(entries + [e], ok) ==
              LabelCount(entries, ok) + if e.command.PvCreate? && e.result.Ok? == ok then 1 else 0
  {
    assert (entries + [e])[..|entries|] == entries;
  }

  /** These pvcreate commands labelled exactly these devices and failed exactly with these errors. */
  ghost predicate LabelsTold(entries: seq<Entry>, errors: seq<DeviceState>, newPvs: seq<string>) {
    && (forall e :: e in entries ==> e.command.PvCreate?)
    && |newPvs| == LabelCount(entries, true) && |errors| == LabelCount(entries, false)
    && (forall n :: Entry(PvCreate(n), Ok) in entries <==> n in newPvs)
    && (forall n, m :: Entry(PvCreate(n), Err(m)) in entries <==> DeviceState(n, DeviceError, m) in errors)
  }

  /** The same with the vgextend that follows, for what was labelled. */
  ghost predicate ExpansionTold(entries: seq<Entry>, vg: string, errors: seq<DeviceState>, newPvs: seq<string>,
                                extended: bool)
  {
    && (forall e :: e in entries ==> e.command.PvCreate? || e.command == VgExtend(vg, newPvs))
    && |newPvs| == LabelCount(entries, true) && |errors| == LabelCount(entries, false)
    && (forall n :: Entry(PvCreate(n), Ok) in entries <==> n in newPvs)
    && (forall n, m :: Entry(PvCreate(n), Err(m)) in entries <==> DeviceState(n, DeviceError, m) in errors)
    && (extended <==> Entry(VgExtend(vg, newPvs), Ok) in entries)
    && (newPvs != [] && !extended <==> exists m :: Entry(VgExtend(vg, newPvs), Err(m)) in entries)
  }

  lemma ExtensionTold(labels: seq<Entry>, vg: string, errors: seq<DeviceState>, newPvs: seq<string>, r: Outcome)
    requires LabelsTold(labels, errors, newPvs)
    ensures newPvs == [] ==> ExpansionTold(labels, vg, errors, newPvs, false)
    ensures newPvs != [] ==> ExpansionTold(labels + [Entry(VgExtend(vg, newPvs), r)], vg, errors, newPvs, r.Ok?)
  {
    var entries := labels + [Entry(VgExtend(vg, newPvs), r)];
    assert Entry(VgExtend(vg, newPvs), r) in entries;
    assert forall e :: e in entries <==> e in labels || e == Entry(VgExtend(vg, newPvs), r);
    LabelCountSnoc(labels, Entry(VgExtend(vg, newPvs), r), true);
    LabelCountSnoc(labels, Entry(VgExtend(vg, newPvs), r), false);
  }

  /** What expansion does to the node. Each missing device is either labelled or in error, and the labelled
      ones join the group together or not at all. */
  ghost predicate ExpandEffect(healthy: bool, h: HostState, log: seq<Entry>, h': HostState, log': seq<Entry>,
                               dev: DeviceClass, loopMap: LoopMap,
                               errors: seq<DeviceState>, newPvs: seq<string>, extended: bool)
  {
    && log <= log' && NoVgRemove(log', |log|) && h'.lvs == h.lvs && OthersKept(h, h', dev.vgName)
    && Bounded(h, h', dev, loopMap)
    && (if extended then newPvs != [] && JoinedBy(h, h', dev.vgName, Elements(newPvs)) else h'.vgs == h.vgs)
    && (if log' == log then h' == h && errors == [] && newPvs == [] else Lacks(h, dev, loopMap))
    && (log' != log ==> Attempted(Expandable(healthy, h, dev, loopMap),
          Absent(Wanted(dev.devices, loopMap), h.vgs[dev.vgName]), errors, newPvs))
    && ExpansionTold(log'[|log|..], dev.vgName, errors, newPvs, extended)
    && (healthy && Lacks(h, dev, loopMap) ==> log' != log)
    && (Expandable(healthy, h, dev, loopMap) ==>
          errors == [] && (extended <==> newPvs != [])
          && JoinedBy(h, h', dev.vgName, Elements(Wanted(dev.devices, loopMap))))
  }

  /** The group gained these members. */
  ghost predicate JoinedBy(h: HostState, h': HostState, vg: string, pvs: set<string>) {
    vg in h.vgs && vg in h'.vgs && h'.vgs[vg] == h.vgs[vg] + pvs
  }

  method ExpandClass(host: Host, dev: DeviceClass, loopMap: LoopMap, before: ClassState)
    returns (state: ClassState, r: Outcome,
             ghost errors: seq<DeviceState>, ghost newPvs: seq<string>, ghost extended: bool)
    requires host.Valid()
    modifies host
    ensures host.Valid()
    ensures ExpandEffect(host.healthy, old(host.st), old(host.log), host.st, host.log, dev, loopMap,
                         errors, newPvs, extended)
    ensures state == ExpandReport(before, errors, newPvs, extended)
  {
    ghost var h := host.st;
    var done, pvs := host.ListPvs(dev.vgName);
    if !done {
      assert before.deviceStates + [] + [] == before.deviceStates;
      return before, Err("list pv failed"), [], [], false;
    }
    var extra := ListExtra(dev.devices, loopMap, pvs);
    state, r, errors, newPvs, extended := Grow(host, dev.vgName, extra, before);
    GrownIsExpanded(host.healthy, h, old(host.log), host.st, host.log, dev, loopMap, errors, newPvs, extended);
  }

  /** What labelling these devices and adding them to the group does to the node. */
  ghost predicate GrowEffect(healthy: bool, h: HostState, log: seq<Entry>, h': HostState, log': seq<Entry>,
                             vg: string, extra: seq<string>,
                             errors: seq<DeviceState>, newPvs: seq<string>, extended: bool)
  {
    && log <= log' && NoVgRemove(log', |log|) && h'.lvs == h.lvs && OthersKept(h, h', vg)
    && Attempted(healthy && AllFree(h, extra), extra, errors, newPvs)
    && (if extended then newPvs != [] && JoinedBy(h, h', vg, Elements(newPvs)) else h'.vgs == h.vgs)
    && (if extra == [] then log' == log && h' == h else |log'| > |log|)
    && (healthy && Distinct(extra) && AllFree(h, extra) ==> (extended <==> extra != []))
    && ExpansionTold(log'[|log|..], vg, errors, newPvs, extended)
  }

  lemma GrownIsExpanded(healthy: bool, h: HostState, log: seq<Entry>, h': HostState, log': seq<Entry>,
                        dev: DeviceClass, loopMap: LoopMap,
                        errors: seq<DeviceState>, newPvs: seq<string>, extended: bool)
    requires dev.vgName in h.vgs
    requires GrowEffect(healthy, h, log, h', log', dev.vgName,
               Absent(Wanted(dev.devices, loopMap), h.vgs[dev.vgName]), errors, newPvs, extended)
    ensures ExpandEffect(healthy, h, log, h', log', dev, loopMap, errors, newPvs, extended)
  {
    var wanted, pvs := Wanted(dev.devices, loopMap), h.vgs[dev.vgName];
    var extra := Absent(wanted, pvs);
    AbsentMembers(wanted, pvs);
    NoElements(extra);
    LackingFree(h, dev, loopMap, extra);
    AttemptedLabels(healthy && AllFree(h, extra), extra, errors, newPvs);
    assert pvs + Elements(extra) == pvs + Elements(wanted);
    if log' == log {
      assert StateNames(errors) == [] && newPvs == [] by {
        assert multiset(newPvs) + multiset(StateNames(errors)) == multiset{};
        assert |multiset(newPvs)| == |newPvs| && |multiset(StateNames(errors))| == |errors|;
      }
    }
  }

  /** What an expandable group lacks is in no group. */
  lemma LackingFree(h: HostState, dev: DeviceClass, loopMap: LoopMap, extra: seq<string>)
    requires dev.vgName in h.vgs && Elements(extra) == Elements(Wanted(dev.devices, loopMap)) - h.vgs[dev.vgName]
    ensures Expandable(true, h, dev, loopMap) ==> AllFree(h, extra)
    ensures Lacks(h, dev, loopMap) <==> Elements(extra) != {}
  {
    KeptMembers(Elements(Wanted(dev.devices, loopMap)), h.vgs[dev.vgName], Elements(extra));
    forall n | n in extra
      ensures n in Wanted(dev.devices, loopMap) && n !in h.vgs[dev.vgName]
    {
      assert n in Elements(extra);
    }
  }

  /** The wanted devices that the group does not hold yet. */
  method ListExtra(devices: seq<Disk>, loopMap: LoopMap, pvs: set<string>) returns (extra: seq<string>)
    ensures extra == Absent(Wanted(devices, loopMap), pvs)
  {
    extra := [];
    for i := 0 to |devices|
      invariant extra == Absent(Wanted(devices[..i], loopMap), pvs)
    {
      WantedStep(devices, loopMap, pvs, i);
      var d := devices[i];
      if IsAutoLoop(d) {
        var name := LoopDevice(d.name, loopMap);
        if name == "" {
          continue;
        }
        d := d.(name := name);
      }
      if d.name !in pvs {
        extra := extra + [d.name];
      }
    }
    assert devices[..|devices|] == devices;
  }

  /** What came of the pvcreate commands for these devices, in order, and how the entry reports it. */
  ghost predicate Labelled(free: bool, names: seq<string>, entries: seq<Entry>, errors: seq<DeviceState>,
                           newPvs: seq<string>, before: ClassState, state: ClassState)
  {
    && |entries| == |names| && Attempted(free, names, errors, newPvs) && LabelsTold(entries, errors, newPvs)
    && state == ExpandReport(before, errors, [], false)
  }

  /** Labels these devices, and notes each failure in the entry of the class. */
  method LabelAll(host: Host, extra: seq<string>, before: ClassState)
    returns (newPvs: seq<string>, state: ClassState, r: Outcome,
             ghost errors: seq<DeviceState>, ghost entries: seq<Entry>)
    requires host.Valid()
    modifies host
    ensures host.Valid() && host.log == old(host.log) + entries
    ensures host.st.lvs == old(host.st.lvs) && host.st.vgs == old(host.st.vgs)
    ensures AllFree(old(host.st), newPvs)
    ensures Labelled(host.healthy && AllFree(old(host.st), extra), extra, entries, errors, newPvs, before, state)
    ensures extra == [] ==> host.st == old(host.st)
  {
    newPvs, state, r, errors, entries := [], before, Ok, [], [];
    assert before.deviceStates + [] + [] == before.deviceStates;
    ghost var free := host.healthy && AllFree(host.st, extra);
    for i := 0 to |extra|
      invariant host.Valid() && host.log == old(host.log) + entries
      invariant host.st.lvs == old(host.st.lvs) && host.st.vgs == old(host.st.vgs)
      invariant AllFree(old(host.st), newPvs)
      invariant Labelled(free, extra[..i], entries, errors, newPvs, before, state)
      invariant i == 0 ==> host.st == old(host.st)
    {
      newPvs, state, r, errors, entries :=
        LabelOne(host, extra, extra[i], newPvs, state, i, before, errors, entries, old(host.st),
                 old(host.log));
    }
    assert extra[..|extra|] == extra;
  }

  lemma SameFreedom(a: HostState, b: HostState, names: seq<string>, n: string)
    requires a.vgs == b.vgs
    ensures (AllFree(a, names) ==> AllFree(b, names)) && (InSomeVg(a, n) <==> InSomeVg(b, n))
  {
    if AllFree(a, names) {
      forall p | p in names
        ensures !InSomeVg(b, p)
      {
        assert !InSomeVg(a, p);
      }
    }
  }

  ghost predicate AllFree(h: HostState, names: seq<string>) {
    forall n :: n in names ==> !InSomeVg(h, n)
  }

  lemma AttemptedNext(free: bool, names: seq<string>, i: nat, errors: seq<DeviceState>, newPvs: seq<string>)
    requires i < |names| && Attempted(free, names[..i], errors, newPvs)
    ensures Attempted(free, names[..i + 1], errors, newPvs + [names[i]])
    ensures !free ==> forall message ::
              Attempted(free, names[..i + 1], errors + [DeviceState(names[i], DeviceError, message)], newPvs)
  {
    assert names[..i + 1] == names[..i] + [names[i]];
    forall message
      ensures StateNames(errors + [DeviceState(names[i], DeviceError, message)]) == StateNames(errors) + [names[i]]
    {
    }
  }

  /** pvcreate on each of these devices, then one vgextend. */
  method Grow(host: Host, vg: string, extra: seq<string>, before: ClassState)
    returns (state: ClassState, r: Outcome, ghost errors: seq<DeviceState>, newPvs: seq<string>, ghost extended: bool)
    requires host.Valid() && vg in host.st.vgs
    modifies host
    ensures host.Valid()
    ensures GrowEffect(host.healthy, old(host.st), old(host.log), host.st, host.log, vg, extra,
                       errors, newPvs, extended)
    ensures state == ExpandReport(before, errors, newPvs, extended)
  {
    ghost var h := host.st;
    ghost var entries;
    newPvs, state, r, errors, entries := LabelAll(host, extra, before);
    ghost var mid := host.st;
    SameFreedom(h, mid, newPvs, "");
    extended := false;
    if |newPvs| == 0 {
      GrownByLabels(host.healthy, h, old(host.log), mid, vg, extra, entries, errors);
      return;
    }
    var e := ExpandVolumeGroup(host, vg, newPvs);
    GrownByExtension(host.healthy, h, old(host.log), mid, host.st, vg, extra, entries, errors, newPvs, e);
    assert host.log == old(host.log) + entries + [Entry(VgExtend(vg, newPvs), e)];
    if e.Err? {
      return state.(message := CLASS_EXPAND_ERROR), e, errors, newPvs, false;
    }
    extended := true;
    assert state.deviceStates == before.deviceStates + errors;
    state := state.(deviceStates := state.deviceStates + States(newPvs, Online, ""));
  }

  lemma GrownByLabels(healthy: bool, h: HostState, log: seq<Entry>, mid: HostState,
                      vg: string, extra: seq<string>, entries: seq<Entry>, errors: seq<DeviceState>)
    requires |entries| == |extra| && Attempted(healthy && AllFree(h, extra), extra, errors, [])
    requires LabelsTold(entries, errors, []) && mid.vgs == h.vgs && mid.lvs == h.lvs && (extra == [] ==> mid == h)
    ensures GrowEffect(healthy, h, log, mid, log + entries, vg, extra, errors, [], false)
  {
    assert (log + entries)[|log|..] == entries;
    ExtensionTold(entries, vg, errors, [], Ok);
    if entries == [] {
      assert log + entries == log;
    }
  }

  lemma GrownByExtension(healthy: bool, h: HostState, log: seq<Entry>, mid: HostState, h': HostState,
                         vg: string, extra: seq<string>, entries: seq<Entry>,
                         errors: seq<DeviceState>, newPvs: seq<string>, r: Outcome)
    requires |entries| == |extra| && Attempted(healthy && AllFree(h, extra), extra, errors, newPvs) && newPvs != []
    requires LabelsTold(entries, errors, newPvs) && mid.vgs == h.vgs && mid.lvs == h.lvs && AllFree(mid, newPvs)
    requires h'.lvs == h.lvs && vg in h.vgs
    requires h'.vgs == if r.Ok? then h.vgs[vg := h.vgs[vg] + Elements(newPvs)] else h.vgs
    requires healthy ==> (r.Ok? <==> !Refuses(mid, VgExtend(vg, newPvs)))
    ensures GrowEffect(healthy, h, log, h', log + entries + [Entry(VgExtend(vg, newPvs), r)], vg, extra,
              errors, newPvs, r.Ok?)
  {
    var log' := log + entries + [Entry(VgExtend(vg, newPvs), r)];
    assert log'[|log|..] == entries + [Entry(VgExtend(vg, newPvs), r)];
    ExtensionTold(entries, vg, errors, newPvs, r);
    AttemptedSome(healthy && AllFree(h, extra), extra, errors, newPvs);
  }

  lemma AttemptedSome(free: bool, names: seq<string>, errors: seq<DeviceState>, newPvs: seq<string>)
    requires Attempted(free, names, errors, newPvs) && newPvs != []
    ensures names != []
  {
    assert newPvs[0] in multiset(newPvs) + multiset(StateNames(errors));
    assert newPvs[0] in names;
  }

  lemma AttemptedLabels(free: bool, names: seq<string>, errors: seq<DeviceState>, newPvs: seq<string>)
    requires Attempted(free, names, errors, newPvs)
    ensures Elements(newPvs) <= Elements(names)
  {
    forall p | p in newPvs
      ensures p in names
    {
      assert p in multiset(newPvs) && p in multiset(names);
    }
  }

  /** The next device; h is the node before the first one, log its log. */
  method LabelOne(host: Host, ghost extra: seq<string>, name: string, had: seq<string>, now: ClassState,
                  ghost i: nat, ghost before: ClassState, ghost failed: seq<DeviceState>,
                  ghost issued: seq<Entry>, ghost h: HostState, ghost log: seq<Entry>)
    returns (newPvs: seq<string>, state: ClassState, r: Outcome,
             ghost errors: seq<DeviceState>, ghost entries: seq<Entry>)
    requires host.Valid() && host.st.vgs == h.vgs && host.log == log + issued
    requires i < |extra| && name == extra[i] && AllFree(h, had)
    requires Labelled(host.healthy && AllFree(h, extra), extra[..i], issued, failed, had, before, now)
    modifies host
    ensures host.Valid() && host.log == log + entries && entries == issued + [Entry(PvCreate(name), r)]
    ensures host.st.vgs == old(host.st.vgs) && host.st.lvs == old(host.st.lvs)
    ensures AllFree(h, newPvs)
    ensures Labelled(host.healthy && AllFree(h, extra), extra[..i + 1], entries, errors, newPvs, before, state)
  {
    ghost var free := host.healthy && AllFree(h, extra);
    SameFreedom(h, host.st, had, name);
    AttemptedNext(free, extra, i, failed, had);
    r := CreatePhysicalVolume(host, name);
    newPvs, state, errors := had, now, failed;
    entries := issued + [Entry(PvCreate(name), r)];
    LabelTold(issued, failed, had, name, r);
    if r.Err? {
      var e := DeviceState(name, DeviceError, r.message);
      state := now.(message := CLASS_EXPAND_WARNING, deviceStates := now.deviceStates + [e]);
      errors := failed + [e];
      assert state.deviceStates == before.deviceStates + errors + [];
    } else {
      newPvs := had + [name];
    }
  }

  lemma LabelTold(entries: seq<Entry>, errors: seq<DeviceState>, newPvs: seq<string>, name: string, r: Outcome)
    requires LabelsTold(entries, errors, newPvs)
    ensures r.Ok? ==> LabelsTold(entries + [Entry(PvCreate(name), r)], errors, newPvs + [name])
    ensures r.Err? ==>
              LabelsTold(entries + [Entry(PvCreate(name), r)],
                errors + [DeviceState(name, DeviceError, r.message)], newPvs)
  {
    assert forall e :: e in entries + [Entry(PvCreate(name), r)] <==> e in entries || e == Entry(PvCreate(name), r);
    assert forall n :: n in newPvs + [name] <==> n in newPvs || n == name;
    LabelCountSnoc(entries, Entry(PvCreate(name), r), true);
    LabelCountSnoc(entries, Entry(PvCreate(name), r), false);
    if r.Err? {
      var e := DeviceState(name, DeviceError, r.message);
      assert forall s :: s in errors + [e] <==> s in errors || s == e;
    }
  }

  lemma WantedStep(devices: seq<Disk>, loopMap: LoopMap, pvs: set<string>, n: nat)
    requires n < |devices|
    ensures var front := Wanted(devices[..n], loopMap);
            var all := Wanted(devices[..n + 1], loopMap);
            var name := Resolved(devices[n], loopMap).name;
      if Skipped(devices[n], loopMap) then all == front
      else all == front + [name] && Elements(all) == Elements(front) + {name}
           && Absent(all, pvs) == Absent(front, pvs) + if name in pvs then [] else [name]
  {
    assert devices[..n + 1][..n] == devices[..n];
    var front := Wanted(devices[..n], loopMap);
    if !Skipped(devices[n], loopMap) {
      assert (front + [Resolved(devices[n], loopMap).name])[..|front|] == front;
    } else {
      assert front + [] == front;
    }
  }
}

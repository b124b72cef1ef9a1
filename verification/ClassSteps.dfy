/** What a run does with one class of its spec, on the node and in the two class maps, and what the maps then
    say of it. */
module ClassSteps {
  import opened ClusterTypes
  import opened LvmHost
  import opened VolumeGroups
  import opened LoopRegistry
  import opened DeviceLists
  import opened ClassStatus
  import opened ClassGroups
  import opened Reconciliation
  import opened RunMaps

  // ----- what a spec can ask for -----

  /** Every class of the spec is recorded as a success and at rest. */
  ghost predicate Quiet(h: HostState, classes: seq<DeviceClass>, suc: ClassMap, loopMap: LoopMap) {
    forall d :: d in classes ==> d.vgName in suc && AtRest(h, d, loopMap)
  }

  predicate ByPath(d: DeviceClass) {
    forall k :: k in d.devices ==> !IsAutoLoop(k)
  }

  /** All devices are given by path, and no two classes share their group or a device. */
  ghost predicate Tidy(spec: seq<DeviceClass>) {
    && DistinctVgs(spec) && (forall d :: d in spec ==> ByPath(d))
    && forall i, j :: 0 <= i < j < |spec| ==> SpecNames(spec[i]) !! SpecNames(spec[j])
  }

  /** Nothing on the node stands in the way of giving the group exactly these devices. */
  ghost predicate Attainable(h: HostState, avail: set<string>, suc: ClassMap, d: DeviceClass) {
    && d.devices != [] && Distinct(DeviceNames(d.devices))
    && if d.vgName in suc then
         && d.vgName in h.vgs
         && (forall n :: n in SpecNames(d) && n !in h.vgs[d.vgName] ==> !InSomeVg(h, n))
         && (forall p :: p in h.vgs[d.vgName] - SpecNames(d) ==> !PvCarriesLv(h, p))
       else
         && d.vgName !in h.vgs && SpecNames(d) <= avail
         && forall n :: n in SpecNames(d) ==> !InSomeVg(h, n)
  }

  ghost predicate AllAttainable(spec: seq<DeviceClass>, avail: set<string>, h: HostState, suc: ClassMap) {
    forall d :: d in spec ==> Attainable(h, avail, suc, d)
  }

  /** The class is a success, and its group holds exactly its devices. */
  ghost predicate Provided(h: HostState, suc: ClassMap, d: DeviceClass) {
    d.vgName in suc && Holds(h, d)
  }

  /** On a node without groups nothing stands in the way of a spec whose devices are there. */
  lemma EmptyNodeIsOpen(spec: seq<DeviceClass>, avail: set<string>, h: HostState)
    requires h.vgs == map[]
    requires forall d :: d in spec ==> d.devices != [] && Distinct(DeviceNames(d.devices)) && SpecNames(d) <= avail
    ensures AllAttainable(spec, avail, h, map[])
  {
  }

  lemma AttainableIsReachable(h: HostState, avail: set<string>, suc: ClassMap, d: DeviceClass, loopMap: LoopMap)
    requires ByPath(d) && Attainable(h, avail, suc, d) && d.vgName in suc
    ensures Reachable(true, h, d, loopMap) && SpecNames(d) <= Widened(h, d, loopMap)
  {
    WantedByPath(d.devices, loopMap);
    ByPathRests(h, d, loopMap);
    assert DeviceNames(d.devices)[0] in SpecNames(d);
  }

  lemma ByPathResolved(devices: seq<Disk>, loopMap: LoopMap, avail: set<string>)
    requires forall k :: k in devices ==> !IsAutoLoop(k)
    ensures ResolvedAll(devices, loopMap) == devices
    ensures Elements(DeviceNames(devices)) <= avail ==> Missing(devices, loopMap, avail) == []
  {
    WantedByPath(devices, loopMap);
    AbsentMembers(DeviceNames(devices), avail);
    NoElements(Missing(devices, loopMap, avail));
    KeptMembers(Elements(DeviceNames(devices)), avail, Elements(Missing(devices, loopMap, avail)));
    assert forall i :: 0 <= i < |devices| ==> devices[i] in devices;
  }

  /** What a creation asks LVM for is not refused, and no device is missing. */
  lemma AttainableIsCreatable(h: HostState, avail: set<string>, suc: ClassMap, d: DeviceClass, loopMap: LoopMap)
    requires ByPath(d) && Attainable(h, avail, suc, d) && d.vgName !in suc
    ensures ResolvedAll(d.devices, loopMap) == d.devices && Missing(d.devices, loopMap, avail) == []
    ensures !Refuses(h, VgCreate(d.vgName, DeviceNames(d.devices)))
  {
    ByPathResolved(d.devices, loopMap, avail);
    assert |DeviceNames(d.devices)| == |d.devices|;
    forall n | n in DeviceNames(d.devices)
      ensures !InSomeVg(h, n)
    {
      assert n in SpecNames(d);
    }
  }

  /** Recorded classes given by path whose groups hold their devices leave the next run nothing to do. */
  lemma HeldByPathIsQuiet(h: HostState, classes: seq<DeviceClass>, suc: ClassMap, loopMap: LoopMap)
    requires forall d :: d in classes ==> ByPath(d) && Provided(h, suc, d)
    ensures Quiet(h, classes, suc, loopMap)
  {
    forall d | d in classes
      ensures AtRest(h, d, loopMap)
    {
      ByPathRests(h, d, loopMap);
    }
  }

  // ----- one class -----

  /** The node and the two maps at one point of a run. */
  datatype Moment = Moment(h: HostState, log: seq<Entry>, suc: ClassMap, fail: ClassMap)

  /** What a run does with one class of its spec; made is the class with its devices resolved. */
  ghost predicate Handled(healthy: bool, first: bool, avail: set<string>, loopMap: LoopMap, dev: DeviceClass,
                          made: DeviceClass, created: bool, before: Moment, after: Moment)
  {
    && before.log <= after.log && after.h.lvs == before.h.lvs && OthersKept(before.h, after.h, dev.vgName)
    && dev == made.(devices := dev.devices)
    && ClassStep(dev, before.suc, before.fail, after.suc, after.fail, created)
    && (first || (Keyed(before.fail) ==> Keyed(after.fail)))
    && (healthy && ByPath(dev) && Attainable(before.h, avail, before.suc, dev) ==> Provided(after.h, after.suc, dev))
    && StepEffect(healthy, first, avail, loopMap, dev, made, created, before, after)
  }

  /** A recorded class is reconciled, a failed one tried again, and any other created; on the first run a group
      that exists is not taken over. */
  ghost predicate StepEffect(healthy: bool, first: bool, avail: set<string>, loopMap: LoopMap, dev: DeviceClass,
                             made: DeviceClass, created: bool, before: Moment, after: Moment)
  {
    if dev.vgName in before.suc then
      && made == dev
      && Reconciled(healthy, before.h, before.log, after.h, after.log, dev, loopMap, before.suc, after.suc)
    else if dev.vgName in before.fail then
      RetryEffect(healthy, avail, loopMap, dev, made, before, after, created)
    else if first && dev.vgName in before.h.vgs then
      && made == dev && after.log == before.log && after.h == before.h
      && IsTaken(dev, after.fail)
    else
      CreateEffect(healthy, avail, loopMap, dev, made, before, after, created)
  }

  /** Creating the group of a class that is in neither map: the report says what became of it. */
  ghost predicate CreateEffect(healthy: bool, avail: set<string>, loopMap: LoopMap, dev: DeviceClass,
                               made: DeviceClass, before: Moment, after: Moment, suc: bool)
  {
    var missing, names := Missing(dev.devices, loopMap, avail), DeviceNames(made.devices);
    && made == dev.(devices := ResolvedAll(dev.devices, loopMap))
    && GroupMade(healthy, made, missing, before.h, before.log, after.h, after.log, suc)
    && if suc then
         && after.fail == before.fail
         && after.suc == before.suc[dev.vgName :=
              ClassState(dev.className, dev.vgName, ClassReady, CLASS_CREATE_SUCCESSFUL, States(names, Online, ""))]
       else
         && after.suc == before.suc
         && after.fail == before.fail[dev.vgName :=
              if missing != []
              then ClassState(dev.className, dev.vgName, ClassUnset, "", States(missing, Offline, DISK_UNAVAILABLE))
              else ClassState(dev.className, dev.vgName, ClassUnReady, CLASS_CREATE_FAIL, [])]
  }

  /** Trying a class again that failed before. Note that success records no device states. */
  ghost predicate RetryEffect(healthy: bool, avail: set<string>, loopMap: LoopMap, dev: DeviceClass,
                              made: DeviceClass, before: Moment, after: Moment, suc: bool)
    requires dev.vgName in before.fail
  {
    var missing, was := Missing(dev.devices, loopMap, avail), before.fail[dev.vgName];
    && made == dev.(devices := ResolvedAll(dev.devices, loopMap))
    && GroupMade(healthy, made, missing, before.h, before.log, after.h, after.log, suc)
    && if suc then
         && after.fail == before.fail - {dev.vgName}
         && after.suc == before.suc[dev.vgName :=
              ClassState(dev.className, dev.vgName, ClassReady, CLASS_CREATE_SUCCESSFUL, [])]
       else
         && after.suc == before.suc
         && after.fail == before.fail[dev.vgName :=
              was.(deviceStates := RecordedAll(was.deviceStates, missing, DISK_UNAVAILABLE))]
  }

  /** A new group of exactly the resolved devices, or none; without any command when a device is missing. */
  ghost predicate GroupMade(healthy: bool, made: DeviceClass, missing: seq<string>,
                            h: HostState, log: seq<Entry>, h': HostState, log': seq<Entry>, suc: bool)
  {
    var names := DeviceNames(made.devices);
    && log <= log' && NoVgRemove(log', |log|) && h'.lvs == h.lvs
    && (missing != [] ==> !suc && log' == log)
    && (healthy && missing == [] ==> (suc <==> !Refuses(h, VgCreate(made.vgName, names))))
    && if suc then
         made.vgName !in h.vgs && h'.vgs == h.vgs[made.vgName := Elements(names)]
       else
         h'.vgs == h.vgs
  }

  lemma MadeIsProvided(healthy: bool, avail: set<string>, loopMap: LoopMap, dev: DeviceClass,
                       made: DeviceClass, before: Moment, after: Moment, suc: bool)
    requires made == dev.(devices := ResolvedAll(dev.devices, loopMap))
    requires GroupMade(healthy, made, Missing(dev.devices, loopMap, avail),
               before.h, before.log, after.h, after.log, suc)
    ensures OthersKept(before.h, after.h, dev.vgName) && dev == made.(devices := dev.devices)
    ensures healthy && ByPath(dev) && Attainable(before.h, avail, before.suc, dev) && dev.vgName !in before.suc ==>
              suc && Holds(after.h, dev)
  {
    if healthy && ByPath(dev) && Attainable(before.h, avail, before.suc, dev) && dev.vgName !in before.suc {
      AttainableIsCreatable(before.h, avail, before.suc, dev, loopMap);
    }
  }

  lemma CreatedIsHandled(healthy: bool, first: bool, avail: set<string>, loopMap: LoopMap, dev: DeviceClass,
                         made: DeviceClass, before: Moment, after: Moment, suc: bool)
    requires dev.vgName !in before.suc && dev.vgName !in before.fail && (first ==> dev.vgName !in before.h.vgs)
    requires CreateEffect(healthy, avail, loopMap, dev, made, before, after, suc)
    ensures Handled(healthy, first, avail, loopMap, dev, made, suc, before, after)
  {
    MadeIsProvided(healthy, avail, loopMap, dev, made, before, after, suc);
    assert before.fail - {dev.vgName} == before.fail;
  }

  lemma RetriedIsHandled(healthy: bool, avail: set<string>, loopMap: LoopMap, dev: DeviceClass,
                         made: DeviceClass, before: Moment, after: Moment, suc: bool)
    requires dev.vgName !in before.suc && dev.vgName in before.fail
    requires RetryEffect(healthy, avail, loopMap, dev, made, before, after, suc)
    ensures Handled(healthy, false, avail, loopMap, dev, made, suc, before, after)
  {
    MadeIsProvided(healthy, avail, loopMap, dev, made, before, after, suc);
  }

  lemma ReconciledIsHandled(healthy: bool, avail: set<string>, loopMap: LoopMap, dev: DeviceClass,
                            before: Moment, after: Moment)
    requires dev.vgName in before.suc && after.fail == before.fail
    requires Reconciled(healthy, before.h, before.log, after.h, after.log, dev, loopMap, before.suc, after.suc)
    ensures Handled(healthy, false, avail, loopMap, dev, dev, false, before, after)
  {
    if healthy && ByPath(dev) && Attainable(before.h, avail, before.suc, dev) {
      AttainableIsReachable(before.h, avail, before.suc, dev, loopMap);
    }
  }

  /** The class is reported as failed because its group existed before the first run. Its entry names no
      group. */
  ghost predicate IsTaken(d: DeviceClass, fail: ClassMap) {
    && d.vgName in fail && fail[d.vgName].name == d.className && fail[d.vgName].vgName == ""
    && fail[d.vgName].state == ClassUnReady && fail[d.vgName].message == VG_EXISTING
    && fail[d.vgName].deviceStates == []
  }

  lemma TakenIsHandled(healthy: bool, avail: set<string>, loopMap: LoopMap, dev: DeviceClass,
                       before: Moment, after: Moment)
    requires dev.vgName !in before.suc && dev.vgName !in before.fail && dev.vgName in before.h.vgs
    requires dev.vgName in after.fail && after == before.(fail := before.fail[dev.vgName := after.fail[dev.vgName]])
    requires IsTaken(dev, after.fail)
    ensures Handled(healthy, true, avail, loopMap, dev, dev, false, before, after)
  {
  }

  // ----- what the report says of one class -----

  /** The group holds what the class goes by. */
  ghost predicate IsGroupOf(h: HostState, dev: DeviceClass, loopMap: LoopMap) {
    && dev.vgName in h.vgs
    && forall n :: n in h.vgs[dev.vgName] <==> exists d :: d in dev.devices && GoesBy(d, loopMap, n)
  }

  /** The class asks for this device, and it is not available. */
  ghost predicate IsMissing(dev: DeviceClass, loopMap: LoopMap, avail: set<string>, n: string) {
    n !in avail && exists d :: d in dev.devices && AsksFor(d, loopMap, n)
  }

  ghost predicate SaysOf(entry: ClassState, dev: DeviceClass, state: ClassHealth, message: string) {
    entry.name == dev.className && entry.vgName == dev.vgName && entry.state == state && entry.message == message
  }

  /** A class that was in neither map: a new group with every member online, or each missing device offline, or
      a failed creation. */
  ghost predicate CreationTold(avail: set<string>, loopMap: LoopMap, dev: DeviceClass, after: Moment) {
    var vg := dev.vgName;
    if vg in after.suc then
      && IsGroupOf(after.h, dev, loopMap) && SaysOf(after.suc[vg], dev, ClassReady, CLASS_CREATE_SUCCESSFUL)
      && forall s :: s in after.suc[vg].deviceStates <==>
           InGroup(after.h, vg, s.name) && s.state == Online && s.message == ""
    else if vg in after.fail && exists n :: IsMissing(dev, loopMap, avail, n) then
      && SaysOf(after.fail[vg], dev, ClassUnset, "")
      && forall s :: s in after.fail[vg].deviceStates <==>
           IsMissing(dev, loopMap, avail, s.name) && s.state == Offline && s.message == DISK_UNAVAILABLE
    else
      vg in after.fail && SaysOf(after.fail[vg], dev, ClassUnReady, CLASS_CREATE_FAIL)
      && after.fail[vg].deviceStates == []
  }

  /** A class that had failed: a new group, or the old entry with each missing device recorded over it. */
  ghost predicate RetryTold(avail: set<string>, loopMap: LoopMap, dev: DeviceClass, was: ClassState, after: Moment) {
    var vg := dev.vgName;
    if vg in after.suc then
      && IsGroupOf(after.h, dev, loopMap) && SaysOf(after.suc[vg], dev, ClassReady, CLASS_CREATE_SUCCESSFUL)
      && after.suc[vg].deviceStates == []
    else
      && vg in after.fail && after.fail[vg] == was.(deviceStates := after.fail[vg].deviceStates)
      && exists names: seq<string> ::
           && (forall n :: n in names <==> IsMissing(dev, loopMap, avail, n))
           && RecordedOver(was.deviceStates, names, DISK_UNAVAILABLE, after.fail[vg].deviceStates)
  }

  /** What the maps say of a class after it was handled by these commands. */
  ghost predicate ClassTold(healthy: bool, first: bool, avail: set<string>, loopMap: LoopMap, dev: DeviceClass,
                            before: Moment, after: Moment, entries: seq<Entry>)
  {
    var vg := dev.vgName;
    if vg in before.suc then
      vg in after.suc ==> Told(healthy, dev, before.h, after.h, entries, before.suc[vg], after.suc[vg])
    else if vg in before.fail then
      RetryTold(avail, loopMap, dev, before.fail[vg], after)
    else if first && vg in before.h.vgs then
      IsTaken(dev, after.fail)
    else
      CreationTold(avail, loopMap, dev, after)
  }

  lemma MissingExactly(dev: DeviceClass, loopMap: LoopMap, avail: set<string>)
    ensures forall n :: n in Missing(dev.devices, loopMap, avail) <==> IsMissing(dev, loopMap, avail, n)
  {
    AbsentMembers(Wanted(dev.devices, loopMap), avail);
    forall n
      ensures n in Missing(dev.devices, loopMap, avail) <==> IsMissing(dev, loopMap, avail, n)
    {
      WantedExactly(dev.devices, loopMap, n);
      assert n in Missing(dev.devices, loopMap, avail) <==> n in Elements(Missing(dev.devices, loopMap, avail));
      assert n in Wanted(dev.devices, loopMap) <==> n in Elements(Wanted(dev.devices, loopMap));
    }
  }

  lemma MadeGroup(healthy: bool, dev: DeviceClass, made: DeviceClass, loopMap: LoopMap, missing: seq<string>,
                  before: Moment, after: Moment)
    requires made == dev.(devices := ResolvedAll(dev.devices, loopMap))
    requires GroupMade(healthy, made, missing, before.h, before.log, after.h, after.log, true)
    ensures IsGroupOf(after.h, dev, loopMap) && after.h.vgs[dev.vgName] == Elements(DeviceNames(made.devices))
  {
    forall n
      ensures n in after.h.vgs[dev.vgName] <==> exists d :: d in dev.devices && GoesBy(d, loopMap, n)
    {
      ResolvedExactly(dev.devices, loopMap, n);
    }
  }

  lemma CreationIsTold(healthy: bool, avail: set<string>, loopMap: LoopMap, dev: DeviceClass,
                       made: DeviceClass, before: Moment, after: Moment, suc: bool)
    requires dev.vgName !in before.suc && CreateEffect(healthy, avail, loopMap, dev, made, before, after, suc)
    ensures CreationTold(avail, loopMap, dev, after)
  {
    var missing := Missing(dev.devices, loopMap, avail);
    MissingExactly(dev, loopMap, avail);
    if suc {
      MadeGroup(healthy, dev, made, loopMap, missing, before, after);
      StatesExactly(DeviceNames(made.devices), Online, "");
    } else if missing != [] {
      assert missing[0] in missing;
      StatesExactly(missing, Offline, DISK_UNAVAILABLE);
    }
  }

  lemma RetryIsTold(healthy: bool, avail: set<string>, loopMap: LoopMap, dev: DeviceClass,
                    made: DeviceClass, before: Moment, after: Moment, suc: bool)
    requires dev.vgName !in before.suc && dev.vgName in before.fail
    requires RetryEffect(healthy, avail, loopMap, dev, made, before, after, suc)
    ensures RetryTold(avail, loopMap, dev, before.fail[dev.vgName], after)
  {
    var missing := Missing(dev.devices, loopMap, avail);
    MissingExactly(dev, loopMap, avail);
    if suc {
      MadeGroup(healthy, dev, made, loopMap, missing, before, after);
    } else {
      RecordedExactly(before.fail[dev.vgName].deviceStates, missing, DISK_UNAVAILABLE);
    }
  }

  lemma HandledIsTold(healthy: bool, first: bool, avail: set<string>, loopMap: LoopMap, dev: DeviceClass,
                      made: DeviceClass, created: bool, before: Moment, after: Moment)
    requires before.log <= after.log && StepEffect(healthy, first, avail, loopMap, dev, made, created, before, after)
    ensures ClassTold(healthy, first, avail, loopMap, dev, before, after, after.log[|before.log|..])
  {
    if dev.vgName in before.suc {
    } else if dev.vgName in before.fail {
      RetryIsTold(healthy, avail, loopMap, dev, made, before, after, created);
    } else if first && dev.vgName in before.h.vgs {
    } else {
      CreationIsTold(healthy, avail, loopMap, dev, made, before, after, created);
    }
  }
}

/** Expanding and then shrinking the group of a recorded class: what it does to the node, where it leads, and
    what the report tells of it. */
module Reconciliation {
  import opened ClusterTypes
  import opened LvmHost
  import opened VolumeGroups
  import opened LoopRegistry
  import opened DeviceLists
  import opened ClassStatus
  import opened ClassGroups

  /** What expanding and then shrinking does to the node and to the entry of the class. */
  ghost predicate Reconciled(healthy: bool, h: HostState, log: seq<Entry>, h': HostState, log': seq<Entry>,
                             dev: DeviceClass, loopMap: LoopMap, suc: ClassMap, suc': ClassMap)
    requires dev.vgName in suc
  {
    && SameEntry(dev.vgName, suc, suc') && (AtRest(h, dev, loopMap) ==> suc' == suc)
    && log <= log'
    && (dev.vgName in suc' ==> Told(healthy, dev, h, h', log'[|log|..], suc[dev.vgName], suc'[dev.vgName]))
    && Moved(healthy, h, log, h', log', dev, loopMap, dev.vgName !in suc')
    && Converged(healthy, h, log, h', log', dev, loopMap, dev.vgName !in suc')
  }

  /** An idle class costs no command; on a healthy host any other class with a group costs some. */
  ghost predicate Moved(healthy: bool, h: HostState, log: seq<Entry>, h': HostState, log': seq<Entry>,
                        dev: DeviceClass, loopMap: LoopMap, dropped: bool)
  {
    && log <= log' && h'.lvs == h.lvs && OthersKept(h, h', dev.vgName)
    && (dropped ==> dev.vgName in h.vgs && dev.vgName !in h'.vgs)
    && (Idle(h, dev, loopMap) ==> log' == log && h' == h)
    && (healthy && dev.vgName in h.vgs && log' == log ==> Idle(h, dev, loopMap))
  }

  /** The group ends with the spec's devices exactly when these are in the widened group; when the spec names
      none of that, the group goes unless it carries a logical volume. */
  ghost predicate Converged(healthy: bool, h: HostState, log: seq<Entry>, h': HostState, log': seq<Entry>,
                            dev: DeviceClass, loopMap: LoopMap, dropped: bool)
  {
    && (Reachable(healthy, h, dev, loopMap) ==>
          && (Holds(h', dev) <==> SpecNames(dev) <= Widened(h, dev, loopMap))
          && (SpecNames(dev) <= Widened(h, dev, loopMap) ==> !dropped && NoVgRemove(log', |log|)))
    && (Expandable(healthy, h, dev, loopMap) && WidensAway(h, dev, loopMap) ==>
          (dropped <==> !VgCarriesLv(h, dev.vgName)))
  }

  lemma MovedBySteps(healthy: bool, h: HostState, log: seq<Entry>, wide: HostState, log1: seq<Entry>,
                     h': HostState, log': seq<Entry>, dev: DeviceClass, loopMap: LoopMap,
                     errors: seq<DeviceState>, newPvs: seq<string>, extended: bool,
                     was: ClassState, state: ClassState, listed: bool, dropped: bool, ok: bool)
    requires ExpandEffect(healthy, h, log, wide, log1, dev, loopMap, errors, newPvs, extended)
    requires ShrinkEffect(healthy, wide, log1, h', log', dev, was, state, listed, dropped, ok)
    ensures Moved(healthy, h, log, h', log', dev, loopMap, dropped)
    ensures AtRest(h, dev, loopMap) ==> state == was && !dropped && errors == [] && newPvs == [] && !extended
  {
  }

  lemma ConvergedBySteps(healthy: bool, h: HostState, log: seq<Entry>, wide: HostState, log1: seq<Entry>,
                         h': HostState, log': seq<Entry>, dev: DeviceClass, loopMap: LoopMap,
                         errors: seq<DeviceState>, newPvs: seq<string>, extended: bool,
                         was: ClassState, state: ClassState, listed: bool, dropped: bool, ok: bool)
    requires ExpandEffect(healthy, h, log, wide, log1, dev, loopMap, errors, newPvs, extended)
    requires ShrinkEffect(healthy, wide, log1, h', log', dev, was, state, listed, dropped, ok)
    ensures Converged(healthy, h, log, h', log', dev, loopMap, dropped)
  {
    if Reachable(healthy, h, dev, loopMap) {
      HoldsExactly(h, wide, h', dev, loopMap);
    }
  }

  lemma ReconcileEntry(vg: string, suc: ClassMap, errors: seq<DeviceState>, newPvs: seq<string>, extended: bool,
                       suc1: ClassMap, suc': ClassMap)
    requires vg in suc && suc1 == suc[vg := ExpandReport(suc[vg], errors, newPvs, extended)]
    requires suc' == if vg in suc' then suc1[vg := suc'[vg]] else suc1 - {vg}
    requires vg in suc' ==>
               suc'[vg] == suc1[vg].(message := suc'[vg].message, deviceStates := suc'[vg].deviceStates)
    ensures SameEntry(vg, suc, suc')
    ensures errors == [] && newPvs == [] && !extended ==> suc1 == suc
  {
    assert suc[vg].deviceStates + [] + [] == suc[vg].deviceStates;
    assert suc[vg := suc[vg]] == suc;
  }

  lemma HoldsExactly(h: HostState, wide: HostState, after: HostState, dev: DeviceClass, loopMap: LoopMap)
    requires Reachable(true, h, dev, loopMap)
    requires dev.vgName in wide.vgs && wide.vgs[dev.vgName] == Widened(h, dev, loopMap) && wide.lvs == h.lvs
    requires Narrowed(wide, after, dev.vgName)
    requires NothingToShrink(wide, dev) ==> after == wide
    requires Shrinkable(wide, dev) ==>
               dev.vgName in after.vgs && after.vgs[dev.vgName] == wide.vgs[dev.vgName] * SpecNames(dev)
    ensures Holds(after, dev) <==> SpecNames(dev) <= Widened(h, dev, loopMap)
    ensures SpecNames(dev) <= Widened(h, dev, loopMap) ==> !ShrinksAway(wide, dev)
  {
  }

  // ----- what the report tells of expanding and shrinking -----

  ghost predicate InGroup(h: HostState, vg: string, n: string) {
    vg in h.vgs && n in h.vgs[vg]
  }

  /** The device was added to the group by these commands. */
  ghost predicate Joined(entries: seq<Entry>, vg: string, n: string) {
    exists pvs :: Entry(VgExtend(vg, pvs), Ok) in entries && n in pvs
  }

  /** The device was in the group, from the start or by these commands, and is not any more. */
  ghost predicate Released(h: HostState, h': HostState, entries: seq<Entry>, vg: string, n: string) {
    (InGroup(h, vg, n) || Joined(entries, vg, n)) && !InGroup(h', vg, n)
  }

  /** What the device states of the entry say of the commands: each device that joined and stays is online, each
      failed pvcreate is an error with LVM's words, and every other state was there before. Of what was there
      before, only states of released devices go; on a healthy host all of them do. */
  ghost predicate StatesTold(healthy: bool, vg: string, h: HostState, h': HostState, entries: seq<Entry>,
                             was: seq<DeviceState>, states: seq<DeviceState>)
  {
    && (forall n :: Joined(entries, vg, n) && InGroup(h', vg, n) ==> DeviceState(n, Online, "") in states)
    && (forall n, m :: Entry(PvCreate(n), Err(m)) in entries && !Released(h, h', entries, vg, n) ==>
          DeviceState(n, DeviceError, m) in states)
    && (forall s :: s in was && !Released(h, h', entries, vg, s.name) ==> s in states)
    && (forall s :: s in states ==>
          || s in was
          || (s.state == Online && s.message == "" && Joined(entries, vg, s.name))
          || (s.state == DeviceError && Entry(PvCreate(s.name), Err(s.message)) in entries))
    && (healthy ==> forall s :: s in states ==> !Released(h, h', entries, vg, s.name))
    && |states| <= |was| + ReportCount(entries, vg)
  }

  /** How many states the commands of an expansion are worth: one for each failed pvcreate, and when the group was
      extended one for each device that was labelled. */
  ghost function ReportCount(entries: seq<Entry>, vg: string): nat {
    LabelCount(entries, false)
    + if exists pvs :: Entry(VgExtend(vg, pvs), Ok) in entries then LabelCount(entries, true) else 0
  }

  lemma {:induction false} RemovalsLabelNothing(expansion: seq<Entry>, shrinking: seq<Entry>, ok: bool)
    requires forall e :: e in shrinking ==> !e.command.PvCreate?
    ensures LabelCount(expansion + shrinking, ok) == LabelCount(expansion, ok)
    decreases |shrinking|
  {
    if shrinking == [] {
      assert expansion + shrinking == expansion;
    } else {
      var n := |shrinking| - 1;
      RemovalsLabelNothing(expansion, shrinking[..n], ok);
      assert expansion + shrinking == (expansion + shrinking[..n]) + [shrinking[n]];
      LabelCountSnoc(expansion + shrinking[..n], shrinking[n], ok);
    }
  }

  ghost predicate LabelFailed(entries: seq<Entry>) {
    exists e :: e in entries && e.command.PvCreate? && e.result.Err?
  }

  ghost predicate ExtensionFailed(entries: seq<Entry>) {
    exists e :: e in entries && e.command.VgExtend? && e.result.Err?
  }

  ghost predicate Removing(e: Entry) {
    e.command.VgRemove? || e.command.VgReduce? || e.command.PvRemove?
  }

  ghost predicate Removes(entries: seq<Entry>) {
    exists e :: e in entries && Removing(e)
  }

  ghost predicate RemovalFailed(entries: seq<Entry>) {
    exists e :: e in entries && Removing(e) && e.result.Err?
  }

  ghost predicate RemovesGroup(entries: seq<Entry>) {
    exists e :: e in entries && e.command.VgRemove?
  }

  /** The message as the expansion left it. */
  ghost function ExpansionMessage(entries: seq<Entry>, was: string): string {
    if ExtensionFailed(entries) then CLASS_EXPAND_ERROR
    else if LabelFailed(entries) then CLASS_EXPAND_WARNING
    else was
  }

  /** The message names the last step that failed. A shrinking may also fail before it issues a command: on a
      healthy host exactly when a logical volume is in its way. */
  ghost predicate MessageTold(healthy: bool, dev: DeviceClass, h': HostState, entries: seq<Entry>,
                              was: string, message: string)
  {
    && (RemovalFailed(entries) ==> message == if RemovesGroup(entries) then CLASS_DELETE_ERROR else CLASS_SHRINK_ERROR)
    && (Removes(entries) && !RemovalFailed(entries) ==> message == ExpansionMessage(entries, was))
    && (Removes(entries)
        || message == ExpansionMessage(entries, was)
        || message == if ShrinksAway(h', dev) then CLASS_DELETE_ERROR else CLASS_SHRINK_ERROR)
    && (healthy && !Blocked(h', dev) ==> message == ExpansionMessage(entries, was))
    && (healthy && Blocked(h', dev) ==>
          message == if ShrinksAway(h', dev) then CLASS_DELETE_ERROR else CLASS_SHRINK_ERROR)
  }

  /** The entry of a class after its group was expanded and shrunk by these commands. */
  ghost predicate Told(healthy: bool, dev: DeviceClass, h: HostState, h': HostState, entries: seq<Entry>,
                       was: ClassState, state: ClassState)
  {
    && state == was.(message := state.message, deviceStates := state.deviceStates)
    && StatesTold(healthy, dev.vgName, h, h', entries, was.deviceStates, state.deviceStates)
    && MessageTold(healthy, dev, h', entries, was.message, state.message)
    && (forall n :: InGroup(h', dev.vgName, n) ==> InGroup(h, dev.vgName, n) || Joined(entries, dev.vgName, n))
  }

  /** Of the commands of both steps, the first are those of the expansion. */
  lemma JoinedExactly(expansion: seq<Entry>, shrinking: seq<Entry>, vg: string,
                      errors: seq<DeviceState>, newPvs: seq<string>, extended: bool, ok: bool)
    requires ExpansionTold(expansion, vg, errors, newPvs, extended) && OnlyRemovals(shrinking, ok)
    ensures forall n :: Joined(expansion + shrinking, vg, n) <==> extended && n in newPvs
    ensures forall n, m ::
              Entry(PvCreate(n), Err(m)) in expansion + shrinking <==> DeviceState(n, DeviceError, m) in errors
    ensures ReportCount(expansion + shrinking, vg) == |errors| + if extended then |newPvs| else 0
  {
    assert forall e :: e in expansion + shrinking <==> e in expansion || e in shrinking;
    RemovalsLabelNothing(expansion, shrinking, true);
    RemovalsLabelNothing(expansion, shrinking, false);
  }

  lemma ReportedStates(was: ClassState, errors: seq<DeviceState>, newPvs: seq<string>, extended: bool)
    ensures forall s :: s in ExpandReport(was, errors, newPvs, extended).deviceStates <==>
              || s in was.deviceStates || s in errors
              || (extended && s.name in newPvs && s.state == Online && s.message == "")
    ensures |ExpandReport(was, errors, newPvs, extended).deviceStates|
              == |was.deviceStates| + |errors| + if extended then |newPvs| else 0
  {
    StatesExactly(newPvs, Online, "");
  }

  /** What shrinking leaves of the device states: those of released devices may go, and do on a healthy host. */
  lemma ShrunkStates(healthy: bool, h: HostState, log: seq<Entry>, h': HostState, log': seq<Entry>,
                     dev: DeviceClass, was: ClassState, state: ClassState, listed: bool, ok: bool)
    requires ShrinkEffect(healthy, h, log, h', log', dev, was, state, listed, false, ok)
    ensures |state.deviceStates| <= |was.deviceStates|
    ensures forall n :: InGroup(h', dev.vgName, n) ==> InGroup(h, dev.vgName, n)
    ensures forall s :: s in state.deviceStates ==> s in was.deviceStates
    ensures forall s :: s in was.deviceStates && (InGroup(h, dev.vgName, s.name) ==> InGroup(h', dev.vgName, s.name))
              ==> s in state.deviceStates
    ensures healthy ==> forall s :: s in state.deviceStates ==>
              (InGroup(h, dev.vgName, s.name) ==> InGroup(h', dev.vgName, s.name))
  {
  }

  lemma StatesToldBySteps(healthy: bool, h: HostState, wide: HostState, log: seq<Entry>,
                          h': HostState, log': seq<Entry>, dev: DeviceClass, expansion: seq<Entry>,
                          errors: seq<DeviceState>, newPvs: seq<string>, extended: bool,
                          was: ClassState, state: ClassState, listed: bool, ok: bool)
    requires ExpansionTold(expansion, dev.vgName, errors, newPvs, extended)
    requires if extended then JoinedBy(h, wide, dev.vgName, Elements(newPvs)) else wide.vgs == h.vgs
    requires forall e :: e in errors ==> e.state == DeviceError
    requires ShrinkEffect(healthy, wide, log, h', log', dev, ExpandReport(was, errors, newPvs, extended), state,
                          listed, false, ok)
    ensures StatesTold(healthy, dev.vgName, h, h', expansion + log'[|log|..], was.deviceStates, state.deviceStates)
    ensures forall n :: InGroup(h', dev.vgName, n) ==>
              InGroup(h, dev.vgName, n) || Joined(expansion + log'[|log|..], dev.vgName, n)
  {
    JoinedExactly(expansion, log'[|log|..], dev.vgName, errors, newPvs, extended, ok);
    ReportedStates(was, errors, newPvs, extended);
    ShrunkStates(healthy, wide, log, h', log', dev, ExpandReport(was, errors, newPvs, extended), state, listed, ok);
    WideMembers(h, wide, dev.vgName, expansion + log'[|log|..], newPvs, extended);
    StatesCompose(healthy, h, wide, h', dev.vgName, expansion + log'[|log|..], errors,
                  was.deviceStates, ExpandReport(was, errors, newPvs, extended).deviceStates, state.deviceStates);
  }

  lemma WideMembers(h: HostState, wide: HostState, vg: string, entries: seq<Entry>, newPvs: seq<string>, extended: bool)
    requires if extended then JoinedBy(h, wide, vg, Elements(newPvs)) else wide.vgs == h.vgs
    requires forall n :: Joined(entries, vg, n) <==> extended && n in newPvs
    ensures forall n :: InGroup(wide, vg, n) <==> InGroup(h, vg, n) || Joined(entries, vg, n)
  {
  }

  lemma StatesCompose(healthy: bool, h: HostState, wide: HostState, h': HostState, vg: string, entries: seq<Entry>,
                      errors: seq<DeviceState>, was: seq<DeviceState>, mid: seq<DeviceState>, states: seq<DeviceState>)
    requires forall n :: InGroup(wide, vg, n) <==> InGroup(h, vg, n) || Joined(entries, vg, n)
    requires forall n, m :: Entry(PvCreate(n), Err(m)) in entries <==> DeviceState(n, DeviceError, m) in errors
    requires forall e :: e in errors ==> e.state == DeviceError
    requires forall s :: s in mid <==>
               || s in was || s in errors
               || (Joined(entries, vg, s.name) && s.state == Online && s.message == "")
    requires forall s :: s in states ==> s in mid
    requires forall s :: s in mid && (InGroup(wide, vg, s.name) ==> InGroup(h', vg, s.name)) ==> s in states
    requires healthy ==> forall s :: s in states ==> (InGroup(wide, vg, s.name) ==> InGroup(h', vg, s.name))
    requires |states| <= |was| + ReportCount(entries, vg)
    ensures StatesTold(healthy, vg, h, h', entries, was, states)
  {
    forall s | s in errors
      ensures Entry(PvCreate(s.name), Err(s.message)) in entries
    {
      assert s == DeviceState(s.name, DeviceError, s.message);
    }
  }

  lemma MessageToldBySteps(healthy: bool, h: HostState, wide: HostState, log: seq<Entry>,
                           h': HostState, log': seq<Entry>, dev: DeviceClass, expansion: seq<Entry>,
                           errors: seq<DeviceState>, newPvs: seq<string>, extended: bool,
                           was: ClassState, state: ClassState, listed: bool, ok: bool)
    requires ExpansionTold(expansion, dev.vgName, errors, newPvs, extended)
    requires forall e :: e in errors ==> e.state == DeviceError
    requires ShrinkEffect(healthy, wide, log, h', log', dev, ExpandReport(was, errors, newPvs, extended), state,
                          listed, false, ok)
    ensures MessageTold(healthy, dev, h', expansion + log'[|log|..], was.message, state.message)
  {
    var entries := expansion + log'[|log|..];
    assert forall e :: e in entries <==> e in expansion || e in log'[|log|..];
    ExpansionMessageTold(expansion, log'[|log|..], dev.vgName, errors, newPvs, extended, ok, was);
    RemovalsTold(expansion, log'[|log|..], dev.vgName, errors, newPvs, extended, ok);
    if log' != log {
      assert log'[|log|..][0] == log'[|log|] && log'[|log|] in log'[|log|..];
    }
  }

  lemma ExpansionMessageTold(expansion: seq<Entry>, shrinking: seq<Entry>, vg: string,
                             errors: seq<DeviceState>, newPvs: seq<string>, extended: bool, ok: bool, was: ClassState)
    requires ExpansionTold(expansion, vg, errors, newPvs, extended) && OnlyRemovals(shrinking, ok)
    requires forall e :: e in errors ==> e.state == DeviceError
    ensures ExpansionMessage(expansion + shrinking, was.message) == ExpandReport(was, errors, newPvs, extended).message
  {
    var entries := expansion + shrinking;
    assert forall e :: e in entries <==> e in expansion || e in shrinking;
    if LabelFailed(entries) {
      var e :| e in entries && e.command.PvCreate? && e.result.Err?;
      assert e == Entry(PvCreate(e.command.pv), Err(e.result.message));
      assert DeviceState(e.command.pv, DeviceError, e.result.message) in errors;
    }
    if errors != [] {
      var s := errors[0];
      assert s in errors && s == DeviceState(s.name, DeviceError, s.message);
      assert Entry(PvCreate(s.name), Err(s.message)) in expansion;
    }
    if ExtensionFailed(entries) {
      var e :| e in entries && e.command.VgExtend? && e.result.Err?;
      assert e == Entry(VgExtend(vg, newPvs), Err(e.result.message));
    }
  }

  lemma RemovalsTold(expansion: seq<Entry>, shrinking: seq<Entry>, vg: string,
                     errors: seq<DeviceState>, newPvs: seq<string>, extended: bool, ok: bool)
    requires ExpansionTold(expansion, vg, errors, newPvs, extended) && OnlyRemovals(shrinking, ok)
    ensures var entries := expansion + shrinking;
      && (Removes(entries) <==> shrinking != [])
      && (RemovalFailed(entries) <==> shrinking != [] && !ok)
      && (RemovesGroup(entries) <==> exists e :: e in shrinking && e.command.VgRemove?)
  {
    var entries := expansion + shrinking;
    assert forall e :: e in entries <==> e in expansion || e in shrinking;
    if shrinking != [] {
      assert shrinking[0] in shrinking;
    }
  }

  lemma ToldBySteps(healthy: bool, h: HostState, log: seq<Entry>, wide: HostState, log1: seq<Entry>,
                    h': HostState, log': seq<Entry>, dev: DeviceClass, loopMap: LoopMap,
                    errors: seq<DeviceState>, newPvs: seq<string>, extended: bool,
                    was: ClassState, state: ClassState, listed: bool, ok: bool)
    requires ExpandEffect(healthy, h, log, wide, log1, dev, loopMap, errors, newPvs, extended)
    requires ShrinkEffect(healthy, wide, log1, h', log', dev, ExpandReport(was, errors, newPvs, extended), state,
                          listed, false, ok)
    ensures log <= log' && Told(healthy, dev, h, h', log'[|log|..], was, state)
  {
    assert log'[|log|..] == log1[|log|..] + log'[|log1|..];
    assert forall e :: e in errors ==> e.state == DeviceError;
    StatesToldBySteps(healthy, h, wide, log1, h', log', dev, log1[|log|..], errors, newPvs, extended,
                      was, state, listed, ok);
    MessageToldBySteps(healthy, h, wide, log1, h', log', dev, log1[|log|..], errors, newPvs, extended,
                       was, state, listed, ok);
  }

  lemma ReconciledBySteps(healthy: bool, h: HostState, log: seq<Entry>, wide: HostState, log1: seq<Entry>,
                          h': HostState, log': seq<Entry>, dev: DeviceClass, loopMap: LoopMap,
                          errors: seq<DeviceState>, newPvs: seq<string>, extended: bool,
                          suc: ClassMap, suc1: ClassMap, suc': ClassMap, listed: bool, ok: bool)
    requires dev.vgName in suc
    requires ExpandEffect(healthy, h, log, wide, log1, dev, loopMap, errors, newPvs, extended)
    requires suc1 == suc[dev.vgName := ExpandReport(suc[dev.vgName], errors, newPvs, extended)]
    requires suc' == if dev.vgName in suc' then suc1[dev.vgName := suc'[dev.vgName]] else suc1 - {dev.vgName}
    requires ShrinkEffect(healthy, wide, log1, h', log', dev, suc1[dev.vgName],
               if dev.vgName in suc' then suc'[dev.vgName] else suc1[dev.vgName], listed, dev.vgName !in suc', ok)
    ensures Reconciled(healthy, h, log, h', log', dev, loopMap, suc, suc')
  {
    var vg := dev.vgName;
    var state := if vg in suc' then suc'[vg] else suc1[vg];
    MovedBySteps(healthy, h, log, wide, log1, h', log', dev, loopMap, errors, newPvs, extended,
                 suc1[vg], state, listed, vg !in suc', ok);
    ConvergedBySteps(healthy, h, log, wide, log1, h', log', dev, loopMap, errors, newPvs, extended,
                     suc1[vg], state, listed, vg !in suc', ok);
    ReconcileEntry(vg, suc, errors, newPvs, extended, suc1, suc');
    if vg in suc' {
      ToldBySteps(healthy, h, log, wide, log1, h', log', dev, loopMap, errors, newPvs, extended,
                  suc[vg], state, listed, ok);
    }
  }
}

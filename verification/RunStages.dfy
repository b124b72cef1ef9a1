/** How far a run has come after the first classes of its spec, and what it leaves when it writes its report. */
module RunStages {
  import opened ClusterTypes
  import opened LvmHost
  import opened VolumeGroups
  import opened LoopRegistry
  import opened DeviceLists
  import opened ClassStatus
  import opened ClassGroups
  import opened Reconciliation
  import opened RunMaps
  import LvmdConfig
  import opened ClassSteps

  // ----- what the report says of all classes -----

  /** The group and its entries are the same. */
  ghost predicate SameAt(vg: string, a: Moment, b: Moment) {
    && a.h.lvs == b.h.lvs
    && (vg in a.h.vgs <==> vg in b.h.vgs) && (vg in a.h.vgs ==> a.h.vgs[vg] == b.h.vgs[vg])
    && (vg in a.suc <==> vg in b.suc) && (vg in a.suc ==> a.suc[vg] == b.suc[vg])
    && (vg in a.fail <==> vg in b.fail) && (vg in a.fail ==> a.fail[vg] == b.fail[vg])
  }

  lemma ToldOfSame(healthy: bool, dev: DeviceClass, before: Moment, after: Moment, entries: seq<Entry>,
                   before': Moment, after': Moment, was: ClassState, state: ClassState)
    requires Told(healthy, dev, before.h, after.h, entries, was, state)
    requires SameAt(dev.vgName, before, before') && SameAt(dev.vgName, after, after')
    ensures Told(healthy, dev, before'.h, after'.h, entries, was, state)
  {
    assert forall n :: InGroup(before.h, dev.vgName, n) <==> InGroup(before'.h, dev.vgName, n);
    assert forall n :: InGroup(after.h, dev.vgName, n) <==> InGroup(after'.h, dev.vgName, n);
    assert Blocked(after.h, dev) <==> Blocked(after'.h, dev);
  }

  lemma ToldElsewhere(healthy: bool, first: bool, avail: set<string>, loopMap: LoopMap, dev: DeviceClass,
                      before: Moment, after: Moment, entries: seq<Entry>, before': Moment, after': Moment)
    requires ClassTold(healthy, first, avail, loopMap, dev, before, after, entries)
    requires SameAt(dev.vgName, before, before') && SameAt(dev.vgName, after, after')
    ensures ClassTold(healthy, first, avail, loopMap, dev, before', after', entries)
  {
    var vg := dev.vgName;
    if vg in before.suc && vg in after.suc {
      ToldOfSame(healthy, dev, before, after, entries, before', after', before.suc[vg], after.suc[vg]);
    } else if vg !in before.suc {
      assert forall n :: InGroup(after.h, vg, n) <==> InGroup(after'.h, vg, n);
    }
  }

  /** Some stretch of the log is about this class, and the maps tell of it. */
  ghost predicate ToldAt(healthy: bool, first: bool, avail: set<string>, loopMap: LoopMap, dev: DeviceClass,
                         start: Moment, now: Moment)
  {
    exists a, b :: |start.log| <= a <= b <= |now.log|
      && ClassTold(healthy, first, avail, loopMap, dev, start, now, now.log[a..b])
  }

  /** The maps tell of the first n classes, and the others are as they were. */
  ghost predicate AllTold(healthy: bool, first: bool, avail: set<string>, loopMap: LoopMap, spec: seq<DeviceClass>,
                          n: nat, start: Moment, now: Moment)
    requires n <= |spec|
  {
    && start.log <= now.log
    && (forall i {:trigger ToldAt(healthy, first, avail, loopMap, spec[i], start, now)} :: 0 <= i < n ==>
          ToldAt(healthy, first, avail, loopMap, spec[i], start, now))
    && (forall i {:trigger SameAt(spec[i].vgName, start, now)} :: n <= i < |spec| ==>
          SameAt(spec[i].vgName, start, now))
  }

  lemma ToldStays(healthy: bool, first: bool, avail: set<string>, loopMap: LoopMap, dev: DeviceClass,
                  start: Moment, now: Moment, next: Moment)
    requires ToldAt(healthy, first, avail, loopMap, dev, start, now)
    requires now.log <= next.log && SameAt(dev.vgName, now, next)
    ensures ToldAt(healthy, first, avail, loopMap, dev, start, next)
  {
    var a, b :| |start.log| <= a <= b <= |now.log|
             && ClassTold(healthy, first, avail, loopMap, dev, start, now, now.log[a..b]);
    assert next.log[a..b] == now.log[a..b];
    ToldElsewhere(healthy, first, avail, loopMap, dev, start, now, now.log[a..b], start, next);
  }

  lemma StepIsElsewhere(dev: DeviceClass, now: Moment, next: Moment, created: bool, vg: string)
    requires ClassStep(dev, now.suc, now.fail, next.suc, next.fail, created)
    requires OthersKept(now.h, next.h, dev.vgName) && next.h.lvs == now.h.lvs && vg != dev.vgName
    ensures SameAt(vg, now, next)
  {
  }

  lemma ToldNow(healthy: bool, first: bool, avail: set<string>, loopMap: LoopMap, dev: DeviceClass,
                start: Moment, now: Moment, next: Moment, made: DeviceClass, created: bool)
    requires SameAt(dev.vgName, start, now) && start.log <= now.log
    requires Handled(healthy, first, avail, loopMap, dev, made, created, now, next)
    ensures ToldAt(healthy, first, avail, loopMap, dev, start, next)
  {
    HandledIsTold(healthy, first, avail, loopMap, dev, made, created, now, next);
    ToldElsewhere(healthy, first, avail, loopMap, dev, now, next, next.log[|now.log|..], start, next);
    assert next.log[|now.log|..|next.log|] == next.log[|now.log|..];
  }

  lemma ToldNext(healthy: bool, first: bool, avail: set<string>, loopMap: LoopMap, spec: seq<DeviceClass>,
                 n: nat, start: Moment, now: Moment, next: Moment, made: DeviceClass, created: bool)
    requires n < |spec| && DistinctVgs(spec)
    requires AllTold(healthy, first, avail, loopMap, spec, n, start, now)
    requires Handled(healthy, first, avail, loopMap, spec[n], made, created, now, next)
    ensures AllTold(healthy, first, avail, loopMap, spec, n + 1, start, next)
  {
    forall i | n < i < |spec|
      ensures SameAt(spec[i].vgName, start, next)
    {
      StepIsElsewhere(spec[n], now, next, created, spec[i].vgName);
      assert SameAt(spec[i].vgName, start, now) && SameAt(spec[i].vgName, now, next);
    }
    forall i | 0 <= i < n
      ensures ToldAt(healthy, first, avail, loopMap, spec[i], start, next)
    {
      StepIsElsewhere(spec[n], now, next, created, spec[i].vgName);
      assert ToldAt(healthy, first, avail, loopMap, spec[i], start, now);
      ToldStays(healthy, first, avail, loopMap, spec[i], start, now, next);
    }
    assert SameAt(spec[n].vgName, start, now);
    ToldNow(healthy, first, avail, loopMap, spec[n], start, now, next, made, created);
  }

  // ----- the classes so far -----

  /** The first n classes are provided, and nothing stands in the way of the others. */
  ghost predicate Closing(spec: seq<DeviceClass>, n: nat, avail: set<string>, h: HostState, suc: ClassMap)
    requires n <= |spec|
  {
    && (forall j :: 0 <= j < n ==> Provided(h, suc, spec[j]))
    && (forall j :: n <= j < |spec| ==> Attainable(h, avail, suc, spec[j]))
  }

  lemma ClosingStep(spec: seq<DeviceClass>, n: nat, avail: set<string>, h: HostState, suc: ClassMap,
                    h': HostState, suc': ClassMap)
    requires n < |spec| && Tidy(spec) && Closing(spec, n, avail, h, suc)
    requires OthersKept(h, h', spec[n].vgName) && h'.lvs == h.lvs && Provided(h', suc', spec[n])
    requires forall vg :: vg != spec[n].vgName ==> (vg in suc <==> vg in suc')
    ensures Closing(spec, n + 1, avail, h', suc')
  {
    forall j | n < j < |spec|
      ensures Attainable(h', avail, suc', spec[j])
    {
      StaysAttainable(spec[n], spec[j], avail, h, suc, h', suc');
    }
  }

  lemma StaysAttainable(now: DeviceClass, d: DeviceClass, avail: set<string>, h: HostState, suc: ClassMap,
                        h': HostState, suc': ClassMap)
    requires now.vgName != d.vgName && SpecNames(now) !! SpecNames(d) && Attainable(h, avail, suc, d)
    requires OthersKept(h, h', now.vgName) && h'.lvs == h.lvs && Holds(h', now)
    requires d.vgName in suc <==> d.vgName in suc'
    ensures Attainable(h', avail, suc', d)
  {
    forall n | n in SpecNames(d) && !InSomeVg(h, n)
      ensures !InSomeVg(h', n)
    {
      assert forall v :: v in h'.vgs && v != now.vgName ==> v in h.vgs && h.vgs[v] == h'.vgs[v];
    }
  }

  /** How a run stands after the first n classes of its spec, compared with its start. */
  ghost predicate Underway(healthy: bool, first: bool, avail: set<string>, loopMap: LoopMap, spec: seq<DeviceClass>,
                           n: nat, start: Moment, now: Moment, newVgs: seq<DeviceClass>, gone: set<string>)
    requires n <= |spec|
  {
    && start.log <= now.log && now.h.lvs == start.h.lvs
    && (Quiet(start.h, spec, start.suc, loopMap) ==>
          now.log == start.log && now.h == start.h && now.suc == start.suc)
    && (Orderly(spec, start) ==>
          Stage(spec, n, start.suc, start.fail, now.suc, now.fail, newVgs, gone, now.h.vgs.Keys, first))
    && (healthy && Tidy(spec) && AllAttainable(spec, avail, start.h, start.suc) ==>
          Closing(spec, n, avail, now.h, now.suc))
  }

  /** Distinct groups, none of them recorded both ways. */
  ghost predicate Orderly(spec: seq<DeviceClass>, start: Moment) {
    DistinctVgs(spec) && start.suc.Keys !! start.fail.Keys && Keyed(start.suc) && Keyed(start.fail)
  }

  lemma SetOff(healthy: bool, first: bool, avail: set<string>, loopMap: LoopMap, spec: seq<DeviceClass>, start: Moment)
    ensures Underway(healthy, first, avail, loopMap, spec, 0, start, start, [], {})
  {
    if Orderly(spec, start) {
      StartStage(spec, start.suc, start.fail, start.h.vgs.Keys, first);
    }
  }

  function Grown(newVgs: seq<DeviceClass>, made: DeviceClass, created: bool): seq<DeviceClass> {
    if created then newVgs + [made] else newVgs
  }

  lemma StageNext(healthy: bool, first: bool, avail: set<string>, loopMap: LoopMap, spec: seq<DeviceClass>,
                  n: nat, start: Moment, now: Moment, next: Moment,
                  newVgs: seq<DeviceClass>, gone: set<string>, made: DeviceClass, created: bool)
    requires n < |spec| && DistinctVgs(spec)
    requires Stage(spec, n, start.suc, start.fail, now.suc, now.fail, newVgs, gone, now.h.vgs.Keys, first)
    requires Handled(healthy, first, avail, loopMap, spec[n], made, created, now, next)
    ensures Stage(spec, n + 1, start.suc, start.fail, next.suc, next.fail, Grown(newVgs, made, created),
              gone + GoneNow(spec[n].vgName, now.suc, next.suc), next.h.vgs.Keys, first)
  {
    StepStage(spec, n, start.suc, start.fail, now.suc, now.fail, newVgs, gone, now.h.vgs.Keys,
              next.suc, next.fail, created, made, next.h.vgs.Keys, first);
  }

  lemma QuietStep(healthy: bool, first: bool, avail: set<string>, loopMap: LoopMap, dev: DeviceClass,
                  made: DeviceClass, created: bool, now: Moment, next: Moment)
    requires Handled(healthy, first, avail, loopMap, dev, made, created, now, next)
    requires dev.vgName in now.suc && AtRest(now.h, dev, loopMap)
    ensures next.log == now.log && next.h == now.h && next.suc == now.suc
  {
  }

  lemma StepKeepsOthers(dev: DeviceClass, now: Moment, next: Moment, created: bool)
    requires ClassStep(dev, now.suc, now.fail, next.suc, next.fail, created)
    ensures forall vg :: vg != dev.vgName ==> (vg in now.suc <==> vg in next.suc)
  {
  }

  /** Each class handled leads from one stage of the run to the next. */
  lemma UnderwayNext(healthy: bool, first: bool, avail: set<string>, loopMap: LoopMap, spec: seq<DeviceClass>,
                     n: nat, start: Moment, now: Moment, next: Moment,
                     newVgs: seq<DeviceClass>, gone: set<string>, made: DeviceClass, created: bool)
    requires n < |spec|
    requires Underway(healthy, first, avail, loopMap, spec, n, start, now, newVgs, gone)
    requires Handled(healthy, first, avail, loopMap, spec[n], made, created, now, next)
    ensures Underway(healthy, first, avail, loopMap, spec, n + 1, start, next, Grown(newVgs, made, created),
              gone + GoneNow(spec[n].vgName, now.suc, next.suc))
  {
    assert spec[n] in spec;
    if Quiet(start.h, spec, start.suc, loopMap) {
      QuietStep(healthy, first, avail, loopMap, spec[n], made, created, now, next);
    }
    if Orderly(spec, start) {
      StageNext(healthy, first, avail, loopMap, spec, n, start, now, next, newVgs, gone, made, created);
    }
    if healthy && Tidy(spec) && AllAttainable(spec, avail, start.h, start.suc) {
      StepKeepsOthers(spec[n], now, next, created);
      ClosingStep(spec, n, avail, now.h, now.suc, next.h, next.suc);
    }
  }

  // ----- the classes of a run, one after the other -----

  /** What became of one class: the class with its devices resolved, whether its group was created, and how
      things stood then. */
  datatype Step = Step(made: DeviceClass, created: bool, after: Moment)

  ghost function Last(start: Moment, steps: seq<Step>): Moment {
    if steps == [] then start else steps[|steps| - 1].after
  }

  /** These are the new groups, in order. */
  ghost predicate Collected(steps: seq<Step>, newVgs: seq<DeviceClass>) {
    if steps == [] then newVgs == []
    else
      var n, m := |steps| - 1, |newVgs| - 1;
      if steps[n].created then m >= 0 && newVgs[m] == steps[n].made && Collected(steps[..n], newVgs[..m])
      else Collected(steps[..n], newVgs)
  }

  lemma CollectedGrows(steps: seq<Step>, newVgs: seq<DeviceClass>, step: Step)
    requires Collected(steps, newVgs)
    ensures Collected(steps + [step], Grown(newVgs, step.made, step.created))
  {
    assert (steps + [step])[..|steps|] == steps;
    assert (newVgs + [step.made])[..|newVgs|] == newVgs;
  }

  /** The new groups before the last step. */
  ghost function Earlier(steps: seq<Step>, newVgs: seq<DeviceClass>): (front: seq<DeviceClass>)
    requires steps != [] && Collected(steps, newVgs)
    ensures Collected(steps[..|steps| - 1], front)
    ensures newVgs == Grown(front, steps[|steps| - 1].made, steps[|steps| - 1].created)
  {
    if steps[|steps| - 1].created then newVgs[..|newVgs| - 1] else newVgs
  }

  ghost function GoneIn(spec: seq<DeviceClass>, start: Moment, steps: seq<Step>): set<string>
    requires |steps| <= |spec|
  {
    if steps == [] then {}
    else
      var n := |steps| - 1;
      GoneIn(spec, start, steps[..n]) + GoneNow(spec[n].vgName, Last(start, steps[..n]).suc, steps[n].after.suc)
  }

  /** Each of these steps handled its class. */
  ghost predicate Traced(healthy: bool, avail: set<string>, loopMap: LoopMap, spec: seq<DeviceClass>,
                         start: Moment, steps: seq<Step>)
  {
    steps == [] ||
    var n := |steps| - 1;
    && n < |spec| && Traced(healthy, avail, loopMap, spec, start, steps[..n])
    && Handled(healthy, false, avail, loopMap, spec[n], steps[n].made, steps[n].created,
               Last(start, steps[..n]), steps[n].after)
  }

  lemma TraceGrows(healthy: bool, avail: set<string>, loopMap: LoopMap, spec: seq<DeviceClass>,
                   start: Moment, steps: seq<Step>, step: Step)
    requires Traced(healthy, avail, loopMap, spec, start, steps) && |steps| < |spec|
    requires Handled(healthy, false, avail, loopMap, spec[|steps|], step.made, step.created,
               Last(start, steps), step.after)
    ensures Traced(healthy, avail, loopMap, spec, start, steps + [step])
  {
    assert (steps + [step])[..|steps|] == steps;
  }

  lemma {:induction false} TraceIsUnderway(healthy: bool, avail: set<string>, loopMap: LoopMap,
                                           spec: seq<DeviceClass>, start: Moment, steps: seq<Step>,
                                           newVgs: seq<DeviceClass>)
    requires Traced(healthy, avail, loopMap, spec, start, steps) && |steps| <= |spec| && Collected(steps, newVgs)
    ensures Underway(healthy, false, avail, loopMap, spec, |steps|, start, Last(start, steps),
              newVgs, GoneIn(spec, start, steps))
    decreases |steps|
  {
    if steps == [] {
      SetOff(healthy, false, avail, loopMap, spec, start);
    } else {
      var front, last := steps[..|steps| - 1], steps[|steps| - 1];
      TraceIsUnderway(healthy, avail, loopMap, spec, start, front, Earlier(steps, newVgs));
      UnderwayNext(healthy, false, avail, loopMap, spec, |front|, start, Last(start, front), last.after,
                   Earlier(steps, newVgs), GoneIn(spec, start, front), last.made, last.created);
    }
  }

  /** Each step handled leads the report on. */
  lemma {:induction false} TraceIsTold(healthy: bool, avail: set<string>, loopMap: LoopMap, spec: seq<DeviceClass>,
                                       start: Moment, steps: seq<Step>)
    requires Traced(healthy, avail, loopMap, spec, start, steps) && |steps| <= |spec| && DistinctVgs(spec)
    ensures AllTold(healthy, false, avail, loopMap, spec, |steps|, start, Last(start, steps))
  {
    if steps == [] {
    } else {
      var front, last := steps[..|steps| - 1], steps[|steps| - 1];
      TraceIsTold(healthy, avail, loopMap, spec, start, front);
      ToldNext(healthy, false, avail, loopMap, spec, |front|, start, Last(start, front), last.after,
               last.made, last.created);
    }
  }

  // ----- the end of a run -----

  /** The groups of the spec hold its devices, and its classes are the recorded successes. */
  ghost predicate Achieved(spec: seq<DeviceClass>, h: HostState, suc: ClassMap) {
    suc.Keys == VgNames(spec) && forall d :: d in spec ==> Provided(h, suc, d)
  }

  lemma ClosedIsAchieved(spec: seq<DeviceClass>, avail: set<string>, h: HostState, suc: ClassMap,
                         h': HostState, suc': ClassMap, healthy: bool)
    requires Closing(spec, |spec|, avail, h, suc)
    requires Trimmed(h, h', suc.Keys - VgNames(spec), healthy)
    requires suc' == suc - (suc.Keys - VgNames(spec))
    ensures Achieved(spec, h', suc')
  {
    forall d | d in spec
      ensures Provided(h', suc', d)
    {
      var j :| 0 <= j < |spec| && spec[j] == d;
      assert Provided(h, suc, spec[j]) && d.vgName in VgNames(spec);
    }
  }

  /** What a run has made of the node and of the two class maps when it writes its report. */
  ghost predicate RunEnded(healthy: bool, first: bool, avail: set<string>, loopMap: LoopMap, spec: seq<DeviceClass>,
                           start: Moment, end: Moment, newVgs: seq<DeviceClass>, gone: set<string>)
  {
    && start.log <= end.log && end.h.lvs == start.h.lvs
    && (Quiet(start.h, spec, start.suc, loopMap) && start.suc.Keys <= VgNames(spec) ==>
          end.log == start.log && end.h == start.h && end.suc == start.suc)
    && (Orderly(spec, start) ==>
          && Ended(spec, start.suc, end.suc, end.fail, newVgs, gone, end.h.vgs.Keys)
          && (first || Keyed(end.fail)))
    && (healthy && Tidy(spec) && AllAttainable(spec, avail, start.h, start.suc) ==> Achieved(spec, end.h, end.suc))
    && (DistinctVgs(spec) ==> AllTold(healthy, first, avail, loopMap, spec, |spec|, start, end))
  }

  /** The removal of what the spec does not have ends a run that is not the first. */
  lemma EndRun(healthy: bool, avail: set<string>, loopMap: LoopMap, spec: seq<DeviceClass>,
               start: Moment, now: Moment, end: Moment, newVgs: seq<DeviceClass>, gone: set<string>)
    requires Underway(healthy, false, avail, loopMap, spec, |spec|, start, now, newVgs, gone)
    requires DistinctVgs(spec) ==> AllTold(healthy, false, avail, loopMap, spec, |spec|, start, now)
    requires now.log <= end.log && end.h.lvs == now.h.lvs
    requires end.suc == now.suc - (now.suc.Keys - VgNames(spec))
    requires end.fail == now.fail - (now.fail.Keys - VgNames(spec))
    requires Trimmed(now.h, end.h, now.suc.Keys - VgNames(spec), healthy)
    requires now.suc.Keys <= VgNames(spec) ==> end.log == now.log && end.h == now.h
    ensures RunEnded(healthy, false, avail, loopMap, spec, start, end, newVgs, gone)
  {
    if Orderly(spec, start) {
      FinishStage(spec, start.suc, start.fail, now.suc, now.fail, newVgs, gone, now.h.vgs.Keys,
                  end.suc, end.fail, end.h.vgs.Keys, false);
    }
    if healthy && Tidy(spec) && AllAttainable(spec, avail, start.h, start.suc) {
      ClosedIsAchieved(spec, avail, now.h, now.suc, end.h, end.suc, healthy);
    }
    if DistinctVgs(spec) {
      ToldAfterRemoval(healthy, false, avail, loopMap, spec, start, now, end);
    }
  }

  lemma ToldAfterRemoval(healthy: bool, first: bool, avail: set<string>, loopMap: LoopMap, spec: seq<DeviceClass>,
                         start: Moment, now: Moment, end: Moment)
    requires AllTold(healthy, first, avail, loopMap, spec, |spec|, start, now)
    requires now.log <= end.log && end.h.lvs == now.h.lvs
    requires end.suc == now.suc - (now.suc.Keys - VgNames(spec))
    requires end.fail == now.fail - (now.fail.Keys - VgNames(spec))
    requires Trimmed(now.h, end.h, now.suc.Keys - VgNames(spec), healthy)
    ensures AllTold(healthy, first, avail, loopMap, spec, |spec|, start, end)
  {
    forall i | 0 <= i < |spec|
      ensures ToldAt(healthy, first, avail, loopMap, spec[i], start, end)
    {
      assert spec[i] in spec && spec[i].vgName in VgNames(spec);
      assert ToldAt(healthy, first, avail, loopMap, spec[i], start, now);
      ToldStays(healthy, first, avail, loopMap, spec[i], start, now, end);
    }
  }

  lemma AchievedStays(spec: seq<DeviceClass>, h: HostState, suc: ClassMap, h': HostState, suc': ClassMap)
    requires Achieved(spec, h, suc) && h'.vgs == h.vgs && suc'.Keys == suc.Keys
    ensures Achieved(spec, h', suc')
  {
    forall d | d in spec
      ensures Provided(h', suc', d)
    {
      assert Provided(h, suc, d);
    }
  }

  // ----- the first run -----

  /** The groups of the first n classes that existed before are reported so. */
  ghost predicate TakenUpTo(spec: seq<DeviceClass>, n: nat, vgs: set<string>, fail: ClassMap)
    requires n <= |spec|
  {
    forall j :: 0 <= j < n && spec[j].vgName in vgs ==> IsTaken(spec[j], fail)
  }

  lemma TakenStay(spec: seq<DeviceClass>, n: nat, vgs: set<string>, before: ClassMap, after: ClassMap)
    requires n < |spec| && DistinctVgs(spec)
    requires after - {spec[n].vgName} == before - {spec[n].vgName}
    requires TakenUpTo(spec, n, vgs, before) && (spec[n].vgName in vgs ==> IsTaken(spec[n], after))
    ensures TakenUpTo(spec, n + 1, vgs, after)
  {
    forall j | 0 <= j < n && spec[j].vgName in vgs
      ensures IsTaken(spec[j], after)
    {
      var vg := spec[j].vgName;
      assert vg in before - {spec[n].vgName} && (before - {spec[n].vgName})[vg] == before[vg];
      assert vg in after - {spec[n].vgName} && (after - {spec[n].vgName})[vg] == after[vg];
    }
  }

  /** How a first run stands after the first n classes of its spec. */
  ghost predicate Begun(healthy: bool, avail: set<string>, loopMap: LoopMap, spec: seq<DeviceClass>,
                        n: nat, vgs: set<string>, start: Moment, now: Moment, newVgs: seq<DeviceClass>)
    requires n <= |spec|
  {
    && start.log <= now.log && now.h.lvs == start.h.lvs && NoVgRemove(now.log, |start.log|)
    && start.h.vgs.Keys == vgs
    && (DistinctVgs(spec) ==>
          && TakenUpTo(spec, n, vgs, now.fail)
          && Underway(healthy, true, avail, loopMap, spec, n, start, now, newVgs, {})
          && forall i :: n <= i < |spec| ==> (spec[i].vgName in vgs <==> spec[i].vgName in now.h.vgs))
  }

  lemma SetOffFirst(healthy: bool, avail: set<string>, loopMap: LoopMap, spec: seq<DeviceClass>, start: Moment)
    requires start.suc == start.fail == map[]
    ensures Begun(healthy, avail, loopMap, spec, 0, start.h.vgs.Keys, start, start, [])
  {
    SetOff(healthy, true, avail, loopMap, spec, start);
  }

  /** One class of a first run: a group that exists is not taken over, and costs no command. */
  ghost predicate FirstEffect(healthy: bool, avail: set<string>, loopMap: LoopMap, vgs: set<string>, dev: DeviceClass,
                              made: DeviceClass, before: Moment, after: Moment, created: bool)
  {
    if dev.vgName in vgs then
      && !created && made == dev && IsTaken(dev, after.fail)
      && after == before.(fail := before.fail[dev.vgName := after.fail[dev.vgName]])
    else
      CreateEffect(healthy, avail, loopMap, dev, made, before, after, created)
  }

  lemma FirstFacts(healthy: bool, avail: set<string>, loopMap: LoopMap, vgs: set<string>, dev: DeviceClass,
                   made: DeviceClass, before: Moment, after: Moment, created: bool)
    requires FirstEffect(healthy, avail, loopMap, vgs, dev, made, before, after, created)
    ensures before.log <= after.log && NoVgRemove(after.log, |before.log|) && after.h.lvs == before.h.lvs
    ensures before.h.vgs.Keys <= after.h.vgs.Keys && dev == made.(devices := dev.devices)
    ensures after.fail - {dev.vgName} == before.fail - {dev.vgName}
    ensures dev.vgName in vgs ==> IsTaken(dev, after.fail)
    ensures dev.vgName !in before.suc && dev.vgName !in before.fail
            && (dev.vgName in vgs <==> dev.vgName in before.h.vgs) ==>
              Handled(healthy, true, avail, loopMap, dev, made, created, before, after)
  {
    if dev.vgName !in before.suc && dev.vgName !in before.fail
       && (dev.vgName in vgs <==> dev.vgName in before.h.vgs) {
      if dev.vgName in vgs {
        TakenIsHandled(healthy, avail, loopMap, dev, before, after);
      } else {
        CreatedIsHandled(healthy, true, avail, loopMap, dev, made, before, after, created);
      }
    }
  }

  /** The class is handled as any other, for it is in neither map yet. */
  lemma FirstStep(healthy: bool, avail: set<string>, loopMap: LoopMap, spec: seq<DeviceClass>,
                  n: nat, vgs: set<string>, start: Moment, now: Moment, next: Moment,
                  newVgs: seq<DeviceClass>, made: DeviceClass, created: bool)
    requires n < |spec| && DistinctVgs(spec) && start.suc == start.fail == map[]
    requires Begun(healthy, avail, loopMap, spec, n, vgs, start, now, newVgs)
    requires FirstEffect(healthy, avail, loopMap, vgs, spec[n], made, now, next, created)
    ensures spec[n].vgName !in now.suc
    ensures Handled(healthy, true, avail, loopMap, spec[n], made, created, now, next)
  {
    FirstSight(spec, n, now.suc, now.fail, newVgs, {}, now.h.vgs.Keys);
    FirstFacts(healthy, avail, loopMap, vgs, spec[n], made, now, next, created);
  }

  lemma BegunNext(healthy: bool, avail: set<string>, loopMap: LoopMap, spec: seq<DeviceClass>,
                  n: nat, vgs: set<string>, start: Moment, now: Moment, next: Moment,
                  newVgs: seq<DeviceClass>, made: DeviceClass, created: bool)
    requires n < |spec| && start.suc == start.fail == map[]
    requires Begun(healthy, avail, loopMap, spec, n, vgs, start, now, newVgs)
    requires FirstEffect(healthy, avail, loopMap, vgs, spec[n], made, now, next, created)
    ensures Begun(healthy, avail, loopMap, spec, n + 1, vgs, start, next, Grown(newVgs, made, created))
  {
    FirstFacts(healthy, avail, loopMap, vgs, spec[n], made, now, next, created);
    if DistinctVgs(spec) {
      FirstStep(healthy, avail, loopMap, spec, n, vgs, start, now, next, newVgs, made, created);
      TakenStay(spec, n, vgs, now.fail, next.fail);
      UnderwayNext(healthy, true, avail, loopMap, spec, n, start, now, next, newVgs, {}, made, created);
      assert {} + GoneNow(spec[n].vgName, now.suc, next.suc) == {};
      forall i | n < i < |spec|
        ensures spec[i].vgName in vgs <==> spec[i].vgName in next.h.vgs
      {
        assert spec[i].vgName != spec[n].vgName;
      }
    }
    NothingRemoved(start.log, now.log, next.log);
  }

  lemma NothingRemoved(a: seq<Entry>, b: seq<Entry>, c: seq<Entry>)
    requires a <= b <= c && NoVgRemove(b, |a|) && NoVgRemove(c, |b|)
    ensures NoVgRemove(c, |a|)
  {
  }

  /** Each of these steps of a first run handled its class. */
  ghost predicate FirstTraced(healthy: bool, avail: set<string>, loopMap: LoopMap, spec: seq<DeviceClass>,
                              vgs: set<string>, start: Moment, steps: seq<Step>)
  {
    steps == [] ||
    var n := |steps| - 1;
    && n < |spec| && FirstTraced(healthy, avail, loopMap, spec, vgs, start, steps[..n])
    && FirstEffect(healthy, avail, loopMap, vgs, spec[n], steps[n].made, Last(start, steps[..n]),
                   steps[n].after, steps[n].created)
  }

  lemma FirstTraceGrows(healthy: bool, avail: set<string>, loopMap: LoopMap, spec: seq<DeviceClass>,
                        vgs: set<string>, start: Moment, steps: seq<Step>, step: Step)
    requires FirstTraced(healthy, avail, loopMap, spec, vgs, start, steps) && |steps| < |spec|
    requires FirstEffect(healthy, avail, loopMap, vgs, spec[|steps|], step.made, Last(start, steps),
               step.after, step.created)
    ensures FirstTraced(healthy, avail, loopMap, spec, vgs, start, steps + [step])
    ensures step.made == spec[|steps|].(devices := step.made.devices)
  {
    assert (steps + [step])[..|steps|] == steps;
  }

  lemma {:induction false} FirstTraceIsBegun(healthy: bool, avail: set<string>, loopMap: LoopMap,
                                             spec: seq<DeviceClass>, vgs: set<string>, start: Moment,
                                             steps: seq<Step>, newVgs: seq<DeviceClass>)
    requires FirstTraced(healthy, avail, loopMap, spec, vgs, start, steps) && |steps| <= |spec|
    requires start.suc == start.fail == map[] && start.h.vgs.Keys == vgs && Collected(steps, newVgs)
    ensures Begun(healthy, avail, loopMap, spec, |steps|, vgs, start, Last(start, steps), newVgs)
    decreases |steps|
  {
    if steps == [] {
      SetOffFirst(healthy, avail, loopMap, spec, start);
    } else {
      var front, last := steps[..|steps| - 1], steps[|steps| - 1];
      FirstTraceIsBegun(healthy, avail, loopMap, spec, vgs, start, front, Earlier(steps, newVgs));
      BegunNext(healthy, avail, loopMap, spec, |front|, vgs, start, Last(start, front), last.after,
                Earlier(steps, newVgs), last.made, last.created);
    }
  }

  /** The last step of a first run handled its class. */
  lemma LastFirstStep(healthy: bool, avail: set<string>, loopMap: LoopMap, spec: seq<DeviceClass>, vgs: set<string>,
                      start: Moment, steps: seq<Step>, newVgs: seq<DeviceClass>)
    requires FirstTraced(healthy, avail, loopMap, spec, vgs, start, steps) && 0 < |steps| <= |spec| && DistinctVgs(spec)
    requires start.suc == start.fail == map[] && start.h.vgs.Keys == vgs && Collected(steps, newVgs)
    ensures var n := |steps| - 1;
      Handled(healthy, true, avail, loopMap, spec[n], steps[n].made, steps[n].created,
              Last(start, steps[..n]), steps[n].after)
  {
    var front, last := steps[..|steps| - 1], steps[|steps| - 1];
    FirstTraceIsBegun(healthy, avail, loopMap, spec, vgs, start, front, Earlier(steps, newVgs));
    FirstStep(healthy, avail, loopMap, spec, |front|, vgs, start, Last(start, front), last.after,
              Earlier(steps, newVgs), last.made, last.created);
  }

  lemma {:induction false} FirstTraceIsTold(healthy: bool, avail: set<string>, loopMap: LoopMap,
                                            spec: seq<DeviceClass>, vgs: set<string>, start: Moment,
                                            steps: seq<Step>, newVgs: seq<DeviceClass>)
    requires FirstTraced(healthy, avail, loopMap, spec, vgs, start, steps) && |steps| <= |spec| && DistinctVgs(spec)
    requires start.suc == start.fail == map[] && start.h.vgs.Keys == vgs && Collected(steps, newVgs)
    ensures AllTold(healthy, true, avail, loopMap, spec, |steps|, start, Last(start, steps))
    decreases |steps|
  {
    if steps == [] {
    } else {
      var front, last := steps[..|steps| - 1], steps[|steps| - 1];
      LastFirstStep(healthy, avail, loopMap, spec, vgs, start, steps, newVgs);
      FirstTraceIsTold(healthy, avail, loopMap, spec, vgs, start, front, Earlier(steps, newVgs));
      ToldNext(healthy, true, avail, loopMap, spec, |front|, start, Last(start, front), last.after,
               last.made, last.created);
    }
  }

  lemma EndFirst(healthy: bool, avail: set<string>, loopMap: LoopMap, spec: seq<DeviceClass>, vgs: set<string>,
                 start: Moment, end: Moment, newVgs: seq<DeviceClass>)
    requires DistinctVgs(spec) && start.suc == start.fail == map[]
    requires Begun(healthy, avail, loopMap, spec, |spec|, vgs, start, end, newVgs)
    requires AllTold(healthy, true, avail, loopMap, spec, |spec|, start, end)
    ensures RunEnded(healthy, true, avail, loopMap, spec, start, end, newVgs, {})
    ensures forall d :: d in spec && d.vgName in vgs ==> IsTaken(d, end.fail)
  {
    FinishFirst(spec, end.suc, end.fail, newVgs, {}, end.h.vgs.Keys);
    if healthy && Tidy(spec) && AllAttainable(spec, avail, start.h, start.suc) {
      forall d | d in spec
        ensures Provided(end.h, end.suc, d)
      {
        var j :| 0 <= j < |spec| && spec[j] == d;
        assert Provided(end.h, end.suc, spec[j]);
      }
    }
  }

  // ----- all runs -----

  ghost function StartOf(h: HostState, log: seq<Entry>, rec: NodeRecord): Moment {
    Moment(h, log, Successes(rec), Failures(rec))
  }

  /** What a run on a spec with distinct groups makes of the record and of the node. The report says of each
      class that it is a success or a failure, or its group has been removed. When nothing stands in the way,
      every group ends with exactly its devices; and when that is so already, nothing happens. */
  ghost predicate Outcomes(healthy: bool, avail: set<string>, loopMap: LoopMap, spec: seq<DeviceClass>, rec: NodeRecord,
                           h: HostState, log: seq<Entry>, rec': NodeRecord, end: Moment, gone: set<string>)
  {
    DistinctVgs(spec) ==>
      && AllTold(healthy, rec.status.None?, avail, loopMap, spec, |spec|, StartOf(h, log, rec), end)
      && (Successes(rec).Keys !! Failures(rec).Keys ==>
            && Settled(spec, end.suc, end.fail, gone) && gone !! end.h.vgs.Keys
            && Successes(rec') == end.suc)
      && (healthy && Tidy(spec) && Successes(rec).Keys !! Failures(rec).Keys
          && AllAttainable(spec, avail, h, Successes(rec)) ==>
            Rested(spec, end.h, rec'))
      && (Rested(spec, h, rec) ==> end.log == log && end.h == h && Rested(spec, end.h, rec'))
  }

  /** There is a report, its successes are the classes of the spec, and their groups hold their devices. */
  ghost predicate Rested(spec: seq<DeviceClass>, h: HostState, rec: NodeRecord) {
    rec.status.Some? && Tidy(spec) && Achieved(spec, h, Successes(rec))
  }

  lemma GoodRun(healthy: bool, first: bool, avail: set<string>, loopMap: LoopMap, spec: seq<DeviceClass>,
                rec: NodeRecord, rec': NodeRecord, start: Moment, end: Moment,
                newVgs: seq<DeviceClass>, gone: set<string>)
    requires DistinctVgs(spec) && first == rec.status.None? && start == StartOf(start.h, start.log, rec)
    requires RunEnded(healthy, first, avail, loopMap, spec, start, end, newVgs, gone)
    requires Written(rec', end.suc, end.fail)
    ensures Outcomes(healthy, avail, loopMap, spec, rec, start.h, start.log, rec', end, gone)
  {
    KeyedRecord(rec);
    RebuildExactly(rec'.status.value.successClasses, end.suc);
    if Rested(spec, start.h, rec) {
      HeldByPathIsQuiet(start.h, spec, start.suc, loopMap);
      AchievedStays(spec, start.h, start.suc, end.h, Successes(rec'));
    }
  }

  lemma KeyedRecord(rec: NodeRecord)
    ensures Keyed(Successes(rec)) && Keyed(Failures(rec))
  {
    if rec.status.Some? {
      MapIsKeyed(rec.status.value.successClasses);
      MapIsKeyed(rec.status.value.failClasses);
    }
  }

  /** No run sets the phase of a report. */
  function PhaseOf(rec: NodeRecord): Condition {
    if rec.status.Some? then rec.status.value.phase else ConditionUnset
  }

  /** The configuration that goes with a report. */
  function LvmdOf(rec: NodeRecord, classes: seq<DeviceClass>, newVgs: seq<DeviceClass>, suc: ClassMap)
    : Option<LvmdConf>
  {
    if rec.status.Some? then LvmdConfig.Updated(rec.lvmd, classes, newVgs, suc)
    else LvmdConfig.Created(rec.lvmd, newVgs)
  }

  /** A good record is turned into a good record, whose every lvmd class carries the flag of this spec. */
  ghost predicate KeepsGood(bind: map<string, string>, spec: seq<DeviceClass>, rec: NodeRecord, rec': NodeRecord) {
    SpecOk(bind, spec) && RecordOk(bind, rec) ==>
      RecordOk(bind, rec') && FlagsFollow(spec, rec'.lvmd) && ConfigFollows(spec, rec, rec'.lvmd)
  }

  lemma RecordKept(bind: map<string, string>, healthy: bool, first: bool, avail: set<string>, loopMap: LoopMap,
                   spec: seq<DeviceClass>, classes: seq<DeviceClass>, rec: NodeRecord, rec': NodeRecord,
                   start: Moment, end: Moment, newVgs: seq<DeviceClass>, gone: set<string>)
    requires SameClasses(spec, classes) && start == StartOf(start.h, start.log, rec)
    requires RunEnded(healthy, first, avail, loopMap, spec, start, end, newVgs, gone)
    requires Written(rec', end.suc, end.fail) && rec'.lvmd == LvmdOf(rec, classes, newVgs, end.suc)
    ensures KeepsGood(bind, spec, rec, rec')
  {
    if SpecOk(bind, spec) && RecordOk(bind, rec) {
      KeyedRecord(rec);
      RunKeepsRecord(bind, spec, classes, rec, newVgs, end.suc, end.fail, gone, rec');
    }
  }

  /** The registry and the map of loops after the loop devices of a spec were checked, or left alone. Each
      automatic loop asks for the device of its entry: for the one that was created for it, if any was. */
  ghost predicate LoopsChecked(useLoop: bool, classes: seq<DeviceClass>, before: seq<LoopState>, beforeMap: LoopMap,
                               after: seq<LoopState>, afterMap: LoopMap,
                               calls: seq<string>, answers: map<string, LoopAnswer>)
  {
    if useLoop then
      && LoopsDone(AllDisks(classes), before, beforeMap, after, afterMap, calls, answers)
      && (forall d, n :: d in AllDisks(classes) && d.kind == LOOP && d.auto ==>
            (AsksFor(d, afterMap, n) <==> n != "" && EntryOf(after, d.name).Some?
                                          && n == EntryOf(after, d.name).value.deviceName))
      && (forall d, n :: d in AllDisks(classes) && d.kind == LOOP && d.auto && d.name in answers ==>
            (AsksFor(d, afterMap, n) <==> n != "" && n == answers[d.name].device))
    else
      after == before && afterMap == beforeMap && calls == [] && answers == map[]
  }

  lemma LoopsResolved(classes: seq<DeviceClass>, before: seq<LoopState>, beforeMap: LoopMap,
                      after: seq<LoopState>, afterMap: LoopMap,
                      calls: seq<string>, answers: map<string, LoopAnswer>)
    requires LoopsDone(AllDisks(classes), before, beforeMap, after, afterMap, calls, answers)
    ensures LoopsChecked(true, classes, before, beforeMap, after, afterMap, calls, answers)
  {
    forall d, n | d in AllDisks(classes) && d.kind == LOOP && d.auto
      ensures AsksFor(d, afterMap, n) <==> n != "" && EntryOf(after, d.name).Some?
                                           && n == EntryOf(after, d.name).value.deviceName
    {
      assert Mapped(after, afterMap, d.name);
    }
  }
}

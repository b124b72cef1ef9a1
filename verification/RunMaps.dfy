/** How one run moves the classes of a node between the success map, the fail map and nowhere. The
    run is a sequence of class steps followed by the removal of what the spec no longer has. */
module RunMaps {
  import opened ClusterTypes
  import opened ClassStatus
  import opened LvmdConfig

  predicate DistinctVgs(spec: seq<DeviceClass>) {
    forall i, j :: 0 <= i < j < |spec| ==> spec[i].vgName != spec[j].vgName
  }

  function VgNames(spec: seq<DeviceClass>): set<string> {
    set d | d in spec :: d.vgName
  }

  /** The same classes, up to the names of their devices. */
  ghost predicate SameClasses(a: seq<DeviceClass>, b: seq<DeviceClass>) {
    |a| == |b| && forall i :: 0 <= i < |a| ==> a[i] == b[i].(devices := a[i].devices)
  }

  /** The first n classes may have had their devices resolved; the others are as the spec has them. */
  ghost predicate InStep(spec: seq<DeviceClass>, classes: seq<DeviceClass>, n: nat) {
    SameClasses(spec, classes) && forall i :: n <= i < |spec| ==> classes[i] == spec[i]
  }

  lemma InStepNext(spec: seq<DeviceClass>, classes: seq<DeviceClass>, n: nat, made: DeviceClass)
    requires InStep(spec, classes, n) && n < |spec| && spec[n] == made.(devices := spec[n].devices)
    ensures InStep(spec, classes[n := made], n + 1)
  {
  }

  /** What handling one class of the spec does to the two maps. */
  ghost predicate ClassStep(dev: DeviceClass, suc: ClassMap, fail: ClassMap,
                            suc': ClassMap, fail': ClassMap, created: bool)
  {
    var vg := dev.vgName;
    if created then
      && vg !in suc && vg in suc' && suc' == suc[vg := suc'[vg]]
      && suc'[vg].name == dev.className && suc'[vg].vgName == vg
      && fail' == fail - {vg}
    else if vg in suc then
      && fail' == fail
      && if vg in suc'
         then suc' == suc[vg := suc'[vg]] && suc'[vg].name == suc[vg].name && suc'[vg].vgName == suc[vg].vgName
         else suc' == suc - {vg}
    else
      && suc' == suc
      && vg in fail' && fail' == fail[vg := fail'[vg]]
      && (fail'[vg].vgName == "" || fail'[vg].vgName == if vg in fail then fail[vg].vgName else vg)
  }

  /** After the first n classes of the spec each of them is in exactly one place. The groups in gone
      are those whose shrinking removed them altogether. */
  ghost predicate Places(spec: seq<DeviceClass>, n: nat, suc0: ClassMap, fail0: ClassMap,
                         suc: ClassMap, fail: ClassMap, gone: set<string>)
    requires n <= |spec|
  {
    && suc.Keys !! fail.Keys && Keyed(suc) && NearlyKeyed(fail)
    && Untouched(spec, n, suc0, suc) && Untouched(spec, n, fail0, fail)
    && gone <= suc0.Keys && gone !! suc.Keys && gone !! fail.Keys && gone <= VgNames(spec[..n])
    && (forall i :: 0 <= i < n ==> spec[i].vgName in suc || spec[i].vgName in fail || spec[i].vgName in gone)
  }

  ghost predicate Progress(spec: seq<DeviceClass>, n: nat, suc0: ClassMap, fail0: ClassMap,
                           suc: ClassMap, fail: ClassMap, newVgs: seq<DeviceClass>, gone: set<string>)
    requires n <= |spec|
  {
    && Places(spec, n, suc0, fail0, suc, fail, gone)
    && RunOutcome(newVgs, suc0, suc) && FromSpec(newVgs, spec[..n])
  }

  function GoneNow(vg: string, suc: ClassMap, suc': ClassMap): set<string> {
    if vg in suc && vg !in suc' then {vg} else {}
  }

  /** The classes still to come are as they were. */
  ghost predicate Untouched(spec: seq<DeviceClass>, n: nat, before: ClassMap, after: ClassMap)
    requires n <= |spec|
  {
    forall vg :: vg !in VgNames(spec[..n]) ==>
      (vg in before <==> vg in after) && (vg in before ==> before[vg] == after[vg])
  }

  lemma NamesStep(spec: seq<DeviceClass>, n: nat)
    requires n < |spec|
    ensures VgNames(spec[..n + 1]) == VgNames(spec[..n]) + {spec[n].vgName}
    ensures DistinctVgs(spec) ==> spec[n].vgName !in VgNames(spec[..n])
  {
  }

  lemma FromSpecGrows(newVgs: seq<DeviceClass>, spec: seq<DeviceClass>, n: nat)
    requires n < |spec| && FromSpec(newVgs, spec[..n])
    ensures FromSpec(newVgs, spec[..n + 1])
    ensures forall d :: d in newVgs ==> d.vgName in VgNames(spec[..n])
  {
  }

  /** A class step leads from one stage of the run to the next. */
  lemma StepProgress(spec: seq<DeviceClass>, n: nat, suc0: ClassMap, fail0: ClassMap,
                     suc: ClassMap, fail: ClassMap, newVgs: seq<DeviceClass>, gone: set<string>,
                     suc': ClassMap, fail': ClassMap, created: bool, made: DeviceClass)
    requires n < |spec| && DistinctVgs(spec)
    requires Progress(spec, n, suc0, fail0, suc, fail, newVgs, gone)
    requires ClassStep(spec[n], suc, fail, suc', fail', created)
    requires created ==> spec[n] == made.(devices := spec[n].devices)
    ensures Progress(spec, n + 1, suc0, fail0, suc', fail',
              if created then newVgs + [made] else newVgs, gone + GoneNow(spec[n].vgName, suc, suc'))
  {
    var vg := spec[n].vgName;
    NamesStep(spec, n);
    FromSpecGrows(newVgs, spec, n);
    StepPlaces(spec, n, suc0, fail0, suc, fail, gone, suc', fail', created);
    if created {
      assert vg in suc0 <==> vg in suc;
      OutcomeCreated(suc0, suc, newVgs, suc', made);
      assert spec[..n + 1][n] == spec[n];
      assert HasClass(spec[..n + 1], made);
    } else {
      StepMaps(spec[n], suc, fail, suc', fail', created);
      OutcomeKept(vg, suc0, suc, newVgs, suc');
    }
  }

  /** Progress, with the host's word that the groups in gone are gone. In a run
      that is not the first each failure names its group. */
  ghost predicate Stage(spec: seq<DeviceClass>, n: nat, suc0: ClassMap, fail0: ClassMap,
                        suc: ClassMap, fail: ClassMap, newVgs: seq<DeviceClass>, gone: set<string>, vgs: set<string>,
                        first: bool)
    requires n <= |spec|
  {
    Progress(spec, n, suc0, fail0, suc, fail, newVgs, gone) && gone !! vgs && (first || Keyed(fail))
  }

  lemma StepStage(spec: seq<DeviceClass>, n: nat, suc0: ClassMap, fail0: ClassMap,
                  suc: ClassMap, fail: ClassMap, newVgs: seq<DeviceClass>, gone: set<string>, vgs: set<string>,
                  suc': ClassMap, fail': ClassMap, created: bool, made: DeviceClass, vgs': set<string>, first: bool)
    requires n < |spec| && DistinctVgs(spec)
    requires Stage(spec, n, suc0, fail0, suc, fail, newVgs, gone, vgs, first)
    requires ClassStep(spec[n], suc, fail, suc', fail', created)
    requires created ==> spec[n] == made.(devices := spec[n].devices)
    requires first || Keyed(fail) ==> first || Keyed(fail')
    requires forall v :: v != spec[n].vgName ==> (v in vgs <==> v in vgs')
    requires spec[n].vgName in suc && spec[n].vgName !in suc' ==> spec[n].vgName !in vgs'
    ensures Stage(spec, n + 1, suc0, fail0, suc', fail',
              if created then newVgs + [made] else newVgs, gone + GoneNow(spec[n].vgName, suc, suc'), vgs', first)
  {
    StepProgress(spec, n, suc0, fail0, suc, fail, newVgs, gone, suc', fail', created, made);
    NamesStep(spec, n);
    assert spec[n].vgName !in gone;
  }

  /** A class step changes nothing but the entries of its own group, and files them there. */
  lemma StepMaps(dev: DeviceClass, suc: ClassMap, fail: ClassMap, suc': ClassMap, fail': ClassMap, created: bool)
    requires ClassStep(dev, suc, fail, suc', fail', created)
    requires suc.Keys !! fail.Keys && Keyed(suc) && NearlyKeyed(fail)
    ensures suc'.Keys !! fail'.Keys && Keyed(suc') && NearlyKeyed(fail')
    ensures forall vg :: vg != dev.vgName ==>
              (vg in suc <==> vg in suc') && (vg in suc ==> suc[vg] == suc'[vg])
              && (vg in fail <==> vg in fail') && (vg in fail ==> fail[vg] == fail'[vg])
    ensures dev.vgName in suc' || dev.vgName in fail' || dev.vgName in suc
  {
  }

  lemma StepPlaces(spec: seq<DeviceClass>, n: nat, suc0: ClassMap, fail0: ClassMap,
                   suc: ClassMap, fail: ClassMap, gone: set<string>,
                   suc': ClassMap, fail': ClassMap, created: bool)
    requires n < |spec| && DistinctVgs(spec)
    requires Places(spec, n, suc0, fail0, suc, fail, gone)
    requires ClassStep(spec[n], suc, fail, suc', fail', created)
    ensures Places(spec, n + 1, suc0, fail0, suc', fail', gone + GoneNow(spec[n].vgName, suc, suc'))
  {
    NamesStep(spec, n);
    StepMaps(spec[n], suc, fail, suc', fail', created);
    UntouchedStep(spec, n, suc0, suc, suc');
    UntouchedStep(spec, n, fail0, fail, fail');
    StepGone(spec[n].vgName, VgNames(spec[..n]), suc0, suc, fail, gone, suc', fail');
    forall i | 0 <= i < n
      ensures spec[i].vgName in suc' || spec[i].vgName in fail' || spec[i].vgName in gone
    {
      assert spec[..n][i] in spec[..n];
    }
  }

  lemma UntouchedStep(spec: seq<DeviceClass>, n: nat, before: ClassMap, after: ClassMap, after': ClassMap)
    requires n < |spec| && Untouched(spec, n, before, after)
    requires forall vg :: vg != spec[n].vgName ==>
               (vg in after <==> vg in after') && (vg in after ==> after[vg] == after'[vg])
    ensures Untouched(spec, n + 1, before, after')
  {
  }

  lemma StepGone(vg: string, done: set<string>, suc0: ClassMap, suc: ClassMap, fail: ClassMap, gone: set<string>,
                 suc': ClassMap, fail': ClassMap)
    requires vg !in done && gone <= done && gone <= suc0.Keys && (vg in suc ==> vg in suc0)
    requires suc.Keys !! fail.Keys && suc'.Keys !! fail'.Keys && gone !! suc.Keys && gone !! fail.Keys
    requires suc'.Keys <= suc.Keys + {vg} && fail'.Keys <= fail.Keys + {vg}
    requires vg in suc && vg !in suc' ==> vg !in fail'
    ensures var gone' := gone + GoneNow(vg, suc, suc');
      gone' <= suc0.Keys && gone' !! suc'.Keys && gone' !! fail'.Keys && gone' <= done + {vg}
  {
  }

  lemma OutcomeKept(vg: string, suc0: ClassMap, suc: ClassMap, newVgs: seq<DeviceClass>, suc': ClassMap)
    requires RunOutcome(newVgs, suc0, suc) && forall d :: d in newVgs ==> d.vgName != vg
    requires forall v :: v != vg ==> (v in suc <==> v in suc') && (v in suc ==> suc[v] == suc'[v])
    requires vg in suc' ==> vg in suc && suc'[vg].name == suc[vg].name
    ensures RunOutcome(newVgs, suc0, suc')
  {
  }

  lemma OutcomeCreated(suc0: ClassMap, suc: ClassMap, newVgs: seq<DeviceClass>, suc': ClassMap, made: DeviceClass)
    requires RunOutcome(newVgs, suc0, suc) && forall d :: d in newVgs ==> d.vgName != made.vgName
    requires made.vgName !in suc0 && made.vgName in suc' && suc'[made.vgName].name == made.className
    requires suc' == suc[made.vgName := suc'[made.vgName]]
    ensures RunOutcome(newVgs + [made], suc0, suc')
  {
  }

  lemma StartStage(spec: seq<DeviceClass>, suc: ClassMap, fail: ClassMap, vgs: set<string>, first: bool)
    requires suc.Keys !! fail.Keys && Keyed(suc) && Keyed(fail)
    ensures Stage(spec, 0, suc, fail, suc, fail, [], {}, vgs, first)
  {
  }

  /** What a run leaves: every class of the spec in exactly one place, and nothing else. */
  ghost predicate Settled(spec: seq<DeviceClass>, suc: ClassMap, fail: ClassMap, gone: set<string>) {
    && suc.Keys !! fail.Keys && gone !! suc.Keys && gone !! fail.Keys
    && suc.Keys + fail.Keys + gone == VgNames(spec)
    && Keyed(suc) && NearlyKeyed(fail)
  }

  /** The removal of the classes that are not in the spec ends the run. */
  lemma FinishProgress(spec: seq<DeviceClass>, suc0: ClassMap, fail0: ClassMap,
                       suc: ClassMap, fail: ClassMap, newVgs: seq<DeviceClass>, gone: set<string>,
                       suc': ClassMap, fail': ClassMap)
    requires Progress(spec, |spec|, suc0, fail0, suc, fail, newVgs, gone)
    requires suc' == suc - (suc.Keys - VgNames(spec)) && fail' == fail - (fail.Keys - VgNames(spec))
    ensures Settled(spec, suc', fail', gone) && gone <= suc0.Keys
    ensures RunOutcome(newVgs, suc0, suc') && FromSpec(newVgs, spec)
  {
    assert spec[..|spec|] == spec;
    NewOnesAreListed(spec, newVgs);
    AllPlaced(spec, suc, fail, gone);
    OutcomeTrimmed(suc0, suc, newVgs, VgNames(spec), suc');
  }

  lemma NewOnesAreListed(spec: seq<DeviceClass>, newVgs: seq<DeviceClass>)
    requires FromSpec(newVgs, spec)
    ensures forall d :: d in newVgs ==> d.vgName in VgNames(spec)
  {
    forall d | d in newVgs
      ensures d.vgName in VgNames(spec)
    {
      assert HasClass(spec, d);
      var k :| 0 <= k < |spec| && SameClass(spec[k], d);
      assert spec[k] in spec;
    }
  }

  lemma AllPlaced(spec: seq<DeviceClass>, suc: ClassMap, fail: ClassMap, gone: set<string>)
    requires forall i :: 0 <= i < |spec| ==> spec[i].vgName in suc || spec[i].vgName in fail || spec[i].vgName in gone
    ensures VgNames(spec) <= suc.Keys + fail.Keys + gone
  {
    forall vg | vg in VgNames(spec)
      ensures vg in suc || vg in fail || vg in gone
    {
      var d :| d in spec && d.vgName == vg;
      var i :| 0 <= i < |spec| && spec[i] == d;
    }
  }

  lemma OutcomeTrimmed(suc0: ClassMap, suc: ClassMap, newVgs: seq<DeviceClass>, names: set<string>, suc': ClassMap)
    requires RunOutcome(newVgs, suc0, suc) && forall d :: d in newVgs ==> d.vgName in names
    requires suc' == suc - (suc.Keys - names)
    ensures RunOutcome(newVgs, suc0, suc')
  {
  }

  /** The end of a run on the maps and on the host. */
  ghost predicate Ended(spec: seq<DeviceClass>, suc0: ClassMap, suc: ClassMap, fail: ClassMap,
                        newVgs: seq<DeviceClass>, gone: set<string>, vgs: set<string>)
  {
    && Settled(spec, suc, fail, gone) && gone <= suc0.Keys && gone !! vgs
    && RunOutcome(newVgs, suc0, suc) && FromSpec(newVgs, spec)
  }

  lemma FinishStage(spec: seq<DeviceClass>, suc0: ClassMap, fail0: ClassMap,
                    suc: ClassMap, fail: ClassMap, newVgs: seq<DeviceClass>, gone: set<string>, vgs: set<string>,
                    suc': ClassMap, fail': ClassMap, vgs': set<string>, first: bool)
    requires Stage(spec, |spec|, suc0, fail0, suc, fail, newVgs, gone, vgs, first)
    requires suc' == suc - (suc.Keys - VgNames(spec)) && fail' == fail - (fail.Keys - VgNames(spec))
    requires vgs' <= vgs
    ensures Ended(spec, suc0, suc', fail', newVgs, gone, vgs')
    ensures first || Keyed(fail')
  {
    FinishProgress(spec, suc0, fail0, suc, fail, newVgs, gone, suc', fail');
  }

  /** A class that no earlier one of the first run shares its group with is in neither map yet. */
  lemma FirstSight(spec: seq<DeviceClass>, n: nat, suc: ClassMap, fail: ClassMap, newVgs: seq<DeviceClass>,
                   gone: set<string>, vgs: set<string>)
    requires n < |spec| && DistinctVgs(spec)
    requires Stage(spec, n, map[], map[], suc, fail, newVgs, gone, vgs, true)
    ensures spec[n].vgName !in suc && spec[n].vgName !in fail
  {
  }

  lemma FinishFirst(spec: seq<DeviceClass>, suc: ClassMap, fail: ClassMap, newVgs: seq<DeviceClass>,
                    gone: set<string>, vgs: set<string>)
    requires Stage(spec, |spec|, map[], map[], suc, fail, newVgs, gone, vgs, true)
    ensures Ended(spec, map[], suc, fail, newVgs, gone, vgs)
  {
  }

  lemma SameVgNames(spec: seq<DeviceClass>, classes: seq<DeviceClass>)
    requires SameClasses(spec, classes)
    ensures VgNames(spec) == VgNames(classes)
  {
  }

  // ----- from run to run -----

  function Successes(rec: NodeRecord): ClassMap {
    if rec.status.Some? then VgNameMap(rec.status.value.successClasses) else map[]
  }

  function Failures(rec: NodeRecord): ClassMap {
    if rec.status.Some? then VgNameMap(rec.status.value.failClasses) else map[]
  }

  /** A spec as the operator documents it: distinct classes with distinct, named volume groups, bound
      to each other for good. */
  ghost predicate SpecOk(bind: map<string, string>, spec: seq<DeviceClass>) {
    && OneToOne(bind) && SpecBound(bind, spec)
    && DistinctVgs(spec) && UniqueClassNames(spec) && "" !in VgNames(spec)
  }

  /** The stored report never has a class both ways, and the stored lvmd configuration lists exactly
      the classes reported as successes. */
  ghost predicate RecordOk(bind: map<string, string>, rec: NodeRecord) {
    && (rec.status.None? ==> rec.lvmd.None?)
    && Successes(rec).Keys !! Failures(rec).Keys && "" !in Successes(rec)
    && MapBound(bind, Successes(rec))
    && Lists(Classes(rec.lvmd), Successes(rec))
  }

  /** The record a run writes from its maps. */
  ghost predicate Written(rec: NodeRecord, suc: ClassMap, fail: ClassMap) {
    && rec.status.Some?
    && Enumerates(rec.status.value.successClasses, suc) && Enumerates(rec.status.value.failClasses, fail)
  }

  lemma BoundAfter(bind: map<string, string>, spec: seq<DeviceClass>, newVgs: seq<DeviceClass>,
                   before: ClassMap, after: ClassMap)
    requires SpecBound(bind, spec) && MapBound(bind, before)
    requires RunOutcome(newVgs, before, after) && FromSpec(newVgs, spec)
    ensures MapBound(bind, after)
  {
  }

  lemma SameClassesCarryOver(bind: map<string, string>, spec: seq<DeviceClass>, classes: seq<DeviceClass>,
                             newVgs: seq<DeviceClass>)
    requires SameClasses(spec, classes) && SpecOk(bind, spec) && FromSpec(newVgs, spec)
    ensures SpecBound(bind, classes) && UniqueClassNames(classes) && FromSpec(newVgs, classes)
  {
  }

  /** Each lvmd class has the flag of the spec, so one default class makes at most one lvmd default. */
  ghost predicate FlagsFollow(spec: seq<DeviceClass>, lvmd: Option<LvmdConf>) {
    && (forall e :: e in Classes(lvmd) ==> CarriesSpecFlag(e, spec))
    && (OneDefaultAtMost(spec) ==> OneLvmdDefaultAtMost(Classes(lvmd)))
  }

  /** The entry of a group that this run created has everything that the spec asks for; any other is the old
      entry of its group, up to the flag. The socket stays. */
  ghost predicate ConfigFollows(spec: seq<DeviceClass>, rec: NodeRecord, lvmd: Option<LvmdConf>) {
    && (forall e :: e in Classes(lvmd) ==>
          if e.volumeGroup in Successes(rec) then exists o :: o in Classes(rec.lvmd) && EntryKept(e, o)
          else exists k :: 0 <= k < |spec| && EntryFor(e, spec[k]))
    && (lvmd.Some? && rec.lvmd.Some? ==> lvmd.value.socketName == rec.lvmd.value.socketName)
    && (lvmd.Some? && rec.lvmd.None? ==> lvmd.value.socketName == "/run/topolvm/lvmd.sock")
  }

  lemma UpdatedFollows(spec: seq<DeviceClass>, rec: NodeRecord, newVgs: seq<DeviceClass>, suc: ClassMap,
                       lvmd: Option<LvmdConf>)
    requires Lists(Classes(rec.lvmd), Successes(rec))
    requires RunOutcome(newVgs, Successes(rec), suc) && FromSpec(newVgs, spec)
    requires ConfigTold(rec.lvmd, newVgs, suc, lvmd)
    ensures ConfigFollows(spec, rec, lvmd)
  {
    forall e | e in Classes(lvmd)
      ensures if e.volumeGroup in Successes(rec) then exists o :: o in Classes(rec.lvmd) && EntryKept(e, o)
              else exists k :: 0 <= k < |spec| && EntryFor(e, spec[k])
    {
      if exists o :: o in Classes(rec.lvmd) && EntryKept(e, o) {
      } else {
        NewEntry(rec.lvmd, newVgs, suc, lvmd, e);
        var d :| d in newVgs && EntryFor(e, d);
        assert HasClass(spec, d);
      }
    }
  }

  lemma NewEntry(conf: Option<LvmdConf>, newVgs: seq<DeviceClass>, suc: ClassMap, lvmd: Option<LvmdConf>, e: LvmdClass)
    requires ConfigTold(conf, newVgs, suc, lvmd) && e in Classes(lvmd)
    requires !exists o :: o in Classes(conf) && EntryKept(e, o)
    ensures exists d :: d in newVgs && EntryFor(e, d)
  {
    if conf.None? && newVgs != [] {
      var i :| 0 <= i < |Classes(lvmd)| && Classes(lvmd)[i] == e;
      assert newVgs[i] in newVgs && EntryFor(e, newVgs[i]);
    }
  }

  /** A run turns a good record into a good record, whose every lvmd class carries the flag that the
      spec of this run gives it. */
  lemma RunKeepsRecord(bind: map<string, string>, spec: seq<DeviceClass>, classes: seq<DeviceClass>,
                       rec: NodeRecord, newVgs: seq<DeviceClass>, suc: ClassMap, fail: ClassMap,
                       gone: set<string>, rec': NodeRecord)
    requires SpecOk(bind, spec) && SameClasses(spec, classes) && RecordOk(bind, rec)
    requires Settled(spec, suc, fail, gone)
    requires RunOutcome(newVgs, Successes(rec), suc) && FromSpec(newVgs, spec)
    requires Written(rec', suc, fail) && rec'.lvmd == Updated(rec.lvmd, classes, newVgs, suc)
    ensures RecordOk(bind, rec') && Successes(rec') == suc
    ensures FlagsFollow(spec, rec'.lvmd) && ConfigFollows(spec, rec, rec'.lvmd)
  {
    BoundAfter(bind, spec, newVgs, Successes(rec), suc);
    BindingFreesNames(bind, Successes(rec), suc);
    UpdateListsExactly(rec.lvmd, classes, newVgs, Successes(rec), suc);
    DisjointCarriesOver(suc, fail, rec'.status.value.successClasses, rec'.status.value.failClasses);
    SameClassesCarryOver(bind, spec, classes, newVgs);
    forall vg | vg in suc
      ensures exists k :: 0 <= k < |classes| && classes[k].vgName == vg
    {
      var d :| d in spec && d.vgName == vg;
      var k :| 0 <= k < |spec| && spec[k] == d;
      assert classes[k].vgName == vg;
    }
    DefaultsFollowSpec(rec.lvmd, classes, newVgs, Successes(rec), suc, bind);
    SpecFlagsFollow(spec, classes, rec'.lvmd, suc);
    UpdatedIsTold(rec.lvmd, classes, newVgs, suc);
    UpdatedFollows(spec, rec, newVgs, suc, rec'.lvmd);
  }

  lemma SpecFlagsFollow(spec: seq<DeviceClass>, classes: seq<DeviceClass>, lvmd: Option<LvmdConf>, suc: ClassMap)
    requires SameClasses(spec, classes) && Lists(Classes(lvmd), suc)
    requires forall e :: e in Classes(lvmd) ==> CarriesSpecFlag(e, classes)
    ensures FlagsFollow(spec, lvmd)
  {
  }
}

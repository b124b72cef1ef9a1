/** How the lvmd configuration follows the success map (updateLvmdConf and createLvmdConf). */
module LvmdConfig {
  import opened ClusterTypes
  import opened Sequences

  // ----- specification -----

  function Names(suc: map<string, ClassState>): set<string> {
    set vg | vg in suc :: suc[vg].name
  }

  function Classes(conf: Option<LvmdConf>): seq<LvmdClass> {
    if conf.Some? then conf.value.deviceClasses else []
  }

  ghost predicate OneEntryPerGroup(classes: seq<LvmdClass>) {
    forall i, j :: 0 <= i < j < |classes| ==> classes[i].volumeGroup != classes[j].volumeGroup
  }

  /** The configuration lists exactly the classes of the success map, each once and with its own
      volume group. */
  ghost predicate Lists(classes: seq<LvmdClass>, suc: map<string, ClassState>) {
    && OneEntryPerGroup(classes)
    && (forall e :: e in classes ==> e.volumeGroup in suc && suc[e.volumeGroup].name == e.name)
    && (forall vg :: vg in suc ==> exists e :: e in classes && e.volumeGroup == vg)
  }

  function Convert(dev: DeviceClass): LvmdClass {
    LvmdClass(dev.className, dev.vgName, dev.spareGb, dev.isDefault, dev.stripe, dev.stripeSize)
  }

  function ConvertAll(devs: seq<DeviceClass>): seq<LvmdClass> {
    seq(|devs|, i requires 0 <= i < |devs| => Convert(devs[i]))
  }

  function SetDefault(classes: seq<LvmdClass>, dev: DeviceClass): seq<LvmdClass> {
    seq(|classes|, i requires 0 <= i < |classes| =>
      if classes[i].name == dev.className then classes[i].(isDefault := dev.isDefault) else classes[i])
  }

  function SetDefaults(classes: seq<LvmdClass>, spec: seq<DeviceClass>): seq<LvmdClass> {
    if spec == [] then classes
    else SetDefault(SetDefaults(classes, spec[..|spec| - 1]), spec[|spec| - 1])
  }

  function Keep(classes: seq<LvmdClass>, names: set<string>): seq<LvmdClass> {
    if classes == [] then []
    else
      var last := classes[|classes| - 1];
      Keep(classes[..|classes| - 1], names) + if last.name in names then [last] else []
  }

  /** The entry is what the class of the spec asks for. */
  ghost predicate EntryFor(e: LvmdClass, d: DeviceClass) {
    && e.name == d.className && e.volumeGroup == d.vgName && e.spareGb == d.spareGb
    && e.stripe == d.stripe && e.stripeSize == d.stripeSize && e.isDefault == d.isDefault
  }

  /** The entry is an old one, up to its flag. */
  ghost predicate EntryKept(e: LvmdClass, o: LvmdClass) {
    && e.name == o.name && e.volumeGroup == o.volumeGroup && e.spareGb == o.spareGb
    && e.stripe == o.stripe && e.stripeSize == o.stripeSize
  }

  /** A new configuration has one entry for each new group, in order; none is written without new groups. */
  ghost predicate CreationTold(conf: Option<LvmdConf>, newVgs: seq<DeviceClass>, r: Option<LvmdConf>) {
    if newVgs == [] then r == conf
    else
      && r.Some? && r.value.socketName == "/run/topolvm/lvmd.sock" && |r.value.deviceClasses| == |newVgs|
      && forall i :: 0 <= i < |newVgs| ==> EntryFor(r.value.deviceClasses[i], newVgs[i])
  }

  ghost predicate RecordedName(suc: map<string, ClassState>, name: string) {
    exists vg :: vg in suc && suc[vg].name == name
  }

  /** An updated configuration has the old entries and the new groups' entries whose class is recorded, and
      keeps its socket. */
  ghost predicate UpdateTold(conf: LvmdConf, newVgs: seq<DeviceClass>, suc: map<string, ClassState>, r: LvmdConf) {
    && r.socketName == conf.socketName
    && (forall e :: e in r.deviceClasses ==>
          RecordedName(suc, e.name)
          && ((exists o :: o in conf.deviceClasses && EntryKept(e, o)) || exists d :: d in newVgs && EntryFor(e, d)))
    && (forall o :: o in conf.deviceClasses && RecordedName(suc, o.name) ==>
          exists e :: e in r.deviceClasses && EntryKept(e, o))
    && (forall d :: d in newVgs && RecordedName(suc, d.className) ==>
          exists e :: e in r.deviceClasses && EntryFor(e, d))
  }

  ghost predicate ConfigTold(conf: Option<LvmdConf>, newVgs: seq<DeviceClass>, suc: map<string, ClassState>,
                             r: Option<LvmdConf>)
  {
    if conf.None? then CreationTold(conf, newVgs, r) else r.Some? && UpdateTold(conf.value, newVgs, suc, r.value)
  }

  lemma CreatedIsTold(conf: Option<LvmdConf>, newVgs: seq<DeviceClass>)
    ensures CreationTold(conf, newVgs, Created(conf, newVgs))
  {
  }

  lemma DefaultedEntries(classes: seq<LvmdClass>, spec: seq<DeviceClass>)
    ensures forall e :: e in SetDefaults(classes, spec) ==> exists o :: o in classes && EntryKept(e, o)
    ensures forall o :: o in classes ==> exists e :: e in SetDefaults(classes, spec) && EntryKept(e, o)
  {
    var s := SetDefaults(classes, spec);
    LastOneDecides(classes, spec);
    forall e | e in s
      ensures exists o :: o in classes && EntryKept(e, o)
    {
      var i :| 0 <= i < |s| && s[i] == e;
      assert FlagDecided(spec, classes[i], s[i]) && classes[i] in classes;
    }
    forall o | o in classes
      ensures exists e :: e in s && EntryKept(e, o)
    {
      var i :| 0 <= i < |classes| && classes[i] == o;
      assert FlagDecided(spec, classes[i], s[i]) && s[i] in s;
    }
  }

  lemma ConvertedEntries(newVgs: seq<DeviceClass>)
    ensures forall e :: e in ConvertAll(newVgs) ==> exists d :: d in newVgs && EntryFor(e, d)
    ensures forall d :: d in newVgs ==> exists e :: e in ConvertAll(newVgs) && EntryFor(e, d)
  {
    var all := ConvertAll(newVgs);
    forall e | e in all
      ensures exists d :: d in newVgs && EntryFor(e, d)
    {
      var i :| 0 <= i < |all| && all[i] == e;
      assert newVgs[i] in newVgs && EntryFor(e, newVgs[i]);
    }
    forall d | d in newVgs
      ensures exists e :: e in all && EntryFor(e, d)
    {
      var i :| 0 <= i < |newVgs| && newVgs[i] == d;
      assert all[i] in all && EntryFor(all[i], d);
    }
  }

  /** What the configuration says of groups and classes, field by field. */
  lemma UpdatedIsTold(conf: Option<LvmdConf>, spec: seq<DeviceClass>, newVgs: seq<DeviceClass>,
                      suc: map<string, ClassState>)
    ensures ConfigTold(conf, newVgs, suc, Updated(conf, spec, newVgs, suc))
  {
    if conf.None? {
      CreatedIsTold(conf, newVgs);
    } else {
      var olds, news := SetDefaults(conf.value.deviceClasses, spec), ConvertAll(newVgs);
      KeepMembers(olds + news, Names(suc));
      DefaultedEntries(conf.value.deviceClasses, spec);
      ConvertedEntries(newVgs);
      KeptIsTold(conf.value, olds, news, newVgs, suc, Updated(conf, spec, newVgs, suc).value);
    }
  }

  lemma KeptIsTold(conf: LvmdConf, olds: seq<LvmdClass>, news: seq<LvmdClass>, newVgs: seq<DeviceClass>,
                   suc: map<string, ClassState>, r: LvmdConf)
    requires forall e :: e in r.deviceClasses <==> e in olds + news && e.name in Names(suc)
    requires forall e :: e in olds ==> exists o :: o in conf.deviceClasses && EntryKept(e, o)
    requires forall o :: o in conf.deviceClasses ==> exists e :: e in olds && EntryKept(e, o)
    requires forall e :: e in news ==> exists d :: d in newVgs && EntryFor(e, d)
    requires forall d :: d in newVgs ==> exists e :: e in news && EntryFor(e, d)
    requires r.socketName == conf.socketName
    ensures UpdateTold(conf, newVgs, suc, r)
  {
    assert forall n :: n in Names(suc) <==> RecordedName(suc, n);
    forall o | o in conf.deviceClasses && RecordedName(suc, o.name)
      ensures exists e :: e in r.deviceClasses && EntryKept(e, o)
    {
      var e :| e in olds && EntryKept(e, o);
      assert e in olds + news;
    }
    NewAreKept(news, newVgs, suc, r, olds + news);
  }

  lemma NewAreKept(news: seq<LvmdClass>, newVgs: seq<DeviceClass>, suc: map<string, ClassState>, r: LvmdConf,
                   all: seq<LvmdClass>)
    requires forall e :: e in r.deviceClasses <==> e in all && e.name in Names(suc)
    requires forall e :: e in news ==> e in all
    requires forall d :: d in newVgs ==> exists e :: e in news && EntryFor(e, d)
    ensures forall d :: d in newVgs && RecordedName(suc, d.className) ==>
              exists e :: e in r.deviceClasses && EntryFor(e, d)
  {
    forall d | d in newVgs && RecordedName(suc, d.className)
      ensures exists e :: e in r.deviceClasses && EntryFor(e, d)
    {
      var e :| e in news && EntryFor(e, d);
      assert e in all && e.name in Names(suc);
    }
  }

  function Created(conf: Option<LvmdConf>, newVgs: seq<DeviceClass>): Option<LvmdConf> {
    if newVgs == [] then conf else Some(LvmdConf(LVMD_SOCKET_PATH, ConvertAll(newVgs)))
  }

  function Updated(conf: Option<LvmdConf>, spec: seq<DeviceClass>, newVgs: seq<DeviceClass>,
                   suc: map<string, ClassState>): Option<LvmdConf>
  {
    if conf.None? then Created(conf, newVgs)
    else
      var all := SetDefaults(conf.value.deviceClasses, spec) + ConvertAll(newVgs);
      Some(conf.value.(deviceClasses := Keep(all, Names(suc))))
  }

  // ----- the loops -----

  method CreateLvmdConf(conf: Option<LvmdConf>, newVgs: seq<DeviceClass>) returns (r: Option<LvmdConf>)
    ensures r == Created(conf, newVgs) && CreationTold(conf, newVgs, r)
  {
    if |newVgs| == 0 {
      return conf;
    }
    var classes: seq<LvmdClass> := [];
    for i := 0 to |newVgs|
      invariant classes == ConvertAll(newVgs)[..i]
    {
      classes := classes + [Convert(newVgs[i])];
    }
    assert classes == ConvertAll(newVgs);
    r := Some(LvmdConf(LVMD_SOCKET_PATH, classes));
  }

  method HasName(suc: map<string, ClassState>, name: string) returns (found: bool)
    ensures found == (name in Names(suc))
  {
    found := false;
    var rest := suc.Keys;
    while rest != {}
      invariant rest <= suc.Keys
      invariant found == exists vg :: vg in suc.Keys - rest && suc[vg].name == name
    {
      var vg :| vg in rest;
      if name == suc[vg].name {
        found := true;
      }
      rest := rest - {vg};
    }
  }

  method ApplyDefault(conf: seq<LvmdClass>, dev: DeviceClass) returns (classes: seq<LvmdClass>)
    ensures classes == SetDefault(conf, dev)
  {
    classes := conf;
    for index := 0 to |classes|
      invariant |classes| == |conf|
      invariant forall j :: 0 <= j < index ==> classes[j] == SetDefault(conf, dev)[j]
      invariant forall j :: index <= j < |conf| ==> classes[j] == conf[j]
    {
      var ele := classes[index];
      if ele.name == dev.className && ele.isDefault != dev.isDefault {
        classes := classes[index := ele.(isDefault := dev.isDefault)];
      }
    }
  }

  method ApplyDefaults(conf: seq<LvmdClass>, spec: seq<DeviceClass>) returns (classes: seq<LvmdClass>)
    ensures classes == SetDefaults(conf, spec)
    ensures |classes| == |conf| && forall i :: 0 <= i < |classes| ==> FlagDecided(spec, conf[i], classes[i])
  {
    classes := conf;
    for i := 0 to |spec|
      invariant classes == SetDefaults(conf, spec[..i])
    {
      assert spec[..i + 1][..i] == spec[..i];
      classes := ApplyDefault(classes, spec[i]);
    }
    assert spec[..|spec|] == spec;
    LastOneDecides(conf, spec);
  }

  method DropUnrecorded(all: seq<LvmdClass>, suc: map<string, ClassState>) returns (classes: seq<LvmdClass>)
    ensures classes == Keep(all, Names(suc))
  {
    classes := all;
    ghost var names := Names(suc);
    ghost var kept, rest: seq<LvmdClass> := [], all;
    var index := 0;
    while index < |classes|
      invariant index == |kept| && classes == kept + rest
      invariant kept + Keep(rest, names) == Keep(all, names)
      decreases |rest|
    {
      Cut(classes, kept, rest);
      KeepFirst(rest, names);
      var found := HasName(suc, classes[index].name);
      if found {
        kept := kept + [rest[0]];
      } else {
        classes := classes[..index] + classes[index + 1..];
        index := index - 1;
      }
      rest := rest[1..];
      index := index + 1;
    }
  }

  lemma {:induction false} KeepFirst(classes: seq<LvmdClass>, names: set<string>)
    requires classes != []
    ensures Keep(classes, names) == (if classes[0].name in names then [classes[0]] else []) + Keep(classes[1..], names)
  {
    if |classes| == 1 {
    } else {
      var front := classes[..|classes| - 1];
      KeepFirst(front, names);
      assert front[1..] == classes[1..][..|classes| - 2];
    }
  }

  method UpdateLvmdConf(conf: Option<LvmdConf>, spec: seq<DeviceClass>, newVgs: seq<DeviceClass>,
                        suc: map<string, ClassState>) returns (r: Option<LvmdConf>)
    ensures r == Updated(conf, spec, newVgs, suc) && ConfigTold(conf, newVgs, suc, r)
  {
    UpdatedIsTold(conf, spec, newVgs, suc);
    if conf.None? {
      r := CreateLvmdConf(conf, newVgs);
      return;
    }
    var classes := ApplyDefaults(conf.value.deviceClasses, spec);
    ghost var defaulted := classes;
    for i := 0 to |newVgs|
      invariant classes == defaulted + ConvertAll(newVgs)[..i]
    {
      classes := classes + [Convert(newVgs[i])];
    }
    assert classes == defaulted + ConvertAll(newVgs);
    classes := DropUnrecorded(classes, suc);
    r := Some(conf.value.(deviceClasses := classes));
  }

  // ----- properties -----

  lemma {:induction false} KeepMembers(classes: seq<LvmdClass>, names: set<string>)
    ensures forall e :: e in Keep(classes, names) <==> e in classes && e.name in names
    ensures OneEntryPerGroup(classes) ==> OneEntryPerGroup(Keep(classes, names))
  {
    if classes == [] {
    } else {
      var front, last := classes[..|classes| - 1], classes[|classes| - 1];
      KeepMembers(front, names);
      assert classes == front + [last];
      assert forall e :: e in classes <==> e in front || e == last;
      if OneEntryPerGroup(classes) {
        assert OneEntryPerGroup(front);
        EntryAppended(front, Keep(front, names), last);
      }
    }
  }

  lemma EntryAppended(front: seq<LvmdClass>, kept: seq<LvmdClass>, last: LvmdClass)
    requires OneEntryPerGroup(front + [last]) && OneEntryPerGroup(kept)
    requires forall e :: e in kept ==> e in front
    ensures OneEntryPerGroup(kept + [last])
  {
    var all := front + [last];
    assert forall i :: 0 <= i < |front| ==> all[i] == front[i];
    forall i | 0 <= i < |kept|
      ensures kept[i].volumeGroup != last.volumeGroup
    {
      assert kept[i] in front;
      var k :| 0 <= k < |front| && front[k] == kept[i];
      assert all[k].volumeGroup != all[|front|].volumeGroup;
    }
  }

  /** The filter keeps the order. */
  lemma {:induction false} KeepInOrder(a: seq<LvmdClass>, b: seq<LvmdClass>, names: set<string>)
    ensures Keep(a + b, names) == Keep(a, names) + Keep(b, names)
  {
    if b == [] {
      assert a + b == a;
    } else {
      var n := |b| - 1;
      KeepInOrder(a, b[..n], names);
      assert (a + b)[..|a + b| - 1] == a + b[..n];
    }
  }

  /** Spec class k is the last one of this name. */
  ghost predicate LastNamed(spec: seq<DeviceClass>, k: nat, name: string) {
    k < |spec| && spec[k].className == name && forall j :: k < j < |spec| ==> spec[j].className != name
  }

  /** The entry keeps everything but its flag, which is that of the last spec class of its name, if any. */
  ghost predicate FlagDecided(spec: seq<DeviceClass>, e: LvmdClass, e': LvmdClass) {
    && e' == e.(isDefault := e'.isDefault)
    && (forall k: nat :: LastNamed(spec, k, e.name) ==> e'.isDefault == spec[k].isDefault)
    && ((forall d :: d in spec ==> d.className != e.name) ==> e' == e)
  }

  lemma {:induction false} LastOneDecides(classes: seq<LvmdClass>, spec: seq<DeviceClass>)
    ensures |SetDefaults(classes, spec)| == |classes|
    ensures forall i :: 0 <= i < |classes| ==> FlagDecided(spec, classes[i], SetDefaults(classes, spec)[i])
  {
    if spec == [] {
    } else {
      var n := |spec| - 1;
      LastOneDecides(classes, spec[..n]);
      forall i | 0 <= i < |classes|
        ensures FlagDecided(spec, classes[i], SetDefaults(classes, spec)[i])
      {
        DecidedStep(spec, classes[i], SetDefaults(classes, spec[..n])[i], SetDefaults(classes, spec)[i]);
      }
    }
  }

  lemma DecidedStep(spec: seq<DeviceClass>, e: LvmdClass, mid: LvmdClass, e': LvmdClass)
    requires spec != [] && FlagDecided(spec[..|spec| - 1], e, mid)
    requires e' == if mid.name == spec[|spec| - 1].className then mid.(isDefault := spec[|spec| - 1].isDefault) else mid
    ensures FlagDecided(spec, e, e')
  {
    var n := |spec| - 1;
    forall k: nat | LastNamed(spec, k, e.name)
      ensures e'.isDefault == spec[k].isDefault
    {
      assert k < n ==> LastNamed(spec[..n], k, e.name);
    }
    assert spec[n] in spec && forall d :: d in spec[..n] ==> d in spec;
  }

  ghost predicate IsNew(newVgs: seq<DeviceClass>, vg: string) {
    exists d :: d in newVgs && d.vgName == vg
  }

  /** What one run hands to the configuration: the volume groups it created are new and recorded
      under their own class, and whatever else is recorded was recorded before under the same
      class. */
  ghost predicate RunOutcome(newVgs: seq<DeviceClass>, before: map<string, ClassState>, after: map<string, ClassState>)
  {
    && (forall i, j :: 0 <= i < j < |newVgs| ==> newVgs[i].vgName != newVgs[j].vgName)
    && (forall d :: d in newVgs ==> d.vgName !in before && d.vgName in after && after[d.vgName].name == d.className)
    && (forall vg :: vg in after ==>
          (vg in before && before[vg].name == after[vg].name) || IsNew(newVgs, vg))
  }

  /** The volume groups that left the success map in this run freed their class name. */
  ghost predicate NamesFreed(before: map<string, ClassState>, after: map<string, ClassState>) {
    forall vg :: vg in before && vg !in after ==> before[vg].name !in Names(after)
  }

  /** Some entry is for this group and carries the class name the map has for it. */
  ghost predicate Entered(classes: seq<LvmdClass>, vg: string, suc: map<string, ClassState>)
    requires vg in suc
  {
    exists e :: e in classes && e.volumeGroup == vg && e.name == suc[vg].name
  }

  lemma DefaultsKeepListing(classes: seq<LvmdClass>, spec: seq<DeviceClass>, suc: map<string, ClassState>)
    requires Lists(classes, suc)
    ensures Lists(SetDefaults(classes, spec), suc)
  {
    var s := SetDefaults(classes, spec);
    LastOneDecides(classes, spec);
    forall e | e in s
      ensures e.volumeGroup in suc && suc[e.volumeGroup].name == e.name
    {
      var i :| 0 <= i < |s| && s[i] == e;
      assert classes[i] in classes;
    }
    forall vg | vg in suc
      ensures exists e :: e in s && e.volumeGroup == vg
    {
      var e :| e in classes && e.volumeGroup == vg;
      var i :| 0 <= i < |classes| && classes[i] == e;
      assert s[i] in s;
    }
  }

  /** The entries before the delete loop: the old ones and then the new ones. */
  lemma MergedEntries(olds: seq<LvmdClass>, newVgs: seq<DeviceClass>,
                      before: map<string, ClassState>, after: map<string, ClassState>)
    requires Lists(olds, before) && RunOutcome(newVgs, before, after)
    ensures OneEntryPerGroup(olds + ConvertAll(newVgs))
    ensures forall e :: e in olds + ConvertAll(newVgs) ==>
              (e.volumeGroup in before && before[e.volumeGroup].name == e.name)
              || (e.volumeGroup in after && after[e.volumeGroup].name == e.name)
  {
  }

  lemma MergedCovers(olds: seq<LvmdClass>, newVgs: seq<DeviceClass>,
                     before: map<string, ClassState>, after: map<string, ClassState>, vg: string)
    requires Lists(olds, before) && RunOutcome(newVgs, before, after)
    ensures vg in before ==> Entered(olds + ConvertAll(newVgs), vg, before)
    ensures vg in after ==> Entered(olds + ConvertAll(newVgs), vg, after)
  {
    var all := olds + ConvertAll(newVgs);
    if vg in before {
      var e :| e in olds && e.volumeGroup == vg;
      assert e in all;
    }
    if vg in after && !(vg in before && before[vg].name == after[vg].name) {
      var d :| d in newVgs && d.vgName == vg;
      var i :| 0 <= i < |newVgs| && newVgs[i] == d;
      assert all[|olds| + i] == Convert(d);
      assert Convert(d) in all;
    }
  }

  /** Every entry belongs to a group that was or is recorded under the entry's class, and every such
      group has its entry. */
  ghost predicate Merged(all: seq<LvmdClass>, before: map<string, ClassState>, after: map<string, ClassState>) {
    && OneEntryPerGroup(all)
    && (forall e :: e in all ==>
          (e.volumeGroup in before && before[e.volumeGroup].name == e.name)
          || (e.volumeGroup in after && after[e.volumeGroup].name == e.name))
    && (forall vg :: vg in before ==> Entered(all, vg, before))
    && (forall vg :: vg in after ==> Entered(all, vg, after))
  }

  lemma FreedNamesList(all: seq<LvmdClass>, kept: seq<LvmdClass>, before: map<string, ClassState>,
                       after: map<string, ClassState>)
    requires Merged(all, before, after) && NamesFreed(before, after)
    requires OneEntryPerGroup(kept)
    requires forall e :: e in kept <==> e in all && e.name in Names(after)
    ensures Lists(kept, after)
  {
  }

  lemma KeptEntriesList(all: seq<LvmdClass>, before: map<string, ClassState>, after: map<string, ClassState>)
    requires Merged(all, before, after)
    ensures Lists(Keep(all, Names(after)), after) <==> NamesFreed(before, after)
  {
    var kept := Keep(all, Names(after));
    KeepMembers(all, Names(after));
    if NamesFreed(before, after) {
      FreedNamesList(all, kept, before, after);
    } else {
      var vg :| vg in before && vg !in after && before[vg].name in Names(after);
      var e :| e in all && e.volumeGroup == vg && e.name == before[vg].name;
      assert e in kept && e.volumeGroup !in after;
    }
  }

  /** The update keeps the configuration and the success map in step exactly when every group that
      left the map freed its class name. */
  lemma UpdateListsExactly(conf: Option<LvmdConf>, spec: seq<DeviceClass>, newVgs: seq<DeviceClass>,
                           before: map<string, ClassState>, after: map<string, ClassState>)
    requires Lists(Classes(conf), before) && RunOutcome(newVgs, before, after)
    ensures Lists(Classes(Updated(conf, spec, newVgs, after)), after) <==> NamesFreed(before, after)
  {
    var olds := SetDefaults(Classes(conf), spec);
    DefaultsKeepListing(Classes(conf), spec, before);
    MergedEntries(olds, newVgs, before, after);
    forall vg
      ensures vg in before ==> Entered(olds + ConvertAll(newVgs), vg, before)
      ensures vg in after ==> Entered(olds + ConvertAll(newVgs), vg, after)
    {
      MergedCovers(olds, newVgs, before, after, vg);
    }
    if conf.None? {
      FirstEntriesList(newVgs, before, after);
    } else {
      KeptEntriesList(olds + ConvertAll(newVgs), before, after);
    }
  }

  /** With no configuration yet nothing was recorded, and the new groups are all there is. */
  lemma FirstEntriesList(newVgs: seq<DeviceClass>, before: map<string, ClassState>, after: map<string, ClassState>)
    requires Lists([], before) && RunOutcome(newVgs, before, after)
    ensures before == map[] && Lists(ConvertAll(newVgs), after)
  {
    assert before.Keys == {};
    MergedEntries([], newVgs, before, after);
    assert [] + ConvertAll(newVgs) == ConvertAll(newVgs);
    forall vg | vg in after
      ensures exists e :: e in ConvertAll(newVgs) && e.volumeGroup == vg
    {
      MergedCovers([], newVgs, before, after, vg);
    }
  }

  // ----- specs that bind class names to volume groups -----

  ghost predicate SpecBound(bind: map<string, string>, spec: seq<DeviceClass>) {
    forall d :: d in spec ==> d.className in bind && bind[d.className] == d.vgName
  }

  ghost predicate MapBound(bind: map<string, string>, suc: map<string, ClassState>) {
    forall vg :: vg in suc ==> suc[vg].name in bind && bind[suc[vg].name] == vg
  }

  ghost predicate OneToOne(bind: map<string, string>) {
    forall a, b :: a in bind && b in bind && bind[a] == bind[b] ==> a == b
  }

  lemma BindingFreesNames(bind: map<string, string>, before: map<string, ClassState>, after: map<string, ClassState>)
    requires MapBound(bind, before) && MapBound(bind, after)
    ensures NamesFreed(before, after)
  {
  }

  /** Without a binding the update can leave a stale entry: class a moves from group v to group w,
      v is removed, and the entry for v survives on the strength of its class name. */
  lemma MovedClassStaysListed(entry: LvmdClass, dev: DeviceClass, state: ClassState)
    requires entry.name == "a" && entry.volumeGroup == "v"
    requires dev.className == "a" && dev.vgName == "w"
    requires state.name == "a" && state.vgName == "w"
    ensures var conf := Some(LvmdConf(LVMD_SOCKET_PATH, [entry]));
            var after := map["w" := state];
            var classes := Classes(Updated(conf, [dev], [dev], after));
      |classes| == 2 && classes[0].volumeGroup == "v" && "v" !in after && !Lists(classes, after)
  {
    var after := map["w" := state];
    var s := SetDefaults([entry], [dev]);
    assert [dev][..0] == [] && SetDefaults([entry], []) == [entry];
    assert s == [entry.(isDefault := dev.isDefault)];
    var all := s + ConvertAll([dev]);
    assert all == [s[0], Convert(dev)];
    assert after["w"].name in Names(after);
    assert all[..1] == [s[0]] && all[..1][..0] == [];
    assert Keep(all[..1], Names(after)) == [s[0]];
    assert Keep(all, Names(after)) == [s[0], Convert(dev)];
    assert "v" != "w" && s[0] in all;
  }

  ghost predicate HasClass(spec: seq<DeviceClass>, d: DeviceClass) {
    exists k :: 0 <= k < |spec| && SameClass(spec[k], d)
  }

  /** The same class, up to the names of its devices. */
  ghost predicate SameClass(a: DeviceClass, b: DeviceClass) {
    && a.className == b.className && a.vgName == b.vgName && a.isDefault == b.isDefault
    && a.spareGb == b.spareGb && a.stripe == b.stripe && a.stripeSize == b.stripeSize
  }

  /** What the run says of its new groups comes from the spec. */
  ghost predicate FromSpec(newVgs: seq<DeviceClass>, spec: seq<DeviceClass>) {
    forall d :: d in newVgs ==> HasClass(spec, d)
  }

  ghost predicate UniqueClassNames(spec: seq<DeviceClass>) {
    forall a, b :: 0 <= a < b < |spec| ==> spec[a].className != spec[b].className
  }

  ghost predicate CarriesSpecFlag(e: LvmdClass, spec: seq<DeviceClass>) {
    exists k :: 0 <= k < |spec| && spec[k].className == e.name && spec[k].vgName == e.volumeGroup
             && spec[k].isDefault == e.isDefault
  }

  /** Under a one-to-one binding every lvmd class carries the flag the current spec gives it. */
  lemma DefaultsFollowSpec(conf: Option<LvmdConf>, spec: seq<DeviceClass>, newVgs: seq<DeviceClass>,
                           before: map<string, ClassState>, after: map<string, ClassState>,
                           bind: map<string, string>)
    requires Lists(Classes(conf), before) && RunOutcome(newVgs, before, after)
    requires OneToOne(bind) && SpecBound(bind, spec) && MapBound(bind, before) && MapBound(bind, after)
    requires UniqueClassNames(spec) && FromSpec(newVgs, spec)
    requires forall vg :: vg in after ==> exists k :: 0 <= k < |spec| && spec[k].vgName == vg
    ensures forall e :: e in Classes(Updated(conf, spec, newVgs, after)) ==> CarriesSpecFlag(e, spec)
  {
    var olds := SetDefaults(Classes(conf), spec);
    UpdateListsExactly(conf, spec, newVgs, before, after);
    BindingFreesNames(bind, before, after);
    KeepMembers(olds + ConvertAll(newVgs), Names(after));
    forall e | e in Classes(Updated(conf, spec, newVgs, after))
      ensures CarriesSpecFlag(e, spec)
    {
      if e in ConvertAll(newVgs) {
        NewEntryCarriesFlag(newVgs, spec, e);
      } else {
        assert e in olds;
        var k :| 0 <= k < |spec| && spec[k].vgName == e.volumeGroup;
        SameClassAsBound(spec[k], e, bind, spec, after);
        OldEntryCarriesFlag(Classes(conf), spec, e, k);
      }
    }
  }

  lemma NewEntryCarriesFlag(newVgs: seq<DeviceClass>, spec: seq<DeviceClass>, e: LvmdClass)
    requires FromSpec(newVgs, spec) && e in ConvertAll(newVgs)
    ensures CarriesSpecFlag(e, spec)
  {
    var i :| 0 <= i < |newVgs| && ConvertAll(newVgs)[i] == e;
    assert newVgs[i] in newVgs;
  }

  lemma OldEntryCarriesFlag(classes: seq<LvmdClass>, spec: seq<DeviceClass>, e: LvmdClass, k: nat)
    requires UniqueClassNames(spec) && e in SetDefaults(classes, spec)
    requires k < |spec| && spec[k].className == e.name && spec[k].vgName == e.volumeGroup
    ensures CarriesSpecFlag(e, spec)
  {
    LastOneDecides(classes, spec);
    assert LastNamed(spec, k, e.name);
  }

  lemma SameClassAsBound(dev: DeviceClass, e: LvmdClass, bind: map<string, string>, spec: seq<DeviceClass>,
                         after: map<string, ClassState>)
    requires dev in spec && dev.vgName == e.volumeGroup
    requires OneToOne(bind) && SpecBound(bind, spec) && MapBound(bind, after)
    requires e.volumeGroup in after && after[e.volumeGroup].name == e.name
    ensures dev.className == e.name
  {
  }

  ghost predicate OneDefaultAtMost(spec: seq<DeviceClass>) {
    forall a, b :: 0 <= a < b < |spec| ==> !(spec[a].isDefault && spec[b].isDefault)
  }

  ghost predicate OneLvmdDefaultAtMost(classes: seq<LvmdClass>) {
    forall i, j :: 0 <= i < j < |classes| ==> !(classes[i].isDefault && classes[j].isDefault)
  }

  /** One default class in the spec means at most one default lvmd class. */
  lemma AtMostOneDefault(classes: seq<LvmdClass>, spec: seq<DeviceClass>, after: map<string, ClassState>)
    requires Lists(classes, after)
    requires forall e :: e in classes ==> CarriesSpecFlag(e, spec)
    requires OneDefaultAtMost(spec)
    ensures OneLvmdDefaultAtMost(classes)
  {
  }
}

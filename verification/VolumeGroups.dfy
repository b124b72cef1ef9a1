/** The volume group operations of the node side, as sequences of LVM commands. Their own checks
    for logical volumes are what makes each removal harmless. */
module VolumeGroups {
  import opened LvmHost

  /** No volume group was removed since the log had length n. */
  ghost predicate NoVgRemove(log: seq<Entry>, n: nat) {
    forall i :: n <= i < |log| ==> !log[i].command.VgRemove?
  }

  /** These commands only take something away, and they failed if one of them did. */
  ghost predicate OnlyRemovals(entries: seq<Entry>, ok: bool) {
    && (forall e :: e in entries ==> e.command.VgRemove? || e.command.VgReduce? || e.command.PvRemove?)
    && (entries != [] ==> (ok <==> forall e :: e in entries ==> e.result.Ok?))
  }

  method RemoveVolumeGroup(host: Host, vg: string) returns (r: Outcome)
    requires host.Valid()
    modifies host
    ensures host.Valid() && old(host.log) <= host.log
    ensures host.st.lvs == old(host.st.lvs)
    ensures r.Ok? ==> vg in old(host.st.vgs) && host.st.vgs == old(host.st.vgs) - {vg}
    ensures r.Ok? ==> host.st.labelled == old(host.st.labelled) - old(host.st.vgs[vg])
    ensures r.Err? ==> host.st.vgs == old(host.st.vgs) || host.st.vgs == old(host.st.vgs) - {vg}
    ensures host.healthy ==> (r.Ok? <==> vg in old(host.st.vgs) && !VgCarriesLv(old(host.st), vg))
    ensures host.healthy && r.Err? ==> host.st == old(host.st) && host.log == old(host.log)
    ensures VgCarriesLv(old(host.st), vg) ==> r.Err? && host.st == old(host.st) && host.log == old(host.log)
    ensures OnlyRemovals(host.log[|old(host.log)|..], r.Ok?)
    ensures host.log != old(host.log) ==> host.log[|old(host.log)|].command == VgRemove(vg)
    ensures r.Ok? ==> |host.log| > |old(host.log)|
  {
    var done, found := host.VgHasLv(vg);
    if !done {
      return Err("vgs failed");
    }
    if found {
      return Err("vg has some lv can not remove");
    }
    var pvs: set<string>;
    done, pvs := host.ListPvs(vg);
    if !done {
      return Err("vgs failed");
    }
    r := host.Issue(VgRemove(vg));
    if r.Err? {
      return;
    }
    ghost var log := host.log;
    r := RemoveLabels(host, pvs);
    assert host.log[|old(host.log)|..] == [log[|old(host.log)|]] + host.log[|log|..];
  }

  /** The loop that runs pvremove on each former member of a removed group. */
  method RemoveLabels(host: Host, pvs: set<string>) returns (r: Outcome)
    requires host.Valid()
    requires forall pv :: pv in pvs ==> !InSomeVg(host.st, pv)
    modifies host
    ensures host.Valid() && old(host.log) <= host.log
    ensures host.st.lvs == old(host.st.lvs) && host.st.vgs == old(host.st.vgs)
    ensures r.Ok? ==> host.st.labelled == old(host.st.labelled) - pvs
    ensures host.healthy ==> r.Ok?
    ensures OnlyRemovals(host.log[|old(host.log)|..], r.Ok?)
    ensures r.Err? ==> host.log != old(host.log)
  {
    var rest := pvs;
    while rest != {}
      invariant rest <= pvs
      invariant host.Valid() && old(host.log) <= host.log
      invariant host.st.lvs == old(host.st.lvs) && host.st.vgs == old(host.st.vgs)
      invariant host.st.labelled == old(host.st.labelled) - (pvs - rest)
      invariant OnlyRemovals(host.log[|old(host.log)|..], true)
    {
      ghost var log := host.log;
      var pv :| pv in rest;
      OrphanCarriesNoLv(host.st, pv);
      r := RemoveOrphanLabel(host, pv);
      assert host.log[|old(host.log)|..] == log[|old(host.log)|..] + [Entry(PvRemove([pv]), r)];
      if r.Err? {
        return;
      }
      rest := rest - {pv};
    }
    assert pvs - rest == pvs;
    r := Ok;
  }

  method RemoveOrphanLabel(host: Host, pv: string) returns (r: Outcome)
    requires host.Valid() && !InSomeVg(host.st, pv) && !PvCarriesLv(host.st, pv)
    modifies host
    ensures host.Valid() && host.log == old(host.log) + [Entry(PvRemove([pv]), r)]
    ensures host.st.lvs == old(host.st.lvs) && host.st.vgs == old(host.st.vgs)
    ensures r.Ok? ==> host.st.labelled == old(host.st.labelled) - {pv}
    ensures host.healthy ==> r.Ok?
  {
    ghost var h := host.st;
    assert Elements([pv]) == {pv};
    forall v | v in h.vgs ensures h.vgs[v] - Elements([pv]) == h.vgs[v] {}
    r := host.Issue(PvRemove([pv]));
    assert host.st.vgs == old(host.st.vgs);
  }

  lemma OrphanCarriesNoLv(h: HostState, pv: string)
    requires HostInv(h) && !InSomeVg(h, pv)
    ensures !PvCarriesLv(h, pv)
  {
  }

  /** These are members of the group: what the reconciler passes. */
  ghost predicate Members(h: HostState, vg: string, pvs: seq<string>) {
    vg in h.vgs && Elements(pvs) <= h.vgs[vg]
  }

  method ShrinkVolumeGroup(host: Host, vg: string, pvs: seq<string>) returns (r: Outcome)
    requires host.Valid()
    modifies host
    ensures host.Valid() && old(host.log) <= host.log && NoVgRemove(host.log, |old(host.log)|)
    ensures host.st.lvs == old(host.st.lvs)
    ensures r.Ok? ==> vg in old(host.st.vgs) && |host.log| > |old(host.log)|
    ensures r.Ok? ==> host.st.labelled == old(host.st.labelled) - Elements(pvs)
    ensures Members(old(host.st), vg, pvs) ==>
              host.st.vgs == old(host.st.vgs)
              || host.st.vgs == old(host.st.vgs)[vg := old(host.st.vgs[vg]) - Elements(pvs)]
    ensures Members(old(host.st), vg, pvs) && r.Ok? ==>
              host.st.vgs == old(host.st.vgs)[vg := old(host.st.vgs[vg]) - Elements(pvs)]
    ensures host.healthy && Members(old(host.st), vg, pvs) ==>
              (r.Ok? <==> forall p :: p in pvs ==> !PvCarriesLv(old(host.st), p))
    ensures host.healthy && r.Err? ==> host.st == old(host.st)
    ensures host.healthy && Members(old(host.st), vg, pvs) && r.Err? ==> host.log == old(host.log)
    ensures (exists p :: p in pvs && PvCarriesLv(old(host.st), p)) ==>
              r.Err? && host.st == old(host.st) && host.log == old(host.log)
    ensures OnlyRemovals(host.log[|old(host.log)|..], r.Ok?)
  {
    for i := 0 to |pvs|
      invariant host.st == old(host.st) && host.log == old(host.log)
      invariant forall j :: 0 <= j < i ==> !PvCarriesLv(host.st, pvs[j])
    {
      var done, found := host.PvHasLv(pvs[i]);
      assert pvs[i] in Elements(pvs);
      if !done {
        return Err("pvs failed");
      }
      if found {
        return Err("pv has some lv can not remove");
      }
    }
    r := host.Issue(VgReduce(vg, pvs));
    if r.Err? {
      return;
    }
    r := RemoveReleasedLabels(host, pvs);
    assert host.log[|old(host.log)|..] == [Entry(VgReduce(vg, pvs), Ok), Entry(PvRemove(pvs), r)];
  }

  /** The pvremove that follows a successful vgreduce. */
  method RemoveReleasedLabels(host: Host, pvs: seq<string>) returns (r: Outcome)
    requires host.Valid()
    requires forall p :: p in pvs ==> !PvCarriesLv(host.st, p)
    modifies host
    ensures host.Valid() && host.log == old(host.log) + [Entry(PvRemove(pvs), r)]
    ensures host.st.lvs == old(host.st.lvs)
    ensures r.Ok? ==> host.st.labelled == old(host.st.labelled) - Elements(pvs)
    ensures (forall p :: p in pvs ==> !InSomeVg(old(host.st), p)) ==> host.st.vgs == old(host.st.vgs)
    ensures host.healthy ==> r.Ok?
  {
    ghost var h := host.st;
    r := host.Issue(PvRemove(pvs));
    if forall p :: p in pvs ==> !InSomeVg(h, p) {
      forall v | v in h.vgs ensures h.vgs[v] - Elements(pvs) == h.vgs[v] {}
      assert host.st.vgs == h.vgs;
    }
  }

  method ExpandVolumeGroup(host: Host, vg: string, pvs: seq<string>) returns (r: Outcome)
    requires host.Valid()
    modifies host
    ensures host.Valid() && old(host.log) <= host.log && NoVgRemove(host.log, |old(host.log)|)
    ensures host.st.lvs == old(host.st.lvs)
    ensures r.Ok? ==> vg in old(host.st.vgs)
    ensures r.Ok? ==> host.st.vgs == old(host.st.vgs)[vg := old(host.st.vgs[vg]) + Elements(pvs)]
    ensures r.Err? ==> host.st == old(host.st)
    ensures host.log == old(host.log) + [Entry(VgExtend(vg, pvs), r)]
    ensures host.healthy ==> (r.Ok? <==> !Refuses(old(host.st), VgExtend(vg, pvs)))
  {
    r := host.Issue(VgExtend(vg, pvs));
  }

  method CreatePhysicalVolume(host: Host, pv: string) returns (r: Outcome)
    requires host.Valid()
    modifies host
    ensures host.Valid() && host.log == old(host.log) + [Entry(PvCreate(pv), r)]
    ensures host.st.vgs == old(host.st.vgs) && host.st.lvs == old(host.st.lvs)
    ensures r.Ok? ==> !InSomeVg(host.st, pv) && pv in host.st.labelled
    ensures host.healthy ==> (r.Ok? <==> !InSomeVg(old(host.st), pv))
  {
    r := host.Issue(PvCreate(pv));
  }

  function Labelling(disks: seq<string>): seq<Entry> {
    seq(|disks|, i requires 0 <= i < |disks| => Entry(PvCreate(disks[i]), Ok))
  }

  lemma LabellingStep(disks: seq<string>, i: nat)
    requires i < |disks|
    ensures Labelling(disks[..i + 1]) == Labelling(disks[..i]) + [Entry(PvCreate(disks[i]), Ok)]
  {
  }

  method CreateVolumeGroup(host: Host, disks: seq<string>, vg: string) returns (r: Outcome)
    requires host.Valid()
    modifies host
    ensures host.Valid() && old(host.log) <= host.log && NoVgRemove(host.log, |old(host.log)|)
    ensures host.st.lvs == old(host.st.lvs)
    ensures r.Ok? ==> vg !in old(host.st.vgs) && host.st.vgs == old(host.st.vgs)[vg := Elements(disks)]
    ensures r.Ok? ==> host.log == old(host.log) + Labelling(disks) + [Entry(VgCreate(vg, disks), Ok)]
    ensures r.Err? ==> host.st.vgs == old(host.st.vgs)
    ensures host.healthy ==> (r.Ok? <==> !Refuses(old(host.st), VgCreate(vg, disks)))
  {
    ghost var labels: seq<Entry> := [];
    for i := 0 to |disks|
      invariant host.Valid() && host.log == old(host.log) + labels && labels == Labelling(disks[..i])
      invariant NoVgRemove(labels, 0)
      invariant host.st.lvs == old(host.st.lvs) && host.st.vgs == old(host.st.vgs)
    {
      LabellingStep(disks, i);
      r := CreatePhysicalVolume(host, disks[i]);
      if r.Err? {
        assert host.healthy ==> InSomeVg(old(host.st), disks[i]);
        return;
      }
      labels := labels + [Entry(PvCreate(disks[i]), Ok)];
    }
    assert disks[..|disks|] == disks;
    r := host.Issue(VgCreate(vg, disks));
  }
}

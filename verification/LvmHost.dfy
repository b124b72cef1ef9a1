/** The LVM state of one node and the commands that change it. LVM itself is not part of the
    repository: this module says what each command may do, and is adversarial about it. A command
    may fail at any time, and vgremove, vgreduce and pvremove run unguarded: they take every
    logical volume on what they remove with them, so nothing but the checks of the callers stands
    between them and a loss of data. */
module LvmHost {

  datatype Outcome = Ok | Err(message: string)

  datatype LogicalVolume = LogicalVolume(vg: string, pvs: set<string>)

  datatype HostState = HostState(
    vgs: map<string, set<string>>,
    labelled: set<string>,
    lvs: map<string, LogicalVolume>)

  datatype Command =
    | PvCreate(pv: string)
    | VgCreate(vg: string, pvs: seq<string>)
    | VgExtend(vg: string, pvs: seq<string>)
    | VgReduce(vg: string, pvs: seq<string>)
    | VgRemove(vg: string)
    | PvRemove(pvs: seq<string>)
    | LvChange(lvs: map<string, LogicalVolume>)  // users and the CSI driver, between runs

  /** One command as it was issued, and what it answered. */
  datatype Entry = Entry(command: Command, result: Outcome)

  function Elements(s: seq<string>): set<string> {
    set x | x in s
  }

  predicate Distinct(s: seq<string>) {
    forall i, j :: 0 <= i < j < |s| ==> s[i] != s[j]
  }

  predicate InSomeVg(h: HostState, pv: string) {
    exists v :: v in h.vgs && pv in h.vgs[v]
  }

  predicate VgCarriesLv(h: HostState, vg: string) {
    exists l :: l in h.lvs && h.lvs[l].vg == vg
  }

  predicate PvCarriesLv(h: HostState, pv: string) {
    exists l :: l in h.lvs && pv in h.lvs[l].pvs
  }

  predicate Placed(h: HostState, lvs: map<string, LogicalVolume>) {
    forall l :: l in lvs ==> lvs[l].vg in h.vgs && lvs[l].pvs <= h.vgs[lvs[l].vg]
  }

  /** Each physical volume is labelled and in at most one volume group; each logical volume lies
      within its own volume group. */
  ghost predicate HostInv(h: HostState) {
    && (forall v, w :: v in h.vgs && w in h.vgs && v != w ==> h.vgs[v] !! h.vgs[w])
    && (forall v :: v in h.vgs ==> h.vgs[v] <= h.labelled)
    && Placed(h, h.lvs)
  }

  /** What LVM itself turns down. */
  predicate Refuses(h: HostState, c: Command) {
    match c
    case PvCreate(pv) => InSomeVg(h, pv)
    case VgCreate(vg, pvs) => vg in h.vgs || pvs == [] || !Distinct(pvs) || exists p :: p in pvs && InSomeVg(h, p)
    case VgExtend(vg, pvs) => vg !in h.vgs || pvs == [] || !Distinct(pvs) || exists p :: p in pvs && InSomeVg(h, p)
    case VgReduce(vg, _) => vg !in h.vgs
    case VgRemove(vg) => vg !in h.vgs
    case PvRemove(_) => false
    case LvChange(lvs) => !Placed(h, lvs)
  }

  function Effect(h: HostState, c: Command): HostState
    requires !Refuses(h, c)
  {
    match c
    case PvCreate(pv) => h.(labelled := h.labelled + {pv})
    case VgCreate(vg, pvs) =>
      h.(vgs := h.vgs[vg := Elements(pvs)], labelled := h.labelled + Elements(pvs))
    case VgExtend(vg, pvs) =>
      h.(vgs := h.vgs[vg := h.vgs[vg] + Elements(pvs)], labelled := h.labelled + Elements(pvs))
    case VgReduce(vg, pvs) =>
      h.(vgs := h.vgs[vg := h.vgs[vg] - Elements(pvs)],
         lvs := map l | l in h.lvs && (h.lvs[l].vg != vg || h.lvs[l].pvs !! Elements(pvs)) :: h.lvs[l])
    case VgRemove(vg) =>
      h.(vgs := h.vgs - {vg}, lvs := map l | l in h.lvs && h.lvs[l].vg != vg :: h.lvs[l])
    case PvRemove(pvs) =>
      h.(vgs := map v | v in h.vgs :: h.vgs[v] - Elements(pvs),
         labelled := h.labelled - Elements(pvs),
         lvs := map l | l in h.lvs && h.lvs[l].pvs !! Elements(pvs) :: h.lvs[l])
    case LvChange(lvs) => h.(lvs := lvs)
  }

  /** What a removing command names carries no logical volume. */
  ghost predicate Harmless(h: HostState, c: Command) {
    match c
    case VgRemove(vg) => !VgCarriesLv(h, vg)
    case VgReduce(_, pvs) => forall p :: p in pvs ==> !PvCarriesLv(h, p)
    case PvRemove(pvs) => forall p :: p in pvs ==> !PvCarriesLv(h, p)
    case _ => true
  }

  ghost function After(h: HostState, e: Entry): HostState {
    if e.result.Ok? && !Refuses(h, e.command) then Effect(h, e.command) else h
  }

  ghost function Replay(h: HostState, log: seq<Entry>): HostState {
    if log == [] then h else After(Replay(h, log[..|log| - 1]), log[|log| - 1])
  }

  /** Every command in the log was harmless in the state it was issued in. */
  ghost predicate AllHarmless(h: HostState, log: seq<Entry>) {
    log == [] ||
    (AllHarmless(h, log[..|log| - 1]) && Harmless(Replay(h, log[..|log| - 1]), log[|log| - 1].command))
  }

  lemma EffectKeepsInv(h: HostState, c: Command)
    requires HostInv(h) && !Refuses(h, c)
    ensures HostInv(Effect(h, c))
  {
  }

  lemma HarmlessKeepsLvs(h: HostState, c: Command)
    requires HostInv(h) && !Refuses(h, c) && Harmless(h, c) && !c.LvChange?
    ensures Effect(h, c).lvs == h.lvs
  {
  }

  lemma {:induction false} ReplayKeepsInv(h: HostState, log: seq<Entry>)
    requires HostInv(h)
    ensures HostInv(Replay(h, log))
  {
    if log == [] {
    } else {
      var before := Replay(h, log[..|log| - 1]);
      var e := log[|log| - 1];
      ReplayKeepsInv(h, log[..|log| - 1]);
      if e.result.Ok? && !Refuses(before, e.command) {
        EffectKeepsInv(before, e.command);
      }
    }
  }

  lemma {:induction false} HarmlessPrefix(h: HostState, log: seq<Entry>, n: nat)
    requires n <= |log| && AllHarmless(h, log)
    ensures AllHarmless(h, log[..n])
    decreases |log|
  {
    if n < |log| {
      HarmlessPrefix(h, log[..|log| - 1], n);
      assert log[..|log| - 1][..n] == log[..n];
    } else {
      assert log[..n] == log;
    }
  }

  /** Whatever the log says was removed carried no logical volume at the time. */
  lemma EachWasHarmless(h: HostState, log: seq<Entry>, i: nat)
    requires AllHarmless(h, log) && i < |log|
    ensures Harmless(Replay(h, log[..i]), log[i].command)
  {
    HarmlessPrefix(h, log, i + 1);
    assert log[..i + 1][..i] == log[..i];
  }

  /** Along a log of harmless commands the logical volumes change only where their users change
      them. */
  lemma {:induction false} HarmlessLogKeepsLvs(h: HostState, log: seq<Entry>, first: nat, last: nat)
    requires HostInv(h) && AllHarmless(h, log)
    requires first <= last <= |log|
    requires forall i :: first <= i < last ==> !log[i].command.LvChange?
    ensures Replay(h, log[..last]).lvs == Replay(h, log[..first]).lvs
    decreases last
  {
    if first == last {
    } else {
      HarmlessLogKeepsLvs(h, log, first, last - 1);
      ReplayKeepsInv(h, log[..last - 1]);
      HarmlessPrefix(h, log, last);
      var before := Replay(h, log[..last - 1]);
      var c := log[last - 1].command;
      assert log[..last][..last - 1] == log[..last - 1];
      if log[last - 1].result.Ok? && !Refuses(before, c) {
        HarmlessKeepsLvs(before, c);
      }
    }
  }

  /** The executor: it runs LVM commands on the node, which may fail for reasons of their own
      unless the host is healthy. */
  class Host {
    const healthy: bool
    ghost const start: HostState
    var st: HostState
    ghost var log: seq<Entry>

    /** Every command so far was harmless when it was issued. */
    ghost predicate Valid()
      reads this
    {
      HostInv(start) && HostInv(st) && st == Replay(start, log) && AllHarmless(start, log)
    }

    constructor (h: HostState, healthy: bool)
      requires HostInv(h)
      ensures Valid() && st == h && log == [] && start == h && this.healthy == healthy
    {
      this.healthy := healthy;
      start := h;
      st := h;
      log := [];
    }

    method Issue(c: Command) returns (r: Outcome)
      requires Valid()
      modifies this
      ensures log == old(log) + [Entry(c, r)]
      ensures r.Ok? ==> !Refuses(old(st), c) && st == Effect(old(st), c)
      ensures r.Err? ==> st == old(st)
      ensures healthy && !Refuses(old(st), c) ==> r.Ok?
      ensures Harmless(old(st), c) ==> Valid() && (!c.LvChange? ==> st.lvs == old(st.lvs))
    {
      var failing: bool := *;
      var text: string := *;
      r := if Refuses(st, c) || (failing && !healthy) then Err(text) else Ok;
      var entry := Entry(c, r);
      if r.Ok? {
        EffectKeepsInv(st, c);
        if Harmless(st, c) && !c.LvChange? {
          HarmlessKeepsLvs(st, c);
        }
        st := Effect(st, c);
      }
      ghost var was := log;
      log := log + [entry];
      assert log[..|was|] == was;
    }

    /** vgs -o vg_name */
    method ListVgs() returns (done: bool, names: set<string>)
      ensures done ==> names == st.vgs.Keys
      ensures healthy ==> done
    {
      var failing: bool := *;
      done, names := healthy || !failing, st.vgs.Keys;
    }

    /** vgs -o pv_name VG */
    method ListPvs(vg: string) returns (done: bool, pvs: set<string>)
      ensures done ==> vg in st.vgs && pvs == st.vgs[vg]
      ensures healthy && vg in st.vgs ==> done
    {
      var failing: bool := *;
      done := vg in st.vgs && (healthy || !failing);
      pvs := if vg in st.vgs then st.vgs[vg] else {};
    }

    /** vgs -o lv_name VG */
    method VgHasLv(vg: string) returns (done: bool, found: bool)
      ensures done ==> vg in st.vgs && found == VgCarriesLv(st, vg)
      ensures healthy && vg in st.vgs ==> done
    {
      var failing: bool := *;
      done, found := vg in st.vgs && (healthy || !failing), VgCarriesLv(st, vg);
    }

    /** pvs -o +lv_name PV --segments */
    method PvHasLv(pv: string) returns (done: bool, found: bool)
      ensures done ==> pv in st.labelled && found == PvCarriesLv(st, pv)
      ensures healthy && pv in st.labelled ==> done
    {
      var failing: bool := *;
      done, found := pv in st.labelled && (healthy || !failing), PvCarriesLv(st, pv);
    }
  }
}

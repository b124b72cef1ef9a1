/** The registry of loop devices (checkLoopDevice). losetup and the uuid generator are not part of
    the repository: what they return is arbitrary, and the ghost sequence calls records for which
    names a loop device was created. */
module LoopRegistry {
  import opened ClusterTypes
  import opened LvmHost

  const SUCCESSFUL := "successful"
  const FAILED := "failed"

  type LoopMap = map<string, LoopState>

  function LoopNames(loops: seq<LoopState>): set<string> {
    set l | l in loops :: l.name
  }

  predicate UniqueNames(loops: seq<LoopState>) {
    forall i, j :: 0 <= i < j < |loops| ==> loops[i].name != loops[j].name
  }

  predicate AllSuccessful(loops: seq<LoopState>) {
    forall l :: l in loops ==> l.status == SUCCESSFUL
  }

  predicate Sound(loops: seq<LoopState>) {
    UniqueNames(loops) && AllSuccessful(loops)
  }

  predicate HasFailedEntry(loops: seq<LoopState>, name: string) {
    exists l :: l in loops && l.name == name && l.status != SUCCESSFUL
  }

  predicate IsAutoLoop(d: Disk) {
    d.kind == LOOP && d.auto
  }

  // ----- which loop devices a run creates -----

  /** The first entry of this name. */
  function EntryOf(loops: seq<LoopState>, name: string): Option<LoopState> {
    if loops == [] then None
    else if loops[0].name == name then Some(loops[0])
    else EntryOf(loops[1..], name)
  }

  /** What the registry says of a name: nothing, or whether the first entry of it is a success. */
  function Mark(loops: seq<LoopState>, name: string): Option<bool> {
    var e := EntryOf(loops, name);
    if e.None? then None else Some(e.value.status == SUCCESSFUL)
  }

  /** A disk has a loop device created when it is an automatic loop without a successful entry. */
  predicate Creates(d: Disk, mark: Option<bool>) {
    IsAutoLoop(d) && mark != Some(true)
  }

  /** A loop ends up successful, but for a non-automatic one behind a failed entry. */
  function MarkAfter(d: Disk, mark: Option<bool>): Option<bool> {
    if d.kind == LOOP && (d.auto || mark.None?) then Some(true) else mark
  }

  function MarkAll(disks: seq<Disk>, name: string, mark: Option<bool>): Option<bool> {
    if disks == [] then mark
    else
      var d := disks[|disks| - 1];
      var now := MarkAll(disks[..|disks| - 1], name, mark);
      if d.name == name then MarkAfter(d, now) else now
  }

  /** How often these disks have a loop device of this name created, from a registry with this mark. */
  function Creations(disks: seq<Disk>, name: string, mark: Option<bool>): nat {
    if disks == [] then 0
    else
      var d := disks[|disks| - 1];
      var front := disks[..|disks| - 1];
      Creations(front, name, mark) + if d.name == name && Creates(d, MarkAll(front, name, mark)) then 1 else 0
  }

  predicate LoopNamed(d: Disk, name: string) {
    d.kind == LOOP && d.name == name
  }

  ghost predicate HasLoop(disks: seq<Disk>, name: string) {
    exists d :: d in disks && LoopNamed(d, name)
  }

  ghost predicate WantsAt(disks: seq<Disk>, i: nat, name: string, mark: Option<bool>) {
    && i < |disks| && disks[i].name == name && IsAutoLoop(disks[i])
    && (mark.Some? || !HasLoop(disks[..i], name))
  }

  /** Some disk is an automatic loop of this name, and no other loop registers a new name before it. */
  ghost predicate Wants(disks: seq<Disk>, name: string, mark: Option<bool>) {
    exists i: nat :: WantsAt(disks, i, name, mark)
  }

  /** No name is created twice over one registry, and it is created at all exactly when the registry has no
      success for it and the disks want it. */
  lemma {:induction false} CreationsExactly(disks: seq<Disk>, name: string, mark: Option<bool>)
    ensures Creations(disks, name, mark) == if mark != Some(true) && Wants(disks, name, mark) then 1 else 0
    ensures MarkAll(disks, name, mark) ==
              if mark == Some(true) || Wants(disks, name, mark) then Some(true)
              else if mark.None? && HasLoop(disks, name) then Some(true)
              else mark
  {
    if disks == [] {
    } else {
      var n := |disks| - 1;
      CreationsExactly(disks[..n], name, mark);
      WantsStep(disks, n, name, mark);
    }
  }

  lemma WantsStep(disks: seq<Disk>, n: nat, name: string, mark: Option<bool>)
    requires |disks| == n + 1
    ensures Wants(disks, name, mark) <==> Wants(disks[..n], name, mark) || WantsAt(disks, n, name, mark)
    ensures HasLoop(disks, name) <==> HasLoop(disks[..n], name) || LoopNamed(disks[n], name)
  {
    assert disks == disks[..n] + [disks[n]];
    forall i: nat | i < n
      ensures WantsAt(disks, i, name, mark) <==> WantsAt(disks[..n], i, name, mark)
    {
      assert disks[..n][..i] == disks[..i] && disks[..n][i] == disks[i];
    }
    if Wants(disks, name, mark) {
      var i: nat :| WantsAt(disks, i, name, mark);
      assert i < n ==> WantsAt(disks[..n], i, name, mark);
    }
    if Wants(disks[..n], name, mark) {
      var i: nat :| WantsAt(disks[..n], i, name, mark);
      assert WantsAt(disks, i, name, mark);
    }
  }

  lemma {:induction false} CreationsCompose(a: seq<Disk>, b: seq<Disk>, name: string, mark: Option<bool>)
    ensures MarkAll(a + b, name, mark) == MarkAll(b, name, MarkAll(a, name, mark))
    ensures Creations(a + b, name, mark) == Creations(a, name, mark) + Creations(b, name, MarkAll(a, name, mark))
  {
    if b == [] {
      assert a + b == a;
    } else {
      var n := |b| - 1;
      CreationsCompose(a, b[..n], name, mark);
      assert (a + b)[..|a + b| - 1] == a + b[..n];
    }
  }

  /** Two runs from one registry both create a loop device of a name exactly when the registry has no
      success for it and both want it. The second gets to see that registry when the first stopped before
      it wrote its own. */
  lemma CreatedTwiceExactly(loops: seq<LoopState>, first: seq<Disk>, second: seq<Disk>, name: string)
    ensures var mark := Mark(loops, name);
      Creations(first, name, mark) > 0 && Creations(second, name, mark) > 0 <==>
        mark != Some(true) && Wants(first, name, mark) && Wants(second, name, mark)
  {
    CreationsExactly(first, name, Mark(loops, name));
    CreationsExactly(second, name, Mark(loops, name));
  }

  const AUTO_DISK := Disk("loop0", LOOP, true, "/data", 10)

  /** From the empty registry, which is sound, two runs for one automatic loop create its device twice. */
  lemma LoopCreatedTwice()
    ensures Sound([]) && Creations([AUTO_DISK], "loop0", Mark([], "loop0")) == 1
    ensures Wants([AUTO_DISK], "loop0", Mark([], "loop0"))
  {
    assert [AUTO_DISK][0] == AUTO_DISK;
    CreationsExactly([AUTO_DISK], "loop0", None);
  }

  function AllDisks(classes: seq<DeviceClass>): seq<Disk> {
    if classes == [] then [] else AllDisks(classes[..|classes| - 1]) + classes[|classes| - 1].devices
  }

  /** The disks of all classes, in order. */
  lemma {:induction false} AllDisksExactly(a: seq<DeviceClass>, b: seq<DeviceClass>)
    ensures AllDisks(a + b) == AllDisks(a) + AllDisks(b)
    ensures forall d :: d in AllDisks(b) <==> exists c :: c in b && d in c.devices
  {
    if b == [] {
      assert a + b == a;
    } else {
      var n := |b| - 1;
      AllDisksExactly(a, b[..n]);
      assert (a + b)[..|a + b| - 1] == a + b[..n] && b == b[..n] + [b[n]];
    }
  }

  lemma {:induction false} AppendedEntry(loops: seq<LoopState>, s: LoopState, name: string)
    ensures EntryOf(loops + [s], name) ==
              if EntryOf(loops, name).None? && s.name == name then Some(s) else EntryOf(loops, name)
  {
    if loops == [] {
      assert loops + [s] == [s];
    } else {
      AppendedEntry(loops[1..], s, name);
      assert (loops + [s])[1..] == loops[1..] + [s];
    }
  }

  /** The entry at an index before which the name does not occur, if it has the name. */
  lemma {:induction false} FirstDecides(loops: seq<LoopState>, index: nat, name: string)
    requires index <= |loops| && forall j :: 0 <= j < index ==> loops[j].name != name
    ensures EntryOf(loops, name) ==
              if index < |loops| && loops[index].name == name then Some(loops[index])
              else if index < |loops| then EntryOf(loops[index..], name) else None
  {
    if index == 0 {
    } else {
      FirstDecides(loops[1..], index - 1, name);
      assert loops[1..][index - 1..] == loops[index..];
    }
  }

  lemma {:induction false} ReplacedEntry(loops: seq<LoopState>, index: nat, s: LoopState, name: string)
    requires index < |loops| && loops[index].name == s.name
    requires forall j :: 0 <= j < index ==> loops[j].name != s.name
    ensures EntryOf(loops[index := s], name) == if name == s.name then Some(s) else EntryOf(loops, name)
  {
    if index == 0 {
    } else {
      ReplacedEntry(loops[1..], index - 1, s, name);
      assert loops[index := s][1..] == loops[1..][index - 1 := s];
    }
  }

  lemma AppendedEntries(loops: seq<LoopState>, s: LoopState)
    ensures forall name :: EntryOf(loops + [s], name) ==
              if EntryOf(loops, name).None? && s.name == name then Some(s) else EntryOf(loops, name)
  {
    forall name {
      AppendedEntry(loops, s, name);
    }
  }

  lemma ReplacedEntries(loops: seq<LoopState>, index: nat, s: LoopState, after: seq<LoopState>)
    requires index < |loops| && loops[index].name == s.name && after == loops[index := s]
    requires forall j :: 0 <= j < index ==> loops[j].name != s.name
    ensures forall name :: EntryOf(after, name) == if name == s.name then Some(s) else EntryOf(loops, name)
  {
    forall name
      ensures EntryOf(after, name) == if name == s.name then Some(s) else EntryOf(loops, name)
    {
      ReplacedEntry(loops, index, s, name);
    }
  }

  /** These calls are the creations of these disks. */
  ghost predicate CallsOf(calls: seq<string>, disks: seq<Disk>, before: seq<LoopState>, after: seq<LoopState>) {
    forall name :: multiset(calls)[name] == Creations(disks, name, Mark(before, name))
                && Mark(after, name) == MarkAll(disks, name, Mark(before, name))
  }

  lemma CallsCompose(a: seq<Disk>, b: seq<Disk>, first: seq<string>, second: seq<string>,
                     x: seq<LoopState>, y: seq<LoopState>, z: seq<LoopState>)
    requires CallsOf(first, a, x, y) && CallsOf(second, b, y, z)
    ensures CallsOf(first + second, a + b, x, z)
  {
    forall name
      ensures multiset(first + second)[name] == Creations(a + b, name, Mark(x, name))
      ensures Mark(z, name) == MarkAll(a + b, name, Mark(x, name))
    {
      CreationsCompose(a, b, name, Mark(x, name));
      assert multiset(first + second) == multiset(first) + multiset(second);
    }
  }

  // ----- what a run makes of the registry -----

  /** From a sound registry: it stays sound, every entry stays where it is, and loop devices were
      created for new names only, once each. */
  ghost predicate LoopRun(before: seq<LoopState>, after: seq<LoopState>, calls: seq<string>) {
    Sound(before) ==>
      && Sound(after)
      && before <= after
      && Distinct(calls)
      && forall c :: c in calls ==> c !in LoopNames(before) && c in LoopNames(after)
  }

  method FindLoop(loops: seq<LoopState>, name: string) returns (index: nat, found: bool)
    ensures found ==> index < |loops| && loops[index].name == name
                      && forall j :: 0 <= j < index ==> loops[j].name != name
    ensures !found ==> name !in LoopNames(loops)
    ensures EntryOf(loops, name) == if found then Some(loops[index]) else None
  {
    found := false;
    for i := 0 to |loops|
      invariant forall j :: 0 <= j < i ==> loops[j].name != name
    {
      if loops[i].name == name {
        FirstDecides(loops, i, name);
        return i, true;
      }
    }
    FirstDecides(loops, |loops|, name);
    index := 0;
  }

  // ----- what the entries hold -----

  /** What losetup answers when it creates a loop device over the file of this name, or is asked for the file
      behind a loop device. */
  datatype LoopAnswer = LoopAnswer(file: string, device: string, failure: Option<string>)

  function AbsoluteFileName(path: string, file: string): string {
    if path != "" && path[|path| - 1] == '/' then path + file else path + "/" + file
  }

  /** The entry of a loop device that was created: a failure is noted, but counts as a success. */
  ghost predicate CreatedAs(e: LoopState, d: Disk, a: LoopAnswer) {
    && e.name == d.name && e.status == SUCCESSFUL && e.deviceName == a.device
    && e.message == (if a.failure.Some? then a.failure.value else "")
    && e.file == (if d.path != "" && d.path[|d.path| - 1] == '/' then d.path + a.file else d.path + "/" + a.file)
  }

  /** The entry of a loop device that was there. */
  ghost predicate FoundAs(e: LoopState, d: Disk, a: LoopAnswer) {
    && e.name == d.name && e.status == SUCCESSFUL && e.deviceName == d.name && e.file == a.file
    && e.message == (if a.failure.Some? then a.failure.value else "")
  }

  /** What one disk makes of the registry and of the map of loops. */
  ghost predicate DiskChecked(d: Disk, before: seq<LoopState>, beforeMap: LoopMap,
                              after: seq<LoopState>, afterMap: LoopMap, answer: LoopAnswer)
  {
    && (forall n :: n != d.name ==> EntryOf(after, n) == EntryOf(before, n))
    && if d.kind != LOOP then
         after == before && afterMap == beforeMap
       else if Mark(before, d.name) == Some(true) then
         after == before && afterMap == beforeMap[d.name := EntryOf(before, d.name).value]
       else if d.auto then
         var e := EntryOf(after, d.name);
         e.Some? && CreatedAs(e.value, d, answer) && afterMap == beforeMap[d.name := e.value]
         && |after| == |before| + if Mark(before, d.name).None? then 1 else 0
       else
         && before <= after && |after| == |before| + 1 && FoundAs(after[|before|], d, answer)
         && afterMap == beforeMap
  }

  /** The name is mapped to its first entry, a success. */
  ghost predicate Mapped(loops: seq<LoopState>, loopMap: LoopMap, name: string) {
    Mark(loops, name) == Some(true) && name in loopMap && loopMap[name] == EntryOf(loops, name).value
  }

  /** Each of these names was created for one of these disks and is mapped to an entry with the answer; every
      automatic loop is mapped, and what was mapped before stays. */
  ghost predicate Answered(disks: seq<Disk>, before: seq<LoopState>, beforeMap: LoopMap,
                           after: seq<LoopState>, afterMap: LoopMap, answers: map<string, LoopAnswer>)
  {
    && (forall n :: n in answers ==>
          && Mapped(after, afterMap, n)
          && exists d :: d in disks && IsAutoLoop(d) && CreatedAs(afterMap[n], d, answers[n]))
    && (forall d :: d in disks && IsAutoLoop(d) ==> Mapped(after, afterMap, d.name))
    && (forall n :: Mark(before, n) == Some(true) ==> EntryOf(after, n) == EntryOf(before, n))
    && (forall n :: Mapped(before, beforeMap, n) ==> Mapped(after, afterMap, n))
  }

  /** What the system answered for one disk that had a loop device created. */
  ghost function AnswersOf(d: Disk, before: seq<LoopState>, answer: LoopAnswer): map<string, LoopAnswer> {
    if Creates(d, Mark(before, d.name)) then map[d.name := answer] else map[]
  }

  lemma AnsweredOne(d: Disk, before: seq<LoopState>, beforeMap: LoopMap,
                    after: seq<LoopState>, afterMap: LoopMap, answer: LoopAnswer)
    requires DiskChecked(d, before, beforeMap, after, afterMap, answer)
    ensures Answered([d], before, beforeMap, after, afterMap, AnswersOf(d, before, answer))
  {
    assert d in [d];
    if d.kind == LOOP && !d.auto && Mark(before, d.name) != Some(true) {
      AppendedEntries(before, after[|before|]);
      assert after == before + [after[|before|]];
    }
  }

  lemma MarkOne(d: Disk, before: seq<LoopState>, beforeMap: LoopMap,
                after: seq<LoopState>, afterMap: LoopMap, answer: LoopAnswer)
    requires DiskChecked(d, before, beforeMap, after, afterMap, answer)
    ensures CallsOf(if Creates(d, Mark(before, d.name)) then [d.name] else [], [d], before, after)
  {
    if d.kind == LOOP && !d.auto && Mark(before, d.name) != Some(true) {
      AppendedEntries(before, after[|before|]);
      assert after == before + [after[|before|]];
    }
    assert Mark(after, d.name) == MarkAfter(d, Mark(before, d.name));
    forall name
      ensures Creations([d], name, Mark(before, name)) ==
                if name == d.name && Creates(d, Mark(before, name)) then 1 else 0
      ensures MarkAll([d], name, Mark(before, name)) == Mark(after, name)
    {
      assert [d][..0] == [];
      assert MarkAll([], name, Mark(before, name)) == Mark(before, name);
      assert name != d.name ==> EntryOf(after, name) == EntryOf(before, name);
    }
  }

  lemma AnsweredCompose(a: seq<Disk>, b: seq<Disk>, x: seq<LoopState>, xm: LoopMap, y: seq<LoopState>, ym: LoopMap,
                        z: seq<LoopState>, zm: LoopMap,
                        first: map<string, LoopAnswer>, second: map<string, LoopAnswer>)
    requires Answered(a, x, xm, y, ym, first) && Answered(b, y, ym, z, zm, second)
    ensures Answered(a + b, x, xm, z, zm, first + second)
  {
    forall n | n in first + second
      ensures Mapped(z, zm, n)
      ensures exists d :: d in a + b && IsAutoLoop(d) && CreatedAs(zm[n], d, (first + second)[n])
    {
      if n in second {
        var d :| d in b && IsAutoLoop(d) && CreatedAs(zm[n], d, second[n]);
        assert d in a + b;
      } else {
        var d :| d in a && IsAutoLoop(d) && CreatedAs(ym[n], d, first[n]);
        assert d in a + b && zm[n] == ym[n];
      }
    }
  }

  /** The first entry of a name is one of the entries. */
  lemma {:induction false} FirstEntryIn(loops: seq<LoopState>, name: string)
    ensures EntryOf(loops, name).Some? ==>
              EntryOf(loops, name).value in loops && EntryOf(loops, name).value.name == name
    ensures EntryOf(loops, name).None? ==> name !in LoopNames(loops)
  {
    if loops == [] {
    } else {
      FirstEntryIn(loops[1..], name);
      assert loops == [loops[0]] + loops[1..];
    }
  }

  /** In a registry of distinct names the first entry of a name is the only one. */
  lemma EntryIn(loops: seq<LoopState>, name: string)
    ensures EntryOf(loops, name).Some? <==> name in LoopNames(loops)
    ensures EntryOf(loops, name).Some? ==>
              EntryOf(loops, name).value in loops && EntryOf(loops, name).value.name == name
    ensures UniqueNames(loops) ==> forall l :: l in loops && l.name == name ==> EntryOf(loops, name) == Some(l)
  {
    FirstEntryIn(loops, name);
    if UniqueNames(loops) {
      forall l | l in loops && l.name == name
        ensures EntryOf(loops, name) == Some(l)
      {
        var i :| 0 <= i < |loops| && loops[i] == l;
        FirstDecides(loops, i, name);
      }
    }
  }

  /** A disk is checked; names stay and its own is there. From a sound registry it is a sound step. */
  ghost predicate DiskDone(d: Disk, before: seq<LoopState>, beforeMap: LoopMap,
                           after: seq<LoopState>, afterMap: LoopMap, answer: LoopAnswer)
  {
    && DiskChecked(d, before, beforeMap, after, afterMap, answer)
    && LoopRun(before, after, if Creates(d, Mark(before, d.name)) then [d.name] else [])
    && LoopNames(before) <= LoopNames(after) && (d.kind == LOOP ==> d.name in LoopNames(after))
    && (UniqueNames(before) ==>
          (UniqueNames(after) <==> !(d.kind == LOOP && !d.auto && HasFailedEntry(before, d.name))))
  }

  lemma DoneBefore(d: Disk, before: seq<LoopState>, beforeMap: LoopMap, afterMap: LoopMap, answer: LoopAnswer)
    requires DiskChecked(d, before, beforeMap, before, afterMap, answer)
    requires d.kind != LOOP || Mark(before, d.name) == Some(true)
    ensures DiskDone(d, before, beforeMap, before, afterMap, answer)
  {
    EntryIn(before, d.name);
  }

  lemma DoneAppended(d: Disk, before: seq<LoopState>, beforeMap: LoopMap, s: LoopState, afterMap: LoopMap,
                     answer: LoopAnswer)
    requires d.kind == LOOP && Mark(before, d.name) != Some(true) && s.name == d.name && s.status == SUCCESSFUL
    requires d.auto ==> Mark(before, d.name).None? && CreatedAs(s, d, answer) && afterMap == beforeMap[d.name := s]
    requires !d.auto ==> FoundAs(s, d, answer) && afterMap == beforeMap
    ensures DiskDone(d, before, beforeMap, before + [s], afterMap, answer)
  {
    EntryIn(before, d.name);
    AppendedNames(before, s);
    AppendedEntries(before, s);
  }

  lemma DoneReplaced(d: Disk, before: seq<LoopState>, beforeMap: LoopMap, index: nat, s: LoopState, answer: LoopAnswer)
    requires IsAutoLoop(d) && index < |before| && before[index].name == d.name && before[index].status != SUCCESSFUL
    requires forall j :: 0 <= j < index ==> before[j].name != d.name
    requires CreatedAs(s, d, answer)
    ensures DiskDone(d, before, beforeMap, before[index := s], beforeMap[d.name := s], answer)
  {
    FirstDecides(before, index, d.name);
    RetryKeepsNames(before, index, s);
    ReplacedEntries(before, index, s, before[index := s]);
    assert before[index] in before;
  }

  /** The entry of a new loop device. */
  method NewLoop(d: Disk, reply: LoopAnswer) returns (s: LoopState)
    ensures CreatedAs(s, d, reply)
  {
    s := LoopState(d.name, AbsoluteFileName(d.path, reply.file), "", "", "");
    if reply.failure.Some? {
      s := s.(status := FAILED, message := reply.failure.value);
    }
    s := s.(status := SUCCESSFUL, deviceName := reply.device);
  }

  method CheckDisk(ele: Disk, before: seq<LoopState>, beforeMap: LoopMap)
    returns (loops: seq<LoopState>, loopMap: LoopMap, ghost calls: seq<string>, ghost answer: LoopAnswer)
    ensures DiskDone(ele, before, beforeMap, loops, loopMap, answer)
    ensures calls == if Creates(ele, Mark(before, ele.name)) then [ele.name] else []
    ensures IsAutoLoop(ele) ==> Mapped(loops, loopMap, ele.name)
    ensures ele.kind == LOOP ==> ele.name in LoopNames(loops)
    ensures Sound(before) ==> Sound(loops) && before <= loops
  {
    var reply: LoopAnswer := *;
    loops, loopMap, calls, answer := before, beforeMap, [], reply;
    if ele.kind != LOOP {
      DoneBefore(ele, before, beforeMap, beforeMap, answer);
      return;
    }
    var index, found := FindLoop(loops, ele.name);
    var created := found && loops[index].status == SUCCESSFUL;
    var retry := found && !created;
    if created {
      loopMap := loopMap[ele.name := loops[index]];
      DoneBefore(ele, before, beforeMap, loopMap, answer);
      return;
    }
    if ele.auto {
      calls := [ele.name];
      var s := NewLoop(ele, reply);
      if retry {
        DoneReplaced(ele, before, beforeMap, index, s, answer);
        loops := loops[index := s];
      } else {
        DoneAppended(ele, before, beforeMap, s, beforeMap[ele.name := s], answer);
        loops := loops + [s];
      }
      loopMap := loopMap[ele.name := s];
    } else {
      var s := LoopState(ele.name, "", ele.name, SUCCESSFUL, "");
      if reply.failure.Some? {
        s := s.(message := reply.failure.value);
      }
      s := s.(file := reply.file);
      DoneAppended(ele, before, beforeMap, s, beforeMap, answer);
      loops := loops + [s];
    }
  }

  lemma AppendedNames(loops: seq<LoopState>, s: LoopState)
    ensures LoopNames(loops + [s]) == LoopNames(loops) + {s.name}
    ensures UniqueNames(loops + [s]) <==> UniqueNames(loops) && s.name !in LoopNames(loops)
    ensures AllSuccessful(loops + [s]) <==> AllSuccessful(loops) && s.status == SUCCESSFUL
    ensures s in loops + [s]
  {
    var grown := loops + [s];
    assert grown[|loops|] == s;
    forall l | l in grown
      ensures l.name in LoopNames(loops) + {s.name}
    {
    }
    forall l | l in loops
      ensures l.name in LoopNames(grown)
    {
      assert l in grown;
    }
    if UniqueNames(grown) {
      forall l | l in loops
        ensures l.name != s.name
      {
        var i :| 0 <= i < |loops| && loops[i] == l;
        assert grown[i] == l;
      }
      assert forall i :: 0 <= i < |loops| ==> grown[i] == loops[i];
    }
    if AllSuccessful(grown) {
      assert forall l :: l in loops ==> l in grown;
    }
  }

  lemma RetryKeepsNames(loops: seq<LoopState>, index: nat, s: LoopState)
    requires index < |loops| && loops[index].name == s.name
    ensures LoopNames(loops[index := s]) == LoopNames(loops)
    ensures UniqueNames(loops) ==> UniqueNames(loops[index := s])
    ensures s in loops[index := s]
  {
    var grown := loops[index := s];
    assert grown[index] == s;
    forall l | l in loops
      ensures l.name in LoopNames(grown)
    {
      var i :| 0 <= i < |loops| && loops[i] == l;
      assert grown[i] in grown && grown[i].name == l.name;
    }
  }

  lemma PrefixNames(a: seq<LoopState>, b: seq<LoopState>)
    requires a <= b
    ensures LoopNames(a) <= LoopNames(b)
  {
  }

  lemma RunsCompose(a: seq<LoopState>, b: seq<LoopState>, c: seq<LoopState>, first: seq<string>, second: seq<string>)
    requires LoopRun(a, b, first) && LoopRun(b, c, second)
    ensures LoopRun(a, c, first + second)
  {
    if Sound(a) {
      PrefixNames(a, b);
      PrefixNames(b, c);
      var all := first + second;
      forall i, j | 0 <= i < j < |all|
        ensures all[i] != all[j]
      {
        if i < |first| <= j {
          assert first[i] in first && second[j - |first|] in second;
        }
      }
    }
  }

  /** What some disks make of the registry and of the map of loops. */
  ghost predicate LoopsDone(disks: seq<Disk>, before: seq<LoopState>, beforeMap: LoopMap,
                            after: seq<LoopState>, afterMap: LoopMap,
                            calls: seq<string>, answers: map<string, LoopAnswer>)
  {
    && LoopRun(before, after, calls) && CallsOf(calls, disks, before, after)
    && Answered(disks, before, beforeMap, after, afterMap, answers) && answers.Keys == Elements(calls)
    && beforeMap.Keys <= afterMap.Keys && LoopNames(before) <= LoopNames(after)
    && (forall d :: d in disks && d.kind == LOOP ==> d.name in LoopNames(after))
  }

  lemma NoDisksDone(loops: seq<LoopState>, loopMap: LoopMap)
    ensures LoopsDone([], loops, loopMap, loops, loopMap, [], map[])
  {
    assert forall name, mark :: Creations([], name, mark) == 0 && MarkAll([], name, mark) == mark;
  }

  lemma OneDiskDone(d: Disk, before: seq<LoopState>, beforeMap: LoopMap,
                    after: seq<LoopState>, afterMap: LoopMap, answer: LoopAnswer)
    requires DiskDone(d, before, beforeMap, after, afterMap, answer)
    ensures LoopsDone([d], before, beforeMap, after, afterMap,
              if Creates(d, Mark(before, d.name)) then [d.name] else [], AnswersOf(d, before, answer))
  {
    AnsweredOne(d, before, beforeMap, after, afterMap, answer);
    MarkOne(d, before, beforeMap, after, afterMap, answer);
    assert Elements([d.name]) == {d.name} && Elements([]) == {};
  }

  lemma DoneCompose(a: seq<Disk>, b: seq<Disk>, x: seq<LoopState>, xm: LoopMap, y: seq<LoopState>, ym: LoopMap,
                    z: seq<LoopState>, zm: LoopMap, firstCalls: seq<string>, secondCalls: seq<string>,
                    first: map<string, LoopAnswer>, second: map<string, LoopAnswer>)
    requires LoopsDone(a, x, xm, y, ym, firstCalls, first) && LoopsDone(b, y, ym, z, zm, secondCalls, second)
    ensures LoopsDone(a + b, x, xm, z, zm, firstCalls + secondCalls, first + second)
  {
    RunsCompose(x, y, z, firstCalls, secondCalls);
    CallsCompose(a, b, firstCalls, secondCalls, x, y, z);
    AnsweredCompose(a, b, x, xm, y, ym, z, zm, first, second);
    assert Elements(firstCalls + secondCalls) == Elements(firstCalls) + Elements(secondCalls);
  }

  lemma NextDisk(disks: seq<Disk>, i: nat, before: seq<LoopState>, beforeMap: LoopMap,
                 last: seq<LoopState>, lastMap: LoopMap, loops: seq<LoopState>, loopMap: LoopMap,
                 called: seq<string>, answered: map<string, LoopAnswer>, answer: LoopAnswer)
    requires i < |disks| && LoopsDone(disks[..i], before, beforeMap, last, lastMap, called, answered)
    requires DiskDone(disks[i], last, lastMap, loops, loopMap, answer)
    ensures LoopsDone(disks[..i + 1], before, beforeMap, loops, loopMap,
              called + (if Creates(disks[i], Mark(last, disks[i].name)) then [disks[i].name] else []),
              answered + AnswersOf(disks[i], last, answer))
  {
    OneDiskDone(disks[i], last, lastMap, loops, loopMap, answer);
    DoneCompose(disks[..i], [disks[i]], before, beforeMap, last, lastMap, loops, loopMap, called,
                if Creates(disks[i], Mark(last, disks[i].name)) then [disks[i].name] else [],
                answered, AnswersOf(disks[i], last, answer));
    assert disks[..i + 1] == disks[..i] + [disks[i]];
  }

  method CheckLoopDevice(disks: seq<Disk>, before: seq<LoopState>, beforeMap: LoopMap)
    returns (loops: seq<LoopState>, loopMap: LoopMap, ghost calls: seq<string>, ghost answers: map<string, LoopAnswer>)
    ensures LoopsDone(disks, before, beforeMap, loops, loopMap, calls, answers)
    ensures forall d :: d in disks && IsAutoLoop(d) ==> Mapped(loops, loopMap, d.name)
    ensures forall d :: d in disks && d.kind == LOOP ==> d.name in LoopNames(loops)
    ensures Sound(before) ==> Sound(loops) && before <= loops
  {
    loops, loopMap, calls, answers := before, beforeMap, [], map[];
    NoDisksDone(before, beforeMap);
    for i := 0 to |disks|
      invariant LoopsDone(disks[..i], before, beforeMap, loops, loopMap, calls, answers)
    {
      ghost var last, lastMap, called, answered := loops, loopMap, calls, answers;
      ghost var answer;
      loops, loopMap, calls, answer := CheckDisk(disks[i], loops, loopMap);
      NextDisk(disks, i, before, beforeMap, last, lastMap, loops, loopMap, called, answered, answer);
      calls, answers := called + calls, answered + AnswersOf(disks[i], last, answer);
    }
    assert disks[..|disks|] == disks;
  }

  /** The loop over the classes of a node. */
  method CheckClasses(classes: seq<DeviceClass>, before: seq<LoopState>, beforeMap: LoopMap)
    returns (loops: seq<LoopState>, loopMap: LoopMap, ghost calls: seq<string>, ghost answers: map<string, LoopAnswer>)
    ensures LoopsDone(AllDisks(classes), before, beforeMap, loops, loopMap, calls, answers)
    ensures forall d :: d in AllDisks(classes) && IsAutoLoop(d) ==> Mapped(loops, loopMap, d.name)
    ensures forall d :: d in AllDisks(classes) && d.kind == LOOP ==> d.name in LoopNames(loops)
    ensures Sound(before) ==> Sound(loops) && before <= loops
  {
    loops, loopMap, calls, answers := before, beforeMap, [], map[];
    NoDisksDone(before, beforeMap);
    for i := 0 to |classes|
      invariant LoopsDone(AllDisks(classes[..i]), before, beforeMap, loops, loopMap, calls, answers)
    {
      ghost var last, lastMap, called, answered := loops, loopMap, calls, answers;
      loops, loopMap, calls, answers := CheckLoopDevice(classes[i].devices, loops, loopMap);
      DoneCompose(AllDisks(classes[..i]), classes[i].devices, before, beforeMap, last, lastMap, loops, loopMap,
                  called, calls, answered, answers);
      assert classes[..i + 1][..i] == classes[..i];
      calls, answers := called + calls, answered + answers;
    }
    assert classes[..|classes|] == classes;
  }

  lemma {:induction false} RegistryGrows(registries: seq<seq<LoopState>>, calls: seq<seq<string>>, i: nat, j: nat)
    requires |registries| == |calls| + 1 && Sound(registries[0])
    requires forall r :: 0 <= r < |calls| ==> LoopRun(registries[r], registries[r + 1], calls[r])
    requires i <= j < |registries|
    ensures Sound(registries[j]) && registries[i] <= registries[j]
    decreases j
  {
    if i < j {
      RegistryGrows(registries, calls, i, j - 1);
    } else if j > 0 {
      RegistryGrows(registries, calls, j - 1, j - 1);
    }
  }

  /** Over any number of runs, each starting from the registry the one before it wrote, no name has
      a loop device created twice. */
  lemma CreatedAtMostOnce(registries: seq<seq<LoopState>>, calls: seq<seq<string>>, i: nat, j: nat)
    requires |registries| == |calls| + 1 && Sound(registries[0])
    requires forall r :: 0 <= r < |calls| ==> LoopRun(registries[r], registries[r + 1], calls[r])
    requires i <= j < |calls|
    ensures Distinct(calls[i])
    ensures i < j ==> forall name :: name in calls[i] ==> name !in calls[j]
  {
    RegistryGrows(registries, calls, i, i);
    assert LoopRun(registries[i], registries[i + 1], calls[i]);
    if i < j {
      RegistryGrows(registries, calls, i + 1, j);
      assert LoopRun(registries[j], registries[j + 1], calls[j]);
      PrefixNames(registries[i + 1], registries[j]);
    }
  }
}

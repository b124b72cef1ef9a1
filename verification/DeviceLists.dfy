/** The device lists of a class and the device states of a report, as the volume group code reads
    and cuts them. */
module DeviceLists {
  import opened ClusterTypes
  import opened LvmHost
  import opened LoopRegistry
  import opened Sequences

  // ----- devices -----

  function DeviceNames(devices: seq<Disk>): seq<string> {
    seq(|devices|, i requires 0 <= i < |devices| => devices[i].name)
  }

  /** The device behind an automatic loop; empty when there is none. */
  function LoopDevice(name: string, loopMap: LoopMap): string {
    if name in loopMap then loopMap[name].deviceName else ""
  }

  predicate Skipped(d: Disk, loopMap: LoopMap) {
    IsAutoLoop(d) && LoopDevice(d.name, loopMap) == ""
  }

  function Resolved(d: Disk, loopMap: LoopMap): Disk {
    if IsAutoLoop(d) && !Skipped(d, loopMap) then d.(name := LoopDevice(d.name, loopMap)) else d
  }

  function ResolvedAll(devices: seq<Disk>, loopMap: LoopMap): seq<Disk> {
    seq(|devices|, i requires 0 <= i < |devices| => Resolved(devices[i], loopMap))
  }

  /** The device names an expansion looks at, in order. */
  function Wanted(devices: seq<Disk>, loopMap: LoopMap): seq<string> {
    if devices == [] then []
    else
      var d := devices[|devices| - 1];
      Wanted(devices[..|devices| - 1], loopMap) + if Skipped(d, loopMap) then [] else [Resolved(d, loopMap).name]
  }

  /** Those names that are not in the set. */
  function Absent(names: seq<string>, present: set<string>): seq<string> {
    if names == [] then []
    else
      var n := names[|names| - 1];
      Absent(names[..|names| - 1], present) + if n in present then [] else [n]
  }

  lemma {:induction false} AbsentMembers(names: seq<string>, present: set<string>)
    ensures Elements(Absent(names, present)) == Elements(names) - present
    ensures Distinct(names) ==> Distinct(Absent(names, present))
  {
    if names == [] {
    } else {
      var front := names[..|names| - 1];
      var n := names[|names| - 1];
      AbsentMembers(front, present);
      assert Elements(names) == Elements(front) + {n};
      assert Elements(Absent(names, present)) == Elements(Absent(front, present)) + if n in present then {} else {n};
      if Distinct(names) {
        assert n !in Elements(front);
        assert forall i :: 0 <= i < |Absent(front, present)| ==>
            Absent(front, present)[i] in Elements(Absent(front, present));
      }
    }
  }

  /** The devices are looked at in the order of the spec. */
  lemma {:induction false} WantedInOrder(a: seq<Disk>, b: seq<Disk>, loopMap: LoopMap)
    ensures Wanted(a + b, loopMap) == Wanted(a, loopMap) + Wanted(b, loopMap)
  {
    if b == [] {
      assert a + b == a;
    } else {
      var n := |b| - 1;
      WantedInOrder(a, b[..n], loopMap);
      assert (a + b)[..|a + b| - 1] == a + b[..n];
    }
  }

  /** What is absent is listed in order. */
  lemma {:induction false} AbsentInOrder(a: seq<string>, b: seq<string>, present: set<string>)
    ensures Absent(a + b, present) == Absent(a, present) + Absent(b, present)
  {
    if b == [] {
      assert a + b == a;
    } else {
      var n := |b| - 1;
      AbsentInOrder(a, b[..n], present);
      assert (a + b)[..|a + b| - 1] == a + b[..n];
    }
  }

  /** The disk asks for this device: an automatic loop for the device behind it, if it has one, any other
      disk for the device of its own name. */
  ghost predicate AsksFor(d: Disk, loopMap: LoopMap, n: string) {
    if d.kind == LOOP && d.auto then n != "" && d.name in loopMap && n == loopMap[d.name].deviceName
    else n == d.name
  }

  /** The name under which the disk goes into a group: also that of an automatic loop without a device. */
  ghost predicate GoesBy(d: Disk, loopMap: LoopMap, n: string) {
    if d.kind == LOOP && d.auto && d.name in loopMap && loopMap[d.name].deviceName != ""
    then n == loopMap[d.name].deviceName
    else n == d.name
  }

  lemma {:induction false} WantedExactly(devices: seq<Disk>, loopMap: LoopMap, n: string)
    ensures n in Wanted(devices, loopMap) <==> exists d :: d in devices && AsksFor(d, loopMap, n)
  {
    if devices == [] {
    } else {
      var front, last := devices[..|devices| - 1], devices[|devices| - 1];
      WantedExactly(front, loopMap, n);
      assert AsksFor(last, loopMap, n) <==> !Skipped(last, loopMap) && Resolved(last, loopMap).name == n;
      assert devices == front + [last] && last in devices;
      if exists d :: d in devices && AsksFor(d, loopMap, n) {
        var d :| d in devices && AsksFor(d, loopMap, n);
        assert d in front || d == last;
      }
    }
  }

  lemma ResolvedExactly(devices: seq<Disk>, loopMap: LoopMap, n: string)
    ensures n in Elements(DeviceNames(ResolvedAll(devices, loopMap))) <==>
              exists d :: d in devices && GoesBy(d, loopMap, n)
  {
    var names := DeviceNames(ResolvedAll(devices, loopMap));
    assert |names| == |devices|;
    if n in Elements(names) {
      var i :| 0 <= i < |names| && names[i] == n;
      assert devices[i] in devices && GoesBy(devices[i], loopMap, n);
    }
    if exists d :: d in devices && GoesBy(d, loopMap, n) {
      var d :| d in devices && GoesBy(d, loopMap, n);
      var i :| 0 <= i < |devices| && devices[i] == d;
      assert names[i] == n;
    }
  }

  lemma NamedExactly(devices: seq<Disk>, n: string)
    ensures n in Elements(DeviceNames(devices)) <==> exists d :: d in devices && d.name == n
  {
    if exists d :: d in devices && d.name == n {
      var d :| d in devices && d.name == n;
      var i :| 0 <= i < |devices| && devices[i] == d;
      assert DeviceNames(devices)[i] == n;
    }
  }

  /** Without automatic loops an expansion looks at the names as the spec writes them. */
  lemma {:induction false} WantedByPath(devices: seq<Disk>, loopMap: LoopMap)
    requires forall d :: d in devices ==> !IsAutoLoop(d)
    ensures Wanted(devices, loopMap) == DeviceNames(devices)
  {
    if devices == [] {
    } else {
      WantedByPath(devices[..|devices| - 1], loopMap);
    }
  }

  /** A list without duplicates is as long as its set of elements. */
  lemma {:induction false} DistinctSize(s: seq<string>)
    requires Distinct(s)
    ensures |Elements(s)| == |s|
  {
    if s == [] {
    } else {
      DistinctSize(s[..|s| - 1]);
      assert Elements(s) == Elements(s[..|s| - 1]) + {s[|s| - 1]};
      assert s[|s| - 1] !in s[..|s| - 1];
    }
  }

  lemma DistinctSnoc(s: seq<string>, x: string)
    requires Distinct(s) && x !in Elements(s)
    ensures Distinct(s + [x]) && Elements(s + [x]) == Elements(s) + {x}
  {
  }

  lemma SameSizeSubset(a: set<string>, b: set<string>)
    requires a <= b && |a| == |b|
    ensures a == b
  {
    assert |b - a| == |b| - |a|;
    assert b - a == {};
  }

  method HasDevice(devices: seq<Disk>, name: string) returns (found: bool)
    ensures found == (name in DeviceNames(devices))
  {
    for i := 0 to |devices|
      invariant name !in DeviceNames(devices)[..i]
    {
      if name == devices[i].name {
        assert DeviceNames(devices)[i] == name;
        return true;
      }
    }
    assert DeviceNames(devices)[..|devices|] == DeviceNames(devices);
    found := false;
  }

  /** The members of the group that the spec does not name, in any order. */
  method Surplus(pvs: set<string>, devices: seq<Disk>) returns (surplus: seq<string>)
    ensures Distinct(surplus) && Elements(surplus) == pvs - Elements(DeviceNames(devices))
    ensures |surplus| == |pvs| <==> pvs !! Elements(DeviceNames(devices))
  {
    surplus := [];
    ghost var names := Elements(DeviceNames(devices));
    var rest := pvs;
    while rest != {}
      invariant rest <= pvs
      invariant Distinct(surplus) && Elements(surplus) == (pvs - rest) - names
    {
      var pv :| pv in rest;
      var found := HasDevice(devices, pv);
      if !found {
        DistinctSnoc(surplus, pv);
        surplus := surplus + [pv];
      }
      rest := rest - {pv};
    }
    assert pvs - rest == pvs;
    SurplusSize(surplus, pvs, names);
  }

  lemma SurplusSize(surplus: seq<string>, pvs: set<string>, names: set<string>)
    requires Distinct(surplus) && Elements(surplus) == pvs - names
    ensures |surplus| == |pvs| <==> pvs !! names
  {
    DistinctSize(surplus);
    assert pvs !! names ==> pvs - names == pvs;
    if |surplus| == |pvs| {
      SameSizeSubset(pvs - names, pvs);
    }
  }

  // ----- device states -----

  function States(names: seq<string>, state: DeviceHealth, message: string): seq<DeviceState> {
    seq(|names|, i requires 0 <= i < |names| => DeviceState(names[i], state, message))
  }

  lemma StatesExactly(names: seq<string>, state: DeviceHealth, message: string)
    ensures forall s :: s in States(names, state, message) <==>
              s.name in names && s.state == state && s.message == message
    ensures |States(names, state, message)| == |names|
  {
    forall s: DeviceState | s.name in names && s.state == state && s.message == message
      ensures s in States(names, state, message)
    {
      var i :| 0 <= i < |names| && names[i] == s.name;
      assert States(names, state, message)[i] == s;
    }
  }

  function StateNames(states: seq<DeviceState>): seq<string> {
    seq(|states|, i requires 0 <= i < |states| => states[i].name)
  }

  function Without(states: seq<DeviceState>, name: string): seq<DeviceState> {
    if states == [] then []
    else
      var s := states[|states| - 1];
      Without(states[..|states| - 1], name) + if s.name == name then [] else [s]
  }

  function WithoutAll(states: seq<DeviceState>, names: seq<string>): seq<DeviceState> {
    if names == [] then states
    else Without(WithoutAll(states, names[..|names| - 1]), names[|names| - 1])
  }

  lemma {:induction false} WithoutMembers(states: seq<DeviceState>, name: string)
    ensures forall s :: s in Without(states, name) <==> s in states && s.name != name
  {
    if states == [] {
    } else {
      WithoutMembers(states[..|states| - 1], name);
    }
  }

  /** Exactly the states of other devices survive. */
  lemma {:induction false} WithoutAllMembers(states: seq<DeviceState>, names: seq<string>)
    ensures forall s :: s in WithoutAll(states, names) <==> s in states && s.name !in names
  {
    if names == [] {
    } else {
      var rest := WithoutAll(states, names[..|names| - 1]);
      WithoutAllMembers(states, names[..|names| - 1]);
      WithoutMembers(rest, names[|names| - 1]);
    }
  }

  lemma {:induction false} WithoutShorter(states: seq<DeviceState>, name: string)
    ensures |Without(states, name)| <= |states|
  {
    if states == [] {
    } else {
      WithoutShorter(states[..|states| - 1], name);
    }
  }

  lemma {:induction false} WithoutAllShorter(states: seq<DeviceState>, names: seq<string>)
    ensures |WithoutAll(states, names)| <= |states|
  {
    if names == [] {
    } else {
      WithoutAllShorter(states, names[..|names| - 1]);
      WithoutShorter(WithoutAll(states, names[..|names| - 1]), names[|names| - 1]);
    }
  }

  /** The cut keeps the order. */
  lemma {:induction false} WithoutInOrder(a: seq<DeviceState>, b: seq<DeviceState>, name: string)
    ensures Without(a + b, name) == Without(a, name) + Without(b, name)
  {
    if b == [] {
      assert a + b == a;
    } else {
      var n := |b| - 1;
      WithoutInOrder(a, b[..n], name);
      assert (a + b)[..|a + b| - 1] == a + b[..n];
    }
  }

  method DropState(before: seq<DeviceState>, name: string) returns (states: seq<DeviceState>)
    ensures states == Without(before, name)
  {
    states := before;
    ghost var kept, rest: seq<DeviceState> := [], before;
    var index := 0;
    while index < |states|
      invariant index == |kept| && states == kept + rest
      invariant kept + Without(rest, name) == Without(before, name)
      decreases |rest|
    {
      Cut(states, kept, rest);
      WithoutStep(kept, rest, name);
      if states[index].name == name {
        states := states[..index] + states[index + 1..];
        index := index - 1;
      } else {
        kept := kept + [rest[0]];
      }
      rest := rest[1..];
      index := index + 1;
    }
  }

  lemma WithoutStep(kept: seq<DeviceState>, rest: seq<DeviceState>, name: string)
    requires rest != []
    ensures rest[0].name == name ==> kept + Without(rest, name) == kept + Without(rest[1..], name)
    ensures rest[0].name != name ==> kept + Without(rest, name) == (kept + [rest[0]]) + Without(rest[1..], name)
  {
    assert rest == [rest[0]] + rest[1..];
    WithoutFirst(rest[0], rest[1..], name);
  }

  lemma {:induction false} WithoutFirst(first: DeviceState, rest: seq<DeviceState>, name: string)
    ensures Without([first] + rest, name) == (if first.name == name then [] else [first]) + Without(rest, name)
  {
    if rest == [] {
      assert [first] + rest == [] + [first];
      WithoutLast([], first, name);
    } else {
      var front, last := rest[..|rest| - 1], rest[|rest| - 1];
      WithoutFirst(first, front, name);
      assert [first] + rest == ([first] + front) + [last];
      WithoutLast([first] + front, last, name);
    }
  }

  lemma WithoutLast(front: seq<DeviceState>, last: DeviceState, name: string)
    ensures Without(front + [last], name) == Without(front, name) + if last.name == name then [] else [last]
  {
    assert (front + [last])[..|front|] == front;
  }

  method DropStates(before: seq<DeviceState>, names: seq<string>) returns (states: seq<DeviceState>)
    ensures states == WithoutAll(before, names)
  {
    states := before;
    for i := 0 to |names|
      invariant states == WithoutAll(before, names[..i])
    {
      assert names[..i + 1][..i] == names[..i];
      states := DropState(states, names[i]);
    }
    assert names[..|names|] == names;
  }

  /** One entry for the device: the first one it has, or a new one at the end. */
  function Recorded(states: seq<DeviceState>, s: DeviceState): seq<DeviceState> {
    if states == [] then [s]
    else if states[0].name == s.name then [s] + states[1..]
    else [states[0]] + Recorded(states[1..], s)
  }

  function RecordedAll(states: seq<DeviceState>, names: seq<string>, message: string): seq<DeviceState> {
    if names == [] then states
    else
      Recorded(RecordedAll(states, names[..|names| - 1], message),
               DeviceState(names[|names| - 1], DeviceUnset, message))
  }

  /** Entry i is the first one of its name. */
  ghost predicate IsFirst(states: seq<DeviceState>, i: nat) {
    i < |states| && forall j :: 0 <= j < i ==> states[j].name != states[i].name
  }

  ghost predicate HasState(states: seq<DeviceState>, name: string) {
    exists s :: s in states && s.name == name
  }

  /** Of the states there were, the first one of each of these devices is replaced and the others stay; behind
      them comes one for each device that had none. */
  ghost predicate RecordedOver(was: seq<DeviceState>, names: seq<string>, message: string, states: seq<DeviceState>) {
    && |was| <= |states|
    && (forall i :: 0 <= i < |was| ==>
          states[i] == if was[i].name in names && IsFirst(was, i) then DeviceState(was[i].name, DeviceUnset, message)
                       else was[i])
    && (forall i :: |was| <= i < |states| ==>
          states[i].name in names && !HasState(was, states[i].name)
          && states[i] == DeviceState(states[i].name, DeviceUnset, message))
    && (forall i, j :: |was| <= i < j < |states| ==> states[i].name != states[j].name)
    && (forall n :: n in names ==> HasState(states, n))
  }

  /** One record replaces the first state of its device, or comes last. */
  lemma {:induction false} RecordedFirst(states: seq<DeviceState>, i: nat, s: DeviceState)
    requires IsFirst(states, i) && states[i].name == s.name
    ensures Recorded(states, s) == states[i := s]
    decreases i
  {
    if i == 0 {
    } else {
      var rest := states[1..];
      assert rest[i - 1] == states[i] && forall j :: 0 <= j < i - 1 ==> rest[j] == states[j + 1];
      RecordedFirst(rest, i - 1, s);
      assert states[0].name != s.name;
      assert states[i := s] == [states[0]] + rest[i - 1 := s];
    }
  }

  lemma {:induction false} RecordedLast(states: seq<DeviceState>, s: DeviceState)
    requires forall i :: 0 <= i < |states| ==> states[i].name != s.name
    ensures Recorded(states, s) == states + [s]
  {
    if states == [] {
    } else {
      RecordedLast(states[1..], s);
      assert states + [s] == [states[0]] + (states[1..] + [s]);
    }
  }

  lemma {:induction false} FirstState(states: seq<DeviceState>, name: string) returns (i: nat)
    requires HasState(states, name)
    ensures IsFirst(states, i) && states[i].name == name
    decreases states
  {
    var last := states[|states| - 1];
    var front := states[..|states| - 1];
    assert states == front + [last];
    if HasState(front, name) {
      i := FirstState(front, name);
    } else {
      i := |states| - 1;
      assert forall j :: 0 <= j < i ==> states[j] in front;
    }
  }

  lemma RecordedReplaced(was: seq<DeviceState>, names: seq<string>, message: string, states: seq<DeviceState>, k: nat)
    requires RecordedOver(was, names, message, states) && IsFirst(states, k)
    ensures RecordedOver(was, names + [states[k].name], message,
              states[k := DeviceState(states[k].name, DeviceUnset, message)])
  {
    var n := states[k].name;
    var s := DeviceState(n, DeviceUnset, message);
    assert forall m :: m in names + [n] <==> m in names || m == n;
    FirstIsFirst(was, names, message, states, k);
    KeepsStates(states, k, s);
    assert HasState(states, n) by { assert states[k] in states; }
  }

  lemma HasGrown(states: seq<DeviceState>, s: DeviceState)
    ensures forall m :: HasState(states + [s], m) <==> HasState(states, m) || m == s.name
  {
    var grown := states + [s];
    assert s in grown;
    forall m | HasState(states, m)
      ensures HasState(grown, m)
    {
      var e :| e in states && e.name == m;
      assert e in grown;
    }
  }

  lemma PrefixHasState(was: seq<DeviceState>, states: seq<DeviceState>, n: string)
    requires |was| <= |states| && !HasState(states, n)
    requires forall i :: 0 <= i < |was| ==> states[i].name == was[i].name
    ensures forall i :: 0 <= i < |states| ==> states[i].name != n
    ensures !HasState(was, n)
  {
    assert forall i :: 0 <= i < |states| ==> states[i] in states;
    assert forall i :: 0 <= i < |was| ==> was[i].name != n;
  }

  lemma RecordedAppended(was: seq<DeviceState>, names: seq<string>, message: string,
                         states: seq<DeviceState>, n: string)
    requires RecordedOver(was, names, message, states) && !HasState(states, n)
    ensures RecordedOver(was, names + [n], message, states + [DeviceState(n, DeviceUnset, message)])
  {
    assert forall i :: 0 <= i < |was| ==> states[i].name == was[i].name;
    PrefixHasState(was, states, n);
    HasGrown(states, DeviceState(n, DeviceUnset, message));
    assert forall m :: m in names + [n] <==> m in names || m == n;
    assert forall i :: 0 <= i < |was| ==> was[i].name != n by {
      assert forall i :: 0 <= i < |was| ==> states[i].name != n;
    }
  }

  lemma RecordedStep(was: seq<DeviceState>, names: seq<string>, message: string, states: seq<DeviceState>, n: string)
    requires RecordedOver(was, names, message, states)
    ensures RecordedOver(was, names + [n], message, Recorded(states, DeviceState(n, DeviceUnset, message)))
  {
    if HasState(states, n) {
      var k := FirstState(states, n);
      RecordedFirst(states, k, DeviceState(n, DeviceUnset, message));
      RecordedReplaced(was, names, message, states, k);
    } else {
      assert forall i :: 0 <= i < |states| ==> states[i] in states;
      RecordedLast(states, DeviceState(n, DeviceUnset, message));
      RecordedAppended(was, names, message, states, n);
    }
  }

  lemma FirstIsFirst(was: seq<DeviceState>, names: seq<string>, message: string, states: seq<DeviceState>, k: nat)
    requires RecordedOver(was, names, message, states) && IsFirst(states, k)
    ensures k < |was| ==> forall i :: 0 <= i < |was| && was[i].name == states[k].name ==> (IsFirst(was, i) <==> i == k)
    ensures k >= |was| ==> forall i :: 0 <= i < |was| ==> was[i].name != states[k].name
    ensures k >= |was| ==> states[k] == DeviceState(states[k].name, DeviceUnset, message)
  {
    assert forall i :: 0 <= i < |was| ==> states[i].name == was[i].name;
  }

  lemma KeepsStates(states: seq<DeviceState>, k: nat, s: DeviceState)
    requires k < |states| && states[k].name == s.name
    ensures forall m :: HasState(states, m) ==> HasState(states[k := s], m)
  {
    forall m | HasState(states, m)
      ensures HasState(states[k := s], m)
    {
      var e :| e in states && e.name == m;
      var i :| 0 <= i < |states| && states[i] == e;
      assert states[k := s][i] in states[k := s] && states[k := s][i].name == m;
    }
  }

  /** Recording unavailable devices over earlier states. */
  lemma {:induction false} RecordedExactly(was: seq<DeviceState>, names: seq<string>, message: string)
    ensures RecordedOver(was, names, message, RecordedAll(was, names, message))
  {
    if names == [] {
    } else {
      var front := names[..|names| - 1];
      RecordedExactly(was, front, message);
      RecordedStep(was, front, message, RecordedAll(was, front, message), names[|names| - 1]);
      assert names == front + [names[|names| - 1]];
    }
  }

  method RecordState(before: seq<DeviceState>, s: DeviceState) returns (states: seq<DeviceState>)
    ensures states == Recorded(before, s)
  {
    for i := 0 to |before|
      invariant Recorded(before, s) == before[..i] + Recorded(before[i..], s)
    {
      if before[i].name == s.name {
        states := before[i := s];
        return;
      }
      assert before[i..][1..] == before[i + 1..];
    }
    states := before + [s];
    assert before[..|before|] == before && before[|before|..] == [];
  }
}

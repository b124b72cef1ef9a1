/** The device check of the discover daemon (checkDeviceClass): it compares the devices a report tracks
    with the members of their volume groups. */
module DeviceCheck {
  import opened ClusterTypes
  import opened StatusCheck
  import opened StatusProperties
  import opened ClusterProtocol

  /** The members of each volume group that could be listed. */
  type Listing = map<string, set<string>>

  predicate Present(c: ClassState, pvs: set<string>) {
    forall d :: d in c.deviceStates ==> d.name in pvs
  }

  function MarkMissing(states: seq<DeviceState>, pvs: set<string>): seq<DeviceState> {
    seq(|states|, i requires 0 <= i < |states| =>
      if states[i].name in pvs then states[i] else states[i].(state := Offline))
  }

  function CheckClass(c: ClassState, pvs: set<string>): ClassState {
    c.(state := if Present(c, pvs) then ClassReady else ClassUnReady, deviceStates := MarkMissing(c.deviceStates, pvs))
  }

  predicate Listable(classes: seq<ClassState>, listing: Listing) {
    forall c :: c in classes ==> c.vgName in listing
  }

  function CheckClasses(classes: seq<ClassState>, listing: Listing): seq<ClassState>
    requires Listable(classes, listing)
  {
    seq(|classes|, i requires 0 <= i < |classes| =>
      assert classes[i] in classes;
      CheckClass(classes[i], listing[classes[i].vgName]))
  }

  method CheckDevices(before: ClassState, pvs: set<string>) returns (c: ClassState)
    ensures c == CheckClass(before, pvs)
  {
    c := before;
    var ready := true;
    for i := 0 to |before.deviceStates|
      invariant |c.deviceStates| == |before.deviceStates|
      invariant c == before.(state := c.state, deviceStates := c.deviceStates)
      invariant ready == forall j :: 0 <= j < i ==> before.deviceStates[j].name in pvs
      invariant ready ==> c.state == before.state
      invariant !ready ==> c.state == ClassUnReady
      invariant forall j :: 0 <= j < i ==> c.deviceStates[j] == MarkMissing(before.deviceStates, pvs)[j]
      invariant forall j :: i <= j < |c.deviceStates| ==> c.deviceStates[j] == before.deviceStates[j]
    {
      var d := c.deviceStates[i];
      if d.name !in pvs {
        ready := false;
        c := c.(deviceStates := c.deviceStates[i := d.(state := Offline)], state := ClassUnReady);
      }
    }
    assert c.deviceStates == MarkMissing(before.deviceStates, pvs);
    assert ready <==> Present(before, pvs) by {
      assert forall j :: 0 <= j < |before.deviceStates| ==> before.deviceStates[j] in before.deviceStates;
    }
    if ready {
      c := c.(state := ClassReady);
    }
  }

  /** Nothing is written when some group cannot be listed; otherwise each success class is checked, and
      nothing else changes. */
  method CheckDeviceClass(before: NodeStorageState, listing: Listing) returns (done: bool, status: NodeStorageState)
    ensures done <==> Listable(before.successClasses, listing)
    ensures done ==> status == before.(successClasses := CheckClasses(before.successClasses, listing))
    ensures !done ==> status == before
  {
    status := before;
    for i := 0 to |before.successClasses|
      invariant |status.successClasses| == |before.successClasses|
      invariant status == before.(successClasses := status.successClasses)
      invariant forall j :: 0 <= j < i ==> before.successClasses[j].vgName in listing
      invariant forall j :: 0 <= j < i ==>
                  status.successClasses[j]
                    == CheckClass(before.successClasses[j], listing[before.successClasses[j].vgName])
      invariant forall j :: i <= j < |status.successClasses| ==> status.successClasses[j] == before.successClasses[j]
    {
      var ele := status.successClasses[i];
      if ele.vgName !in listing {
        assert before.successClasses[i] in before.successClasses;
        return false, before;
      }
      var c := CheckDevices(ele, listing[ele.vgName]);
      status := status.(successClasses := status.successClasses[i := c]);
    }
    done := true;
    assert Listable(before.successClasses, listing);
    assert status.successClasses == CheckClasses(before.successClasses, listing);
  }

  // ----- properties -----

  /** Checking again finds the same: a second check of its own result changes nothing. */
  lemma CheckIdempotent(classes: seq<ClassState>, listing: Listing)
    requires Listable(classes, listing)
    ensures Listable(CheckClasses(classes, listing), listing)
    ensures CheckClasses(CheckClasses(classes, listing), listing) == CheckClasses(classes, listing)
  {
    var once := CheckClasses(classes, listing);
    forall i | 0 <= i < |classes|
      ensures once[i].vgName in listing && CheckClass(once[i], listing[once[i].vgName]) == once[i]
    {
      assert classes[i] in classes;
      CheckClassIdempotent(classes[i], listing[classes[i].vgName]);
    }
  }

  lemma CheckClassIdempotent(c: ClassState, pvs: set<string>)
    ensures CheckClass(CheckClass(c, pvs), pvs) == CheckClass(c, pvs)
  {
    SameNames(c, pvs);
    assert MarkMissing(MarkMissing(c.deviceStates, pvs), pvs) == MarkMissing(c.deviceStates, pvs);
  }

  lemma SameNames(c: ClassState, pvs: set<string>)
    ensures Present(CheckClass(c, pvs), pvs) <==> Present(c, pvs)
  {
    var marked := MarkMissing(c.deviceStates, pvs);
    if Present(CheckClass(c, pvs), pvs) {
      forall d | d in c.deviceStates
        ensures d.name in pvs
      {
        var i :| 0 <= i < |c.deviceStates| && c.deviceStates[i] == d;
        assert marked[i] in marked;
      }
    }
  }

  /** A checked class is ready exactly when all its tracked devices are members of its group, and every
      device that is not is marked offline. */
  lemma CheckedClassReady(classes: seq<ClassState>, listing: Listing, c: ClassState)
    requires Listable(classes, listing) && c in CheckClasses(classes, listing)
    ensures c.vgName in listing && (c.state == ClassReady <==> Present(c, listing[c.vgName]))
    ensures forall d :: d in c.deviceStates && d.name !in listing[c.vgName] ==> d.state == Offline
  {
    var i :| 0 <= i < |classes| && CheckClasses(classes, listing)[i] == c;
    assert classes[i] in classes;
    SameNames(classes[i], listing[classes[i].vgName]);
  }

  /** What a check leaves of the tracked devices: all of them, in order, a missing one offline and any other as it
      was; and of the class all but its health. */
  lemma CheckedDevices(classes: seq<ClassState>, listing: Listing, i: nat)
    requires Listable(classes, listing) && i < |classes|
    ensures var c, d := classes[i], CheckClasses(classes, listing)[i];
      && d.name == c.name && d.vgName == c.vgName && d.message == c.message
      && c.vgName in listing && |d.deviceStates| == |c.deviceStates|
      && d.state == (if forall s :: s in c.deviceStates ==> s.name in listing[c.vgName] then ClassReady
                     else ClassUnReady)
      && forall j :: 0 <= j < |c.deviceStates| ==>
           && d.deviceStates[j].name == c.deviceStates[j].name && d.deviceStates[j].message == c.deviceStates[j].message
           && d.deviceStates[j].state ==
                if c.deviceStates[j].name in listing[c.vgName] then c.deviceStates[j].state else Offline
  {
    assert classes[i] in classes;
  }

  /** A node whose delivered report is that of a device check, and which a status check leaves Ready, has a class
      with no tracked device missing. */
  lemma ReadyNodeHasWholeClass(obs: Observation, before: ClusterStatus, after: ClusterStatus, e: NodeStorageState,
                               delivered: Delivered, reported: NodeStorageState, listing: Listing)
    requires UpToDate(before.nodes, delivered) && Checked(obs, before, after)
    requires e in after.nodes && e.phase == Ready && e.node in delivered
    requires Listable(reported.successClasses, listing)
    requires delivered[e.node].successClasses == CheckClasses(reported.successClasses, listing)
    ensures exists c :: c in e.successClasses && c.vgName in listing && Present(c, listing[c.vgName])
  {
    CheckKeepsReports(obs, before, after, delivered);
    ReadyNodeReadyCluster(obs, before, after, e);
    var c :| c in e.successClasses && c.state == ClassReady;
    CheckedClassReady(reported.successClasses, listing, c);
  }
}

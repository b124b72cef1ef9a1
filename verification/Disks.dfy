/** The two device scans of disks.go over one snapshot of the node. What lsblk, sgdisk and udevadm
    report is arbitrary; only that they report the same for both scans is assumed. */
module Disks {

  const DISK_TYPE := "disk"
  const DISK_PREFIX := "/dev/"
  const MIN_SIZE: nat := 2 * 0x4000_0000

  datatype LocalDisk = LocalDisk(
    name: string, kernelName: string, kind: string, size: nat, filesystem: string, mountPoint: string)

  datatype LocalDiskAppendInfo = LocalDiskAppendInfo(disk: LocalDisk, available: bool, message: string)

  /** What the commands answer: the listed names; the devices that could be described; the number of
      lines listed for a device and its children, missing when that failed. */
  datatype Snapshot = Snapshot(names: seq<string>, described: map<string, LocalDisk>, childLines: map<string, nat>)

  predicate HasChild(s: Snapshot, name: string) {
    name in s.childLines && s.childLines[name] > 1
  }

  /** A device is described under the name it is listed by. */
  function Describe(s: Snapshot, name: string): LocalDisk
    requires name in s.described
  {
    s.described[name].(name := name)
  }

  predicate Listed(s: Snapshot, name: string) {
    name in s.names && name in s.described
  }

  predicate Free(d: LocalDisk) {
    d.size >= MIN_SIZE && d.filesystem == "" && d.mountPoint == ""
  }

  predicate Skips(s: Snapshot, listParent: bool, name: string)
    requires name in s.described
  {
    s.described[name].kind == DISK_TYPE && !listParent && HasChild(s, name)
  }

  /** The described devices in the order they are listed, parents of children only when asked for. */
  function Discovered(s: Snapshot, names: seq<string>, listParent: bool): seq<LocalDisk> {
    if names == [] then []
    else
      var n := names[|names| - 1];
      Discovered(s, names[..|names| - 1], listParent)
      + if n in s.described && !Skips(s, listParent, n) then [Describe(s, n)] else []
  }

  /** More than one line is listed for the device: itself and a child. */
  ghost predicate Parent(s: Snapshot, name: string) {
    name in s.childLines && s.childLines[name] > 1
  }

  /** The device as it was described, under the name it is listed by. */
  ghost predicate DescribedAs(s: Snapshot, name: string, d: LocalDisk) {
    && name in s.described && d.name == name && d.kernelName == s.described[name].kernelName
    && d.kind == s.described[name].kind && d.size == s.described[name].size
    && d.filesystem == s.described[name].filesystem && d.mountPoint == s.described[name].mountPoint
  }

  lemma {:induction false} DiscoveredMembers(s: Snapshot, names: seq<string>, listParent: bool)
    ensures forall d :: d in Discovered(s, names, listParent) <==>
              exists n :: n in names && n in s.described && !Skips(s, listParent, n) && d == Describe(s, n)
  {
    if names == [] {
    } else {
      var front := names[..|names| - 1];
      DiscoveredMembers(s, front, listParent);
      assert names == front + [names[|names| - 1]];
    }
  }

  /** A whole disk with children is found only when parents are asked for. */
  lemma DiscoveredExactly(s: Snapshot, names: seq<string>, listParent: bool, d: LocalDisk)
    ensures d in Discovered(s, names, listParent) <==>
              exists n :: n in names && DescribedAs(s, n, d) && (listParent || d.kind != "disk" || !Parent(s, n))
  {
    DiscoveredMembers(s, names, listParent);
    if exists n :: n in names && DescribedAs(s, n, d) && (listParent || d.kind != "disk" || !Parent(s, n)) {
      var n :| n in names && DescribedAs(s, n, d) && (listParent || d.kind != "disk" || !Parent(s, n));
      assert d == Describe(s, n);
    }
    if d in Discovered(s, names, listParent) {
      var n :| n in names && n in s.described && !Skips(s, listParent, n) && d == Describe(s, n);
      assert DescribedAs(s, n, d);
    }
  }

  /** The devices are found in the order they are listed. */
  lemma {:induction false} DiscoveredInOrder(s: Snapshot, a: seq<string>, b: seq<string>, listParent: bool)
    ensures Discovered(s, a + b, listParent) == Discovered(s, a, listParent) + Discovered(s, b, listParent)
  {
    if b == [] {
      assert a + b == a;
    } else {
      var n := |b| - 1;
      DiscoveredInOrder(s, a, b[..n], listParent);
      assert (a + b)[..|a + b| - 1] == a + b[..n];
    }
  }

  method DiscoverDevices(s: Snapshot, listParent: bool) returns (disks: seq<LocalDisk>)
    ensures disks == Discovered(s, s.names, listParent)
  {
    disks := [];
    for i := 0 to |s.names|
      invariant disks == Discovered(s, s.names[..i], listParent)
    {
      var name := s.names[i];
      assert s.names[..i + 1][..i] == s.names[..i];
      assert disks + [] == disks;
      if name !in s.described {
        continue;
      }
      var disk := Describe(s, name);
      if disk.kind == DISK_TYPE {
        if !listParent && HasChild(s, name) {
          continue;
        }
      }
      disks := disks + [disk];
    }
    assert s.names[..|s.names|] == s.names;
  }

  /** How the reporting scan judges a device. */
  function Judge(s: Snapshot, d: LocalDisk): LocalDiskAppendInfo {
    if d.size < MIN_SIZE then LocalDiskAppendInfo(d, false, "size less than 2G")
    else if d.filesystem != "" then LocalDiskAppendInfo(d, false, "containe a filesystem " + d.filesystem)
    else if d.mountPoint != "" then LocalDiskAppendInfo(d, false, "has a mount point " + d.mountPoint)
    else if d.kind == DISK_TYPE && HasChild(s, d.kernelName) then LocalDiskAppendInfo(d, false, "has child")
    else LocalDiskAppendInfo(d, true, "")
  }

  method GetAllDevices(s: Snapshot) returns (res: seq<LocalDiskAppendInfo>)
    ensures |res| == |Discovered(s, s.names, true)|
    ensures forall i :: 0 <= i < |res| ==> res[i] == Judge(s, Discovered(s, s.names, true)[i])
    ensures forall a :: a in res <==> exists n :: Listed(s, n) && a == Judge(s, Describe(s, n))
  {
    res := [];
    var disks := DiscoverDevices(s, true);
    DiscoveredMembers(s, s.names, true);
    for i := 0 to |disks|
      invariant |res| == i && forall j :: 0 <= j < i ==> res[j] == Judge(s, disks[j])
    {
      var device := disks[i];
      if device.size < MIN_SIZE {
        res := res + [LocalDiskAppendInfo(device, false, "size less than 2G")];
        continue;
      }
      if device.filesystem != "" {
        res := res + [LocalDiskAppendInfo(device, false, "containe a filesystem " + device.filesystem)];
        continue;
      }
      if device.mountPoint != "" {
        res := res + [LocalDiskAppendInfo(device, false, "has a mount point " + device.mountPoint)];
        continue;
      }
      if device.kind == DISK_TYPE {
        if HasChild(s, device.kernelName) {
          res := res + [LocalDiskAppendInfo(device, false, "has child")];
          continue;
        }
      }
      res := res + [LocalDiskAppendInfo(device, true, "")];
    }
    forall n | Listed(s, n)
      ensures Judge(s, Describe(s, n)) in res
    {
      assert !Skips(s, true, n) && Describe(s, n) in disks;
      var i :| 0 <= i < |disks| && disks[i] == Describe(s, n);
      assert res[i] in res;
    }
    forall a | a in res
      ensures exists n :: Listed(s, n) && a == Judge(s, Describe(s, n))
    {
      var i :| 0 <= i < |res| && res[i] == a;
      assert disks[i] in disks;
    }
  }

  /** Big enough, no filesystem, not mounted. */
  ghost predicate Unused(d: LocalDisk) {
    d.size >= 2147483648 && d.filesystem == "" && d.mountPoint == ""
  }

  /** A verdict and its reason: children are asked for under the kernel name, and for whole disks only. */
  ghost predicate Verdict(s: Snapshot, d: LocalDisk, a: LocalDiskAppendInfo) {
    && a.disk == d
    && (a.available <==> Unused(d) && (d.kind != "disk" || !Parent(s, d.kernelName)))
    && (a.available ==> a.message == "")
    && (d.size < 2147483648 ==> a.message == "size less than 2G")
    && (d.size >= 2147483648 && d.filesystem != "" ==> a.message == "containe a filesystem " + d.filesystem)
    && (d.size >= 2147483648 && d.filesystem == "" && d.mountPoint != "" ==>
          a.message == "has a mount point " + d.mountPoint)
    && (Unused(d) && !a.available ==> a.message == "has child")
  }

  lemma JudgedExactly(s: Snapshot, d: LocalDisk)
    ensures Verdict(s, d, Judge(s, d))
  {
  }

  /** A device is flagged as available by what was described of it. */
  lemma FlagExactly(s: Snapshot, n: string)
    requires Listed(s, n)
    ensures Judge(s, Describe(s, n)).available <==>
              && Unused(s.described[n])
              && (s.described[n].kind != "disk" || !Parent(s, s.described[n].kernelName))
    ensures DescribedAs(s, n, Judge(s, Describe(s, n)).disk)
  {
    JudgedExactly(s, Describe(s, n));
  }

  /** A listed device is offered by what was described of it: a whole disk unless more than one line is listed
      for it, any other device whatever is listed. */
  lemma OfferedExactly(s: Snapshot, n: string)
    ensures Offers(s, n) <==>
              && n in s.names && n in s.described && Unused(s.described[n])
              && (s.described[n].kind != "disk" || !Parent(s, n))
    ensures Offers(s, n) ==> DescribedAs(s, n, Describe(s, n))
  {
  }

  ghost predicate Offers(s: Snapshot, name: string) {
    Listed(s, name) && Free(s.described[name]) && !Skips(s, false, name)
  }

  method GetAvailableDevices(s: Snapshot) returns (available: map<string, LocalDisk>)
    ensures forall k :: k in available <==> exists n :: Offers(s, n) && k == DISK_PREFIX + n
    ensures forall n :: Offers(s, n) ==> DISK_PREFIX + n in available && available[DISK_PREFIX + n] == Describe(s, n)
  {
    available := map[];
    var disks := DiscoverDevices(s, false);
    DiscoveredMembers(s, s.names, false);
    for i := 0 to |disks|
      invariant forall k :: k in available <==> exists d :: d in disks[..i] && Free(d) && k == DISK_PREFIX + d.name
      invariant forall k :: k in available ==> available[k] in disks && k == DISK_PREFIX + available[k].name
    {
      var device := disks[i];
      assert disks[..i + 1] == disks[..i] + [device];
      if device.size < MIN_SIZE {
        continue;
      }
      if device.filesystem != "" {
        continue;
      }
      if device.mountPoint != "" {
        continue;
      }
      available := available[DISK_PREFIX + device.name := device];
    }
    assert disks[..|disks|] == disks;
    forall n | Offers(s, n)
      ensures DISK_PREFIX + n in available && available[DISK_PREFIX + n] == Describe(s, n)
    {
      assert Describe(s, n) in disks;
      SamePrefix(n, available[DISK_PREFIX + n].name);
    }
  }

  lemma SamePrefix(a: string, b: string)
    ensures DISK_PREFIX + a == DISK_PREFIX + b <==> a == b
  {
    assert (DISK_PREFIX + a)[|DISK_PREFIX|..] == a && (DISK_PREFIX + b)[|DISK_PREFIX|..] == b;
  }

  /** The keys that the reporting scan says are available. */
  ghost predicate Flagged(res: seq<LocalDiskAppendInfo>, k: string) {
    exists a :: a in res && a.available && k == DISK_PREFIX + a.disk.name
  }

  /** The scans ask for children under different names; on no free whole disk does it matter. */
  ghost predicate ChildrenAgree(s: Snapshot) {
    forall n :: Listed(s, n) && Free(s.described[n]) && s.described[n].kind == DISK_TYPE ==>
      (HasChild(s, n) <==> HasChild(s, s.described[n].kernelName))
  }

  /** Both scans offer this device, or neither does. */
  ghost predicate AgreeOn(s: Snapshot, n: string) {
    Offers(s, n) <==> Listed(s, n) && Judge(s, Describe(s, n)).available
  }

  lemma AgreeOnExactly(s: Snapshot)
    ensures (forall n :: AgreeOn(s, n)) <==> ChildrenAgree(s)
  {
    if forall n :: AgreeOn(s, n) {
      forall n | Listed(s, n) && Free(s.described[n]) && s.described[n].kind == DISK_TYPE
        ensures HasChild(s, n) <==> HasChild(s, s.described[n].kernelName)
      {
        assert AgreeOn(s, n);
      }
    }
  }

  lemma OfferedKey(s: Snapshot, available: map<string, LocalDisk>, n: string)
    requires forall k :: k in available <==> exists m :: Offers(s, m) && k == DISK_PREFIX + m
    ensures DISK_PREFIX + n in available <==> Offers(s, n)
  {
    if DISK_PREFIX + n in available {
      var m :| Offers(s, m) && DISK_PREFIX + n == DISK_PREFIX + m;
      SamePrefix(n, m);
    }
  }

  /** The two scans agree on what is available exactly when they agree on the children of every free
      whole disk; so they do when each device's kernel name is the name it is listed by. */
  lemma ScansAgreeExactly(s: Snapshot, res: seq<LocalDiskAppendInfo>, available: map<string, LocalDisk>)
    requires forall a :: a in res <==> exists n :: Listed(s, n) && a == Judge(s, Describe(s, n))
    requires forall k :: k in available <==> exists n :: Offers(s, n) && k == DISK_PREFIX + n
    ensures (forall k :: k in available <==> Flagged(res, k)) <==> ChildrenAgree(s)
    ensures (forall n :: Listed(s, n) ==> s.described[n].kernelName == n) ==> ChildrenAgree(s)
  {
    AgreeOnExactly(s);
    forall n
      ensures AgreeOn(s, n) <==> (DISK_PREFIX + n in available <==> Flagged(res, DISK_PREFIX + n))
    {
      FlaggedName(s, res, n);
      OfferedKey(s, available, n);
    }
    if forall n :: AgreeOn(s, n) {
      forall k
        ensures k in available <==> Flagged(res, k)
      {
        if k in available {
          var n :| Offers(s, n) && k == DISK_PREFIX + n;
          assert AgreeOn(s, n);
        }
        if Flagged(res, k) {
          var a :| a in res && a.available && k == DISK_PREFIX + a.disk.name;
          assert AgreeOn(s, a.disk.name);
        }
      }
    }
  }

  lemma FlaggedName(s: Snapshot, res: seq<LocalDiskAppendInfo>, n: string)
    requires forall a :: a in res <==> exists m :: Listed(s, m) && a == Judge(s, Describe(s, m))
    ensures Flagged(res, DISK_PREFIX + n) <==> Listed(s, n) && Judge(s, Describe(s, n)).available
  {
    if Flagged(res, DISK_PREFIX + n) {
      var a :| a in res && a.available && DISK_PREFIX + n == DISK_PREFIX + a.disk.name;
      SamePrefix(n, a.disk.name);
    }
    if Listed(s, n) && Judge(s, Describe(s, n)).available {
      assert Judge(s, Describe(s, n)) in res;
    }
  }
}

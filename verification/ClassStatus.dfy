/** The success and fail maps of a run and the slices they are stored as between runs
    (getVgNameMap and updateVgStatus). Go ranges over a map in any order, so the slices are any
    enumeration of the maps. */
module ClassStatus {
  import opened ClusterTypes
  import opened LvmHost

  type ClassMap = map<string, ClassState>

  function VgNameMap(classes: seq<ClassState>): ClassMap {
    if classes == [] then map[]
    else
      var last := classes[|classes| - 1];
      VgNameMap(classes[..|classes| - 1])[last.vgName := last]
  }

  /** Each entry is filed under its own volume group. */
  ghost predicate Keyed(m: ClassMap) {
    forall vg :: vg in m ==> m[vg].vgName == vg
  }

  /** As Keyed, but an entry may have lost its volume group name: the first run records a group
      that exists already that way. */
  ghost predicate NearlyKeyed(m: ClassMap) {
    forall vg :: vg in m ==> m[vg].vgName == vg || m[vg].vgName == ""
  }

  /** The slice holds the values of the map, in the order of these keys. */
  ghost predicate InOrder(slice: seq<ClassState>, m: ClassMap, keys: seq<string>) {
    && Distinct(keys) && Elements(keys) == m.Keys && |slice| == |keys|
    && forall i :: 0 <= i < |keys| ==> keys[i] in m && slice[i] == m[keys[i]]
  }

  ghost predicate Enumerates(slice: seq<ClassState>, m: ClassMap) {
    exists keys :: InOrder(slice, m, keys)
  }

  method GetVgNameMap(classes: seq<ClassState>) returns (m: ClassMap)
    ensures m == VgNameMap(classes)
  {
    m := map[];
    for i := 0 to |classes|
      invariant m == VgNameMap(classes[..i])
    {
      assert classes[..i + 1][..i] == classes[..i];
      m := m[classes[i].vgName := classes[i]];
    }
    assert classes[..|classes|] == classes;
  }

  method CollectStates(m: ClassMap) returns (slice: seq<ClassState>)
    ensures Enumerates(slice, m)
  {
    slice := [];
    ghost var keys: seq<string> := [];
    var rest := m.Keys;
    while rest != {}
      invariant rest <= m.Keys
      invariant Distinct(keys) && Elements(keys) == m.Keys - rest && |slice| == |keys|
      invariant forall i :: 0 <= i < |keys| ==> keys[i] in m && slice[i] == m[keys[i]]
    {
      var vg :| vg in rest;
      assert forall i :: 0 <= i < |keys| ==> keys[i] in Elements(keys);
      ghost var grown := keys + [vg];
      assert Elements(grown) == Elements(keys) + {vg};
      slice := slice + [m[vg]];
      keys := grown;
      rest := rest - {vg};
    }
    assert InOrder(slice, m, keys);
  }

  /** Entry i is the last one of this group. */
  ghost predicate IsLast(classes: seq<ClassState>, i: nat, vg: string) {
    i < |classes| && classes[i].vgName == vg && forall j :: i < j < |classes| ==> classes[j].vgName != vg
  }

  /** Exactly the groups that some entry names are there, each with its last entry. */
  lemma {:induction false} MapIsKeyed(classes: seq<ClassState>)
    ensures Keyed(VgNameMap(classes))
    ensures forall e :: e in classes ==> e.vgName in VgNameMap(classes)
    ensures forall vg :: vg in VgNameMap(classes) ==>
              exists i: nat :: IsLast(classes, i, vg) && VgNameMap(classes)[vg] == classes[i]
  {
    if classes == [] {
    } else {
      var n := |classes| - 1;
      var front := classes[..n];
      MapIsKeyed(front);
      assert IsLast(classes, n, classes[n].vgName);
      assert classes == front + [classes[n]];
      forall vg | vg in VgNameMap(classes) && vg != classes[n].vgName
        ensures exists i: nat :: IsLast(classes, i, vg) && VgNameMap(classes)[vg] == classes[i]
      {
        var i: nat :| IsLast(front, i, vg) && VgNameMap(front)[vg] == front[i];
        assert IsLast(classes, i, vg);
      }
    }
  }

  /** Whatever the order of the slice, each entry of the rebuilt map comes from an entry of the stored
      one, and sits where that entry says it belongs. */
  lemma Rebuilt(slice: seq<ClassState>, m: ClassMap)
    requires Enumerates(slice, m)
    ensures forall k :: k in m ==> m[k].vgName in VgNameMap(slice)
    ensures forall vg :: vg in VgNameMap(slice) ==>
              exists k :: k in m && m[k].vgName == vg && VgNameMap(slice)[vg] == m[k]
  {
    MapIsKeyed(slice);
    var keys :| InOrder(slice, m, keys);
    forall k | k in m
      ensures m[k] in slice
    {
      assert k in Elements(keys);
    }
    forall vg | vg in VgNameMap(slice)
      ensures exists k :: k in m && m[k].vgName == vg && VgNameMap(slice)[vg] == m[k]
    {
      var i: nat :| IsLast(slice, i, vg) && VgNameMap(slice)[vg] == slice[i];
      assert keys[i] in m;
    }
  }

  /** Storing a map and reading it back gives the same map, in whatever order it was stored,
      exactly when each entry names its own volume group. */
  lemma RebuildExactly(slice: seq<ClassState>, m: ClassMap)
    requires Enumerates(slice, m)
    ensures VgNameMap(slice) == m <==> Keyed(m)
  {
    MapIsKeyed(slice);
    Rebuilt(slice, m);
  }

  predicate SomeNameless(m: ClassMap) {
    exists k :: k in m && m[k].vgName == ""
  }

  /** Entries that lost their name meet under the empty key, where one of them survives; the others are
      rebuilt as they were. */
  lemma RebuildNearlyKeyed(slice: seq<ClassState>, m: ClassMap)
    requires Enumerates(slice, m) && NearlyKeyed(m)
    ensures forall vg :: vg != "" ==> (vg in VgNameMap(slice) <==> vg in m && m[vg].vgName == vg)
    ensures forall vg :: vg != "" && vg in VgNameMap(slice) ==> VgNameMap(slice)[vg] == m[vg]
    ensures "" in VgNameMap(slice) <==> SomeNameless(m)
    ensures SomeNameless(m) ==> exists k :: k in m && m[k].vgName == "" && VgNameMap(slice)[""] == m[k]
  {
    Rebuilt(slice, m);
  }

  /** A class that failed in one run is not taken for a success in the next, nor the other way
      round. */
  lemma DisjointCarriesOver(suc: ClassMap, fail: ClassMap, sucSlice: seq<ClassState>, failSlice: seq<ClassState>)
    requires Keyed(suc) && NearlyKeyed(fail) && suc.Keys !! fail.Keys && "" !in suc
    requires Enumerates(sucSlice, suc) && Enumerates(failSlice, fail)
    ensures VgNameMap(sucSlice) == suc && VgNameMap(sucSlice).Keys !! VgNameMap(failSlice).Keys
  {
    RebuildExactly(sucSlice, suc);
    RebuildNearlyKeyed(failSlice, fail);
  }
}

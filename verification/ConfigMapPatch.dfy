/** PatchConfigMap: the difference of two JSON documents and its merge (section 2 of RFC 7396), and
    what the two writers of a node's ConfigMap do to it. Arrays do not occur in what the writers
    touch and count as text. */
module ConfigMapPatch {

  datatype Json = Null | Text(text: string) | Obj(fields: map<string, Json>)

  function MergePatch(target: Json, patch: Json): Json
    decreases patch
  {
    if !patch.Obj? then patch
    else
      var t := if target.Obj? then target.fields else map[];
      Obj(map k | k in t.Keys + patch.fields.Keys && !(k in patch.fields && patch.fields[k].Null?) ::
            if k in patch.fields then MergePatch(if k in t then t[k] else Null, patch.fields[k]) else t[k])
  }

  function Diff(before: Json, after: Json): Json
    requires before.Obj? && after.Obj?
    ensures Diff(before, after).Obj?
    decreases after
  {
    var o, n := before.fields, after.fields;
    Obj(map k | k in o.Keys + n.Keys && !(k in o && k in n && o[k] == n[k]) ::
          if k !in n then Null
          else if k in o && o[k].Obj? && n[k].Obj? then Diff(o[k], n[k])
          else n[k])
  }

  predicate NullFree(j: Json) {
    match j
    case Null => false
    case Text(_) => true
    case Obj(m) => forall k :: k in m ==> NullFree(m[k])
  }

  lemma {:induction false} MergeWhole(target: Json, patch: Json)
    requires NullFree(patch) && !target.Obj?
    ensures MergePatch(target, patch) == patch
    decreases patch
  {
    if !patch.Obj? {
    } else {
      forall k | k in patch.fields
        ensures MergePatch(Null, patch.fields[k]) == patch.fields[k]
      {
        MergeWhole(Null, patch.fields[k]);
      }
      assert MergePatch(target, patch).fields == patch.fields;
    }
  }

  lemma {:induction false} MergeOther(target: Json, patch: Json)
    requires NullFree(patch) && !(target.Obj? && patch.Obj?)
    ensures MergePatch(target, patch) == patch
  {
    if !patch.Obj? {
    } else {
      MergeWhole(target, patch);
    }
  }

  lemma {:induction false} MergeStripsNulls(target: Json, patch: Json)
    requires !target.Obj? && patch.Obj?
    ensures NullFree(MergePatch(target, patch))
    decreases patch
  {
    forall k | k in patch.fields && patch.fields[k].Obj?
      ensures NullFree(MergePatch(Null, patch.fields[k]))
    {
      MergeStripsNulls(Null, patch.fields[k]);
    }
  }

  /** What differs holds no null, which a merge patch cannot carry. */
  ghost predicate Expressible(before: Json, after: Json)
    requires before.Obj? && after.Obj?
    decreases after
  {
    forall k :: k in after.fields && !(k in before.fields && before.fields[k] == after.fields[k]) ==>
      if k in before.fields && before.fields[k].Obj? && after.fields[k].Obj?
      then Expressible(before.fields[k], after.fields[k])
      else NullFree(after.fields[k])
  }

  /** One field of the patched document. */
  lemma PatchedField(before: Json, after: Json, k: string)
    requires before.Obj? && after.Obj? && k in after.fields
    requires !(k in before.fields && before.fields[k] == after.fields[k])
    requires k in before.fields && before.fields[k].Obj? && after.fields[k].Obj? ==>
               (MergePatch(before.fields[k], Diff(before.fields[k], after.fields[k])) == after.fields[k]
                <==> Expressible(before.fields[k], after.fields[k]))
    ensures var m := MergePatch(before, Diff(before, after)).fields;
      (k in m && m[k] == after.fields[k]) <==>
      if k in before.fields && before.fields[k].Obj? && after.fields[k].Obj?
      then Expressible(before.fields[k], after.fields[k])
      else NullFree(after.fields[k])
  {
    var n := after.fields[k];
    var target := if k in before.fields then before.fields[k] else Null;
    if !(target.Obj? && n.Obj?) {
      if NullFree(n) {
        MergeOther(target, n);
      } else if n.Obj? {
        MergeStripsNulls(target, n);
      }
    }
  }

  /** A patch applied to the document it was diffed from gives the new document exactly when nothing
      that differs holds a null. */
  lemma {:induction false} PatchRestoresExactly(before: Json, after: Json)
    requires before.Obj? && after.Obj?
    ensures MergePatch(before, Diff(before, after)) == after <==> Expressible(before, after)
    decreases after
  {
    var o, n, m := before.fields, after.fields, MergePatch(before, Diff(before, after)).fields;
    forall k | k in n && !(k in o && o[k] == n[k])
      ensures (k in m && m[k] == n[k]) <==>
              if k in o && o[k].Obj? && n[k].Obj? then Expressible(o[k], n[k]) else NullFree(n[k])
    {
      if k in o && o[k].Obj? && n[k].Obj? {
        PatchRestoresExactly(o[k], n[k]);
      }
      PatchedField(before, after, k);
    }
    assert forall k :: k in m ==> k in n;
    assert forall k :: k in n && k in o && o[k] == n[k] ==> k in m && m[k] == n[k];
    if Expressible(before, after) {
      assert m == n;
    }
  }

  // ----- the ConfigMap of a node -----

  const DATA := "data"

  /** A ConfigMap: its data, and whatever else the document holds. */
  datatype ConfigMap = ConfigMap(rest: map<string, Json>, data: map<string, string>)

  function Texts(data: map<string, string>): Json {
    Obj(map k | k in data :: Text(data[k]))
  }

  function ToJson(cm: ConfigMap): Json {
    Obj(cm.rest[DATA := Texts(cm.data)])
  }

  /** What a patch does to data that may have moved on since it was read. */
  function Merged(now: map<string, string>, read: map<string, string>, wanted: map<string, string>)
    : map<string, string>
  {
    map k | k in now.Keys + wanted.Keys && !(k in read && k !in wanted)
            && (k in now || k !in read || read[k] != wanted[k]) ::
      if k in wanted && !(k in read && read[k] == wanted[k]) then wanted[k] else now[k]
  }

  lemma TextsMergeAt(now: map<string, string>, read: map<string, string>, wanted: map<string, string>, k: string)
    ensures var m := MergePatch(Texts(now), Diff(Texts(read), Texts(wanted))).fields;
      && (k in m <==> k in Merged(now, read, wanted))
      && (k in m ==> m[k] == Text(Merged(now, read, wanted)[k]))
  {
  }

  lemma SameTexts(a: map<string, string>, b: map<string, string>)
    ensures Texts(a) == Texts(b) <==> a == b
  {
    if Texts(a) == Texts(b) {
      assert Texts(a).fields.Keys == a.Keys && Texts(b).fields.Keys == b.Keys;
      forall k | k in a
        ensures a[k] == b[k]
      {
        assert Texts(a).fields[k] == Text(a[k]) && Texts(b).fields[k] == Text(b[k]);
      }
    }
  }

  lemma TextsMerge(now: map<string, string>, read: map<string, string>, wanted: map<string, string>)
    ensures MergePatch(Texts(now), Diff(Texts(read), Texts(wanted))) == Texts(Merged(now, read, wanted))
  {
    var m := MergePatch(Texts(now), Diff(Texts(read), Texts(wanted))).fields;
    var t := Texts(Merged(now, read, wanted)).fields;
    forall k
      ensures k in m <==> k in t
      ensures k in m ==> m[k] == t[k]
    {
      TextsMergeAt(now, read, wanted, k);
    }
    assert m == t;
  }

  lemma PatchKeepsRest(now: ConfigMap, read: ConfigMap, wanted: ConfigMap, k: string)
    requires k != DATA && wanted.rest == read.rest
    ensures k !in Diff(ToJson(read), ToJson(wanted)).fields
  {
  }

  lemma PatchMergesDataField(now: ConfigMap, read: ConfigMap, wanted: ConfigMap)
    ensures var m := MergePatch(ToJson(now), Diff(ToJson(read), ToJson(wanted))).fields;
      DATA in m && m[DATA] == Texts(Merged(now.data, read.data, wanted.data))
  {
    var d := Diff(ToJson(read), ToJson(wanted)).fields;
    SameTexts(read.data, wanted.data);
    if read.data == wanted.data {
      assert Merged(now.data, read.data, wanted.data) == now.data;
      assert DATA !in d;
    } else {
      TextsMerge(now.data, read.data, wanted.data);
      assert d[DATA] == Diff(Texts(read.data), Texts(wanted.data));
    }
  }

  /** A patch of the data alone leaves the rest of the document to others. */
  lemma PatchMergesData(now: ConfigMap, read: ConfigMap, wanted: ConfigMap)
    requires DATA !in now.rest && DATA !in read.rest && wanted.rest == read.rest
    ensures MergePatch(ToJson(now), Diff(ToJson(read), ToJson(wanted)))
              == ToJson(now.(data := Merged(now.data, read.data, wanted.data)))
  {
    var m := MergePatch(ToJson(now), Diff(ToJson(read), ToJson(wanted))).fields;
    var t := ToJson(now.(data := Merged(now.data, read.data, wanted.data))).fields;
    forall k
      ensures k in m <==> k in t
      ensures k in m ==> m[k] == t[k]
    {
      if k == DATA {
        PatchMergesDataField(now, read, wanted);
      } else {
        PatchKeepsRest(now, read, wanted, k);
      }
    }
    assert m == t;
  }

  // ----- the two writers -----

  /** The discover daemon writes the device list, the prepare-vg job the status and the lvmd
      configuration. */
  datatype Writer = Discover | PrepareVg

  function Owned(w: Writer): set<string> {
    if w.Discover? then {"devices"} else {"lvmd.yaml", "status.json"}
  }

  datatype Step =
    | Read(writer: Writer)
    | Patch(writer: Writer, updates: map<string, string>)

  /** Each pending reading still has the writer's own keys as they are stored. */
  ghost predicate OwnKeysCurrent(cm: ConfigMap, read: map<Writer, ConfigMap>) {
    forall w :: w in read ==>
      DATA !in read[w].rest && forall k :: k in Owned(w) ==>
        (k in read[w].data <==> k in cm.data) && (k in cm.data ==> read[w].data[k] == cm.data[k])
  }

  lemma OthersStayCurrent(cm: ConfigMap, read: map<Writer, ConfigMap>, w: Writer, updates: map<string, string>)
    requires OwnKeysCurrent(cm, read) && updates.Keys <= Owned(w)
    ensures OwnKeysCurrent(cm.(data := cm.data + updates), read - {w})
  {
  }

  /** The stored object, and what each writer last read, until it has patched it. */
  class Store {
    var doc: Json
    var read: map<Writer, ConfigMap>
    var cm: ConfigMap    // the stored object, of which doc is the JSON

    ghost predicate Valid()
      reads this
    {
      doc == ToJson(cm) && DATA !in cm.rest && OwnKeysCurrent(cm, read)
    }

    constructor (cm: ConfigMap)
      requires DATA !in cm.rest
      ensures Valid() && this.cm == cm && read == map[]
    {
      doc, read, this.cm := ToJson(cm), map[], cm;
    }

    method Get(w: Writer)
      requires Valid()
      modifies this`read
      ensures Valid() && read == old(read)[w := cm]
    {
      read := read[w := cm];
    }

    /** The writer changes its own keys in a copy of what it read and patches the difference. The
        effect is that of writing these keys into what is stored by now. */
    method PatchConfigMap(w: Writer, updates: map<string, string>)
      requires Valid() && w in read && updates.Keys <= Owned(w)
      modifies this
      ensures Valid() && read == old(read) - {w}
      ensures cm == old(cm).(data := old(cm).data + updates)
    {
      var before := read[w];
      var after := before.(data := before.data + updates);
      doc := MergePatch(doc, Diff(ToJson(before), ToJson(after)));
      PatchMergesData(cm, before, after);
      OwnUpdate(cm.data, before.data, updates, Owned(w));
      OthersStayCurrent(cm, read, w, updates);
      cm := cm.(data := cm.data + updates);
      read := read - {w};
    }
  }

  /** With its own keys as it read them, a writer's patch writes exactly its updates. */
  lemma OwnUpdate(now: map<string, string>, read: map<string, string>, updates: map<string, string>, own: set<string>)
    requires updates.Keys <= own
    requires forall k :: k in own ==> (k in read <==> k in now) && (k in now ==> read[k] == now[k])
    ensures Merged(now, read, read + updates) == now + updates
  {
  }

  /** The data after these steps if every patch were a plain write of its updates. A writer patches
      only what it has read. */
  function Direct(data: map<string, string>, pending: set<Writer>, steps: seq<Step>): map<string, string>
    decreases |steps|
  {
    if steps == [] then data
    else
      match steps[0]
      case Read(w) => Direct(data, pending + {w}, steps[1..])
      case Patch(w, updates) =>
        if w in pending then Direct(data + updates, pending - {w}, steps[1..])
        else Direct(data, pending, steps[1..])
  }

  ghost predicate KeepToOwnKeys(steps: seq<Step>) {
    forall s :: s in steps && s.Patch? ==> s.updates.Keys <= Owned(s.writer)
  }

  /** Under every interleaving of readings and patches no update is lost or undone. */
  method Interleave(store: Store, steps: seq<Step>)
    requires store.Valid() && store.read == map[]
    requires KeepToOwnKeys(steps)
    modifies store
    ensures store.Valid()
    ensures store.cm == old(store.cm).(data := Direct(old(store.cm).data, {}, steps))
  {
    ghost var data := store.cm.data;
    assert steps[0..] == steps && store.read.Keys == {};
    for i := 0 to |steps|
      invariant store.Valid() && store.cm == old(store.cm).(data := store.cm.data)
      invariant Direct(data, {}, steps) == Direct(store.cm.data, store.read.Keys, steps[i..])
    {
      assert steps[i] in steps && steps[i..][1..] == steps[i + 1..];
      ghost var pending := store.read.Keys;
      match steps[i] {
        case Read(w) =>
          store.Get(w);
          assert store.read.Keys == pending + {w};
        case Patch(w, updates) =>
          if w in store.read {
            store.PatchConfigMap(w, updates);
            assert store.read.Keys == pending - {w};
          }
      }
    }
    assert steps[|steps|..] == [];
  }

  lemma {:induction false} DirectKeepsOthers(data: map<string, string>, pending: set<Writer>, steps: seq<Step>,
                                             k: string)
    requires forall s :: s in steps && s.Patch? ==> k !in s.updates
    ensures k in Direct(data, pending, steps) <==> k in data
    ensures k in data ==> Direct(data, pending, steps)[k] == data[k]
    decreases |steps|
  {
    if steps == [] {
    } else {
      assert forall s :: s in steps[1..] ==> s in steps;
      match steps[0]
      case Read(w) => DirectKeepsOthers(data, pending + {w}, steps[1..], k);
      case Patch(w, updates) =>
        assert steps[0] in steps;
        if w in pending {
          DirectKeepsOthers(data + updates, pending - {w}, steps[1..], k);
        } else {
          DirectKeepsOthers(data, pending, steps[1..], k);
        }
    }
  }
}

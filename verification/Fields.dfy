/** Records as lists of fields: what a printed record holds, in whatever order it was printed. */
module Fields {

  type Field = (string, string)
  type Info = map<string, string>

  function FieldMap(fields: seq<Field>): Info {
    if fields == [] then map[]
    else FieldMap(fields[..|fields| - 1])[fields[|fields| - 1].0 := fields[|fields| - 1].1]
  }

  /** These fields are those of the record, in some order. */
  ghost predicate Lists(fields: seq<Field>, m: Info) {
    && (forall i, j :: 0 <= i < j < |fields| ==> fields[i].0 != fields[j].0)
    && (forall f :: f in fields ==> f.0 in m && m[f.0] == f.1)
    && (forall k :: k in m ==> exists f :: f in fields && f.0 == k)
  }

  lemma {:induction false} FieldMapMembers(fields: seq<Field>)
    requires forall i, j :: 0 <= i < j < |fields| ==> fields[i].0 != fields[j].0
    ensures forall f :: f in fields ==> f.0 in FieldMap(fields) && FieldMap(fields)[f.0] == f.1
    ensures forall k :: k in FieldMap(fields) ==> exists f :: f in fields && f.0 == k
  {
    if fields == [] {
    } else {
      var front := fields[..|fields| - 1];
      FieldMapMembers(front);
      assert fields == front + [fields[|fields| - 1]];
      assert forall i :: 0 <= i < |front| ==> front[i].0 != fields[|fields| - 1].0;
    }
  }

  /** The order of the fields does not matter. */
  lemma AnyFieldOrder(fields: seq<Field>, m: Info)
    requires Lists(fields, m)
    ensures FieldMap(fields) == m
  {
    FieldMapMembers(fields);
    assert FieldMap(fields).Keys == m.Keys;
  }
}

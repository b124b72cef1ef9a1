/** The parser of the LVM reports (parseLines and parseOneLine), against a printer of such reports. */
module LvmReport {
  import opened ClusterTypes
  import opened Fields
  import opened Text

  const PREFIX := "LVM2_"

  predicate IsQuote(c: char) {
    c == '\''
  }

  // ----- what the parser computes -----

  /** The field a token stands for. Nothing, where the source indexes out of range. */
  function ParseToken(token: string): Option<(string, string)> {
    var kv := Split(token, '=');
    if |kv| < 2 || |kv[0]| < 5 then None
    else Some((ToLower(kv[0][5..]), Trim(kv[1], IsQuote)))
  }

  function ParseTokens(tokens: seq<string>): Option<Info> {
    if tokens == [] then Some(map[])
    else
      var front := ParseTokens(tokens[..|tokens| - 1]);
      var token := tokens[|tokens| - 1];
      if front.None? || token == "" then front
      else
        var field := ParseToken(token);
        if field.None? then None else Some(front.value[field.value.0 := field.value.1])
  }

  function ParseLine(line: string): Option<Info> {
    ParseTokens(Split(Trim(line, IsSpace), ' '))
  }

  function ParseAll(lines: seq<string>): Option<seq<Info>> {
    if lines == [] then Some([])
    else
      var front := ParseAll(lines[..|lines| - 1]);
      var line := lines[|lines| - 1];
      if front.None? || line == "" then front
      else
        var info := ParseLine(line);
        if info.None? then None else Some(front.value + [info.value])
  }

  method ParseOneLine(line: string) returns (ret: Option<Info>)
    ensures ret == ParseLine(line)
  {
    var info: Info := map[];
    var tokens := Split(Trim(line, IsSpace), ' ');
    for i := 0 to |tokens|
      invariant ParseTokens(tokens[..i]) == Some(info)
    {
      assert tokens[..i + 1][..i] == tokens[..i];
      var token := tokens[i];
      if |token| == 0 {
        continue;
      }
      var kv := Split(token, '=');
      if |kv| < 2 || |kv[0]| < 5 {
        FailureSticks(tokens, i + 1);
        return None;
      }
      var k := ToLower(kv[0][5..]);
      var v := Trim(kv[1], IsQuote);
      info := info[k := v];
    }
    assert tokens[..|tokens|] == tokens;
    ret := Some(info);
  }

  lemma {:induction false} FailureSticks(tokens: seq<string>, n: nat)
    requires n <= |tokens| && ParseTokens(tokens[..n]).None?
    ensures ParseTokens(tokens).None?
    decreases |tokens|
  {
    if n < |tokens| {
      assert tokens[..|tokens| - 1][..n] == tokens[..n];
      FailureSticks(tokens[..|tokens| - 1], n);
    } else {
      assert tokens[..n] == tokens;
    }
  }

  method ParseLines(output: string) returns (ret: Option<seq<Info>>)
    ensures ret == ParseAll(Split(output, '\n'))
  {
    var infos: seq<Info> := [];
    var lines := Split(output, '\n');
    for i := 0 to |lines|
      invariant ParseAll(lines[..i]) == Some(infos)
    {
      assert lines[..i + 1][..i] == lines[..i];
      var line := lines[i];
      if |line| == 0 {
        continue;
      }
      var info := ParseOneLine(line);
      if info.None? {
        LineFailureSticks(lines, i + 1);
        return None;
      }
      infos := infos + [info.value];
    }
    assert lines[..|lines|] == lines;
    ret := Some(infos);
  }

  lemma {:induction false} LineFailureSticks(lines: seq<string>, n: nat)
    requires n <= |lines| && ParseAll(lines[..n]).None?
    ensures ParseAll(lines).None?
    decreases |lines|
  {
    if n < |lines| {
      assert lines[..|lines| - 1][..n] == lines[..n];
      LineFailureSticks(lines[..|lines| - 1], n);
    } else {
      assert lines[..n] == lines;
    }
  }

  // ----- what the parser makes of any text -----

  lemma SplitToken(left: string, value: string, tail: string)
    requires '=' !in left && '=' !in value && (tail == "" || tail[0] == '=')
    ensures var kv := Split(left + ['='] + (value + tail), '=');
      |kv| >= 2 && kv[0] == left && kv[1] == value
  {
    SplitFirst(left, value + tail, '=');
    if tail == "" {
      assert value + tail == value;
      SplitWhole(value, '=');
    } else {
      assert value + tail == value + ['='] + tail[1..];
      SplitFirst(value, tail[1..], '=');
    }
  }

  /** A token is a prefix of five characters and a key, an equals sign and a value; what follows a second equals
      sign is dropped. A token without an equals sign, or with less than a prefix before it, is out of range. */
  lemma TokenExactly(left: string, value: string, tail: string)
    requires '=' !in left && '=' !in value && (tail == "" || tail[0] == '=')
    ensures ParseToken(left) == None
    ensures ParseToken(left + ['='] + (value + tail)) ==
              if |left| < 5 then None else Some((ToLower(left[5..]), Trim(value, IsQuote)))
  {
    SplitWhole(left, '=');
    SplitToken(left, value, tail);
  }

  /** Token i is the last one for this key. */
  ghost predicate LastToken(tokens: seq<string>, i: nat, key: string, value: string) {
    && i < |tokens| && tokens[i] != "" && ParseToken(tokens[i]) == Some((key, value))
    && forall j, v :: i < j < |tokens| && tokens[j] != "" ==> ParseToken(tokens[j]) != Some((key, v))
  }

  ghost predicate IsLastValue(tokens: seq<string>, key: string, value: string) {
    exists i: nat :: LastToken(tokens, i, key, value)
  }

  lemma LastStays(front: seq<string>, last: string, key: string, value: string)
    requires IsLastValue(front, key, value) && (last != "" ==> forall v :: ParseToken(last) != Some((key, v)))
    ensures IsLastValue(front + [last], key, value)
  {
    var i: nat :| LastToken(front, i, key, value);
    assert LastToken(front + [last], i, key, value);
  }

  lemma LastIsLast(front: seq<string>, last: string)
    requires last != "" && ParseToken(last).Some?
    ensures IsLastValue(front + [last], ParseToken(last).value.0, ParseToken(last).value.1)
  {
    assert LastToken(front + [last], |front|, ParseToken(last).value.0, ParseToken(last).value.1);
  }

  /** A line fails exactly when some token that is not empty does. */
  lemma {:induction false} TokensFailExactly(tokens: seq<string>)
    ensures ParseTokens(tokens).None? <==> exists t :: t in tokens && t != "" && ParseToken(t).None?
  {
    if tokens == [] {
    } else {
      var n := |tokens| - 1;
      TokensFailExactly(tokens[..n]);
      assert tokens == tokens[..n] + [tokens[n]];
    }
  }

  /** A line has the keys of its tokens, each with the value of its last token. */
  lemma {:induction false} TokensExactly(tokens: seq<string>)
    requires ParseTokens(tokens).Some?
    ensures forall k :: k in ParseTokens(tokens).value ==> IsLastValue(tokens, k, ParseTokens(tokens).value[k])
    ensures forall t :: t in tokens && t != "" ==>
              ParseToken(t).Some? && ParseToken(t).value.0 in ParseTokens(tokens).value
  {
    if tokens == [] {
    } else {
      var n := |tokens| - 1;
      var front, last := tokens[..n], tokens[n];
      TokensExactly(front);
      assert tokens == front + [last];
      if last != "" {
        LastIsLast(front, last);
      }
      forall k | k in ParseTokens(front).value && (last == "" || ParseToken(last).value.0 != k)
        ensures IsLastValue(tokens, k, ParseTokens(front).value[k])
      {
        LastStays(front, last, k, ParseTokens(front).value[k]);
      }
    }
  }

  lemma OneLine(line: string)
    ensures ParseAll([line]) ==
              if line == "" then Some([]) else if ParseLine(line).None? then None else Some([ParseLine(line).value])
  {
    assert [line][..0] == [];
    assert ParseAll([]) == Some([]) && forall i: Info :: [] + [i] == [i];
  }

  /** A report fails exactly when some line that is not empty does. */
  lemma {:induction false} LinesFailExactly(lines: seq<string>)
    ensures ParseAll(lines).None? <==> exists l :: l in lines && l != "" && ParseLine(l).None?
  {
    if lines == [] {
    } else {
      var n := |lines| - 1;
      LinesFailExactly(lines[..n]);
      assert lines == lines[..n] + [lines[n]];
    }
  }

  /** A report has the records of its lines, in order. */
  lemma {:induction false} LinesExactly(a: seq<string>, b: seq<string>)
    requires ParseAll(a).Some? && ParseAll(b).Some?
    ensures ParseAll(a + b) == Some(ParseAll(a).value + ParseAll(b).value)
    decreases |b|
  {
    if b == [] {
      assert a + b == a && ParseAll(a).value + [] == ParseAll(a).value;
    } else {
      var n := |b| - 1;
      var x, y := ParseAll(a).value, ParseAll(b[..n]).value;
      LinesExactly(a, b[..n]);
      assert (a + b)[..|a + b| - 1] == a + b[..n];
      if b[n] != "" {
        assert (x + y) + [ParseLine(b[n]).value] == x + (y + [ParseLine(b[n]).value]);
      }
    }
  }

  // ----- what LVM prints -----

  predicate PlainKey(k: string) {
    forall c :: c in k ==> c != ' ' && c != '=' && c != '\n' && !('A' <= c <= 'Z')
  }

  predicate PlainValue(v: string) {
    && (forall c :: c in v ==> c != ' ' && c != '=' && c != '\n')
    && (v != "" ==> v[0] != '\'' && v[|v| - 1] != '\'')
  }

  predicate PlainFields(fields: seq<Field>) {
    forall f :: f in fields ==> PlainKey(f.0) && PlainValue(f.1)
  }

  function PrintField(f: Field): string {
    PREFIX + ToUpper(f.0) + ['='] + ("'" + f.1 + "'")
  }

  function PrintFields(fields: seq<Field>): seq<string> {
    seq(|fields|, i requires 0 <= i < |fields| => PrintField(fields[i]))
  }

  /** A line of a report: a record, its fields in any order, or nothing. */
  datatype Line = Blank | Row(fields: seq<Field>)

  function PrintLine(l: Line): string
    requires l.Row? ==> l.fields != []
  {
    if l.Blank? then "" else "  " + Join(PrintFields(l.fields), ' ')
  }

  predicate PlainLines(lines: seq<Line>) {
    forall l :: l in lines && l.Row? ==> l.fields != [] && PlainFields(l.fields)
  }

  function PrintLines(lines: seq<Line>): seq<string>
    requires PlainLines(lines)
  {
    seq(|lines|, i requires 0 <= i < |lines| => assert lines[i] in lines; PrintLine(lines[i]))
  }

  function Records(lines: seq<Line>): seq<Info> {
    if lines == [] then []
    else
      var last := lines[|lines| - 1];
      Records(lines[..|lines| - 1]) + if last.Row? then [FieldMap(last.fields)] else []
  }

  // ----- the round trip -----

  lemma LowerUpper(k: string)
    requires PlainKey(k)
    ensures ToLower(ToUpper(k)) == k
    ensures forall c :: c in ToUpper(k) ==> c != ' ' && c != '=' && c != '\n'
  {
    forall i | 0 <= i < |k|
      ensures ToLower(ToUpper(k))[i] == k[i]
    {
      assert k[i] in k;
    }
    forall i | 0 <= i < |k|
      ensures ToUpper(k)[i] != ' ' && ToUpper(k)[i] != '=' && ToUpper(k)[i] != '\n'
    {
      assert k[i] in k;
    }
  }

  lemma TrimQuoted(v: string)
    requires PlainValue(v)
    ensures Trim("'" + v + "'", IsQuote) == v
  {
    var q := "'" + v + "'";
    assert q[1..] == v + "'";
    if v == "" {
      assert TrimLeft("'", IsQuote) == TrimLeft("", IsQuote);
      assert TrimLeft(q, IsQuote) == "";
    } else {
      assert TrimLeft(v + "'", IsQuote) == v + "'";
      assert TrimLeft(q, IsQuote) == v + "'";
      assert (v + "'")[..|v|] == v;
      assert TrimRight(v, IsQuote) == v;
    }
  }

  lemma PrintedField(f: Field)
    requires PlainKey(f.0) && PlainValue(f.1)
    ensures ParseToken(PrintField(f)) == Some(f)
    ensures ' ' !in PrintField(f) && '\n' !in PrintField(f) && |PrintField(f)| >= 5
    ensures PrintField(f)[0] == 'L' && PrintField(f)[|PrintField(f)| - 1] == '\''
  {
    LowerUpper(f.0);
    TrimQuoted(f.1);
    var key := PREFIX + ToUpper(f.0);
    var quoted := "'" + f.1 + "'";
    assert PrintField(f) == key + ['='] + quoted;
    SplitFirst(key, quoted, '=');
    SplitWhole(quoted, '=');
    assert key[5..] == ToUpper(f.0);
  }

  lemma {:induction false} PrintedTokens(fields: seq<Field>)
    requires PlainFields(fields)
    ensures ParseTokens(PrintFields(fields)) == Some(FieldMap(fields))
  {
    if fields == [] {
    } else {
      var front := fields[..|fields| - 1];
      PrintedTokens(front);
      PrintedField(fields[|fields| - 1]);
      assert PrintFields(fields)[..|fields| - 1] == PrintFields(front);
    }
  }

  lemma {:induction false} JoinedEnds(parts: seq<string>, sep: char)
    requires |parts| >= 1 && forall i :: 0 <= i < |parts| ==> parts[i] != ""
    ensures Join(parts, sep) != "" && Join(parts, sep)[0] == parts[0][0]
    ensures Last(Join(parts, sep)) == Last(parts[|parts| - 1])
  {
    if |parts| == 1 {
    } else {
      JoinedEnds(parts[1..], sep);
    }
  }

  lemma {:induction false} JoinedAvoids(parts: seq<string>, sep: char, c: char)
    requires |parts| >= 1 && c != sep && forall i :: 0 <= i < |parts| ==> c !in parts[i]
    ensures c !in Join(parts, sep)
  {
    if |parts| == 1 {
    } else {
      JoinedAvoids(parts[1..], sep, c);
    }
  }

  function Last(s: string): char
    requires s != ""
  {
    s[|s| - 1]
  }

  lemma PrintedParts(fields: seq<Field>)
    requires PlainFields(fields)
    ensures forall i :: 0 <= i < |fields| ==>
              var p := PrintFields(fields)[i];
              ' ' !in p && '\n' !in p && p != "" && p[0] == 'L' && Last(p) == '\''
  {
    forall i | 0 <= i < |fields|
      ensures var p := PrintFields(fields)[i];
              ' ' !in p && '\n' !in p && p != "" && p[0] == 'L' && Last(p) == '\''
    {
      assert fields[i] in fields;
      PrintedField(fields[i]);
    }
  }

  lemma PrintedRow(fields: seq<Field>)
    requires fields != [] && PlainFields(fields)
    ensures ParseLine(PrintLine(Row(fields))) == Some(FieldMap(fields))
    ensures '\n' !in PrintLine(Row(fields)) && PrintLine(Row(fields)) != ""
  {
    var parts := PrintFields(fields);
    PrintedParts(fields);
    JoinedEnds(parts, ' ');
    JoinedAvoids(parts, ' ', '\n');
    TrimIndented(Join(parts, ' '));
    SplitJoined(parts, ' ');
    PrintedTokens(fields);
  }

  lemma TrimIndented(body: string)
    requires body != "" && !IsSpace(body[0]) && !IsSpace(body[|body| - 1])
    ensures Trim("  " + body, IsSpace) == body
  {
    assert ("  " + body)[1..] == " " + body && (" " + body)[1..] == body;
    assert TrimLeft(body, IsSpace) == body;
    assert TrimLeft(" " + body, IsSpace) == body;
  }

  lemma AppendedLine(front: seq<string>, line: string)
    requires ParseAll(front).Some?
    ensures line == "" ==> ParseAll(front + [line]) == ParseAll(front)
    ensures line != "" && ParseLine(line).Some? ==>
              ParseAll(front + [line]) == Some(ParseAll(front).value + [ParseLine(line).value])
  {
  }

  lemma PrintedLast(front: seq<string>, records: seq<Info>, last: Line)
    requires ParseAll(front) == Some(records)
    requires last.Row? ==> last.fields != [] && PlainFields(last.fields)
    ensures ParseAll(front + [PrintLine(last)]) == Some(records + if last.Row? then [FieldMap(last.fields)] else [])
  {
    if last.Row? {
      PrintedRow(last.fields);
    }
    AppendedLine(front, PrintLine(last));
    assert records + [] == records;
  }

  lemma {:induction false} PrintedLines(lines: seq<Line>)
    requires PlainLines(lines)
    ensures ParseAll(PrintLines(lines)) == Some(Records(lines))
  {
    if lines == [] {
    } else {
      var front, last := lines[..|lines| - 1], lines[|lines| - 1];
      assert last in lines && forall l :: l in front ==> l in lines;
      PrintedLines(front);
      PrintedLast(PrintLines(front), Records(front), last);
      assert PrintLines(lines) == PrintLines(front) + [PrintLine(last)];
    }
  }

  lemma PrintedOnOneLine(lines: seq<Line>)
    requires PlainLines(lines)
    ensures forall p :: p in PrintLines(lines) ==> '\n' !in p
  {
    forall i | 0 <= i < |lines|
      ensures '\n' !in PrintLines(lines)[i]
    {
      assert lines[i] in lines;
      if lines[i].Row? {
        PrintedRow(lines[i].fields);
      }
    }
  }

  /** Parsing a printed report gives its records, in order, whatever blank lines lie between them. */
  lemma ReportRoundTrip(lines: seq<Line>)
    requires lines != [] && PlainLines(lines)
    ensures ParseAll(Split(Join(PrintLines(lines), '\n'), '\n')) == Some(Records(lines))
  {
    PrintedLines(lines);
    PrintedOnOneLine(lines);
    SplitJoined(PrintLines(lines), '\n');
  }

  // ----- the listing of physical volumes -----

  const PV_NAME := "pv_name"

  function PvNames(infos: seq<Info>): set<string> {
    set info | info in infos :: NameOf(info)
  }

  method GetPhysicalVolume(output: string) returns (done: bool, pvs: set<string>)
    ensures done == ParseAll(Split(output, '\n')).Some?
    ensures done ==> pvs == PvNames(ParseAll(Split(output, '\n')).value)
  {
    var infos := ParseLines(output);
    if infos.None? {
      return false, {};
    }
    pvs := {};
    for i := 0 to |infos.value|
      invariant pvs == PvNames(infos.value[..i])
    {
      PvNamesStep(infos.value, i);
      pvs := pvs + {NameOf(infos.value[i])};
    }
    assert infos.value[..|infos.value|] == infos.value;
    done := true;
  }

  lemma PvNamesStep(infos: seq<Info>, i: nat)
    requires i < |infos|
    ensures PvNames(infos[..i + 1]) == PvNames(infos[..i]) + {NameOf(infos[i])}
  {
    assert infos[..i + 1] == infos[..i] + [infos[i]];
  }

  function NameOf(info: Info): string {
    if PV_NAME in info then info[PV_NAME] else ""
  }

  ghost predicate Named(lines: seq<Line>, n: string) {
    exists l :: l in lines && l.Row? && NameOf(FieldMap(l.fields)) == n
  }

  lemma {:induction false} RecordMembers(lines: seq<Line>)
    ensures forall info :: info in Records(lines) <==> exists l :: l in lines && l.Row? && FieldMap(l.fields) == info
  {
    if lines == [] {
    } else {
      var front := lines[..|lines| - 1];
      var last := lines[|lines| - 1];
      RecordMembers(front);
      assert lines == front + [last];
      assert last.Row? ==> FieldMap(last.fields) in Records(lines);
    }
  }

  lemma {:induction false} RecordNames(lines: seq<Line>, n: string)
    ensures n in PvNames(Records(lines)) <==> Named(lines, n)
  {
    RecordMembers(lines);
  }

  /** A row of vgs -o pv_name. */
  ghost predicate IsPvRow(l: Line, pv: string) {
    l.Row? && Lists(l.fields, map[PV_NAME := pv])
  }

  lemma PvRowName(l: Line, pv: string)
    requires IsPvRow(l, pv)
    ensures NameOf(FieldMap(l.fields)) == pv
  {
    AnyFieldOrder(l.fields, map[PV_NAME := pv]);
  }

  /** A report on the members of a group: its rows carry these names and no others. */
  ghost predicate ReportsPvs(lines: seq<Line>, pvs: set<string>) {
    && (forall l :: l in lines && l.Row? ==> exists pv :: pv in pvs && IsPvRow(l, pv))
    && (forall pv :: pv in pvs ==> exists l :: l in lines && IsPvRow(l, pv))
  }

  lemma RowsName(lines: seq<Line>, pvs: set<string>, n: string)
    requires ReportsPvs(lines, pvs)
    ensures Named(lines, n) <==> n in pvs
  {
    if n in pvs {
      var l :| l in lines && IsPvRow(l, n);
      PvRowName(l, n);
    }
    if Named(lines, n) {
      var l :| l in lines && l.Row? && NameOf(FieldMap(l.fields)) == n;
      var pv :| pv in pvs && IsPvRow(l, pv);
      PvRowName(l, pv);
    }
  }

  lemma RecordsNamePvs(lines: seq<Line>, pvs: set<string>)
    requires ReportsPvs(lines, pvs)
    ensures PvNames(Records(lines)) == pvs
  {
    forall n
      ensures n in PvNames(Records(lines)) <==> n in pvs
    {
      RecordNames(lines, n);
      RowsName(lines, pvs, n);
    }
  }

  /** The listing of a group's members is exactly the reported names. */
  lemma ReportedPvs(lines: seq<Line>, pvs: set<string>)
    requires lines != [] && PlainLines(lines) && ReportsPvs(lines, pvs)
    ensures var infos := ParseAll(Split(Join(PrintLines(lines), '\n'), '\n'));
      infos.Some? && PvNames(infos.value) == pvs
  {
    ReportRoundTrip(lines);
    RecordsNamePvs(lines, pvs);
  }
}

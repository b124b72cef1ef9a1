/** The lsblk parser and the partition accounting of device.go, with the source's uint64 arithmetic.
    lsblk and udevadm are not part of the repository: their output is arbitrary. */
module Partitions {
  import opened ClusterTypes
  import opened Fields
  import opened Text

  const WORD: nat := 0x1_0000_0000_0000_0000
  const PART_TYPE := "part"

  datatype Partition = Partition(name: string, size: nat, partLabel: string, filesystem: string)

  // ----- key="value" lines -----

  function RemoveQuotes(s: string): string {
    if s == "" then ""
    else if s[0] == '"' then RemoveQuotes(s[1..])
    else [s[0]] + RemoveQuotes(s[1..])
  }

  function ParsePairs(props: seq<string>): Info {
    if props == [] then map[]
    else
      var kvp := Split(props[|props| - 1], '=');
      var front := ParsePairs(props[..|props| - 1]);
      if |kvp| == 2 then front[kvp[0] := RemoveQuotes(kvp[1])] else front
  }

  function ParseLine(line: string): Info {
    ParsePairs(Split(line, ' '))
  }

  method ParseKeyValuePairString(propsRaw: string) returns (propMap: Info)
    ensures propMap == ParseLine(propsRaw)
  {
    var props := Split(propsRaw, ' ');
    propMap := map[];
    for i := 0 to |props|
      invariant propMap == ParsePairs(props[..i])
    {
      assert props[..i + 1][..i] == props[..i];
      var kvp := Split(props[i], '=');
      if |kvp| == 2 {
        propMap := propMap[kvp[0] := RemoveQuotes(kvp[1])];
      }
    }
    assert props[..|props|] == props;
  }

  predicate Plain(s: string) {
    forall c :: c in s ==> c != ' ' && c != '=' && c != '"'
  }

  function PrintPair(f: Field): string {
    f.0 + ['='] + ("\"" + f.1 + "\"")
  }

  function PrintPairs(fields: seq<Field>): seq<string> {
    seq(|fields|, i requires 0 <= i < |fields| => PrintPair(fields[i]))
  }

  function PrintRecord(fields: seq<Field>): string {
    if fields == [] then "" else Join(PrintPairs(fields), ' ')
  }

  lemma {:induction false} QuotesRemoved(v: string, tail: string)
    requires '"' !in v && RemoveQuotes(tail) == ""
    ensures RemoveQuotes(v + tail) == v
  {
    if v == "" {
      assert v + tail == tail;
    } else {
      QuotesRemoved(v[1..], tail);
      assert (v + tail)[1..] == v[1..] + tail;
    }
  }

  lemma PrintedPair(f: Field)
    requires Plain(f.0) && Plain(f.1)
    ensures Split(PrintPair(f), '=') == [f.0, "\"" + f.1 + "\""]
    ensures RemoveQuotes("\"" + f.1 + "\"") == f.1
    ensures ' ' !in PrintPair(f)
  {
    var quoted := "\"" + f.1 + "\"";
    SplitFirst(f.0, quoted, '=');
    SplitWhole(quoted, '=');
    assert RemoveQuotes("\"") == RemoveQuotes("") by { assert "\""[1..] == ""; }
    QuotesRemoved(f.1, "\"");
    assert quoted[1..] == f.1 + "\"";
  }

  lemma {:induction false} PrintedPairs(fields: seq<Field>)
    requires forall f :: f in fields ==> Plain(f.0) && Plain(f.1)
    ensures ParsePairs(PrintPairs(fields)) == FieldMap(fields)
    ensures forall p :: p in PrintPairs(fields) ==> ' ' !in p
  {
    if fields == [] {
    } else {
      var front := fields[..|fields| - 1];
      PrintedPairs(front);
      PrintedPair(fields[|fields| - 1]);
      assert PrintPairs(fields) == PrintPairs(front) + [PrintPair(fields[|fields| - 1])];
      assert PrintPairs(fields)[..|fields| - 1] == PrintPairs(front);
    }
  }

  /** Any map of plain keys and values is recovered from its line, whatever the order of the pairs. */
  lemma PairsRoundTrip(fields: seq<Field>, m: Info)
    requires Fields.Lists(fields, m)
    requires forall f :: f in fields ==> Plain(f.0) && Plain(f.1)
    ensures ParseLine(PrintRecord(fields)) == m
  {
    PrintedPairs(fields);
    AnyFieldOrder(fields, m);
    if fields == [] {
      assert Split("", ' ') == [""] && Split("", '=') == [""];
      assert [""][..0] == [];
      assert ParsePairs([""]) == map[];
    } else {
      SplitJoined(PrintPairs(fields), ' ');
    }
  }

  /** The token is a pair with exactly one equals sign. */
  ghost predicate IsPair(token: string, key: string, raw: string) {
    token == key + ['='] + raw && '=' !in key && '=' !in raw
  }

  lemma PairExactly(token: string)
    ensures |Split(token, '=')| == 2 ==> IsPair(token, Split(token, '=')[0], Split(token, '=')[1])
    ensures forall key, raw :: IsPair(token, key, raw) ==> Split(token, '=') == [key, raw]
  {
    forall key, raw | IsPair(token, key, raw)
      ensures Split(token, '=') == [key, raw]
    {
      SplitFirst(key, raw, '=');
      SplitWhole(raw, '=');
    }
    if |Split(token, '=')| == 2 {
      var kv := Split(token, '=');
      JoinedSplit(token, '=');
      assert kv[0] in kv && kv[1] in kv && kv[1..] == [kv[1]];
      assert IsPair(token, kv[0], kv[1]);
    }
  }

  /** Quotes are removed wherever they are, and nothing else is. */
  lemma {:induction false} RemoveQuotesExactly(a: string, b: string)
    ensures RemoveQuotes(a + b) == RemoveQuotes(a) + RemoveQuotes(b)
  {
    if a == "" {
      assert a + b == b;
    } else {
      RemoveQuotesExactly(a[1..], b);
      assert (a + b)[1..] == a[1..] + b;
    }
  }

  lemma {:induction false} UnquotedStays(s: string)
    ensures '"' !in RemoveQuotes(s)
    ensures '"' !in s ==> RemoveQuotes(s) == s
    ensures RemoveQuotes("\"") == ""
  {
    assert RemoveQuotes("\"") == RemoveQuotes("") by { assert "\""[1..] == ""; }
    if s == "" {
    } else {
      UnquotedStays(s[1..]);
      assert [s[0]] + s[1..] == s;
    }
  }

  /** Pair i is the last one for this key. */
  ghost predicate LastPair(tokens: seq<string>, i: nat, key: string, raw: string) {
    && i < |tokens| && IsPair(tokens[i], key, raw)
    && forall j, r :: i < j < |tokens| ==> !IsPair(tokens[j], key, r)
  }

  ghost predicate IsLastValue(tokens: seq<string>, key: string, value: string) {
    exists i: nat, raw :: LastPair(tokens, i, key, raw) && value == RemoveQuotes(raw)
  }

  lemma LastStays(front: seq<string>, last: string, key: string, value: string)
    requires IsLastValue(front, key, value) && forall raw :: !IsPair(last, key, raw)
    ensures IsLastValue(front + [last], key, value)
  {
    var i: nat, raw :| LastPair(front, i, key, raw) && value == RemoveQuotes(raw);
    assert LastPair(front + [last], i, key, raw);
  }

  lemma LastIsLast(front: seq<string>, last: string, key: string, raw: string)
    requires IsPair(last, key, raw)
    ensures IsLastValue(front + [last], key, RemoveQuotes(raw))
  {
    assert LastPair(front + [last], |front|, key, raw);
  }

  /** Tokens that are no pairs are passed over, and each key has the value of its last pair. */
  lemma {:induction false} PairsExactly(tokens: seq<string>)
    ensures forall k :: k in ParsePairs(tokens) ==> IsLastValue(tokens, k, ParsePairs(tokens)[k])
    ensures forall t, k, raw :: t in tokens && IsPair(t, k, raw) ==> k in ParsePairs(tokens)
  {
    if tokens == [] {
    } else {
      var n := |tokens| - 1;
      var front, last := tokens[..n], tokens[n];
      PairsExactly(front);
      PairExactly(last);
      assert tokens == front + [last];
      var kv := Split(last, '=');
      if |kv| == 2 {
        LastIsLast(front, last, kv[0], kv[1]);
      }
      forall k | k in ParsePairs(front) && (|kv| != 2 || kv[0] != k)
        ensures IsLastValue(tokens, k, ParsePairs(front)[k])
      {
        LastStays(front, last, k, ParsePairs(front)[k]);
      }
    }
  }

  // ----- sizes -----

  predicate IsDigit(c: char) {
    '0' <= c <= '9'
  }

  predicate AllDigits(s: string) {
    s != "" && forall c :: c in s ==> IsDigit(c)
  }

  function Digits(s: string): nat
    requires forall c :: c in s ==> IsDigit(c)
  {
    if s == "" then 0
    else
      var d := s[|s| - 1];
      assert d in s && IsDigit(d);
      10 * Digits(s[..|s| - 1]) + (d as int - '0' as int)
  }

  /** strconv.ParseUint in base 10 and 64 bits. */
  function ParseUint(s: string): (r: Option<nat>)
    ensures r.Some? ==> r.value < WORD
  {
    if AllDigits(s) && Digits(s) < WORD then Some(Digits(s)) else None
  }

  function Digit(d: nat): char
    requires d < 10
  {
    ('0' as int + d) as char
  }

  function Decimal(n: nat): string {
    if n < 10 then [Digit(n)] else Decimal(n / 10) + [Digit(n % 10)]
  }

  function Zeros(k: nat): string {
    seq(k, i requires 0 <= i < k => '0')
  }

  lemma DigitsSnoc(front: string, d: nat)
    requires d < 10 && forall c :: c in front ==> IsDigit(c)
    ensures AllDigits(front + [Digit(d)]) && Digits(front + [Digit(d)]) == 10 * Digits(front) + d
  {
    assert (front + [Digit(d)])[..|front|] == front;
  }

  lemma DecimalSnoc(n: nat, d: nat)
    requires 0 < n && d < 10
    ensures Decimal(10 * n + d) == Decimal(n) + [Digit(d)]
  {
  }

  /** One more digit behind a numeral with leading zeros. */
  lemma NumeralSnoc(k: nat, n: nat, d: nat) returns (k': nat)
    requires d < 10
    ensures Zeros(k) + Decimal(n) + [Digit(d)] == Zeros(k') + Decimal(10 * n + d)
  {
    if n == 0 {
      k' := k + 1;
      assert Decimal(0) == [Digit(0)] && Decimal(d) == [Digit(d)];
      assert Zeros(k) + [Digit(0)] == Zeros(k');
    } else {
      k' := k;
      DecimalSnoc(n, d);
      assert Zeros(k) + Decimal(n) + [Digit(d)] == Zeros(k) + (Decimal(n) + [Digit(d)]);
    }
  }

  lemma LastDigit(s: string) returns (front: string, d: nat)
    requires AllDigits(s)
    ensures d < 10 && s == front + [Digit(d)] && Digits(s) == 10 * Digits(front) + d
    ensures front != "" ==> AllDigits(front)
  {
    front := s[..|s| - 1];
    var last := s[|s| - 1];
    assert last in s && IsDigit(last) && forall c :: c in front ==> c in s;
    d := last as int - '0' as int;
    assert s == front + [Digit(d)];
  }

  /** A string of digits is the decimal numeral of its value behind leading zeros. */
  lemma {:induction false} DigitsAreNumeral(s: string) returns (k: nat)
    requires AllDigits(s)
    ensures s == Zeros(k) + Decimal(Digits(s))
    decreases |s|
  {
    var front, d := LastDigit(s);
    if front == "" {
      k := 0;
    } else {
      k := DigitsAreNumeral(front);
      k := NumeralSnoc(k, Digits(front), d);
    }
  }

  lemma {:induction false} ZerosDigits(k: nat)
    ensures (forall c :: c in Zeros(k) ==> IsDigit(c)) && Digits(Zeros(k)) == 0
  {
    if k == 0 {
    } else {
      ZerosDigits(k - 1);
      assert Zeros(k) == Zeros(k - 1) + [Digit(0)];
      DigitsSnoc(Zeros(k - 1), 0);
    }
  }

  lemma {:induction false} NumeralDigits(k: nat, n: nat)
    ensures AllDigits(Zeros(k) + Decimal(n)) && Digits(Zeros(k) + Decimal(n)) == n
    decreases n
  {
    if n < 10 {
      ZerosDigits(k);
      DigitsSnoc(Zeros(k), n);
    } else {
      NumeralDigits(k, n / 10);
      DigitsSnoc(Zeros(k) + Decimal(n / 10), n % 10);
      assert Zeros(k) + Decimal(n) == Zeros(k) + Decimal(n / 10) + [Digit(n % 10)];
    }
  }

  /** Exactly the decimal numerals of numbers below 2^64 are parsed, leading zeros or not. */
  lemma ParseUintExactly(s: string, n: nat)
    ensures ParseUint(s) == Some(n) <==> n < WORD && exists k: nat :: s == Zeros(k) + Decimal(n)
  {
    if AllDigits(s) {
      var k := DigitsAreNumeral(s);
    }
    forall k: nat | s == Zeros(k) + Decimal(n)
      ensures AllDigits(s) && Digits(s) == n
    {
      NumeralDigits(k, n);
    }
  }

  function Get(m: Info, k: string): string {
    if k in m then m[k] else ""
  }

  predicate IsDevice(props: Info, device: string) {
    Get(props, "NAME") == device
  }

  predicate IsPartition(props: Info, device: string) {
    !IsDevice(props, device) && Get(props, "PKNAME") == device && Get(props, "TYPE") == PART_TYPE
  }

  // ----- what the listing says -----

  /** Whether every size that is read is a number, and every partition has its udev record. */
  predicate Readable(rows: seq<Info>, device: string, udev: map<string, Info>) {
    forall p :: p in rows ==>
      && (IsDevice(p, device) || IsPartition(p, device) ==> ParseUint(Get(p, "SIZE")).Some?)
      && (IsPartition(p, device) ==> Get(p, "NAME") in udev)
  }

  /** The size in the last row of the device itself. */
  function DeviceSize(rows: seq<Info>, device: string): nat {
    if rows == [] then 0
    else
      var p := rows[|rows| - 1];
      if IsDevice(p, device) && ParseUint(Get(p, "SIZE")).Some? then ParseUint(Get(p, "SIZE")).value
      else DeviceSize(rows[..|rows| - 1], device)
  }

  function PartitionOf(p: Info, udev: map<string, Info>): Partition {
    var name := Get(p, "NAME");
    var info := if name in udev then udev[name] else map[];
    var size := ParseUint(Get(p, "SIZE"));
    Partition(name, if size.Some? then size.value else 0,
      if "ID_PART_ENTRY_NAME" in info then info["ID_PART_ENTRY_NAME"] else Get(info, "PARTNAME"),
      Get(info, "ID_FS_TYPE"))
  }

  /** One partition for each partition row, in order. */
  function PartitionsOf(rows: seq<Info>, device: string, udev: map<string, Info>): seq<Partition> {
    if rows == [] then []
    else
      var p := rows[|rows| - 1];
      PartitionsOf(rows[..|rows| - 1], device, udev) + if IsPartition(p, device) then [PartitionOf(p, udev)] else []
  }

  /** The row has this value for this key, or none and the value is empty. */
  ghost predicate Says(row: Info, key: string, value: string) {
    (key in row && row[key] == value) || (key !in row && value == "")
  }

  /** The row of a partition of this device. */
  ghost predicate PartitionRow(row: Info, device: string) {
    !Says(row, "NAME", device) && Says(row, "PKNAME", device) && Says(row, "TYPE", "part")
  }

  /** The partition of a row: its name and size, and the label and filesystem of its udev record. */
  ghost predicate IsPartitionOf(p: Partition, row: Info, udev: map<string, Info>) {
    && Says(row, "NAME", p.name) && p.name in udev
    && (exists size :: Says(row, "SIZE", size) && ParseUint(size) == Some(p.size))
    && (if "ID_PART_ENTRY_NAME" in udev[p.name] then p.partLabel == udev[p.name]["ID_PART_ENTRY_NAME"]
        else Says(udev[p.name], "PARTNAME", p.partLabel))
    && Says(udev[p.name], "ID_FS_TYPE", p.filesystem)
  }

  /** Each size that is read is a number, and each partition has a udev record. */
  ghost predicate AllReadable(rows: seq<Info>, device: string, udev: map<string, Info>) {
    forall row :: row in rows ==>
      && (Says(row, "NAME", device) || PartitionRow(row, device) ==>
            exists size, n :: Says(row, "SIZE", size) && ParseUint(size) == Some(n))
      && (PartitionRow(row, device) ==> exists name :: Says(row, "NAME", name) && name in udev)
  }

  lemma GetSays(row: Info, key: string)
    ensures forall v :: Says(row, key, v) <==> v == Get(row, key)
  {
  }

  lemma RowExactly(row: Info, device: string)
    ensures IsDevice(row, device) <==> Says(row, "NAME", device)
    ensures IsPartition(row, device) <==> PartitionRow(row, device)
  {
    GetSays(row, "NAME");
    GetSays(row, "PKNAME");
    GetSays(row, "TYPE");
  }

  lemma ReadableExactly(rows: seq<Info>, device: string, udev: map<string, Info>)
    ensures Readable(rows, device, udev) <==> AllReadable(rows, device, udev)
  {
    forall row | row in rows
      ensures IsDevice(row, device) <==> Says(row, "NAME", device)
      ensures IsPartition(row, device) <==> PartitionRow(row, device)
      ensures forall v :: Says(row, "SIZE", v) <==> v == Get(row, "SIZE")
      ensures forall v :: Says(row, "NAME", v) <==> v == Get(row, "NAME")
    {
      RowExactly(row, device);
      GetSays(row, "SIZE");
      GetSays(row, "NAME");
    }
  }

  lemma PartitionExactly(row: Info, device: string, udev: map<string, Info>)
    requires Readable([row], device, udev) && IsPartition(row, device)
    ensures IsPartitionOf(PartitionOf(row, udev), row, udev)
  {
    assert row in [row];
    GetSays(row, "NAME");
    GetSays(row, "SIZE");
    var p := PartitionOf(row, udev);
    GetSays(udev[p.name], "PARTNAME");
    GetSays(udev[p.name], "ID_FS_TYPE");
  }

  /** These rows, in order, are those of the partitions. */
  ghost predicate Accounts(rows: seq<Info>, device: string, udev: map<string, Info>,
                           parts: seq<Partition>, at: seq<nat>)
  {
    && |at| == |parts|
    && (forall k :: 0 <= k < |at| ==>
          at[k] < |rows| && PartitionRow(rows[at[k]], device) && IsPartitionOf(parts[k], rows[at[k]], udev))
    && (forall j, k :: 0 <= j < k < |at| ==> at[j] < at[k])
    && (forall i :: 0 <= i < |rows| && PartitionRow(rows[i], device) ==> i in at)
  }

  /** The partitions are those of the partition rows, one for each, in order. */
  lemma {:induction false} PartitionsExactly(rows: seq<Info>, device: string, udev: map<string, Info>)
    returns (at: seq<nat>)
    requires Readable(rows, device, udev)
    ensures Accounts(rows, device, udev, PartitionsOf(rows, device, udev), at)
  {
    if rows == [] {
      at := [];
    } else {
      var n := |rows| - 1;
      var front, last := rows[..n], rows[n];
      RowStep(rows, n, device, udev);
      assert rows[..n + 1] == rows;
      var before := PartitionsExactly(front, device, udev);
      RowExactly(last, device);
      at := if IsPartition(last, device) then before + [n] else before;
      if IsPartition(last, device) {
        PartitionExactly(last, device, udev);
      }
      AccountsStep(rows, device, udev, PartitionsOf(front, device, udev), before);
    }
  }

  lemma AccountsStep(rows: seq<Info>, device: string, udev: map<string, Info>, parts: seq<Partition>, at: seq<nat>)
    requires rows != [] && Accounts(rows[..|rows| - 1], device, udev, parts, at)
    ensures !PartitionRow(rows[|rows| - 1], device) ==> Accounts(rows, device, udev, parts + [], at)
    ensures forall p :: PartitionRow(rows[|rows| - 1], device) && IsPartitionOf(p, rows[|rows| - 1], udev) ==>
              Accounts(rows, device, udev, parts + [p], at + [|rows| - 1])
  {
    var n := |rows| - 1;
    var front := rows[..n];
    assert parts + [] == parts;
    assert forall i :: 0 <= i < n ==> front[i] == rows[i];
    assert forall i :: i in at + [n] <==> i in at || i == n;
  }

  /** The size of the device is that of its last row. */
  lemma {:induction false} DeviceSizeExactly(rows: seq<Info>, device: string, udev: map<string, Info>, k: nat)
    requires Readable(rows, device, udev)
    requires k < |rows| && Says(rows[k], "NAME", device)
    requires forall j :: k < j < |rows| ==> !Says(rows[j], "NAME", device)
    ensures exists size :: Says(rows[k], "SIZE", size) && ParseUint(size) == Some(DeviceSize(rows, device))
  {
    var n := |rows| - 1;
    RowExactly(rows[n], device);
    if k == n {
      GetSays(rows[n], "SIZE");
      assert rows[n] in rows;
    } else {
      var front := rows[..n];
      assert forall p :: p in front ==> p in rows;
      DeviceSizeExactly(front, device, udev, k);
    }
  }

  lemma {:induction false} NoDeviceRow(rows: seq<Info>, device: string)
    requires forall j :: 0 <= j < |rows| ==> !Says(rows[j], "NAME", device)
    ensures DeviceSize(rows, device) == 0
  {
    if rows == [] {
    } else {
      RowExactly(rows[|rows| - 1], device);
      NoDeviceRow(rows[..|rows| - 1], device);
    }
  }

  function TotalSize(parts: seq<Partition>): nat {
    if parts == [] then 0 else TotalSize(parts[..|parts| - 1]) + parts[|parts| - 1].size
  }

  function Rows(lines: seq<string>): seq<Info> {
    seq(|lines|, i requires 0 <= i < |lines| => ParseLine(lines[i]))
  }

  /** One partition row, with its udev record. */
  method ReadPartition(props: Info, device: string, udev: map<string, Info>) returns (r: Option<Partition>)
    requires IsPartition(props, device)
    ensures r == if Readable([props], device, udev) then Some(PartitionOf(props, udev)) else None
  {
    var name := Get(props, "NAME");
    var size := ParseUint(Get(props, "SIZE"));
    if size.None? || name !in udev {
      assert props in [props];
      return None;
    }
    var info := udev[name];
    var p := Partition(name, size.value, "", "");
    if "PARTNAME" in info {
      p := p.(partLabel := info["PARTNAME"]);
    }
    if "ID_PART_ENTRY_NAME" in info {
      p := p.(partLabel := info["ID_PART_ENTRY_NAME"]);
    }
    if "ID_FS_TYPE" in info {
      p := p.(filesystem := info["ID_FS_TYPE"]);
    }
    r := Some(p);
  }

  lemma RowStep(rows: seq<Info>, n: nat, device: string, udev: map<string, Info>)
    requires n < |rows|
    ensures rows[..n + 1][..n] == rows[..n] && rows[..n + 1][n] == rows[n]
    ensures Readable(rows[..n + 1], device, udev) <==>
              Readable(rows[..n], device, udev) && Readable([rows[n]], device, udev)
    ensures Readable(rows, device, udev) ==> Readable(rows[..n + 1], device, udev)
    ensures PartitionsOf(rows[..n + 1], device, udev)
              == PartitionsOf(rows[..n], device, udev)
                 + if IsPartition(rows[n], device) then [PartitionOf(rows[n], udev)] else []
  {
  }

  lemma TotalStep(parts: seq<Partition>, p: Partition)
    ensures TotalSize(parts + [p]) == TotalSize(parts) + p.size
    ensures (TotalSize(parts) % WORD + p.size) % WORD == TotalSize(parts + [p]) % WORD
  {
  }

  /** The space is what is left of the device, up to a multiple of 2^64, and is exactly what is left
      when that is possible. */
  ghost predicate Rest(deviceSize: nat, total: nat, unused: nat) {
    && unused < WORD
    && (unused + total) % WORD == deviceSize
    && (unused + total == deviceSize <==> total <= deviceSize)
  }

  /** uint64 subtraction. */
  function Minus(a: nat, b: nat): nat {
    (a - b) % WORD
  }

  lemma Conserved(deviceSize: nat, total: nat)
    requires 0 < deviceSize < WORD
    ensures Rest(deviceSize, total, Minus(deviceSize, total % WORD))
  {
  }

  /** What one row adds to the account. */
  method AddRow(props: Info, device: string, udev: map<string, Info>,
                deviceSize: nat, totalPartitionSize: nat, partitions: seq<Partition>)
    returns (done: bool, size: nat, total: nat, parts: seq<Partition>)
    requires totalPartitionSize == TotalSize(partitions) % WORD && deviceSize < WORD
    ensures done == Readable([props], device, udev)
    ensures size < WORD && total == TotalSize(parts) % WORD
    ensures done ==> size == if IsDevice(props, device) then ParseUint(Get(props, "SIZE")).value else deviceSize
    ensures done ==> parts == partitions + if IsPartition(props, device) then [PartitionOf(props, udev)] else []
  {
    size, total, parts := deviceSize, totalPartitionSize, partitions;
    assert forall p :: p in [props] <==> p == props;
    if Get(props, "NAME") == device {
      var number := ParseUint(Get(props, "SIZE"));
      done := number.Some?;
      if done {
        size := number.value;
      }
    } else if Get(props, "PKNAME") == device && Get(props, "TYPE") == PART_TYPE {
      var p := ReadPartition(props, device, udev);
      done := p.Some?;
      if done {
        TotalStep(partitions, p.value);
        total := (totalPartitionSize + p.value.size) % WORD;
        parts := partitions + [p.value];
      }
    } else {
      done := true;
    }
  }

  /** The loop over the rows of the listing. */
  method Account(device: string, partInfo: seq<string>, udev: map<string, Info>)
    returns (done: bool, deviceSize: nat, totalPartitionSize: nat, partitions: seq<Partition>)
    ensures done <==> Readable(Rows(partInfo), device, udev)
    ensures done ==> partitions == PartitionsOf(Rows(partInfo), device, udev)
    ensures done ==> deviceSize == DeviceSize(Rows(partInfo), device) < WORD
    ensures done ==> totalPartitionSize == TotalSize(partitions) % WORD
  {
    ghost var rows := Rows(partInfo);
    deviceSize, totalPartitionSize, partitions := 0, 0, [];
    for i := 0 to |partInfo|
      invariant Readable(rows[..i], device, udev)
      invariant deviceSize == DeviceSize(rows[..i], device) < WORD
      invariant partitions == PartitionsOf(rows[..i], device, udev)
      invariant totalPartitionSize == TotalSize(partitions) % WORD
    {
      RowStep(rows, i, device, udev);
      var props := ParseKeyValuePairString(partInfo[i]);
      assert props == rows[i];
      done, deviceSize, totalPartitionSize, partitions :=
        AddRow(props, device, udev, deviceSize, totalPartitionSize, partitions);
      if !done {
        return;
      }
    }
    assert rows[..|partInfo|] == rows;
    done := true;
  }

  /** The space that no partition takes makes up the rest of the device modulo 2^64, and exactly the
      rest when the partitions fit. */
  method GetDevicePartitions(device: string, output: string, udev: map<string, Info>)
    returns (done: bool, partitions: seq<Partition>, unusedSpace: nat)
    ensures done <==> Readable(Rows(Split(output, '\n')), device, udev)
    ensures done ==> partitions == PartitionsOf(Rows(Split(output, '\n')), device, udev)
    ensures done && DeviceSize(Rows(Split(output, '\n')), device) == 0 ==> unusedSpace == 0
    ensures done && DeviceSize(Rows(Split(output, '\n')), device) > 0 ==>
              Rest(DeviceSize(Rows(Split(output, '\n')), device), TotalSize(partitions), unusedSpace)
    ensures !done ==> partitions == [] && unusedSpace == 0
  {
    var deviceSize, totalPartitionSize;
    done, deviceSize, totalPartitionSize, partitions := Account(device, Split(output, '\n'), udev);
    unusedSpace := 0;
    if !done {
      partitions := [];
    } else if deviceSize > 0 {
      Conserved(deviceSize, TotalSize(partitions));
      unusedSpace := Minus(deviceSize, totalPartitionSize);
    }
  }
}

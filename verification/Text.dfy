/** The string functions of the Go library that the parsers use. */
module Text {

  /** strings.Split on a one-character separator. */
  function Split(s: string, sep: char): (r: seq<string>)
    ensures |r| >= 1
  {
    if s == "" then [""]
    else
      var rest := Split(s[1..], sep);
      if s[0] == sep then [""] + rest else [[s[0]] + rest[0]] + rest[1..]
  }

  function Join(parts: seq<string>, sep: char): string
    requires |parts| >= 1
  {
    if |parts| == 1 then parts[0] else parts[0] + [sep] + Join(parts[1..], sep)
  }

  lemma {:induction false} SplitWhole(t: string, sep: char)
    requires sep !in t
    ensures Split(t, sep) == [t]
  {
    if t == "" {
    } else {
      SplitWhole(t[1..], sep);
      assert [t[0]] + t[1..] == t;
    }
  }

  lemma {:induction false} SplitFirst(t: string, rest: string, sep: char)
    requires sep !in t
    ensures Split(t + [sep] + rest, sep) == [t] + Split(rest, sep)
  {
    var s := t + [sep] + rest;
    if t == "" {
      assert s[1..] == rest;
    } else {
      SplitFirst(t[1..], rest, sep);
      assert s[1..] == t[1..] + [sep] + rest;
      assert [t[0]] + t[1..] == t;
    }
  }

  /** Splitting undoes joining when no part contains the separator. */
  lemma {:induction false} SplitJoined(parts: seq<string>, sep: char)
    requires |parts| >= 1 && forall p :: p in parts ==> sep !in p
    ensures Split(Join(parts, sep), sep) == parts
  {
    if |parts| == 1 {
      SplitWhole(parts[0], sep);
    } else {
      SplitJoined(parts[1..], sep);
      SplitFirst(parts[0], Join(parts[1..], sep), sep);
    }
  }

  /** Joining undoes splitting, and no part holds the separator. */
  lemma {:induction false} JoinedSplit(s: string, sep: char)
    ensures Join(Split(s, sep), sep) == s
    ensures forall p :: p in Split(s, sep) ==> sep !in p
  {
    if s == "" {
    } else {
      var rest := Split(s[1..], sep);
      JoinedSplit(s[1..], sep);
      assert [s[0]] + s[1..] == s;
      assert rest == [rest[0]] + rest[1..];
      if s[0] == sep {
        assert Join([""] + rest, sep) == "" + [sep] + Join(rest, sep);
      } else {
        JoinFirst([s[0]], rest, sep);
      }
    }
  }

  lemma JoinFirst(prefix: string, parts: seq<string>, sep: char)
    requires |parts| >= 1
    ensures Join([prefix + parts[0]] + parts[1..], sep) == prefix + Join(parts, sep)
  {
    var more := [prefix + parts[0]] + parts[1..];
    if |parts| > 1 {
      assert more[1..] == parts[1..];
      assert prefix + parts[0] + [sep] + Join(parts[1..], sep) == prefix + (parts[0] + [sep] + Join(parts[1..], sep));
    }
  }

  /** The white space of the unicode package. */
  predicate IsSpace(c: char) {
    || c == ' ' || '\t' <= c <= '\r' || c == '\U{0085}' || c == '\U{00A0}'
    || c == '\U{1680}' || '\U{2000}' <= c <= '\U{200A}' || c == '\U{2028}' || c == '\U{2029}'
    || c == '\U{202F}' || c == '\U{205F}' || c == '\U{3000}'
  }

  function TrimLeft(s: string, cut: char -> bool): string {
    if s != "" && cut(s[0]) then TrimLeft(s[1..], cut) else s
  }

  function TrimRight(s: string, cut: char -> bool): string {
    if s != "" && cut(s[|s| - 1]) then TrimRight(s[..|s| - 1], cut) else s
  }

  function Trim(s: string, cut: char -> bool): string {
    TrimRight(TrimLeft(s, cut), cut)
  }

  lemma {:induction false} TrimLeftExactly(s: string, cut: char -> bool) returns (i: nat)
    ensures i <= |s| && TrimLeft(s, cut) == s[i..] && forall k :: 0 <= k < i ==> cut(s[k])
    ensures TrimLeft(s, cut) != "" ==> !cut(TrimLeft(s, cut)[0])
  {
    if s != "" && cut(s[0]) {
      i := TrimLeftExactly(s[1..], cut);
      i := i + 1;
      assert forall k :: 0 < k < i ==> s[k] == s[1..][k - 1];
    } else {
      i := 0;
    }
  }

  lemma {:induction false} TrimRightExactly(s: string, cut: char -> bool) returns (j: nat)
    ensures j <= |s| && TrimRight(s, cut) == s[..j] && forall k :: j <= k < |s| ==> cut(s[k])
    ensures TrimRight(s, cut) != "" ==> !cut(TrimRight(s, cut)[|TrimRight(s, cut)| - 1])
  {
    if s != "" && cut(s[|s| - 1]) {
      j := TrimRightExactly(s[..|s| - 1], cut);
      assert forall k :: j <= k < |s| - 1 ==> s[k] == s[..|s| - 1][k];
    } else {
      j := |s|;
    }
  }

  /** Trimming cuts from both ends what is to be cut, and no more. */
  lemma TrimExactly(s: string, cut: char -> bool) returns (i: nat, j: nat)
    ensures i <= j <= |s| && Trim(s, cut) == s[i..j]
    ensures (forall k :: 0 <= k < i ==> cut(s[k])) && (forall k :: j <= k < |s| ==> cut(s[k]))
    ensures i < j ==> !cut(s[i]) && !cut(s[j - 1])
  {
    i := TrimLeftExactly(s, cut);
    var t := s[i..];
    var n := TrimRightExactly(t, cut);
    j := i + n;
    assert s[i..j] == t[..n];
    assert forall k :: n <= k < |t| ==> t[k] == s[i + k];
    assert forall k :: j <= k < |s| ==> s[k] == t[k - i];
  }

  function Lower(c: char): char {
    if 'A' <= c <= 'Z' then (c as int + 32) as char else c
  }

  function Upper(c: char): char {
    if 'a' <= c <= 'z' then (c as int - 32) as char else c
  }

  /** strings.ToLower and strings.ToUpper on ASCII letters. */
  function ToLower(s: string): string {
    seq(|s|, i requires 0 <= i < |s| => Lower(s[i]))
  }

  function ToUpper(s: string): string {
    seq(|s|, i requires 0 <= i < |s| => Upper(s[i]))
  }

  /** Upper-case ASCII letters become lower-case ones, and nothing else changes. */
  lemma LowerExactly()
    ensures ToLower("ABCDEFGHIJKLMNOPQRSTUVWXYZ") == "abcdefghijklmnopqrstuvwxyz"
    ensures forall c :: !('A' <= c <= 'Z') ==> Lower(c) == c
  {
  }

  /** Lower-case ASCII letters become upper-case ones, and nothing else changes. */
  lemma UpperExactly()
    ensures ToUpper("abcdefghijklmnopqrstuvwxyz") == "ABCDEFGHIJKLMNOPQRSTUVWXYZ"
    ensures forall c :: !('a' <= c <= 'z') ==> Upper(c) == c
  {
  }
}

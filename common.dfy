/** Values shared by the backend agents: result wrappers, the retrieved-document
    record, and the ASCII string operations the agents use (lower-casing,
    substring tests, joining, stripping). */
module Common {

  datatype Option<T> = None | Some(value: T)

  datatype Result<T, E> = Ok(value: T) | Err(error: E)

  /** What `doc.get(key)` sees in a document dictionary: the key is absent,
      present with the value None, or present with a string. */
  datatype Field = Absent | Null | Text(s: string)

  /** A retrieved document. The five keys the agents read are explicit; every
      other key of the dictionary (score, ...) is kept in `extra`, so that two
      documents are equal exactly when their dictionaries are. */
  datatype Doc = Doc(
    id: Field,
    title: Field,
    content: Field,
    source: Field,
    category: Field,
    extra: map<string, string>)

  /** Python truthiness of a field value: only a non-empty string is truthy. */
  predicate Truthy(f: Field) {
    f.Text? && f.s != ""
  }

  /** `doc.get(key, default)`: the default replaces only an absent key. */
  function GetOr(f: Field, default: string): (r: Field)
    ensures r.Absent? == false
    ensures f.Text? ==> r == f
  {
    if f.Absent? then Text(default) else f
  }

  /** `str(v)` of a looked-up value, as an f-string renders it. */
  function Show(f: Field): string {
    match f
    case Text(s) => s
    case _ => "None"
  }

  /** The intents both the escalation agent and the validator treat as high risk. */
  const HighRiskIntents: seq<string> := ["document_verification", "escalation_needed"]

  // ---------------------------------------------------------------------------
  // ASCII string operations

  function LowerChar(c: char): char {
    if 'A' <= c <= 'Z' then (c as int + 32) as char else c
  }

  function UpperChar(c: char): char {
    if 'a' <= c <= 'z' then (c as int - 32) as char else c
  }

  /** `s.lower()` over ASCII letters. */
  function Lower(s: string): (r: string)
    ensures |r| == |s|
    ensures forall i :: 0 <= i < |s| ==> r[i] == LowerChar(s[i])
  {
    seq(|s|, i requires 0 <= i < |s| => LowerChar(s[i]))
  }

  /** `s.upper()` over ASCII letters. */
  function Upper(s: string): (r: string)
    ensures |r| == |s|
    ensures forall i :: 0 <= i < |s| ==> r[i] == UpperChar(s[i])
  {
    seq(|s|, i requires 0 <= i < |s| => UpperChar(s[i]))
  }

  /** `needle` occurs in `hay` starting at index `i`. */
  predicate OccursAt(hay: string, needle: string, i: int) {
    0 <= i <= |hay| - |needle| && hay[i..i + |needle|] == needle
  }

  /** Python's `needle in hay` for strings. */
  predicate Contains(hay: string, needle: string) {
    exists i :: 0 <= i <= |hay| && OccursAt(hay, needle, i)
  }

  predicate EndsWith(s: string, suffix: string) {
    |suffix| <= |s| && s[|s| - |suffix|..] == suffix
  }

  /** `sep.join(parts)`. */
  function Join(sep: string, parts: seq<string>): string
    decreases |parts|
  {
    if |parts| == 0 then ""
    else if |parts| == 1 then parts[0]
    else Join(sep, parts[..|parts| - 1]) + sep + parts[|parts| - 1]
  }

  /** A join of parts that are all non-empty is empty exactly when there are no parts. */
  lemma {:induction false} JoinEmptyIff(sep: string, parts: seq<string>)
    requires forall i :: 0 <= i < |parts| ==> parts[i] != ""
    ensures Join(sep, parts) == "" <==> parts == []
    decreases |parts|
  {
    if |parts| > 1 {
      JoinEmptyIff(sep, parts[..|parts| - 1]);
      assert parts[|parts| - 1] != "";
    } else if |parts| == 1 {
      assert parts[0] != "";
    }
  }

  /** The ASCII characters Python's `str.strip()` removes: space, tab, line
      feed, vertical tab, form feed, carriage return and the four separators
      0x1C to 0x1F. */
  predicate IsSpace(c: char) {
    c == ' ' || ('\t' <= c <= '\r') || ('\U{001C}' <= c <= '\U{001F}')
  }

  function StripLeft(s: string): (r: string)
    ensures |r| <= |s| && r == s[|s| - |r|..]
    ensures r != [] ==> !IsSpace(r[0])
    decreases |s|
  {
    if s != [] && IsSpace(s[0]) then StripLeft(s[1..]) else s
  }

  function StripRight(s: string): (r: string)
    ensures |r| <= |s| && r == s[..|r|]
    ensures r != [] ==> !IsSpace(r[|r| - 1])
    decreases |s|
  {
    if s != [] && IsSpace(s[|s| - 1]) then StripRight(s[..|s| - 1]) else s
  }

  /** `s.strip()`: a contiguous piece of `s` with no whitespace at either end;
      it is empty only when `s` is all whitespace. */
  function Strip(s: string): (r: string)
    ensures r == "" <==> forall i :: 0 <= i < |s| ==> IsSpace(s[i])
    ensures r != [] ==> !IsSpace(r[0]) && !IsSpace(r[|r| - 1])
  {
    StripAllSpace(s);
    StripEnds(s);
    StripRight(StripLeft(s))
  }

  lemma StripEnds(s: string)
    ensures var r := StripRight(StripLeft(s));
      r != [] ==> !IsSpace(r[0]) && !IsSpace(r[|r| - 1])
  {
    var l := StripLeft(s);
    var r := StripRight(l);
    if r != [] {
      assert r == l[..|r|];
      assert r[0] == l[0];
    }
  }

  lemma {:induction false} StripLeftEmpty(s: string)
    ensures StripLeft(s) == "" <==> forall i :: 0 <= i < |s| ==> IsSpace(s[i])
    decreases |s|
  {
    if s != [] && IsSpace(s[0]) {
      StripLeftEmpty(s[1..]);
      assert forall i :: 1 <= i < |s| ==> s[i] == s[1..][i - 1];
    }
  }

  lemma {:induction false} StripRightEmpty(s: string)
    ensures StripRight(s) == "" <==> forall i :: 0 <= i < |s| ==> IsSpace(s[i])
    decreases |s|
  {
    if s != [] && IsSpace(s[|s| - 1]) {
      StripRightEmpty(s[..|s| - 1]);
      assert forall i :: 0 <= i < |s| - 1 ==> s[i] == s[..|s| - 1][i];
    }
  }

  lemma StripAllSpace(s: string)
    ensures StripRight(StripLeft(s)) == "" <==> forall i :: 0 <= i < |s| ==> IsSpace(s[i])
  {
    StripLeftEmpty(s);
    var l := StripLeft(s);
    StripRightEmpty(l);
    if l != [] {
      assert !IsSpace(l[0]);
      assert l == s[|s| - |l|..];
      assert s[|s| - |l|] == l[0];
    }
  }
}

/** String operations the program relies on: searching, splitting, joining and decimal numerals. */
module Text {

  datatype Option<+T> = None | Some(value: T)

  // ---------------------------------------------------------------- decimal numerals

  predicate IsDigit(c: char) { '0' <= c <= '9' }

  predicate AllDigits(s: string) { forall i | 0 <= i < |s| :: IsDigit(s[i]) }

  function DigitValue(c: char): (d: nat)
    requires IsDigit(c)
    ensures d < 10
  {
    c as int - '0' as int
  }

  function DigitChar(d: nat): (c: char)
    requires d < 10
    ensures IsDigit(c) && DigitValue(c) == d
  {
    '0' + d as char
  }

  /** What `Number(s)` yields on a string of decimal digits. */
  function DecimalValue(s: string): nat
    requires AllDigits(s)
  {
    if s == "" then 0 else DecimalValue(s[..|s| - 1]) * 10 + DigitValue(s[|s| - 1])
  }

  /** What `String(n)` yields. */
  function Decimal(n: nat): (s: string)
    ensures AllDigits(s) && |s| > 0 && DecimalValue(s) == n
    ensures if n < 10 then |s| == 1 else s[0] != '0'
  {
    if n < 10 then
      var s := [DigitChar(n)];
      assert DecimalValue(s) == DecimalValue("") * 10 + DigitValue(s[0]);
      s
    else
      var t := Decimal(n / 10);
      var s := t + [DigitChar(n % 10)];
      assert s[..|s| - 1] == t;
      s
  }

  /** `String(n).padStart(2, '0')` */
  function TwoDigits(n: nat): (s: string)
    requires n < 100
    ensures |s| == 2 && AllDigits(s) && DecimalValue(s) == n
  {
    var s := [DigitChar(n / 10), DigitChar(n % 10)];
    TwoDigitValue(s);
    s
  }

  lemma TwoDigitValue(s: string)
    requires |s| == 2 && AllDigits(s)
    ensures DecimalValue(s) == DigitValue(s[0]) * 10 + DigitValue(s[1])
  {
    assert s[..1] == [s[0]];
    assert DecimalValue(s[..1]) == DecimalValue(s[..1][..0]) * 10 + DigitValue(s[0]);
  }

  // ---------------------------------------------------------------- searching and splitting

  predicate OccursAt(s: string, k: nat, sep: string) { k + |sep| <= |s| && s[k..k + |sep|] == sep }

  /** `s.indexOf(sep)`, with None for -1. */
  function IndexOf(s: string, sep: string): (r: Option<nat>)
    ensures r.Some? ==> OccursAt(s, r.value, sep) && forall j: nat :: j < r.value ==> !OccursAt(s, j, sep)
    ensures r.None? ==> forall j: nat :: !OccursAt(s, j, sep)
  {
    if OccursAt(s, 0, sep) then Some(0)
    else if s == "" then None
    else
      var r := IndexOf(s[1..], sep);
      assert forall j: nat :: j > 0 && OccursAt(s, j, sep) ==> OccursAt(s[1..], j - 1, sep);
      if r.None? then None else Some(r.value + 1)
  }

  /** The first occurrence is the only position with IndexOf's two properties. */
  lemma IndexOfUnique(s: string, sep: string, k: nat)
    requires OccursAt(s, k, sep) && forall j: nat :: j < k ==> !OccursAt(s, j, sep)
    ensures IndexOf(s, sep) == Some(k)
  {
  }

  /** `s.split(sep)` */
  function Split(s: string, sep: string): (parts: seq<string>)
    requires sep != ""
    ensures |parts| >= 1
    decreases |s|
  {
    match IndexOf(s, sep)
    case None => [s]
    case Some(i) => [s[..i]] + Split(s[i + |sep|..], sep)
  }

  /** `parts.join(sep)` */
  function Join(parts: seq<string>, sep: string): string
  {
    if |parts| == 0 then ""
    else if |parts| == 1 then parts[0]
    else parts[0] + sep + Join(parts[1..], sep)
  }

  ghost predicate Free(s: string, c: char) { forall i | 0 <= i < |s| :: s[i] != c }

  lemma AtChar(s: string, c: char)
    ensures forall j: nat :: OccursAt(s, j, [c]) <==> j < |s| && s[j] == c
  {
    forall j: nat | j < |s| ensures s[j..j + 1] == [s[j]] {
    }
  }

  lemma FirstChar(head: string, c: char, rest: string)
    requires Free(head, c)
    ensures IndexOf(head + [c] + rest, [c]) == Some(|head|)
  {
    AtChar(head + [c] + rest, c);
    IndexOfUnique(head + [c] + rest, [c], |head|);
  }

  lemma NoChar(s: string, c: char)
    requires Free(s, c)
    ensures IndexOf(s, [c]) == None
  {
    AtChar(s, c);
  }

  lemma SplitFirst(head: string, c: char, rest: string)
    requires Free(head, c)
    ensures Split(head + [c] + rest, [c]) == [head] + Split(rest, [c])
  {
    FirstChar(head, c, rest);
    var s := head + [c] + rest;
    assert s[..|head|] == head && s[|head| + 1..] == rest;
  }

  /** Splitting undoes joining when no part contains the separator. */
  lemma {:induction false} SplitJoin(parts: seq<string>, c: char)
    requires |parts| >= 1
    requires forall p | p in parts :: Free(p, c)
    ensures Split(Join(parts, [c]), [c]) == parts
  {
    if |parts| == 1 {
      NoChar(parts[0], c);
      assert parts[0] in parts;
    } else {
      var head, rest := parts[0], Join(parts[1..], [c]);
      assert head in parts && forall p | p in parts[1..] :: p in parts;
      SplitFirst(head, c, rest);
      SplitJoin(parts[1..], c);
    }
  }

  // ---------------------------------------------------------------- names in generated configuration

  predicate IsNameChar(c: char) { 'A' <= c <= 'Z' || 'a' <= c <= 'z' || '0' <= c <= '9' || c == '_' }

  /** Every character that is unsafe in an Asterisk name becomes an underscore. */
  function Sanitize(id: string): (name: string)
    ensures |name| == |id|
    ensures forall i | 0 <= i < |id| :: name[i] == (if IsNameChar(id[i]) then id[i] else '_')
  {
    if id == "" then ""
    else
      var t := Sanitize(id[1..]);
      var name := [if IsNameChar(id[0]) then id[0] else '_'] + t;
      assert forall i | 0 < i < |id| :: name[i] == t[i - 1] && id[i] == id[1..][i - 1];
      name
  }
}

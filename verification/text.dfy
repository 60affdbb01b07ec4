/**
  String operations the two back ends use: trimming (Go `strings.TrimSpace`, Python
  `str.strip`), lower-casing, substring search, splitting on a separator, the first
  `:` cut of `strings.SplitN(line, ":", 2)`, case-insensitive equality and suffix tests.
  Only `A`..`Z` have a lower-case form.
*/
module Text {

  import opened Wrappers

  /** Whose whitespace a trim removes. */
  datatype Spaces = GoSpaces | PySpaces

  /**
    Go `unicode.IsSpace` (tab to carriage return, space, U+0085, U+00A0 and the other
    Unicode white space); Python `str.isspace` adds the separators U+001C..U+001F.
  */
  predicate IsSpace(sp: Spaces, c: char) {
    c == ' ' || '\t' <= c <= '\r' || c == '\U{85}' || c == '\U{A0}' || c == '\U{1680}'
    || '\U{2000}' <= c <= '\U{200A}' || c == '\U{2028}' || c == '\U{2029}' || c == '\U{202F}'
    || c == '\U{205F}' || c == '\U{3000}'
    || (sp == PySpaces && '\U{1C}' <= c <= '\U{1F}')
  }

  /** `sub` stands in `s` at position `i`. */
  predicate OccursAt(s: string, sub: string, i: nat) {
    i + |sub| <= |s| && s[i..i + |sub|] == sub
  }

  /** Drops leading whitespace. */
  function TrimLeft(sp: Spaces, s: string): string {
    if s != [] && IsSpace(sp, s[0]) then TrimLeft(sp, s[1..]) else s
  }

  /** What `TrimLeft` drops is all space, and what it keeps is a suffix starting with a non-space. */
  lemma {:induction false} TrimLeftSpec(sp: Spaces, s: string)
    ensures |TrimLeft(sp, s)| <= |s|
    ensures TrimLeft(sp, s) == s[|s| - |TrimLeft(sp, s)|..]
    ensures TrimLeft(sp, s) == [] || !IsSpace(sp, TrimLeft(sp, s)[0])
    ensures forall i :: 0 <= i < |s| - |TrimLeft(sp, s)| ==> IsSpace(sp, s[i])
  {
    if s != [] && IsSpace(sp, s[0]) {
      var t := s[1..];
      TrimLeftSpec(sp, t);
      var r := TrimLeft(sp, t);
      assert TrimLeft(sp, s) == r;
      assert t[|t| - |r|..] == s[|s| - |r|..];
      forall i | 0 <= i < |s| - |r| ensures IsSpace(sp, s[i]) {
        if i > 0 {
          assert s[i] == t[i - 1];
        }
      }
    }
  }

  /** Drops trailing whitespace. */
  function TrimRight(sp: Spaces, s: string): string {
    if s != [] && IsSpace(sp, s[|s| - 1]) then TrimRight(sp, s[..|s| - 1]) else s
  }

  /** What `TrimRight` drops is all space, and what it keeps is a prefix ending in a non-space. */
  lemma {:induction false} TrimRightSpec(sp: Spaces, s: string)
    ensures |TrimRight(sp, s)| <= |s|
    ensures TrimRight(sp, s) == s[..|TrimRight(sp, s)|]
    ensures TrimRight(sp, s) == [] || !IsSpace(sp, TrimRight(sp, s)[|TrimRight(sp, s)| - 1])
    ensures forall i :: |TrimRight(sp, s)| <= i < |s| ==> IsSpace(sp, s[i])
  {
    if s != [] && IsSpace(sp, s[|s| - 1]) {
      var t := s[..|s| - 1];
      TrimRightSpec(sp, t);
      var r := TrimRight(sp, t);
      assert TrimRight(sp, s) == r;
      assert t[..|r|] == s[..|r|];
      forall i | |r| <= i < |s| ensures IsSpace(sp, s[i]) {
        if i < |s| - 1 {
          assert s[i] == t[i];
        }
      }
    }
  }

  function TrimBy(sp: Spaces, s: string): string {
    TrimRight(sp, TrimLeft(sp, s))
  }

  /** Go `strings.TrimSpace`. */
  function Trim(s: string): string {
    TrimBy(GoSpaces, s)
  }

  /** Python `str.strip()`. */
  function Strip(s: string): string {
    TrimBy(PySpaces, s)
  }

  /**
    A trim keeps the middle of the string: the result stands in `s` at some position,
    everything before and after it is space, and it neither starts nor ends with space.
  */
  lemma TrimSpec(sp: Spaces, s: string)
    ensures var r := TrimBy(sp, s); r == [] || (!IsSpace(sp, r[0]) && !IsSpace(sp, r[|r| - 1]))
    ensures var r := TrimBy(sp, s);
      exists a: nat :: OccursAt(s, r, a)
        && (forall i :: 0 <= i < a ==> IsSpace(sp, s[i]))
        && (forall i :: a + |r| <= i < |s| ==> IsSpace(sp, s[i]))
  {
    var l := TrimLeft(sp, s);
    var r := TrimRight(sp, l);
    TrimLeftSpec(sp, s);
    TrimRightSpec(sp, l);
    var a := |s| - |l|;
    assert OccursAt(s, r, a) by {
      assert s[a..a + |r|] == l[..|r|];
    }
    forall i | a + |r| <= i < |s| ensures IsSpace(sp, s[i]) {
      assert s[i] == l[i - a];
    }
  }

  /** Trimming twice is trimming once. */
  lemma TrimIdempotent(sp: Spaces, s: string)
    ensures TrimBy(sp, TrimBy(sp, s)) == TrimBy(sp, s)
  {
    var t := TrimBy(sp, s);
    TrimSpec(sp, s);
    TrimLeftSpec(sp, t);
    assert TrimLeft(sp, t) == t;
    TrimRightSpec(sp, t);
    assert TrimRight(sp, t) == t;
  }

  /** The four separators that Python strips and Go keeps. */
  predicate IsSeparator(c: char) {
    '\U{1C}' <= c <= '\U{1F}'
  }

  /** Python and Go trims agree on a text holding none of the four separators. */
  lemma {:induction false} StripAgreesWithTrim(s: string)
    requires forall i :: 0 <= i < |s| ==> !IsSeparator(s[i])
    ensures Strip(s) == Trim(s)
  {
    var l := TrimLeft(PySpaces, s);
    TrimLeftSame(s);
    TrimLeftSpec(PySpaces, s);
    assert forall i :: 0 <= i < |l| ==> l[i] == s[|s| - |l| + i];
    TrimRightSame(l);
  }

  lemma {:induction false} TrimLeftSame(s: string)
    requires forall i :: 0 <= i < |s| ==> !IsSeparator(s[i])
    ensures TrimLeft(PySpaces, s) == TrimLeft(GoSpaces, s)
  {
    if s != [] {
      assert IsSpace(PySpaces, s[0]) == IsSpace(GoSpaces, s[0]);
      assert forall i :: 0 <= i < |s[1..]| ==> s[1..][i] == s[i + 1];
      TrimLeftSame(s[1..]);
    }
  }

  lemma {:induction false} TrimRightSame(s: string)
    requires forall i :: 0 <= i < |s| ==> !IsSeparator(s[i])
    ensures TrimRight(PySpaces, s) == TrimRight(GoSpaces, s)
  {
    if s != [] {
      assert IsSpace(PySpaces, s[|s| - 1]) == IsSpace(GoSpaces, s[|s| - 1]);
      assert forall i :: 0 <= i < |s[..|s| - 1]| ==> s[..|s| - 1][i] == s[i];
      TrimRightSame(s[..|s| - 1]);
    }
  }

  /** Python strips a leading separator that Go keeps. */
  lemma SeparatorStripped(s: string)
    requires s != [] && IsSeparator(s[0])
    ensures |Strip(s)| < |s|
    ensures Trim(s) == [] || Trim(s)[0] == s[0]
  {
    TrimLeftSpec(PySpaces, s);
    TrimRightSpec(PySpaces, TrimLeft(PySpaces, s));
    TrimLeftSpec(GoSpaces, s);
    TrimRightSpec(GoSpaces, TrimLeft(GoSpaces, s));
  }

  function LowerChar(c: char): char {
    if 'A' <= c <= 'Z' then (c as int + 32) as char else c
  }

  /** Go `strings.ToLower` and Python `str.lower()` restricted to ASCII letters. */
  function ToLower(s: string): (r: string)
    ensures |r| == |s|
    ensures forall i :: 0 <= i < |s| ==> r[i] == LowerChar(s[i])
  {
    if s == [] then [] else [LowerChar(s[0])] + ToLower(s[1..])
  }

  /** Lower-casing a lower-cased string changes nothing. */
  lemma {:induction false} ToLowerIdempotent(s: string)
    ensures ToLower(ToLower(s)) == ToLower(s)
  {
    var once := ToLower(s);
    var twice := ToLower(once);
    assert |twice| == |once|;
    forall i | 0 <= i < |once|
      ensures twice[i] == once[i]
    {
      assert once[i] == LowerChar(s[i]);
    }
  }

  /** Go `strings.Contains(s, sub)` and Python `sub in s`. */
  predicate Contains(s: string, sub: string) {
    exists i: nat :: i <= |s| && OccursAt(s, sub, i)
  }

  /** A string containing `p + q` contains `q`. */
  lemma ContainsTail(s: string, p: string, q: string)
    requires Contains(s, p + q)
    ensures Contains(s, q)
  {
    var i: nat :| i <= |s| && OccursAt(s, p + q, i);
    var j: nat := i + |p|;
    assert s[j..j + |q|] == (p + q)[|p|..] == q;
    assert OccursAt(s, q, j);
  }

  /** A string containing `p + q` contains `p`. */
  lemma ContainsHead(s: string, p: string, q: string)
    requires Contains(s, p + q)
    ensures Contains(s, p)
  {
    var i: nat :| i <= |s| && OccursAt(s, p + q, i);
    assert s[i..i + |p|] == (p + q)[..|p|] == p;
    assert OccursAt(s, p, i);
  }

  /**
    Python `s.replace(pat, "")` for a non-empty `pat`: the occurrences found scanning
    left to right, without overlaps, are removed.
  */
  function RemoveAll(s: string, pat: string): string
    requires pat != []
    decreases |s|
  {
    if |s| < |pat| then s
    else if s[..|pat|] == pat then RemoveAll(s[|pat|..], pat)
    else [s[0]] + RemoveAll(s[1..], pat)
  }

  /** Removing a pattern that does not occur leaves the string as it is. */
  lemma {:induction false} RemoveAllAbsent(s: string, pat: string)
    requires pat != [] && !Contains(s, pat)
    ensures RemoveAll(s, pat) == s
    decreases |s|
  {
    if |s| >= |pat| {
      assert !OccursAt(s, pat, 0);
      var t := s[1..];
      forall i: nat | i <= |t| ensures !OccursAt(t, pat, i) {
        assert !OccursAt(s, pat, i + 1);
        if i + |pat| <= |t| {
          assert t[i..i + |pat|] == s[i + 1..i + 1 + |pat|];
        }
      }
      RemoveAllAbsent(t, pat);
    }
  }

  /** Position of the first `c` in `s`, or `|s|` when there is none. */
  function FirstIndex(s: string, c: char): (r: nat)
    ensures r <= |s|
    ensures r < |s| ==> s[r] == c
    ensures forall i :: 0 <= i < r ==> s[i] != c
  {
    if s == [] then 0
    else if s[0] == c then 0
    else 1 + FirstIndex(s[1..], c)
  }

  /** Concatenates the parts with `sep` between neighbours (Python `sep.join`, Go `strings.Join`). */
  function Join(parts: seq<string>, sep: char): string {
    if |parts| == 0 then ""
    else if |parts| == 1 then parts[0]
    else parts[0] + [sep] + Join(parts[1..], sep)
  }

  /**
    Go `strings.Split(s, sep)` for a one-character separator: the pieces between
    separators, always at least one (the empty string splits into `[""]`).
  */
  function Split(s: string, sep: char): (r: seq<string>)
    ensures |r| >= 1
    ensures forall k :: 0 <= k < |r| ==> sep !in r[k]
    ensures Join(r, sep) == s
    decreases |s|
  {
    var i := FirstIndex(s, sep);
    if i == |s| then [s]
    else
      var rest := Split(s[i + 1..], sep);
      assert s == s[..i] + [sep] + s[i + 1..];
      [s[..i]] + rest
  }

  /**
    `strings.SplitN(line, ":", 2)` read as a cut: `None` when the line holds no `:`,
    otherwise the text before the FIRST `:` and everything after it, later `:` included.
  */
  function CutColon(line: string): (r: Option<(string, string)>)
    ensures r.None? <==> ':' !in line
    ensures r.Some? ==> ':' !in r.value.0 && line == r.value.0 + ":" + r.value.1
  {
    var i := FirstIndex(line, ':');
    if i == |line| then None
    else
      assert line == line[..i] + ":" + line[i + 1..];
      Some((line[..i], line[i + 1..]))
  }

  /** Cutting `k + ":" + v`, where `k` holds no colon, gives back `k` and `v` unchanged. */
  lemma CutColonInverse(k: string, v: string)
    requires ':' !in k
    ensures CutColon(k + ":" + v) == Some((k, v))
  {
    var line := k + ":" + v;
    var i := FirstIndex(line, ':');
    assert line[|k|] == ':';
    assert forall j :: 0 <= j < |k| ==> line[j] == k[j];
    assert i == |k|;
    assert line[..i] == k;
    assert line[i + 1..] == v;
  }

  /** Go `strings.EqualFold` on ASCII text. */
  predicate EqualFold(a: string, b: string) {
    ToLower(a) == ToLower(b)
  }

  /** Go `strings.HasSuffix`. */
  predicate HasSuffix(s: string, suffix: string) {
    |suffix| <= |s| && s[|s| - |suffix|..] == suffix
  }

  /** Decimal digits of `n`, most significant first, no leading zeros. */
  function Decimal(n: nat): (r: string)
    ensures |r| >= 1
    ensures forall i :: 0 <= i < |r| ==> '0' <= r[i] <= '9'
  {
    if n < 10 then [('0' as int + n) as char]
    else Decimal(n / 10) + [('0' as int + n % 10) as char]
  }

  /** Value of a string of decimal digits. */
  function DecimalValue(s: string): nat {
    if s == [] then 0
    else
      var d := s[|s| - 1] as int - '0' as int;
      DecimalValue(s[..|s| - 1]) * 10 + (if 0 <= d <= 9 then d else 0)
  }

  /** Reading back the digits of `n` gives `n`. */
  lemma {:induction false} DecimalRoundTrip(n: nat)
    ensures DecimalValue(Decimal(n)) == n
  {
    if n >= 10 {
      DecimalRoundTrip(n / 10);
      var s := Decimal(n);
      assert s[..|s| - 1] == Decimal(n / 10);
    }
  }
}

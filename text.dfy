/** The few pieces of Python's `str` that the core relies on: `strip`, `in`,
    `startswith`, `find`, `join`, `lower` and upper-casing one character. */
module Text {

  /** Python's `str.isspace` (and the regex class `\s`) for one character. */
  predicate IsSpace(c: char) {
    || '\t' <= c <= '\r'
    || '\U{1C}' <= c <= '\U{1F}'
    || c == ' ' || c == '\U{85}' || c == '\U{A0}' || c == '\U{1680}'
    || '\U{2000}' <= c <= '\U{200A}'
    || c == '\U{2028}' || c == '\U{2029}' || c == '\U{202F}' || c == '\U{205F}' || c == '\U{3000}'
  }

  function StripLeft(s: string): (r: string)
    ensures |r| <= |s| && r == s[|s| - |r|..]
    ensures r == [] || !IsSpace(r[0])
    ensures forall i :: 0 <= i < |s| - |r| ==> IsSpace(s[i])
  {
    if |s| > 0 && IsSpace(s[0]) then StripLeft(s[1..]) else s
  }

  function StripRight(s: string): (r: string)
    ensures |r| <= |s| && r == s[..|r|]
    ensures r == [] || !IsSpace(r[|r| - 1])
    ensures forall i :: |r| <= i < |s| ==> IsSpace(s[i])
  {
    if |s| > 0 && IsSpace(s[|s| - 1]) then StripRight(s[..|s| - 1]) else s
  }

  /** `t` occurs in `s` starting at index `k`. */
  predicate OccursAt(s: string, t: string, k: nat) {
    k + |t| <= |s| && s[k..k + |t|] == t
  }

  /** Python's `s.strip()`: the longest slice of `s` with no surrounding whitespace. */
  function Strip(s: string): (r: string)
    ensures OccursAt(s, r, |s| - |StripLeft(s)|)
    ensures r == [] || (!IsSpace(r[0]) && !IsSpace(r[|r| - 1]))
  {
    var l := StripLeft(s);
    var r := StripRight(l);
    assert r == s[|s| - |l|..][..|r|] == s[|s| - |l|..|s| - |l| + |r|];
    assert OccursAt(s, r, |s| - |l|);
    r
  }

  /** Every character of `Strip(s)` occurs in `s`. */
  lemma StripKeepsCharacters(s: string, c: char)
    requires c in Strip(s)
    ensures c in s
  {
    var r := Strip(s);
    var i := |s| - |StripLeft(s)|;
    var k :| 0 <= k < |r| && r[k] == c;
    assert s[i + k] == c;
  }

  /** A string without surrounding whitespace is left alone. */
  lemma StripOfUnpadded(s: string)
    requires s == [] || (!IsSpace(s[0]) && !IsSpace(s[|s| - 1]))
    ensures Strip(s) == s
  {
  }

  /** Trailing whitespace of `p + l` lies inside `l` when `l` starts with a
      non-space. */
  lemma {:induction false} StripRightOfSuffix(p: string, l: string)
    requires l != [] && !IsSpace(l[0])
    ensures StripRight(p + l) == p + StripRight(l)
    decreases |l|
  {
    if IsSpace(l[|l| - 1]) {
      var l' := l[..|l| - 1];
      assert (p + l)[..|p + l| - 1] == p + l';
      StripRightOfSuffix(p, l');
    }
  }

  lemma {:induction false} StripRightOfSpaces(s: string)
    requires forall i :: 0 <= i < |s| ==> IsSpace(s[i])
    ensures StripRight(s) == [] && Strip(s) == []
    decreases |s|
  {
    if s != [] {
      StripRightOfSpaces(s[..|s| - 1]);
    }
  }

  /** Right-stripping keeps the leading whitespace that `Strip` removes and
      nothing more. */
  lemma StripRightKeepsLead(s: string)
    ensures StripLeft(s) == [] ==> StripRight(s) == [] && Strip(s) == []
    ensures StripLeft(s) != [] ==> StripRight(s) == s[..|s| - |StripLeft(s)|] + Strip(s)
  {
    var l := StripLeft(s);
    var p := s[..|s| - |l|];
    assert s == p + l;
    if l == [] {
      StripRightOfSpaces(s);
    } else {
      StripRightOfSuffix(p, l);
    }
  }

  predicate AllSpaces(w: string) {
    forall i :: 0 <= i < |w| ==> IsSpace(w[i])
  }

  /** Leading whitespace is dropped by `StripLeft` and changes nothing else. */
  lemma {:induction false} StripLeftOfPadded(w: string, u: string)
    requires AllSpaces(w)
    ensures StripLeft(w + u) == StripLeft(u)
    decreases |w|
  {
    if w != [] {
      assert (w + u)[1..] == w[1..] + u;
      StripLeftOfPadded(w[1..], u);
    } else {
      assert w + u == u;
    }
  }

  /** Trailing whitespace is dropped by `StripRight` and changes nothing else. */
  lemma {:induction false} StripRightOfPadded(u: string, w: string)
    requires AllSpaces(w)
    ensures StripRight(u + w) == StripRight(u)
    decreases |w|
  {
    if w != [] {
      assert (u + w)[..|u + w| - 1] == u + w[..|w| - 1];
      StripRightOfPadded(u, w[..|w| - 1]);
    } else {
      assert u + w == u;
    }
  }

  /** Once a non-space is reached, what follows is kept by `StripLeft`. */
  lemma {:induction false} StripLeftOfAppended(u: string, w: string)
    requires StripLeft(u) != []
    ensures StripLeft(u + w) == StripLeft(u) + w
    decreases |u|
  {
    if IsSpace(u[0]) {
      assert (u + w)[1..] == u[1..] + w;
      StripLeftOfAppended(u[1..], w);
    }
  }

  /** `strip()` ignores whitespace added on either side. */
  lemma StripOfPadded(w: string, t: string, w': string)
    requires AllSpaces(w) && AllSpaces(w')
    ensures Strip(w + t + w') == Strip(t)
  {
    assert w + t + w' == w + (t + w');
    StripLeftOfPadded(w, t + w');
    if StripLeft(t) != [] {
      StripLeftOfAppended(t, w');
      StripRightOfPadded(StripLeft(t), w');
    } else {
      StripLeftOfPadded(t, w');
      StripLeftOfPadded(w', []);
      assert w' + [] == w';
    }
  }

  predicate StartsWith(s: string, prefix: string) {
    |prefix| <= |s| && s[..|prefix|] == prefix
  }

  predicate EndsWith(s: string, suffix: string) {
    |suffix| <= |s| && s[|s| - |suffix|..] == suffix
  }

  /** Python's `s.find(t, start)`: the first index at or after `start` where `t`
      occurs, or -1. */
  function FindFrom(s: string, t: string, start: nat): (r: int)
    requires start <= |s|
    ensures r == -1 || (start <= r && OccursAt(s, t, r))
    ensures r != -1 ==> forall k: nat :: start <= k < r ==> !OccursAt(s, t, k)
    ensures r == -1 ==> forall k: nat :: start <= k ==> !OccursAt(s, t, k)
    decreases |s| - start
  {
    if start + |t| > |s| then -1
    else if s[start..start + |t|] == t then start
    else FindFrom(s, t, start + 1)
  }

  /** Python's `s.find(t)`. */
  function Find(s: string, t: string): int {
    FindFrom(s, t, 0)
  }

  /** Python's `t in s` for strings. */
  predicate Contains(s: string, t: string) {
    Find(s, t) != -1
  }

  /** `Contains` is the usual substring relation. */
  lemma ContainsIff(s: string, t: string)
    ensures Contains(s, t) <==> exists k: nat :: OccursAt(s, t, k)
  {
    if Contains(s, t) {
      assert OccursAt(s, t, Find(s, t));
    }
  }

  /** Every character of a contained string occurs in the container. */
  lemma ContainsCharacters(s: string, t: string, i: nat)
    requires Contains(s, t) && i < |t|
    ensures t[i] in s
  {
    var k := Find(s, t);
    assert s[k..k + |t|][i] == s[k + i];
  }

  /** Every character of a prefix occurs in the string. */
  lemma StartsWithCharacters(s: string, prefix: string, i: nat)
    requires StartsWith(s, prefix) && i < |prefix|
    ensures prefix[i] in s
  {
    assert s[..|prefix|][i] == s[i];
  }

  /** Python's `sep.join(parts)`. */
  function Join(parts: seq<string>, sep: string): string {
    if |parts| == 0 then ""
    else if |parts| == 1 then parts[0]
    else parts[0] + sep + Join(parts[1..], sep)
  }

  /** Appending one more part adds a separator and the part at the end. */
  lemma JoinSnoc(parts: seq<string>, sep: string, p: string)
    requires |parts| > 0
    ensures Join(parts + [p], sep) == Join(parts, sep) + sep + p
  {
    if |parts| > 1 {
      assert (parts + [p])[1..] == parts[1..] + [p];
      JoinSnoc(parts[1..], sep, p);
    } else {
      assert (parts + [p])[1..] == [p];
    }
  }

  function LowerChar(c: char): char {
    if 'A' <= c <= 'Z' then (c as int + 32) as char else c
  }

  function UpperChar(c: char): char {
    if 'a' <= c <= 'z' then (c as int - 32) as char else c
  }

  /** Python's `s.lower()` on ASCII letters. */
  function Lower(s: string): (r: string)
    ensures |r| == |s|
    ensures forall i :: 0 <= i < |s| ==> r[i] == LowerChar(s[i])
  {
    seq(|s|, i requires 0 <= i < |s| => LowerChar(s[i]))
  }

  /** `p[0].upper() + p[1:] if p else ""`: upper-cases the first character only. */
  function Capitalize(p: string): (r: string)
    ensures |r| == |p|
    ensures |p| > 0 ==> r[0] == UpperChar(p[0]) && r[1..] == p[1..]
  {
    if p == "" then "" else [UpperChar(p[0])] + p[1..]
  }
}

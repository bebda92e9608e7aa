/**
 * The string operations of Python that the fetcher relies on:
 * `str.strip`, `str.lower`, `str.replace`, `sep.join`, `str.split(sep)` and
 * the substring test `sub in text`.
 */
module Text {

  /** Python's `str.isspace()` for one character. */
  predicate IsSpace(c: char) {
    || '\t' <= c <= '\r'
    || '\U{1C}' <= c <= ' '
    || c == '\U{85}' || c == '\U{A0}' || c == '\U{1680}'
    || '\U{2000}' <= c <= '\U{200A}'
    || c == '\U{2028}' || c == '\U{2029}' || c == '\U{202F}' || c == '\U{205F}' || c == '\U{3000}'
  }

  /** Number of whitespace characters at the start of `s`. */
  function LeadingSpaces(s: string): (n: nat)
    ensures n <= |s|
  {
    if s == [] || !IsSpace(s[0]) then 0 else 1 + LeadingSpaces(s[1..])
  }

  /** Number of whitespace characters at the end of `s`. */
  function TrailingSpaces(s: string): (n: nat)
    ensures n <= |s|
  {
    if s == [] || !IsSpace(s[|s| - 1]) then 0 else 1 + TrailingSpaces(s[..|s| - 1])
  }

  /** The leading run counted is all whitespace, and the character after it is not. */
  lemma {:induction false} LeadingSpacesSpec(s: string)
    ensures var n := LeadingSpaces(s);
            && AllSpace(s[..n])
            && (n < |s| ==> !IsSpace(s[n]))
  {
    if s != [] && IsSpace(s[0]) {
      LeadingSpacesSpec(s[1..]);
      assert s[..LeadingSpaces(s)] == [s[0]] + s[1..][..LeadingSpaces(s[1..])];
    }
  }

  /** The trailing run counted is all whitespace, and the character before it is not. */
  lemma {:induction false} TrailingSpacesSpec(s: string)
    ensures var n := TrailingSpaces(s);
            && AllSpace(s[|s| - n..])
            && (n < |s| ==> !IsSpace(s[|s| - n - 1]))
  {
    if s != [] && IsSpace(s[|s| - 1]) {
      var init := s[..|s| - 1];
      TrailingSpacesSpec(init);
      assert s[|s| - TrailingSpaces(s)..] == init[|init| - TrailingSpaces(init)..] + [s[|s| - 1]];
    }
  }

  /**
   * Python's `s.strip()`: the slice of `s` left once the whitespace on both
   * ends is removed (`StripSpec` states this).
   */
  function Strip(s: string): (r: string)
    ensures |r| <= |s|
  {
    var a := LeadingSpaces(s);
    s[a..|s| - TrailingSpaces(s[a..])]
  }

  /** Python's `s.strip()` removes whitespace only, and all of it, from both ends. */
  lemma StripSpec(s: string)
    ensures var r := Strip(s);
            && (r == [] || (!IsSpace(r[0]) && !IsSpace(r[|r| - 1])))
            && exists i :: OccursAt(r, s, i) && AllSpace(s[..i]) && AllSpace(s[i + |r|..])
  {
    var a := LeadingSpaces(s);
    var rest := s[a..];
    var b := TrailingSpaces(rest);
    var r := Strip(s);
    LeadingSpacesSpec(s);
    TrailingSpacesSpec(rest);
    assert r == rest[..|rest| - b];
    if r != [] {
      assert r[0] == s[a];
      assert r[|r| - 1] == rest[|rest| - b - 1];
    }
    assert s[a..a + |r|] == r;
    assert s[a + |r|..] == rest[|rest| - b..];
    assert OccursAt(r, s, a);
  }

  /** Every character of `s` is whitespace. */
  ghost predicate AllSpace(s: string) {
    forall k :: 0 <= k < |s| ==> IsSpace(s[k])
  }

  /** Python's `str.lower()` on one character (ASCII letters only). */
  function LowerChar(c: char): (d: char)
    ensures 'A' <= c <= 'Z' ==> d as int == c as int + 32
    ensures !('A' <= c <= 'Z') ==> d == c
    ensures !('A' <= d <= 'Z')
  {
    if 'A' <= c <= 'Z' then (c as int + 32) as char else c
  }

  /** Python's `s.lower()`. */
  function Lower(s: string): (r: string)
    ensures |r| == |s|
    ensures forall k :: 0 <= k < |s| ==> r[k] == LowerChar(s[k])
  {
    seq(|s|, k requires 0 <= k < |s| => LowerChar(s[k]))
  }

  /** Python's `s.replace(from, to)` for single characters. */
  function ReplaceChar(s: string, from: char, to: char): (r: string)
    ensures |r| == |s|
    ensures forall k :: 0 <= k < |s| ==> r[k] == if s[k] == from then to else s[k]
    ensures from != to ==> from !in r
  {
    if s == [] then []
    else [if s[0] == from then to else s[0]] + ReplaceChar(s[1..], from, to)
  }

  /** Python's `sep.join(parts)`. */
  function Join(sep: string, parts: seq<string>): string
  {
    if |parts| == 0 then ""
    else if |parts| == 1 then parts[0]
    else parts[0] + sep + Join(sep, parts[1..])
  }

  /** The position of the first `c` in `s`, or `|s|` when there is none. */
  function IndexOf(s: string, c: char): (i: nat)
    ensures i <= |s|
    ensures c !in s[..i]
    ensures i < |s| ==> s[i] == c
  {
    if s == [] then 0
    else if s[0] == c then 0
    else
      var j := IndexOf(s[1..], c);
      assert s[..1 + j] == [s[0]] + s[1..][..j];
      1 + j
  }

  /**
   * Python's `s.split(c)` with an explicit one-character separator: never an
   * empty list, no piece contains `c`, and joining the pieces with `c` gives
   * `s` back.
   */
  function Split(s: string, c: char): (parts: seq<string>)
    ensures |parts| >= 1
    ensures forall k :: 0 <= k < |parts| ==> c !in parts[k]
    ensures Join([c], parts) == s
    decreases |s|
  {
    var i := IndexOf(s, c);
    if i == |s| then
      assert s[..i] == s;
      [s]
    else
      var tail := Split(s[i + 1..], c);
      var parts := [s[..i]] + tail;
      assert parts[1..] == tail;
      assert s == s[..i] + [c] + s[i + 1..];
      parts
  }

  /** Splitting a join of separator-free pieces gives the pieces back. */
  lemma {:induction false} SplitJoin(parts: seq<string>, c: char)
    requires |parts| >= 1
    requires forall k :: 0 <= k < |parts| ==> c !in parts[k]
    ensures Split(Join([c], parts), c) == parts
    decreases |parts|
  {
    var s := Join([c], parts);
    var p := parts[0];
    assert c !in p;
    if |parts| == 1 {
      IndexOfAbsent(p, c);
    } else {
      var rest := Join([c], parts[1..]);
      assert s == p + [c] + rest;
      IndexOfAfterPrefix(p, c, rest);
      assert s[..|p|] == p;
      assert s[|p| + 1..] == rest;
      SplitJoin(parts[1..], c);
    }
  }

  lemma IndexOfAbsent(s: string, c: char)
    requires c !in s
    ensures IndexOf(s, c) == |s|
  {
    if s != [] {
      assert s[0] in s;
      IndexOfAbsent(s[1..], c);
    }
  }

  lemma IndexOfAfterPrefix(p: string, c: char, rest: string)
    requires c !in p
    ensures IndexOf(p + [c] + rest, c) == |p|
  {
    var s := p + [c] + rest;
    if p != [] {
      assert p[0] in p;
      assert s[1..] == p[1..] + [c] + rest;
      IndexOfAfterPrefix(p[1..], c, rest);
    }
  }

  /** `sub` occurs in `text` (Python's `sub in text` for strings). */
  ghost predicate OccursIn(sub: string, text: string) {
    exists i :: OccursAt(sub, text, i)
  }

  /** `sub` occurs in `text` starting at position `i`. */
  ghost predicate OccursAt(sub: string, text: string, i: int) {
    0 <= i <= |text| - |sub| && text[i..i + |sub|] == sub
  }

  /** The substring test, by scanning `text` from the left. */
  function IsSubstring(sub: string, text: string): (b: bool)
    ensures b <==> OccursIn(sub, text)
    decreases |text|
  {
    if |sub| > |text| then false
    else if text[..|sub|] == sub then
      assert OccursAt(sub, text, 0);
      true
    else
      OccursShift(sub, text);
      IsSubstring(sub, text[1..])
  }

  /** When `text` does not start with `sub`, `sub` occurs in `text` iff it occurs in its tail. */
  lemma OccursShift(sub: string, text: string)
    requires |sub| <= |text| && text[..|sub|] != sub
    ensures OccursIn(sub, text) <==> OccursIn(sub, text[1..])
  {
    if OccursIn(sub, text) {
      var i :| OccursAt(sub, text, i);
      assert text[0..|sub|] == text[..|sub|];
      assert i != 0;
      assert text[1..][i - 1..i - 1 + |sub|] == sub;
      assert OccursAt(sub, text[1..], i - 1);
    }
    if OccursIn(sub, text[1..]) {
      var i :| OccursAt(sub, text[1..], i);
      assert text[i + 1..i + 1 + |sub|] == sub;
      assert OccursAt(sub, text, i + 1);
    }
  }

  /** The empty string occurs in every string. */
  lemma EmptyOccurs(text: string)
    ensures OccursIn("", text)
  {
    assert OccursAt("", text, 0);
  }

  /** An occurrence in `a` or in `b` is an occurrence in `a + b`. */
  lemma OccursInConcat(sub: string, a: string, b: string)
    ensures OccursIn(sub, a) ==> OccursIn(sub, a + b)
    ensures OccursIn(sub, b) ==> OccursIn(sub, a + b)
  {
    if OccursIn(sub, a) {
      var i :| OccursAt(sub, a, i);
      assert (a + b)[i..i + |sub|] == sub;
      assert OccursAt(sub, a + b, i);
    }
    if OccursIn(sub, b) {
      var i :| OccursAt(sub, b, i);
      assert (a + b)[|a| + i..|a| + i + |sub|] == sub;
      assert OccursAt(sub, a + b, |a| + i);
    }
  }

  /** Occurrence is transitive. */
  lemma OccursInTrans(a: string, b: string, c: string)
    requires OccursIn(a, b) && OccursIn(b, c)
    ensures OccursIn(a, c)
  {
    var i :| OccursAt(a, b, i);
    var j :| OccursAt(b, c, j);
    forall k | 0 <= k < |a|
      ensures c[j + i..j + i + |a|][k] == a[k]
    {
      assert c[j + i + k] == c[j..j + |b|][i + k] == b[i + k] == b[i..i + |a|][k];
    }
    assert c[j + i..j + i + |a|] == a;
    assert OccursAt(a, c, j + i);
  }

  /** Every piece of a join occurs in the joined string. */
  lemma {:induction false} PartOccursInJoin(sep: string, parts: seq<string>, k: nat)
    requires k < |parts|
    ensures OccursIn(parts[k], Join(sep, parts))
    decreases |parts|
  {
    if |parts| == 1 {
      assert OccursAt(parts[0], Join(sep, parts), 0);
    } else {
      var rest := Join(sep, parts[1..]);
      assert Join(sep, parts) == parts[0] + (sep + rest);
      if k == 0 {
        assert OccursAt(parts[0], parts[0], 0);
        OccursInConcat(parts[0], parts[0], sep + rest);
      } else {
        PartOccursInJoin(sep, parts[1..], k - 1);
        OccursInConcat(parts[k], sep, rest);
        OccursInConcat(parts[k], parts[0], sep + rest);
      }
    }
  }

  /** A join is empty exactly when there are no pieces, provided every piece is non-empty. */
  lemma {:induction false} JoinEmptyIff(sep: string, parts: seq<string>)
    requires forall k :: 0 <= k < |parts| ==> parts[k] != ""
    ensures Join(sep, parts) == "" <==> parts == []
  {
    if |parts| >= 1 {
      assert |Join(sep, parts)| >= |parts[0]| > 0;
    }
  }
}

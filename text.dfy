/**
 * The string primitives of JavaScript that the schedule parser relies on:
 * the white-space class shared by `\s` and `String.prototype.trim`, `trim`,
 * `split` on one character, `startsWith`, and the newline replacement used
 * before the unstructured scan.
 */
module Text {

  /** JavaScript's WhiteSpace and LineTerminator characters: the class `\s` of a regular expression and what `trim` removes. */
  predicate IsSpace(c: char) {
    c == ' ' || c == '\t' || c == '\n' || c == '\r' || c == '\U{000B}' || c == '\U{000C}'
    || c == '\U{00A0}' || c == '\U{1680}' || ('\U{2000}' <= c <= '\U{200A}')
    || c == '\U{2028}' || c == '\U{2029}' || c == '\U{202F}' || c == '\U{205F}'
    || c == '\U{3000}' || c == '\U{FEFF}'
  }

  /** The characters that `.` does not match in a regular expression without the `s` flag. */
  predicate IsLineTerminator(c: char) {
    c == '\n' || c == '\r' || c == '\U{2028}' || c == '\U{2029}'
  }

  predicate IsUpper(c: char) { 'A' <= c <= 'Z' }

  predicate IsLower(c: char) { 'a' <= c <= 'z' }

  /** The class `\d`: ASCII digits only. */
  predicate IsDigit(c: char) { '0' <= c <= '9' }

  /** Every character of `s` from `i` up to (not including) `j` is white space. */
  predicate SpaceRun(s: string, i: nat, j: nat) {
    forall k :: i <= k < j && k < |s| ==> IsSpace(s[k])
  }

  /** The first position at or after `i` that does not hold white space: where a greedy `\s*` starting at `i` stops. */
  function SkipSpaces(s: string, i: nat): (j: nat)
    requires i <= |s|
    ensures i <= j <= |s|
    ensures j == |s| || !IsSpace(s[j])
    decreases |s| - i
  {
    if i == |s| || !IsSpace(s[i]) then i else SkipSpaces(s, i + 1)
  }

  /** What `SkipSpaces` passes over is white space. */
  lemma {:induction false} SkipSpacesRun(s: string, i: nat)
    requires i <= |s|
    ensures SpaceRun(s, i, SkipSpaces(s, i))
    decreases |s| - i
  {
    if i < |s| && IsSpace(s[i]) {
      SkipSpacesRun(s, i + 1);
    }
  }

  /** A white-space run that ends at a non-space (or the end) is exactly what `SkipSpaces` passes over. */
  lemma {:induction false} SkipSpacesTo(s: string, i: nat, j: nat)
    requires i <= j <= |s| && SpaceRun(s, i, j) && (j == |s| || !IsSpace(s[j]))
    ensures SkipSpaces(s, i) == j
    decreases j - i
  {
    if i < j {
      SkipSpacesTo(s, i + 1, j);
    }
  }

  /** The last position at or before `j` that follows a non-space character (or 0). */
  function BackSpaces(s: string, j: nat): (i: nat)
    requires j <= |s|
    ensures i <= j
    ensures i == 0 || !IsSpace(s[i - 1])
  {
    if j == 0 || !IsSpace(s[j - 1]) then j else BackSpaces(s, j - 1)
  }

  /** What `BackSpaces` passes over is white space. */
  lemma {:induction false} BackSpacesRun(s: string, j: nat)
    requires j <= |s|
    ensures SpaceRun(s, BackSpaces(s, j), j)
  {
    if j > 0 && IsSpace(s[j - 1]) {
      BackSpacesRun(s, j - 1);
    }
  }

  /** `s.trim()`: what is left after removing the white space at both ends. */
  function Trim(s: string): (r: string)
    ensures |r| <= |s|
  {
    var a := SkipSpaces(s, 0);
    var b := BackSpaces(s, |s|);
    if a < b then s[a..b] else []
  }

  /**
   * `trim` removes white space only, and all of it at both ends: the result
   * is a slice of the input with nothing but white space around it, and it
   * neither starts nor ends with white space.
   */
  lemma TrimSpec(s: string)
    ensures var r := Trim(s);
            r == [] || (!IsSpace(r[0]) && !IsSpace(r[|r| - 1]))
    ensures exists a, b :: 0 <= a <= b <= |s| && Trim(s) == s[a..b] && SpaceRun(s, 0, a) && SpaceRun(s, b, |s|)
  {
    var a := SkipSpaces(s, 0);
    var b := BackSpaces(s, |s|);
    SkipSpacesRun(s, 0);
    BackSpacesRun(s, |s|);
    if a >= b {
      assert Trim(s) == s[|s|..|s|];
      assert SpaceRun(s, 0, |s|);
    }
  }

  /** `s.startsWith(p)`. */
  predicate StartsWith(s: string, p: string) {
    |p| <= |s| && s[..|p|] == p
  }

  /** The number of occurrences of `c` in `s`. */
  function Count(s: string, c: char): nat {
    if s == [] then 0 else (if s[0] == c then 1 else 0) + Count(s[1..], c)
  }

  /** The index of the first `c` in `s`, or `|s|` when there is none. */
  function IndexOf(s: string, c: char): (i: nat)
    ensures i <= |s|
    ensures i < |s| ==> s[i] == c
    ensures c !in s[..i]
  {
    if s == [] then 0 else if s[0] == c then 0 else 1 + IndexOf(s[1..], c)
  }

  /** `s.split(sep)` for a one-character separator. */
  function Split(s: string, sep: char): (parts: seq<string>)
    ensures |parts| >= 1
    decreases |s|
  {
    var i := IndexOf(s, sep);
    if i == |s| then [s] else [s[..i]] + Split(s[i + 1..], sep)
  }

  /** `parts.join(sep)`: the inverse of `Split`. */
  function Join(parts: seq<string>, sep: char): string
    requires |parts| >= 1
  {
    if |parts| == 1 then parts[0] else parts[0] + [sep] + Join(parts[1..], sep)
  }

  /** Splitting never loses text: joining the parts back with the separator gives the input. */
  lemma {:induction false} SplitJoin(s: string, sep: char)
    ensures Join(Split(s, sep), sep) == s
    decreases |s|
  {
    var i := IndexOf(s, sep);
    if i < |s| {
      SplitJoin(s[i + 1..], sep);
      SplitCons(s, sep, i);
    } else {
      assert Split(s, sep) == [s];
    }
  }

  /** The inductive step of `SplitJoin`: the first part, the separator, then the rest. */
  lemma SplitCons(s: string, sep: char, i: nat)
    requires i == IndexOf(s, sep) && i < |s|
    requires Join(Split(s[i + 1..], sep), sep) == s[i + 1..]
    ensures Join(Split(s, sep), sep) == s
  {
    var rest := Split(s[i + 1..], sep);
    var parts := [s[..i]] + rest;
    assert Split(s, sep) == parts;
    assert parts[1..] == rest;
    assert Join(parts, sep) == s[..i] + [sep] + s[i + 1..];
    assert s == s[..i] + [sep] + s[i + 1..];
  }

  /** Every part is free of the separator. */
  lemma {:induction false} SplitPartsFree(s: string, sep: char)
    ensures forall k :: 0 <= k < |Split(s, sep)| ==> sep !in Split(s, sep)[k]
    decreases |s|
  {
    var i := IndexOf(s, sep);
    if i < |s| {
      var rest := Split(s[i + 1..], sep);
      SplitPartsFree(s[i + 1..], sep);
      assert Split(s, sep) == [s[..i]] + rest;
    } else {
      assert s[..i] == s;
      assert Split(s, sep) == [s];
    }
  }

  /** There is one more part than there are separators. */
  lemma {:induction false} SplitCount(s: string, sep: char)
    ensures |Split(s, sep)| == Count(s, sep) + 1
    decreases |s|
  {
    var i := IndexOf(s, sep);
    CountSplitAt(s, sep, i);
    if i < |s| {
      SplitCount(s[i + 1..], sep);
      assert |Split(s, sep)| == 1 + |Split(s[i + 1..], sep)|;
    }
  }

  lemma {:induction false} CountNone(s: string, c: char)
    requires c !in s
    ensures Count(s, c) == 0
  {
    if s != [] {
      CountNone(s[1..], c);
    }
  }

  lemma {:induction false} CountAppend(a: string, b: string, c: char)
    ensures Count(a + b, c) == Count(a, c) + Count(b, c)
  {
    if a != [] {
      assert (a + b)[1..] == a[1..] + b;
      CountAppend(a[1..], b, c);
    } else {
      assert a + b == b;
    }
  }

  lemma CountSplitAt(s: string, c: char, i: nat)
    requires i == IndexOf(s, c)
    ensures i < |s| ==> Count(s, c) == 1 + Count(s[i + 1..], c)
    ensures i == |s| ==> Count(s, c) == 0
  {
    CountNone(s[..i], c);
    if i < |s| {
      assert s == s[..i] + ([s[i]] + s[i + 1..]);
      CountAppend(s[..i], [s[i]] + s[i + 1..], c);
      CountAppend([s[i]], s[i + 1..], c);
      assert [s[i]][1..] == [];
    } else {
      assert s[..i] == s;
    }
  }

  /** `s.replace(/\n/g, ' ')`. */
  function NewlinesToSpaces(s: string): (r: string)
    ensures |r| == |s|
    ensures '\n' !in r
    ensures forall k :: 0 <= k < |s| && s[k] != '\n' ==> r[k] == s[k]
    ensures forall k :: 0 <= k < |s| && s[k] == '\n' ==> r[k] == ' '
  {
    seq(|s|, k requires 0 <= k < |s| => if s[k] == '\n' then ' ' else s[k])
  }

  /** The replacement works character by character, so it distributes over concatenation. */
  lemma NewlinesToSpacesAppend(a: string, b: string)
    ensures NewlinesToSpaces(a + b) == NewlinesToSpaces(a) + NewlinesToSpaces(b)
  {
    var l, r := NewlinesToSpaces(a + b), NewlinesToSpaces(a) + NewlinesToSpaces(b);
    forall k | 0 <= k < |l| ensures l[k] == r[k] {
      if k < |a| {
        assert (a + b)[k] == a[k];
      } else {
        assert (a + b)[k] == b[k - |a|];
      }
    }
  }
}

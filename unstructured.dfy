/**
 * The unstructured pass of the record parser: `parseUnstructuredText`
 * (src/App.jsx:102-147). It runs over the whole text with newlines turned
 * into spaces, finds every match of
 *
 *   /([A-Z]{3}\s*-?\s*\d{3,4})\s+([A-Z]{3}\s*-?\s*\d{3,4})\s+(AS\d+)
 *    (?:\s+([0-9A-Z]+))?(?:\s+([0-9A-Z]+))?(?:\s+([A-Za-z]+))?(?:\s+([A-Za-z]+))?/g
 *
 * from left to right, and turns each match whose two times decode into a
 * record numbered "extracted-0", "extracted-1", ...
 *
 * The pattern is written out as a scanner. It never needs to backtrack:
 * the runs of white space, the optional hyphen and the greedy runs can only
 * be shortened into a position where the next element fails, and the one
 * real choice, three or four digits, is settled by the white space that must
 * follow (after four digits and a non-space, three digits are followed by a
 * digit). The optional groups are tried one after the other, each from
 * where the previous one ended.
 */
module Unstructured {
  import opened Wrappers
  import opened Text
  import opened TimeCodec
  import opened Flights
  import CsvParser

  // ---------------------------------------------------------------------
  // The pattern
  // ---------------------------------------------------------------------

  /** The character classes `\d`, `[0-9A-Z]` and `[A-Za-z]`. */
  datatype CharClass = Digits | Codes | Words

  predicate InClass(c: char, k: CharClass) {
    match k
    case Digits => IsDigit(c)
    case Codes => IsDigit(c) || IsUpper(c)
    case Words => IsUpper(c) || IsLower(c)
  }

  /** The end of the longest run of class `k` starting at `i`. */
  function RunEnd(s: string, i: nat, k: CharClass): (j: nat)
    requires i <= |s|
    ensures i <= j <= |s|
    ensures j == |s| || !InClass(s[j], k)
    decreases |s| - i
  {
    if i == |s| || !InClass(s[i], k) then i else RunEnd(s, i + 1, k)
  }

  /** Everything the run passes over is of its class. */
  lemma {:induction false} RunEndClass(s: string, i: nat, k: CharClass)
    requires i <= |s|
    ensures forall m :: i <= m < RunEnd(s, i, k) ==> InClass(s[m], k)
    decreases |s| - i
  {
    if i < |s| && InClass(s[i], k) {
      RunEndClass(s, i + 1, k);
    }
  }

  /** A run of class `k` that ends at a character outside it (or the end) is what `RunEnd` finds. */
  lemma {:induction false} RunEndTo(s: string, i: nat, j: nat, k: CharClass)
    requires i <= j <= |s| && (forall m :: i <= m < j ==> InClass(s[m], k)) && (j == |s| || !InClass(s[j], k))
    ensures RunEnd(s, i, k) == j
    decreases j - i
  {
    if i < j {
      RunEndTo(s, i + 1, j, k);
    }
  }

  /** `-?` at `k`. */
  function Hyphen(s: string, k: nat): (j: nat)
    requires k <= |s|
    ensures k <= j <= |s|
  {
    if k < |s| && s[k] == '-' then k + 1 else k
  }

  /** Where `[A-Z]{3}\s*-?\s*` starting at `p` hands over to the digits. */
  function DigitsStart(s: string, p: nat): (d: nat)
    requires p + 3 <= |s|
    ensures p + 3 <= d <= |s|
  {
    SkipSpaces(s, Hyphen(s, SkipSpaces(s, p + 3)))
  }

  /** The end of `[A-Z]{3}\s*-?\s*\d{3,4}` anchored at `p`, four digits when there are four. */
  function TimeCodeEnd(s: string, p: nat): (r: Option<nat>)
    requires p <= |s|
    ensures r.Some? ==> p + 6 <= r.value <= |s| && IsUpper(s[p])
  {
    if p + 3 <= |s| && IsUpper(s[p]) && IsUpper(s[p + 1]) && IsUpper(s[p + 2]) then
      var d := DigitsStart(s, p);
      var n := RunEnd(s, d, Digits) - d;
      if n >= 4 then Some(d + 4) else if n == 3 then Some(d + 3) else None
    else None
  }

  /** What an optional group `(?:\s+([k]+))?` captured, and where the match goes on. */
  datatype Group = Group(text: Option<string>, end: nat)

  /**
   * The group takes part exactly when the white space after `e` is
   * non-empty and followed by a character of class `k`; it then captures the
   * whole run of that class. No class holds white space, so a shorter `\s+`
   * could never be followed by the class.
   */
  function OptionalGroup(s: string, e: nat, k: CharClass): (g: Group)
    requires e <= |s|
    ensures e <= g.end <= |s|
    ensures g.text.None? ==> g.end == e
    ensures g.text.Some? ==> g.text.value != []
    ensures g.text.Some? ==>
      var w := SkipSpaces(s, e);
      && e < w < g.end && SpaceRun(s, e, w) && g.text.value == s[w..g.end]
      && (forall m :: w <= m < g.end ==> InClass(s[m], k))
      && (g.end == |s| || !InClass(s[g.end], k))
    ensures g.text.None? <==>
      var w := SkipSpaces(s, e);
      w == e || w == |s| || !InClass(s[w], k)
  {
    var w := SkipSpaces(s, e);
    SkipSpacesRun(s, e);
    if e < w < |s| && InClass(s[w], k) then
      var x := RunEnd(s, w, k);
      RunEndClass(s, w, k);
      Group(Some(s[w..x]), x)
    else Group(None, e)
  }

  /** The seven capture groups of one match; an optional group that took no part is `None`. */
  datatype Capture = Capture(
    etd: string,
    eta: string,
    aircraft: string,
    takeoffPad: Option<string>,
    landingPad: Option<string>,
    operator: Option<string>,
    crew: Option<string>)

  /** A match: its captures and the `lastIndex` it leaves behind. */
  datatype Hit = Hit(cap: Capture, end: nat)

  /** Where the mandatory part of a match ends: the two time codes and the aircraft. */
  datatype Spans = Spans(etdEnd: nat, etaStart: nat, etaEnd: nat, aircraftStart: nat, aircraftEnd: nat)

  /** `([A-Z]{3}\s*-?\s*\d{3,4})\s+([A-Z]{3}\s*-?\s*\d{3,4})\s+(AS\d+)` anchored at `p`. */
  function Skeleton(s: string, p: nat): (r: Option<Spans>)
    requires p <= |s|
    ensures r.Some? ==>
      && TimeCodeEnd(s, p) == Some(r.value.etdEnd)
      && r.value.etdEnd < r.value.etaStart <= |s|
      && r.value.etaStart == SkipSpaces(s, r.value.etdEnd)
      && TimeCodeEnd(s, r.value.etaStart) == Some(r.value.etaEnd)
      && r.value.etaEnd < r.value.aircraftStart
      && r.value.aircraftStart == SkipSpaces(s, r.value.etaEnd)
      && r.value.aircraftStart + 3 <= |s|
      && s[r.value.aircraftStart] == 'A' && s[r.value.aircraftStart + 1] == 'S'
      && r.value.aircraftEnd == RunEnd(s, r.value.aircraftStart + 2, Digits)
      && r.value.aircraftStart + 3 <= r.value.aircraftEnd
  {
    match TimeCodeEnd(s, p)
    case None => None
    case Some(e1) =>
      var w1 := SkipSpaces(s, e1);
      if w1 == e1 then None
      else match TimeCodeEnd(s, w1)
      case None => None
      case Some(e2) =>
        var w2 := SkipSpaces(s, e2);
        if w2 == e2 || !(w2 + 3 <= |s| && s[w2] == 'A' && s[w2 + 1] == 'S' && IsDigit(s[w2 + 2])) then None
        else Some(Spans(e1, w1, e2, w2, RunEnd(s, w2 + 2, Digits)))
  }

  /** The gaps of a skeleton are white space: the maximal runs that `\s+` takes. */
  lemma SkeletonGaps(s: string, p: nat)
    requires p <= |s| && Skeleton(s, p).Some?
    ensures var sp := Skeleton(s, p).value;
            SpaceRun(s, sp.etdEnd, sp.etaStart) && SpaceRun(s, sp.etaEnd, sp.aircraftStart)
  {
    var sp := Skeleton(s, p).value;
    SkipSpacesRun(s, sp.etdEnd);
    SkipSpacesRun(s, sp.etaEnd);
  }

  /**
   * The converse: wherever the two time codes and the aircraft are laid out
   * with white space between them, the skeleton finds them there.
   */
  lemma SkeletonComplete(s: string, p: nat, e1: nat, w1: nat, e2: nat, w2: nat)
    requires p <= |s| && TimeCodeEnd(s, p) == Some(e1)
    requires e1 < w1 <= |s| && SpaceRun(s, e1, w1) && TimeCodeEnd(s, w1) == Some(e2)
    requires e2 < w2 && w2 + 3 <= |s| && SpaceRun(s, e2, w2)
    requires s[w2] == 'A' && s[w2 + 1] == 'S' && IsDigit(s[w2 + 2])
    ensures Skeleton(s, p) == Some(Spans(e1, w1, e2, w2, RunEnd(s, w2 + 2, Digits)))
  {
    assert !IsSpace(s[w1]) && !IsSpace(s[w2]);
    SkipSpacesTo(s, e1, w1);
    SkipSpacesTo(s, e2, w2);
    SkeletonAt(s, p, e1, w1, e2, w2);
  }

  /** The skeleton, once the white-space runs are known. */
  lemma SkeletonAt(s: string, p: nat, e1: nat, w1: nat, e2: nat, w2: nat)
    requires p <= |s| && TimeCodeEnd(s, p) == Some(e1) && e1 < w1 && w1 == SkipSpaces(s, e1)
    requires TimeCodeEnd(s, w1) == Some(e2) && e2 < w2 && w2 == SkipSpaces(s, e2)
    requires w2 + 3 <= |s| && s[w2] == 'A' && s[w2 + 1] == 'S' && IsDigit(s[w2 + 2])
    ensures Skeleton(s, p) == Some(Spans(e1, w1, e2, w2, RunEnd(s, w2 + 2, Digits)))
  {
  }

  /** The whole pattern anchored at `p`: the skeleton, then the four optional groups in turn. */
  function MatchAt(s: string, p: nat): (r: Option<Hit>)
    requires p <= |s|
    ensures r.Some? ==> p < r.value.end <= |s|
    ensures r.Some? <==> Skeleton(s, p).Some?
    ensures r.Some? ==>
      var sp := Skeleton(s, p).value;
      var c := r.value.cap;
      && c.etd == s[p..sp.etdEnd] && c.eta == s[sp.etaStart..sp.etaEnd]
      && c.aircraft == s[sp.aircraftStart..sp.aircraftEnd]
      && (c.takeoffPad.Some? ==> c.takeoffPad.value != "")
      && (c.landingPad.Some? ==> c.landingPad.value != "")
      && (c.operator.Some? ==> c.operator.value != "")
      && (c.crew.Some? ==> c.crew.value != "")
  {
    match Skeleton(s, p)
    case None => None
    case Some(sp) =>
      var g4 := OptionalGroup(s, sp.aircraftEnd, Codes);
      var g5 := OptionalGroup(s, g4.end, Codes);
      var g6 := OptionalGroup(s, g5.end, Words);
      var g7 := OptionalGroup(s, g6.end, Words);
      Some(Hit(Capture(s[p..sp.etdEnd], s[sp.etaStart..sp.etaEnd], s[sp.aircraftStart..sp.aircraftEnd],
                       g4.text, g5.text, g6.text, g7.text), g7.end))
  }

  /** `regex.exec(s)` with `lastIndex == from`: the match at the first position that has one. */
  function FindMatch(s: string, from: nat): (r: Option<Hit>)
    requires from <= |s|
    ensures r.Some? ==> from < r.value.end <= |s|
    decreases |s| - from
  {
    var m := MatchAt(s, from);
    if m.Some? then m else if from == |s| then None else FindMatch(s, from + 1)
  }

  /**
   * `exec` finds the leftmost match: at the returned position `p` the
   * pattern matches, at no position between `from` and `p` does it, and
   * null means it matches nowhere from `from` on.
   */
  lemma {:induction false} FindMatchLeftmost(s: string, from: nat) returns (p: nat)
    requires from <= |s|
    ensures FindMatch(s, from).Some? ==> from <= p <= |s| && MatchAt(s, p) == FindMatch(s, from)
    ensures FindMatch(s, from).Some? ==> forall q :: from <= q < p ==> MatchAt(s, q).None?
    ensures FindMatch(s, from).None? ==> forall q :: from <= q <= |s| ==> MatchAt(s, q).None?
    decreases |s| - from
  {
    if MatchAt(s, from).Some? || from == |s| {
      p := from;
    } else {
      FindMatchSkips(s, from);
      p := FindMatchLeftmost(s, from + 1);
      if FindMatch(s, from + 1).Some? {
        NoMatchBefore(s, from, p);
      } else {
        NoMatchBefore(s, from, |s| + 1);
      }
    }
  }

  /** `exec` moves past a position where the pattern does not match. */
  lemma FindMatchSkips(s: string, from: nat)
    requires from < |s| && MatchAt(s, from).None?
    ensures FindMatch(s, from) == FindMatch(s, from + 1)
  {
  }

  /** A position without a match extends a stretch without one back by one. */
  lemma NoMatchBefore(s: string, from: nat, p: nat)
    requires from < p <= |s| + 1 && MatchAt(s, from).None?
    requires forall q :: from + 1 <= q < p && q <= |s| ==> MatchAt(s, q).None?
    ensures forall q :: from <= q < p && q <= |s| ==> MatchAt(s, q).None?
  {
  }

  /** The captures of every match that the `while` loop at line 111 sees, from `lastIndex == from` on. */
  function Matches(s: string, from: nat): (caps: seq<Capture>)
    requires from <= |s|
    ensures |caps| <= |s| - from
    decreases |s| - from
  {
    match FindMatch(s, from)
    case None => []
    case Some(h) => [h.cap] + Matches(s, h.end)
  }

  // ---------------------------------------------------------------------
  // From captures to records
  // ---------------------------------------------------------------------

  /** Both times of a capture decode (line 131). */
  predicate Decodes(c: Capture) {
    ParseTime(c.etd).Some? && ParseTime(c.eta).Some?
  }

  /** `match[k] || d` for an optional group. */
  function Default(g: Option<string>, d: string): string {
    match g
    case Some(t) => t
    case None => d
  }

  /** The location prefix of a time code, or "UNK" (lines 127-130). */
  function Location(raw: string): string {
    match CsvParser.LeadingCode(raw)
    case Some(code) => code
    case None => "UNK"
  }

  /** The record built from a capture that decodes, numbered `n` (lines 132-145). */
  function RecordOf(c: Capture, n: nat): Flight
    requires Decodes(c)
  {
    var start := ParseTime(c.etd).value;
    var end := ParseTime(c.eta).value;
    Flight(Extracted(n), Location(c.etd), Location(c.eta), start, end, end - start, c.aircraft,
           Default(c.takeoffPad, "TBD"), Default(c.landingPad, "TBD"),
           Default(c.operator, "Parsed from PDF"), Default(c.crew, "Parsed from PDF"), c.etd, c.eta)
  }

  /** The records the loop emits for `caps`, when the counter stands at `n`. */
  function Extract(caps: seq<Capture>, n: nat): (fs: seq<Flight>)
    ensures |fs| <= |caps|
  {
    if caps == [] then []
    else if Decodes(caps[0]) then [RecordOf(caps[0], n)] + Extract(caps[1..], n + 1)
    else Extract(caps[1..], n)
  }

  /** The captures that decode, in order: an independent view of the drop rule. */
  function Kept(caps: seq<Capture>): (ks: seq<Capture>)
    ensures |ks| <= |caps|
    ensures forall k :: 0 <= k < |ks| ==> Decodes(ks[k])
  {
    if caps == [] then []
    else if Decodes(caps[0]) then [caps[0]] + Kept(caps[1..])
    else Kept(caps[1..])
  }

  /**
   * The `while ((match = regex.exec(normalizedText)) !== null)` loop
   * (lines 102-147): every match in order, numbering only the records kept.
   */
  method ParseUnstructuredText(fullText: string) returns (extracted: seq<Flight>)
    ensures extracted == Extract(Matches(NewlinesToSpaces(fullText), 0), 0)
  {
    var text := NewlinesToSpaces(fullText);
    ghost var all := Extract(Matches(text, 0), 0);
    extracted := [];
    var idx := 0;
    var lastIndex := 0;
    var m := FindMatch(text, lastIndex);
    while m.Some?
      invariant lastIndex <= |text|
      invariant m == FindMatch(text, lastIndex)
      invariant extracted + Extract(Matches(text, lastIndex), idx) == all
      decreases |text| - lastIndex
    {
      var c := m.value.cap;
      ghost var rest := Matches(text, m.value.end);
      MatchesStep(text, lastIndex);
      if Decodes(c) {
        var f := RecordOf(c, idx);
        assert (extracted + [f]) + Extract(rest, idx + 1) == all by {
          ExtractKeeps(c, rest, idx);
          Regroup(extracted, f, Extract(rest, idx + 1));
        }
        extracted := extracted + [f];
        idx := idx + 1;
      } else {
        assert extracted + Extract(rest, idx) == all by {
          ExtractDrops(c, rest, idx);
        }
      }
      lastIndex := m.value.end;
      m := FindMatch(text, lastIndex);
    }
  }

  lemma MatchesStep(s: string, from: nat)
    requires from <= |s| && FindMatch(s, from).Some?
    ensures Matches(s, from) == [FindMatch(s, from).value.cap] + Matches(s, FindMatch(s, from).value.end)
  {
  }

  lemma ExtractKeeps(c: Capture, rest: seq<Capture>, n: nat)
    requires Decodes(c)
    ensures Extract([c] + rest, n) == [RecordOf(c, n)] + Extract(rest, n + 1)
  {
    assert ([c] + rest)[1..] == rest;
  }

  lemma ExtractDrops(c: Capture, rest: seq<Capture>, n: nat)
    requires !Decodes(c)
    ensures Extract([c] + rest, n) == Extract(rest, n)
  {
    assert ([c] + rest)[1..] == rest;
  }

  lemma Regroup<T>(a: seq<T>, x: T, b: seq<T>)
    ensures a + ([x] + b) == (a + [x]) + b
  {
  }

  // ---------------------------------------------------------------------
  // What the pass promises
  // ---------------------------------------------------------------------

  /** One record per capture that decodes. */
  lemma {:induction false} ExtractLength(caps: seq<Capture>, n: nat)
    ensures |Extract(caps, n)| == |Kept(caps)|
  {
    if caps != [] {
      ExtractLength(caps[1..], if Decodes(caps[0]) then n + 1 else n);
    }
  }

  /**
   * The drop rule and the counter: the `k`-th record is built from the
   * `k`-th capture that decodes and is numbered `n + k`, so a match that is
   * dropped uses up no number. The number is passed as `id` so that the
   * induction needs no arithmetic inside `RecordOf`'s arguments.
   */
  lemma {:induction false} ExtractAt(caps: seq<Capture>, n: nat, k: nat, id: nat)
    requires k < |Kept(caps)| && id == n + k
    ensures k < |Extract(caps, n)|
    ensures Extract(caps, n)[k] == RecordOf(Kept(caps)[k], id)
    decreases |caps|
  {
    ExtractLength(caps, n);
    var rest := caps[1..];
    if Decodes(caps[0]) {
      assert Extract(caps, n) == [RecordOf(caps[0], n)] + Extract(rest, n + 1);
      assert Kept(caps) == [caps[0]] + Kept(rest);
      if k > 0 {
        ExtractAt(rest, n + 1, k - 1, id);
        assert Extract(caps, n)[k] == Extract(rest, n + 1)[k - 1];
        assert Kept(caps)[k] == Kept(rest)[k - 1];
      }
    } else {
      assert Extract(caps, n) == Extract(rest, n);
      assert Kept(caps) == Kept(rest);
      ExtractAt(rest, n, k, id);
    }
  }

  /** No digit in `s[i..j]`. */
  predicate NoDigits(s: string, i: nat, j: nat) {
    forall m :: i <= m < j && m < |s| ==> !IsDigit(s[m])
  }

  /** Between the three letters and the digits of a time code there are only spaces and one hyphen. */
  lemma LettersThenNoDigits(s: string, p: nat)
    requires p + 3 <= |s| && IsUpper(s[p]) && IsUpper(s[p + 1]) && IsUpper(s[p + 2])
    ensures NoDigits(s, p, DigitsStart(s, p))
  {
    var k := SkipSpaces(s, p + 3);
    var h := Hyphen(s, k);
    var d := SkipSpaces(s, h);
    SkipSpacesRun(s, p + 3);
    SkipSpacesRun(s, h);
  }

  /**
   * A time code as the pattern captures it: three capitals, at least three
   * digits at the end, and no digit before the last four characters.
   */
  predicate TimeShape(t: string) {
    && |t| >= 6
    && IsUpper(t[0]) && IsUpper(t[1]) && IsUpper(t[2])
    && IsDigit(t[|t| - 3]) && IsDigit(t[|t| - 2]) && IsDigit(t[|t| - 1])
    && forall j :: 0 <= j < |t| - 4 ==> !IsDigit(t[j])
  }

  /**
   * Such a code is located by its three capitals (never "UNK"), and decodes
   * exactly when it ends in four digits, which are read as HHMM: a
   * three-digit code such as "ARK-115" is matched but never decodes.
   */
  lemma TimeShapeDecodes(t: string)
    requires TimeShape(t)
    ensures Location(t) == t[..3]
    ensures ParseTime(t).Some? <==> IsDigit(t[|t| - 4])
    ensures ParseTime(t).Some? ==> ParseTime(t) == Some(TwoDigits(t, |t| - 4) * 60 + TwoDigits(t, |t| - 2))
  {
    ParseTimeSpec(t);
    if IsDigit(t[|t| - 4]) {
      assert FirstRunAt(t, |t| - 4);
    } else {
      assert forall j :: !FourDigitsAt(t, j);
    }
  }

  /** An aircraft as the pattern captures it: `AS` and at least one digit. */
  predicate AircraftShape(a: string) {
    && |a| >= 3 && a[0] == 'A' && a[1] == 'S'
    && forall j :: 2 <= j < |a| ==> IsDigit(a[j])
  }

  /** What every match captures. */
  predicate CaptureShape(c: Capture) {
    && TimeShape(c.etd) && TimeShape(c.eta)
    && AircraftShape(c.aircraft)
    && (c.takeoffPad.Some? ==> c.takeoffPad.value != "")
    && (c.landingPad.Some? ==> c.landingPad.value != "")
    && (c.operator.Some? ==> c.operator.value != "")
    && (c.crew.Some? ==> c.crew.value != "")
  }

  /** The scanner's time codes have that shape. */
  lemma TimeCodeShape(s: string, p: nat, e: nat)
    requires p <= |s| && TimeCodeEnd(s, p) == Some(e)
    ensures TimeShape(s[p..e])
  {
    var t := s[p..e];
    var d := DigitsStart(s, p);
    LettersThenNoDigits(s, p);
    RunEndClass(s, d, Digits);
    assert e == d + 3 || e == d + 4;
    forall j | 0 <= j < |t| - 4 ensures !IsDigit(t[j]) {
      assert t[j] == s[p + j];
    }
    assert t[|t| - 3] == s[e - 3] && t[|t| - 2] == s[e - 2] && t[|t| - 1] == s[e - 1];
  }

  /** The scanner's aircraft codes have that shape. */
  lemma AircraftCodeShape(s: string, w: nat, e: nat)
    requires w + 3 <= |s| && s[w] == 'A' && s[w + 1] == 'S' && e == RunEnd(s, w + 2, Digits) && w + 3 <= e
    ensures AircraftShape(s[w..e])
  {
    RunEndClass(s, w + 2, Digits);
    var a := s[w..e];
    forall j | 2 <= j < |a| ensures IsDigit(a[j]) {
      assert a[j] == s[w + j];
    }
  }

  lemma MatchAtShape(s: string, p: nat)
    requires p <= |s| && MatchAt(s, p).Some?
    ensures CaptureShape(MatchAt(s, p).value.cap)
  {
    var sp := Skeleton(s, p).value;
    AircraftCodeShape(s, sp.aircraftStart, sp.aircraftEnd);
    TimeCodeShape(s, p, sp.etdEnd);
    TimeCodeShape(s, sp.etaStart, sp.etaEnd);
  }

  lemma {:induction false} FindMatchShape(s: string, from: nat)
    requires from <= |s| && FindMatch(s, from).Some?
    ensures CaptureShape(FindMatch(s, from).value.cap)
    decreases |s| - from
  {
    if MatchAt(s, from).Some? {
      MatchAtShape(s, from);
    } else {
      FindMatchShape(s, from + 1);
    }
  }

  lemma {:induction false} MatchesShape(s: string, from: nat, k: nat)
    requires from <= |s| && k < |Matches(s, from)|
    ensures CaptureShape(Matches(s, from)[k])
    decreases |s| - from
  {
    var h := FindMatch(s, from).value;
    FindMatchShape(s, from);
    if k > 0 {
      MatchesShape(s, h.end, k - 1);
    }
  }

  /**
   * Every capture kept is one of the captures, at a position `j` before
   * which exactly `k` captures decode.
   */
  lemma {:induction false} KeptFrom(caps: seq<Capture>, k: nat) returns (j: nat)
    requires k < |Kept(caps)|
    ensures j < |caps| && Kept(caps)[k] == caps[j] && Decodes(caps[j])
    ensures k == |Kept(caps[..j])|
    decreases |caps|
  {
    var rest := caps[1..];
    if Decodes(caps[0]) {
      assert Kept(caps) == [caps[0]] + Kept(rest);
      if k == 0 {
        j := 0;
        assert caps[..j] == [];
      } else {
        var j' := KeptFrom(rest, k - 1);
        j := j' + 1;
        KeptCons(caps, j);
      }
    } else {
      assert Kept(caps) == Kept(rest);
      var j' := KeptFrom(rest, k);
      j := j' + 1;
      KeptCons(caps, j);
    }
  }

  /** The captures kept from a prefix, by its first capture. */
  lemma KeptCons(caps: seq<Capture>, j: nat)
    requires 0 < j <= |caps|
    ensures Kept(caps[..j]) == (if Decodes(caps[0]) then [caps[0]] else []) + Kept(caps[1..][..j - 1])
  {
    assert caps[..j][1..] == caps[1..][..j - 1];
  }

  /** Keeping distributes over concatenation. */
  lemma {:induction false} KeptAppend(a: seq<Capture>, b: seq<Capture>)
    ensures Kept(a + b) == Kept(a) + Kept(b)
  {
    if a == [] {
      assert a + b == b;
    } else {
      assert (a + b)[1..] == a[1..] + b;
      KeptAppend(a[1..], b);
    }
  }

  /**
   * The converse of `KeptFrom`: every capture that decodes is kept, at the
   * position given by the number of captures before it that decode.
   */
  lemma KeptIndex(caps: seq<Capture>, j: nat) returns (k: nat)
    requires j < |caps| && Decodes(caps[j])
    ensures k == |Kept(caps[..j])|
    ensures k < |Kept(caps)| && Kept(caps)[k] == caps[j]
  {
    k := |Kept(caps[..j])|;
    assert caps == caps[..j] + caps[j..];
    KeptAppend(caps[..j], caps[j..]);
    assert caps[j..] == [caps[j]] + caps[j + 1..];
    assert Kept(caps[j..]) == [caps[j]] + Kept(caps[j + 1..]);
  }

  /** A later capture that decodes is kept at a later position: keeping preserves order. */
  lemma KeptOrder(caps: seq<Capture>, i: nat, j: nat)
    requires i < j <= |caps| && Decodes(caps[i])
    ensures |Kept(caps[..i])| < |Kept(caps[..j])|
  {
    assert caps[..j] == caps[..i] + caps[i..j];
    KeptAppend(caps[..i], caps[i..j]);
    assert caps[i..j] == [caps[i]] + caps[i + 1..j];
    assert Kept(caps[i..j]) == [caps[i]] + Kept(caps[i + 1..j]);
  }

  /**
   * A record built from a captured match: "extracted-n", both raw times end
   * in four digits that are its start and end in minutes, its locations are
   * the codes' three capitals, its aircraft is `AS` and digits, and its
   * pads are never empty: an absent pad reads "TBD", an absent operator or
   * crew "Parsed from PDF".
   */
  lemma RecordOfShape(c: Capture, n: nat)
    requires CaptureShape(c) && Decodes(c)
    ensures var f := RecordOf(c, n);
      && f.id == Extracted(n)
      && TimeShape(f.rawEtd) && IsDigit(f.rawEtd[|f.rawEtd| - 4])
      && TimeShape(f.rawEta) && IsDigit(f.rawEta[|f.rawEta| - 4])
      && f.from == f.rawEtd[..3] && f.to == f.rawEta[..3]
      && f.start == TwoDigits(f.rawEtd, |f.rawEtd| - 4) * 60 + TwoDigits(f.rawEtd, |f.rawEtd| - 2)
      && f.end == TwoDigits(f.rawEta, |f.rawEta| - 4) * 60 + TwoDigits(f.rawEta, |f.rawEta| - 2)
      && f.duration == f.end - f.start
      && AircraftShape(f.aircraft)
      && f.takeoffPad != "" && f.landingPad != ""
      && (c.takeoffPad.None? ==> f.takeoffPad == "TBD") && (c.landingPad.None? ==> f.landingPad == "TBD")
      && (c.operator.None? ==> f.operator == "Parsed from PDF") && (c.crew.None? ==> f.crew == "Parsed from PDF")
  {
    TimeShapeDecodes(c.etd);
    TimeShapeDecodes(c.eta);
  }

  /** The `k`-th record of the pass is `RecordOf` a captured match, numbered `k`. */
  lemma ExtractedFrom(text: string, k: nat) returns (c: Capture)
    requires k < |Extract(Matches(text, 0), 0)|
    ensures CaptureShape(c) && Decodes(c)
    ensures Extract(Matches(text, 0), 0)[k] == RecordOf(c, k)
  {
    var caps := Matches(text, 0);
    ExtractLength(caps, 0);
    ExtractAt(caps, 0, k, k);
    var j := KeptFrom(caps, k);
    MatchesShape(text, 0, j);
    c := caps[j];
  }

  // ---------------------------------------------------------------------
  // A laid-out line is found
  // ---------------------------------------------------------------------

  /** A time code written as three capitals, a hyphen and four digits: "PDR-0930". */
  predicate TimeToken(t: string) {
    && |t| == 8 && IsUpper(t[0]) && IsUpper(t[1]) && IsUpper(t[2]) && t[3] == '-'
    && IsDigit(t[4]) && IsDigit(t[5]) && IsDigit(t[6]) && IsDigit(t[7])
  }

  /** Non-empty white space. */
  predicate Gap(g: string) {
    g != [] && forall m :: 0 <= m < |g| ==> IsSpace(g[m])
  }

  /** A time token followed by a non-digit is scanned as a whole. */
  lemma TimeCodeAt(s: string, p: nat)
    requires p + 8 <= |s| && TimeToken(s[p..p + 8]) && (p + 8 == |s| || !IsDigit(s[p + 8]))
    ensures TimeCodeEnd(s, p) == Some(p + 8)
  {
    var t := s[p..p + 8];
    assert t[3] == s[p + 3] && t[4] == s[p + 4];
    assert SkipSpaces(s, p + 3) == p + 3;
    assert SkipSpaces(s, p + 4) == p + 4;
    assert DigitsStart(s, p) == p + 4;
    forall m | p + 4 <= m < p + 8 ensures IsDigit(s[m]) {
      assert s[m] == t[m - p];
    }
    RunEndTo(s, p + 4, p + 8, Digits);
  }

  /** Nothing is found at the end of the text. */
  lemma MatchesAtEnd(s: string)
    ensures Matches(s, |s|) == []
  {
    assert TimeCodeEnd(s, |s|).None?;
    assert MatchAt(s, |s|).None?;
  }

  /**
   * A time token at 0, white space, a time token at `b`, white space, and
   * `AS` and digits from `d` to the end: one match over the whole text.
   */
  lemma MatchLaidOut(s: string, b: nat, d: nat)
    requires 8 < b && b + 8 < d && d + 3 <= |s|
    requires TimeToken(s[..8]) && TimeToken(s[b..b + 8])
    requires SpaceRun(s, 8, b) && SpaceRun(s, b + 8, d)
    requires s[d] == 'A' && s[d + 1] == 'S' && forall m :: d + 2 <= m < |s| ==> IsDigit(s[m])
    ensures MatchAt(s, 0) == Some(Hit(Capture(s[..8], s[b..b + 8], s[d..], None, None, None, None), |s|))
  {
    SkeletonLaidOut(s, b, d);
    MatchToEnd(s, Spans(8, b, b + 8, d, |s|));
    assert s[..8] == s[0..8] && s[d..|s|] == s[d..];
  }

  /** The mandatory part of the laid-out text spans all of it. */
  lemma SkeletonLaidOut(s: string, b: nat, d: nat)
    requires 8 < b && b + 8 < d && d + 3 <= |s|
    requires TimeToken(s[..8]) && TimeToken(s[b..b + 8])
    requires SpaceRun(s, 8, b) && SpaceRun(s, b + 8, d)
    requires s[d] == 'A' && s[d + 1] == 'S' && forall m :: d + 2 <= m < |s| ==> IsDigit(s[m])
    ensures Skeleton(s, 0) == Some(Spans(8, b, b + 8, d, |s|))
  {
    assert s[..8] == s[0..0 + 8];
    assert IsSpace(s[8]) && IsSpace(s[b + 8]);
    TimeCodeAt(s, 0);
    TimeCodeAt(s, b);
    SkeletonComplete(s, 0, 8, b, b + 8, d);
    RunEndTo(s, d + 2, |s|, Digits);
  }

  /** A skeleton that runs to the end of the text is the whole match, with no optional group. */
  lemma MatchToEnd(s: string, sp: Spans)
    requires Skeleton(s, 0) == Some(sp) && sp.aircraftEnd == |s|
    ensures MatchAt(s, 0) == Some(Hit(Capture(s[0..sp.etdEnd], s[sp.etaStart..sp.etaEnd], s[sp.aircraftStart..|s|],
                                              None, None, None, None), |s|))
  {
    NoGroupAtEnd(s, Codes);
    NoGroupAtEnd(s, Words);
  }

  /** No optional group takes part at the end of the text. */
  lemma NoGroupAtEnd(s: string, k: CharClass)
    ensures OptionalGroup(s, |s|, k) == Group(None, |s|)
  {
  }

  /** A gap placed between two texts is a white-space run there. */
  lemma GapRun(x: string, g: string, y: string)
    requires Gap(g)
    ensures SpaceRun(x + g + y, |x|, |x| + |g|)
  {
    var s := x + g + y;
    forall m | |x| <= m < |x| + |g| ensures IsSpace(s[m]) {
      assert s[m] == g[m - |x|];
    }
  }

  /** `etd gap eta gap aircraft` matches once, with no optional group. */
  lemma LaidOutMatches(etd: string, g1: string, eta: string, g2: string, aircraft: string)
    requires TimeToken(etd) && TimeToken(eta) && AircraftShape(aircraft) && Gap(g1) && Gap(g2)
    ensures Matches(etd + g1 + eta + g2 + aircraft, 0) == [Capture(etd, eta, aircraft, None, None, None, None)]
  {
    var s := etd + g1 + eta + g2 + aircraft;
    var b := 8 + |g1|;
    var d := b + 8 + |g2|;
    Layout(etd, g1, eta, g2, aircraft);
    MatchLaidOut(s, b, d);
    MatchesWhole(s, Capture(etd, eta, aircraft, None, None, None, None));
  }

  /** Where the parts of `etd gap eta gap aircraft` lie. */
  lemma Layout(etd: string, g1: string, eta: string, g2: string, aircraft: string)
    requires TimeToken(etd) && TimeToken(eta) && AircraftShape(aircraft) && Gap(g1) && Gap(g2)
    ensures var s := etd + g1 + eta + g2 + aircraft;
      var b := 8 + |g1|;
      var d := b + 8 + |g2|;
      && 8 < b && b + 8 < d && d + 3 <= |s|
      && s[..8] == etd && s[b..b + 8] == eta && s[d..] == aircraft
      && SpaceRun(s, 8, b) && SpaceRun(s, b + 8, d)
      && s[d] == 'A' && s[d + 1] == 'S' && forall m :: d + 2 <= m < |s| ==> IsDigit(s[m])
  {
    var s := etd + g1 + eta + g2 + aircraft;
    var d := 16 + |g1| + |g2|;
    assert s == etd + g1 + (eta + g2 + aircraft);
    GapRun(etd, g1, eta + g2 + aircraft);
    GapRun(etd + g1 + eta, g2, aircraft);
    forall m | d <= m < |s| ensures s[m] == aircraft[m - d] {
    }
  }

  /** A match that runs to the end of the text is the only one. */
  lemma MatchesWhole(s: string, c: Capture)
    requires MatchAt(s, 0) == Some(Hit(c, |s|))
    ensures Matches(s, 0) == [c]
  {
    MatchesAtEnd(s);
  }

  /** The newline replacement leaves the tokens alone and keeps the gaps white space. */
  lemma NormalizedLayout(etd: string, g1: string, eta: string, g2: string, aircraft: string)
    requires TimeToken(etd) && TimeToken(eta) && AircraftShape(aircraft) && Gap(g1) && Gap(g2)
    ensures NewlinesToSpaces(etd + g1 + eta + g2 + aircraft)
         == etd + NewlinesToSpaces(g1) + eta + NewlinesToSpaces(g2) + aircraft
    ensures Gap(NewlinesToSpaces(g1)) && Gap(NewlinesToSpaces(g2))
  {
    NewlinesToSpacesAppend(etd + g1 + eta + g2, aircraft);
    NewlinesToSpacesAppend(etd + g1 + eta, g2);
    NewlinesToSpacesAppend(etd + g1, eta);
    NewlinesToSpacesAppend(etd, g1);
    KeepsToken(etd);
    KeepsToken(eta);
    KeepsToken(aircraft);
    SpacesStayGap(g1);
    SpacesStayGap(g2);
  }

  /**
   * The unstructured pass finds what it is written for: a text holding only
   * an ETD, an ETA and an aircraft, separated by white space (newlines
   * included), yields exactly one record, numbered "extracted-0", with the
   * two times read as HHMM and every optional field defaulted.
   */
  lemma LaidOutRecord(etd: string, g1: string, eta: string, g2: string, aircraft: string)
    requires TimeToken(etd) && TimeToken(eta) && AircraftShape(aircraft) && Gap(g1) && Gap(g2)
    ensures var start := TwoDigits(etd, 4) * 60 + TwoDigits(etd, 6);
            var end := TwoDigits(eta, 4) * 60 + TwoDigits(eta, 6);
            Extract(Matches(NewlinesToSpaces(etd + g1 + eta + g2 + aircraft), 0), 0)
            == [Flight(Extracted(0), etd[..3], eta[..3], start, end, end - start, aircraft,
                       "TBD", "TBD", "Parsed from PDF", "Parsed from PDF", etd, eta)]
  {
    var c := Capture(etd, eta, aircraft, None, None, None, None);
    NormalizedLayout(etd, g1, eta, g2, aircraft);
    LaidOutMatches(etd, NewlinesToSpaces(g1), eta, NewlinesToSpaces(g2), aircraft);
    TokenRecord(etd, eta, aircraft);
    ExtractSingle(c);
  }

  /** The record of a bare capture of two time tokens and an aircraft. */
  lemma TokenRecord(etd: string, eta: string, aircraft: string)
    requires TimeToken(etd) && TimeToken(eta)
    ensures var c := Capture(etd, eta, aircraft, None, None, None, None);
            var start := TwoDigits(etd, 4) * 60 + TwoDigits(etd, 6);
            var end := TwoDigits(eta, 4) * 60 + TwoDigits(eta, 6);
            Decodes(c) && RecordOf(c, 0) == Flight(Extracted(0), etd[..3], eta[..3], start, end, end - start, aircraft,
                                                   "TBD", "TBD", "Parsed from PDF", "Parsed from PDF", etd, eta)
  {
    assert TimeShape(etd) && TimeShape(eta);
    TimeShapeDecodes(etd);
    TimeShapeDecodes(eta);
  }

  /** One capture that decodes gives one record, numbered from the counter. */
  lemma ExtractSingle(c: Capture)
    requires Decodes(c)
    ensures Extract([c], 0) == [RecordOf(c, 0)]
  {
    assert Extract([c], 0) == [RecordOf(c, 0)] + Extract([], 1);
  }

  /** A token without newlines is left as it is. */
  lemma KeepsToken(t: string)
    requires forall m :: 0 <= m < |t| ==> t[m] != '\n'
    ensures NewlinesToSpaces(t) == t
  {
  }

  /** White space stays white space. */
  lemma SpacesStayGap(g: string)
    requires Gap(g)
    ensures Gap(NewlinesToSpaces(g))
  {
  }
}

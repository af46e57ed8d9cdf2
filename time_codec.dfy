/**
 * The time codec of the scheduler (src/App.jsx:31-46): `parseTime` reads the
 * first run of four ASCII digits of a token as HHMM and returns minutes of the
 * day, with no range check; `formatTime` renders minutes as zero-padded HH:MM.
 */
module TimeCodec {
  import opened Wrappers
  import opened Text

  /** The largest value `ParseTime` can return: "9999" is 99 hours and 99 minutes. */
  const MaxDecoded: int := 99 * 60 + 99

  /** Four ASCII digits start at position `i` of `s`. */
  predicate FourDigitsAt(s: string, i: int) {
    0 <= i && i + 4 <= |s| && IsDigit(s[i]) && IsDigit(s[i + 1]) && IsDigit(s[i + 2]) && IsDigit(s[i + 3])
  }

  /** Four digits start at `i` and at no earlier position: where `/(\d{4})/` matches. */
  predicate FirstRunAt(s: string, i: int) {
    FourDigitsAt(s, i) && forall j :: 0 <= j < i ==> !FourDigitsAt(s, j)
  }

  function DigitValue(c: char): (d: nat)
    requires IsDigit(c)
    ensures d < 10
  {
    (c as int) - ('0' as int)
  }

  function DigitChar(d: nat): (c: char)
    requires d < 10
    ensures IsDigit(c) && DigitValue(c) == d
  {
    (('0' as int) + d) as char
  }

  /** `parseInt(s.substring(i, i + 2), 10)` on two digits. */
  function TwoDigits(s: string, i: nat): (v: nat)
    requires i + 2 <= |s| && IsDigit(s[i]) && IsDigit(s[i + 1])
    ensures v < 100
  {
    10 * DigitValue(s[i]) + DigitValue(s[i + 1])
  }

  /** The leftmost position at or after `from` where four digits start. */
  function FindFourDigits(s: string, from: nat): (r: Option<nat>)
    requires from <= |s|
    ensures r.Some? ==> from <= r.value && FourDigitsAt(s, r.value)
    decreases |s| - from
  {
    if from + 4 > |s| then None
    else if FourDigitsAt(s, from) then Some(from)
    else FindFourDigits(s, from + 1)
  }

  /** The search finds the leftmost run of four digits, and finds none only when there is none. */
  lemma {:induction false} FindFourDigitsLeftmost(s: string, from: nat)
    requires from <= |s|
    ensures var r := FindFourDigits(s, from);
            (r.Some? ==> forall j :: from <= j < r.value ==> !FourDigitsAt(s, j))
            && (r.None? ==> forall j :: from <= j ==> !FourDigitsAt(s, j))
    decreases |s| - from
  {
    if from + 4 <= |s| && !FourDigitsAt(s, from) {
      FindFourDigitsLeftmost(s, from + 1);
    }
  }

  /**
   * `parseTime`: the first run of four digits read as hours (first two) and
   * minutes (last two). Neither part is range-checked, so "2500" is 1500 and
   * "0975" is 615. No run of four digits (the empty token included) gives None.
   */
  function ParseTime(token: string): (r: Option<int>)
    ensures r.Some? ==> 0 <= r.value <= MaxDecoded
  {
    if token == [] then None
    else
      match FindFourDigits(token, 0)
      case None => None
      case Some(i) =>
        var hours := TwoDigits(token, i);
        var minutes := TwoDigits(token, i + 2);
        Some(hours * 60 + minutes)
  }

  /**
   * What `ParseTime` decodes: nothing exactly when the token has no run of
   * four digits, otherwise the first such run read as HHMM.
   */
  lemma ParseTimeSpec(token: string)
    ensures ParseTime(token).None? <==> forall j :: !FourDigitsAt(token, j)
    ensures forall i :: FirstRunAt(token, i) ==>
              ParseTime(token) == Some(TwoDigits(token, i) * 60 + TwoDigits(token, i + 2))
  {
    if token != [] {
      FindFourDigitsLeftmost(token, 0);
      match FindFourDigits(token, 0)
      case None =>
      case Some(i) =>
        assert forall i' :: FirstRunAt(token, i') ==> i' == i;
    }
  }

  /** A token holding four digits anywhere always decodes. */
  lemma FourDigitsDecode(token: string, q: int)
    requires FourDigitsAt(token, q)
    ensures ParseTime(token).Some?
  {
    ParseTimeSpec(token);
  }

  /** `n.toString()` for a natural number. */
  function NatToString(n: nat): (r: string)
    ensures |r| >= 1
  {
    if n < 10 then [DigitChar(n)] else NatToString(n / 10) + [DigitChar(n % 10)]
  }

  /** `n.toString()` for an integer. */
  function IntToString(n: int): (r: string)
    ensures |r| >= 1
  {
    if n < 0 then "-" + NatToString(-n) else NatToString(n)
  }

  /** `s.padStart(2, '0')`. */
  function Pad2(s: string): (r: string)
    ensures |r| == if |s| >= 2 then |s| else 2
  {
    if |s| >= 2 then s else if |s| == 1 then "0" + s else "00"
  }

  /** JavaScript's `a % b`: the remainder of division truncated toward zero, negative for negative `a`. */
  function JsRemainder(a: int, b: int): (r: int)
    requires b > 0
    ensures a == b * (if a >= 0 then a / b else -((-a) / b)) + r
    ensures -b < r < b
  {
    if a >= 0 then a % b else -((-a) % b)
  }

  /**
   * `formatTime`: "--:--" for a missing value, otherwise hours (`Math.floor(m / 60)`,
   * which is Dafny's `/` for a positive divisor) and the JavaScript remainder,
   * each padded to two characters.
   */
  function FormatTime(minutes: Option<int>): (r: string)
    ensures minutes.Some? && 0 <= minutes.value < 6000 ==> |r| == 5 && r[2] == ':'
    ensures minutes.None? ==> r == "--:--"
    ensures minutes.None? ==> ':' in r && forall k :: 0 <= k < |r| ==> !IsDigit(r[k])
  {
    match minutes
    case None => "--:--"
    case Some(m) =>
      var h := m / 60;
      var mm := JsRemainder(m, 60);
      PadDigits(h);
      PadDigits(mm);
      Pad2(IntToString(h)) + ":" + Pad2(IntToString(mm))
  }

  /** A number below 100 renders, zero-padded, as its two decimal digits. */
  lemma PadDigits(n: int)
    ensures 0 <= n < 100 ==> Pad2(IntToString(n)) == [DigitChar(n / 10), DigitChar(n % 10)]
  {
    if 10 <= n < 100 {
      assert NatToString(n / 10) == [DigitChar(n / 10)];
    }
  }

  /**
   * For 0 <= m < 6000 the rendering is five characters "HH:MM", and deleting
   * the colon gives a token that `ParseTime` decodes back to m.
   */
  lemma FormatParseRoundTrip(m: int)
    requires 0 <= m < 6000
    ensures var r := FormatTime(Some(m));
            |r| == 5 && r[2] == ':' && ParseTime(r[..2] + r[3..]) == Some(m)
  {
    var r := FormatTime(Some(m));
    var h, mm := m / 60, m % 60;
    PadDigits(h);
    PadDigits(mm);
    var token := r[..2] + r[3..];
    assert token == [DigitChar(h / 10), DigitChar(h % 10), DigitChar(mm / 10), DigitChar(mm % 10)];
    assert FirstRunAt(token, 0);
    ParseTimeSpec(token);
    assert TwoDigits(token, 0) == h;
    assert TwoDigits(token, 2) == mm;
  }

  /**
   * The other direction: a four-digit token whose minute part is below 60
   * decodes to a value that renders as the same digits with a colon inserted.
   */
  lemma ParseFormatRoundTrip(token: string)
    requires |token| == 4 && FourDigitsAt(token, 0)
    requires TwoDigits(token, 2) < 60
    ensures ParseTime(token) == Some(TwoDigits(token, 0) * 60 + TwoDigits(token, 2))
    ensures FormatTime(ParseTime(token)) == token[..2] + ":" + token[2..]
  {
    assert FirstRunAt(token, 0);
    ParseTimeSpec(token);
    var h, mm := TwoDigits(token, 0), TwoDigits(token, 2);
    var m := h * 60 + mm;
    assert m / 60 == h && m % 60 == mm;
    PadDigits(h);
    PadDigits(mm);
    assert DigitChar(h / 10) == token[0] && DigitChar(h % 10) == token[1];
    assert DigitChar(mm / 10) == token[2] && DigitChar(mm % 10) == token[3];
  }

  /** "2500" is accepted as 25 hours: 1500 minutes (no hour check). */
  lemma ImpossibleHourAccepted()
    ensures ParseTime("PDR-2500") == Some(1500)
  {
    assert FirstRunAt("PDR-2500", 4);
    ParseTimeSpec("PDR-2500");
  }

  /** "0975" is accepted as 9 hours 75 minutes: 615 minutes (no minute check). */
  lemma ImpossibleMinuteAccepted()
    ensures ParseTime("0975") == Some(615)
  {
    assert FirstRunAt("0975", 0);
    ParseTimeSpec("0975");
  }

  /** A token with no run of four digits, such as "PDR-INVALID", does not decode. */
  lemma InvalidTokenRejected()
    ensures ParseTime("PDR-INVALID") == None
  {
    var t := "PDR-INVALID";
    assert forall k :: 0 <= k < |t| ==> !IsDigit(t[k]);
    ParseTimeSpec(t);
  }
}

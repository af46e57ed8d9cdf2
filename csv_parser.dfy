/**
 * The structured pass of the record parser: `parseCSVLine`
 * (src/App.jsx:52-100). A line is trimmed, skipped when blank or a
 * "Pickup" section header, split into columns by a quote-aware regular
 * expression, searched for the first column that looks like an ETD
 * ("PDR-0930"), and read positionally from there.
 *
 * The regular expressions are written out as scanners:
 *   the column tokenizer  /(".*?"|[^",\s]+)(?=\s*,|\s*$)/g   (line 56)
 *   the ETD test          /[A-Z]{3}\s*-\s*\d{4}/             (line 59)
 *   the location prefix   /^([A-Z]{3})/                       (lines 69-70)
 */
module CsvParser {
  import opened Wrappers
  import opened Text
  import opened TimeCodec
  import opened Flights

  // ---------------------------------------------------------------------
  // The column tokenizer
  // ---------------------------------------------------------------------

  /** The lookahead `(?=\s*,|\s*$)` succeeds at position `j`. */
  predicate LookaheadOk(s: string, j: nat)
    requires j <= |s|
  {
    var k := SkipSpaces(s, j);
    k == |s| || s[k] == ','
  }

  /** The class `[^",\s]`. */
  predicate IsBare(c: char) {
    c != '"' && c != ',' && !IsSpace(c)
  }

  /** Where a greedy `[^",\s]+` that starts at `i` stops. */
  function BareRunEnd(s: string, i: nat): (j: nat)
    requires i <= |s|
    ensures i <= j <= |s|
    ensures j == |s| || !IsBare(s[j])
    ensures forall k :: i <= k < j ==> IsBare(s[k])
    decreases |s| - i
  {
    if i == |s| || !IsBare(s[i]) then i else BareRunEnd(s, i + 1)
  }

  /**
   * The lazy `.*?"` of a quoted token, scanning from `q`: the end of the
   * first closing quote that the lookahead accepts. `.` does not cross a
   * line terminator, but it does cross a quote the lookahead rejects.
   */
  function ClosingQuote(s: string, q: nat): (r: Option<nat>)
    requires q <= |s|
    ensures r.Some? ==> q < r.value <= |s| && s[r.value - 1] == '"' && LookaheadOk(s, r.value)
    ensures r.Some? ==> forall k :: q <= k < r.value - 1 ==> !IsLineTerminator(s[k])
    ensures r.Some? ==> forall k :: q <= k < r.value - 1 ==> !(s[k] == '"' && LookaheadOk(s, k + 1))
    ensures r.None? ==> forall k :: q <= k < |s| && s[k] == '"' && LookaheadOk(s, k + 1) ==>
              exists t :: q <= t < k && IsLineTerminator(s[t])
    decreases |s| - q
  {
    if q == |s| then None
    else if s[q] == '"' && LookaheadOk(s, q + 1) then Some(q + 1)
    else if IsLineTerminator(s[q]) then None
    else ClosingQuote(s, q + 1)
  }

  /** The end of the tokenizer's match that starts at `p`, if there is one. */
  function TokenAt(s: string, p: nat): (r: Option<nat>)
    requires p < |s|
    ensures r.Some? ==> p < r.value <= |s| && LookaheadOk(s, r.value)
  {
    if s[p] == '"' then ClosingQuote(s, p + 1)
    else if !IsBare(s[p]) then None
    else
      var q := BareRunEnd(s, p);
      if LookaheadOk(s, q) then Some(q) else None
  }

  /** `s.match(re)` with the global flag, from position `p`: every match, left to right, none overlapping. */
  function Tokens(s: string, p: nat): (ms: seq<string>)
    requires p <= |s|
    ensures forall k :: 0 <= k < |ms| ==> ms[k] != []
    ensures |ms| <= |s| - p
    decreases |s| - p
  {
    if p == |s| then []
    else
      match TokenAt(s, p)
      case Some(q) => [s[p..q]] + Tokens(s, q)
      case None => Tokens(s, p + 1)
  }

  /** `s.replace(/^"|"$/g, '')`: drop a leading and a trailing quote (a lone `"` becomes empty). */
  function StripQuotes(s: string): (r: string)
    ensures |r| <= |s|
  {
    var lead := |s| >= 1 && s[0] == '"';
    var trail := |s| >= 2 && s[|s| - 1] == '"';
    s[(if lead then 1 else 0)..|s| - (if trail then 1 else 0)]
  }

  /** `s.replace(/^,/, '')`. */
  function DropLeadingComma(s: string): string {
    if |s| >= 1 && s[0] == ',' then s[1..] else s
  }

  /** The cleaning applied to each match (line 57). */
  function CleanColumn(m: string): string {
    Trim(DropLeadingComma(StripQuotes(m)))
  }

  /** The columns of a trimmed line: the tokenizer's matches, or `split(',')` when there are none, each cleaned (lines 56-57). */
  function Columns(clean: string): (cols: seq<string>)
    ensures |cols| >= 1
  {
    var ms := Tokens(clean, 0);
    CleanAll(if ms == [] then Split(clean, ',') else ms)
  }

  /** `raw.map(CleanColumn)`. */
  function CleanAll(raw: seq<string>): (cols: seq<string>)
    ensures |cols| == |raw|
    ensures forall k :: 0 <= k < |raw| ==> cols[k] == CleanColumn(raw[k])
  {
    if raw == [] then [] else [CleanColumn(raw[0])] + CleanAll(raw[1..])
  }

  // ---------------------------------------------------------------------
  // Column tests
  // ---------------------------------------------------------------------

  /** `[A-Z]{3}\s*-\s*\d{4}` matches at position `p` of `c`. */
  predicate EtdAt(c: string, p: nat) {
    p + 3 <= |c| && IsUpper(c[p]) && IsUpper(c[p + 1]) && IsUpper(c[p + 2])
    && var k := SkipSpaces(c, p + 3);
       k < |c| && c[k] == '-' && FourDigitsAt(c, SkipSpaces(c, k + 1))
  }

  /** The ETD test of line 59: the pattern matches somewhere in the column. */
  predicate HasEtd(c: string) {
    exists p :: 0 <= p < |c| && EtdAt(c, p)
  }

  /** `cols.findIndex(...)` from `i`: the first ETD-like column. */
  function FindEtdColumn(cols: seq<string>, i: nat): (r: Option<nat>)
    requires i <= |cols|
    ensures r.Some? ==> i <= r.value < |cols| && HasEtd(cols[r.value])
    ensures r.Some? ==> forall j :: i <= j < r.value ==> !HasEtd(cols[j])
    ensures r.None? ==> forall j :: i <= j < |cols| ==> !HasEtd(cols[j])
    decreases |cols| - i
  {
    if i == |cols| then None
    else if HasEtd(cols[i]) then Some(i)
    else FindEtdColumn(cols, i + 1)
  }

  /** `cols[j]`, where an index outside the array reads `undefined`, which every use treats like "". */
  function Col(cols: seq<string>, j: int): string {
    if 0 <= j < |cols| then cols[j] else ""
  }

  /** JavaScript's `s || d` on a string. */
  function OrElse(s: string, d: string): (r: string)
    ensures s != "" ==> r == s
    ensures s == "" ==> r == d
    ensures d != "" ==> r != ""
  {
    if s == "" then d else s
  }

  /** `s.match(/^([A-Z]{3})/)`: three leading capital letters. */
  function LeadingCode(s: string): (r: Option<string>)
    ensures r.Some? ==> |r.value| == 3 && StartsWith(s, r.value)
    ensures r.None? <==> !(|s| >= 3 && IsUpper(s[0]) && IsUpper(s[1]) && IsUpper(s[2]))
  {
    if |s| >= 3 && IsUpper(s[0]) && IsUpper(s[1]) && IsUpper(s[2]) then Some(s[..3]) else None
  }

  /** Blank lines and "Pickup" section headers contribute nothing (line 54). */
  predicate IsSkipped(clean: string) {
    clean == [] || StartsWith(clean, "\"Pickup") || StartsWith(clean, "Pickup")
  }

  // ---------------------------------------------------------------------
  // parseCSVLine
  // ---------------------------------------------------------------------

  /**
   * `parseCSVLine(line, index)`. A record carries the line's index as its id,
   * both decoded times with their raw tokens, `duration = end - start` even
   * when that is zero or negative, and never an empty aircraft or pad.
   */
  function ParseCsvLine(line: string, index: nat): (r: Option<Flight>)
    ensures r.Some? ==> r.value.id == LineIndex(index)
    ensures r.Some? ==> ParseTime(r.value.rawEtd) == Some(r.value.start)
    ensures r.Some? ==> ParseTime(r.value.rawEta) == Some(r.value.end)
    ensures r.Some? ==> r.value.duration == r.value.end - r.value.start
    ensures r.Some? ==> HasEtd(r.value.rawEtd) && r.value.rawEta != ""
    ensures r.Some? ==> r.value.aircraft != "" && r.value.takeoffPad != "" && r.value.landingPad != ""
    ensures r.Some? ==> r.value.from != "" && r.value.to != ""
    ensures r.Some? ==> !IsSkipped(Trim(line))
  {
    var clean := Trim(line);
    if IsSkipped(clean) then None
    else
      RecordOf(Columns(clean), index)
  }

  /**
   * What the columns of a line must offer for a record: some column passes
   * the ETD test, and after the first such one the ETA and aircraft columns
   * are present and non-empty and the ETA decodes.
   */
  predicate Accepts(cols: seq<string>) {
    match FindEtdColumn(cols, 0)
    case None => false
    case Some(i) => Col(cols, i + 1) != "" && Col(cols, i + 2) != "" && ParseTime(Col(cols, i + 1)).Some?
  }

  /** The record of a line's columns: read from the first ETD-like column, if there is one. */
  function RecordOf(cols: seq<string>, index: nat): (r: Option<Flight>)
    ensures r.Some? <==> Accepts(cols)
    ensures r.Some? ==> r == RecordAt(cols, FindEtdColumn(cols, 0).value, index)
  {
    match FindEtdColumn(cols, 0)
    case None => None
    case Some(i) => RecordAt(cols, i, index)
  }

  /**
   * The record read positionally from the columns, `i` being the ETD column
   * (lines 63-97): None when the ETA or aircraft column is missing or empty,
   * or when a time does not decode.
   */
  function RecordAt(cols: seq<string>, i: nat, index: nat): (r: Option<Flight>)
    requires i < |cols| && HasEtd(cols[i])
    ensures r.Some? <==> Col(cols, i + 1) != "" && Col(cols, i + 2) != "" && ParseTime(Col(cols, i + 1)).Some?
    ensures r.Some? ==> r.value.id == LineIndex(index)
    ensures r.Some? ==> ParseTime(r.value.rawEtd) == Some(r.value.start)
    ensures r.Some? ==> ParseTime(r.value.rawEta) == Some(r.value.end)
    ensures r.Some? ==> r.value.duration == r.value.end - r.value.start
    ensures r.Some? ==> HasEtd(r.value.rawEtd) && r.value.rawEta != ""
    ensures r.Some? ==> r.value.aircraft != "" && r.value.takeoffPad != "" && r.value.landingPad != ""
    ensures r.Some? ==> r.value.from != "" && r.value.to != ""
  {
    var etdRaw := cols[i];
    var etaRaw := Col(cols, i + 1);
    var aircraft := Col(cols, i + 2);
    if etaRaw == "" || aircraft == "" then None
    else
      var from := match LeadingCode(etdRaw) case Some(code) => code case None => OrElse(Col(cols, i - 2), "UNK");
      var to := match LeadingCode(etaRaw) case Some(code) => code case None => OrElse(Col(cols, i - 1), "UNK");
      var takeoffPad := OrElse(Col(cols, i + 3), "Unknown");
      var landingPad := OrElse(Col(cols, i + 4), "Unknown");
      var operator := OrElse(Col(cols, i + 5), "");
      var crew := OrElse(Col(cols, i + 6), "");
      EtdDecodes(etdRaw);
      match (ParseTime(etdRaw), ParseTime(etaRaw))
      case (Some(start), Some(end)) =>
        Some(Flight(LineIndex(index), from, to, start, end, end - start, aircraft,
                    takeoffPad, landingPad, operator, crew, etdRaw, etaRaw))
      case _ => None
  }

  // ---------------------------------------------------------------------
  // Properties
  // ---------------------------------------------------------------------

  /** A column that passes the ETD test always holds four digits, so its time always decodes. */
  lemma EtdDecodes(c: string)
    requires HasEtd(c)
    ensures ParseTime(c).Some?
  {
    var p :| 0 <= p < |c| && EtdAt(c, p);
    EtdAtDecodes(c, p);
  }

  lemma EtdAtDecodes(c: string, p: nat)
    requires EtdAt(c, p)
    ensures ParseTime(c).Some?
  {
    var k := SkipSpaces(c, p + 3);
    var q := SkipSpaces(c, k + 1);
    FourDigitsDecode(c, q);
  }

  /**
   * Exactly when a line yields a record: it is neither blank nor a header,
   * some column passes the ETD test, the two columns after the first such
   * one (ETA, aircraft) are present and non-empty, and the ETA decodes.
   * The ETD's own decoding never fails, and the ETA column need not look
   * like an ETD.
   */
  lemma ParseCsvLineAccepts(line: string, index: nat)
    ensures ParseCsvLine(line, index).Some? <==> !IsSkipped(Trim(line)) && Accepts(Columns(Trim(line)))
  {
    var clean := Trim(line);
    if !IsSkipped(clean) {
      assert ParseCsvLine(line, index) == RecordOf(Columns(clean), index);
    }
  }

  /**
   * Where the fields of a record come from: with `i` the first ETD column,
   * ETD, ETA and aircraft are columns i..i+2, the pads columns i+3 and i+4
   * (default "Unknown"), operator and crew i+5 and i+6 (default ""); `from`
   * and `to` are the leading three capitals of ETD and ETA, else column i-2
   * or i-1, else "UNK".
   */
  lemma ParseCsvLineFields(line: string, index: nat)
    requires ParseCsvLine(line, index).Some?
    ensures var cols := Columns(Trim(line));
            && FindEtdColumn(cols, 0).Some?
            && ParseCsvLine(line, index) == RecordAt(cols, FindEtdColumn(cols, 0).value, index)
            && RecordFields(cols, FindEtdColumn(cols, 0).value, ParseCsvLine(line, index).value)
  {
    var cols := Columns(Trim(line));
    var i := FindEtdColumn(cols, 0).value;
    RecordAtFields(cols, i, index);
  }

  /** The positional reading of lines 63-81. */
  predicate RecordFields(cols: seq<string>, i: nat, f: Flight)
    requires i < |cols|
  {
    && f.rawEtd == cols[i] && f.rawEta == Col(cols, i + 1) && f.aircraft == Col(cols, i + 2)
    && f.takeoffPad == OrElse(Col(cols, i + 3), "Unknown")
    && f.landingPad == OrElse(Col(cols, i + 4), "Unknown")
    && f.operator == Col(cols, i + 5) && f.crew == Col(cols, i + 6)
    && f.from == (if LeadingCode(cols[i]).Some? then LeadingCode(cols[i]).value else OrElse(Col(cols, i - 2), "UNK"))
    && f.to == (if LeadingCode(Col(cols, i + 1)).Some? then LeadingCode(Col(cols, i + 1)).value else OrElse(Col(cols, i - 1), "UNK"))
  }

  lemma RecordAtFields(cols: seq<string>, i: nat, index: nat)
    requires i < |cols| && HasEtd(cols[i]) && RecordAt(cols, i, index).Some?
    ensures RecordFields(cols, i, RecordAt(cols, i, index).value)
  {
  }

  // ---------------------------------------------------------------------
  // The tokenizer on well-formed lines
  // ---------------------------------------------------------------------

  /** A field of a comma-separated line, as written: in quotes, or bare. */
  datatype Field = Quoted(text: string) | Bare(text: string)

  /**
   * The fields the tokenizer is meant for: quoted text with no quote and no
   * line break inside, or bare text with no quote, comma or white space.
   */
  predicate SimpleField(f: Field) {
    match f
    case Quoted(t) => forall k :: 0 <= k < |t| ==> t[k] != '"' && !IsLineTerminator(t[k])
    case Bare(t) => forall k :: 0 <= k < |t| ==> IsBare(t[k])
  }

  function Render(f: Field): string {
    match f
    case Quoted(t) => "\"" + t + "\""
    case Bare(t) => t
  }

  /** What the tokenizer should find: every quoted field with its quotes, every non-empty bare field, and nothing for an empty bare one. */
  function ExpectedTokens(fs: seq<Field>): seq<string> {
    if fs == [] then []
    else (if fs[0] == Bare("") then [] else [Render(fs[0])]) + ExpectedTokens(fs[1..])
  }

  lemma {:induction false} ClosingQuoteFinds(s: string, q: nat, e: nat)
    requires q < e <= |s| && s[e - 1] == '"' && LookaheadOk(s, e)
    requires forall k :: q <= k < e - 1 ==> s[k] != '"' && !IsLineTerminator(s[k])
    ensures ClosingQuote(s, q) == Some(e)
    decreases e - q
  {
    if q < e - 1 {
      ClosingQuoteFinds(s, q + 1, e);
    }
  }

  /** Every field is simple. */
  predicate AllSimple(fs: seq<Field>) {
    fs == [] || (SimpleField(fs[0]) && AllSimple(fs[1..]))
  }

  lemma {:induction false} AllSimpleFields(fs: seq<Field>)
    requires forall k :: 0 <= k < |fs| ==> SimpleField(fs[k])
    ensures AllSimple(fs)
    decreases |fs|
  {
    if fs != [] {
      assert forall k :: 0 <= k < |fs[1..]| ==> fs[1..][k] == fs[k + 1];
      AllSimpleFields(fs[1..]);
    }
  }

  /**
   * From position `p` on, `s` holds the fields `fs` separated by commas:
   * the rendering of `fs[0]`, then either the end of `s` or a comma
   * followed by the rest.
   */
  predicate LaidOut(s: string, p: nat, fs: seq<Field>)
    decreases |fs|
  {
    |fs| >= 1
    && var e := p + |Render(fs[0])|;
       e <= |s| && s[p..e] == Render(fs[0])
       && if |fs| == 1 then e == |s| else e < |s| && s[e] == ',' && LaidOut(s, e + 1, fs[1..])
  }

  /**
   * On a line of simple fields the tokenizer finds exactly the expected
   * tokens: empty unquoted fields produce no column at all, a quoted ""
   * produces an empty one, commas inside quotes stay inside the token.
   */
  lemma TokensOfSimpleLine(s: string, fs: seq<Field>)
    requires forall k :: 0 <= k < |fs| ==> SimpleField(fs[k])
    requires LaidOut(s, 0, fs)
    ensures Tokens(s, 0) == ExpectedTokens(fs)
  {
    AllSimpleFields(fs);
    TokensFrom(s, 0, fs);
  }

  lemma {:induction false} TokensFrom(s: string, p: nat, fs: seq<Field>)
    requires AllSimple(fs) && LaidOut(s, p, fs)
    ensures Tokens(s, p) == ExpectedTokens(fs)
    decreases |fs|
  {
    var e := p + |Render(fs[0])|;
    if |fs| == 1 {
      LastFieldTokens(s, p, fs);
    } else {
      TokensFrom(s, e + 1, fs[1..]);
      FirstFieldThenRest(s, p, fs, e);
    }
  }

  /** A line of one field: its token, if any, is all there is. */
  lemma LastFieldTokens(s: string, p: nat, fs: seq<Field>)
    requires AllSimple(fs) && LaidOut(s, p, fs) && |fs| == 1
    ensures Tokens(s, p) == ExpectedTokens(fs)
  {
    var e := p + |Render(fs[0])|;
    var first := if fs[0] == Bare("") then [] else [Render(fs[0])];
    LookaheadAtComma(s, e);
    FirstFieldTokens(s, p, fs[0], e);
    ExpectedTokensCons(fs);
    TokensAtEnd(s);
    assert Tokens(s, p) == first + [];
  }

  /** The inductive step: the first field's token, then the tokens after the comma. */
  lemma FirstFieldThenRest(s: string, p: nat, fs: seq<Field>, e: nat)
    requires AllSimple(fs) && LaidOut(s, p, fs) && |fs| > 1 && e == p + |Render(fs[0])|
    requires e + 1 <= |s| && Tokens(s, e + 1) == ExpectedTokens(fs[1..])
    ensures Tokens(s, p) == ExpectedTokens(fs)
  {
    var first := if fs[0] == Bare("") then [] else [Render(fs[0])];
    LookaheadAtComma(s, e);
    FirstFieldTokens(s, p, fs[0], e);
    ExpectedTokensCons(fs);
    TokensSkipComma(s, e);
    assert Tokens(s, p) == first + Tokens(s, e + 1);
  }

  lemma ExpectedTokensCons(fs: seq<Field>)
    requires fs != []
    ensures ExpectedTokens(fs) == (if fs[0] == Bare("") then [] else [Render(fs[0])]) + ExpectedTokens(fs[1..])
  {
  }

  lemma TokensAtEnd(s: string)
    ensures Tokens(s, |s|) == []
  {
  }

  /** A comma is never where a match starts. */
  lemma TokensSkipComma(s: string, e: nat)
    requires e < |s| && s[e] == ','
    ensures Tokens(s, e) == Tokens(s, e + 1)
  {
    assert TokenAt(s, e) == None;
  }

  /** A match from `p` to `q` is the first token from `p`. */
  lemma TokensStep(s: string, p: nat, q: nat)
    requires p < |s| && TokenAt(s, p) == Some(q)
    ensures Tokens(s, p) == [s[p..q]] + Tokens(s, q)
  {
  }

  lemma LookaheadAtComma(s: string, e: nat)
    requires e <= |s| && (e == |s| || s[e] == ',')
    ensures LookaheadOk(s, e)
  {
    assert SkipSpaces(s, e) == e;
  }

  /** The tokens of a rendered line begin with its first field's token, if it has one. */
  lemma FirstFieldTokens(s: string, p: nat, f: Field, e: nat)
    requires SimpleField(f) && e == p + |Render(f)|
    requires e <= |s| && s[p..e] == Render(f) && LookaheadOk(s, e)
    requires e == |s| || s[e] == ','
    ensures Tokens(s, p) == (if f == Bare("") then [] else [Render(f)]) + Tokens(s, e)
  {
    match f
    case Quoted(t) =>
      QuotedTokenAt(s, p, t);
      TokensStep(s, p, e);
    case Bare(t) =>
      if t != [] {
        BareTokenAt(s, p, t);
        TokensStep(s, p, e);
      }
  }

  lemma QuotedTokenAt(s: string, p: nat, t: string)
    requires SimpleField(Quoted(t))
    requires p + |t| + 2 <= |s| && s[p..p + |t| + 2] == "\"" + t + "\""
    requires LookaheadOk(s, p + |t| + 2)
    ensures TokenAt(s, p) == Some(p + |t| + 2)
  {
    var e := p + |t| + 2;
    var quoted := "\"" + t + "\"";
    assert s[p] == quoted[0];
    assert s[e - 1] == quoted[|t| + 1];
    forall k | p + 1 <= k < e - 1 ensures s[k] != '"' && !IsLineTerminator(s[k]) {
      assert s[k] == quoted[k - p];
      assert quoted[k - p] == t[k - p - 1];
    }
    ClosingQuoteFinds(s, p + 1, e);
  }

  lemma BareTokenAt(s: string, p: nat, t: string)
    requires SimpleField(Bare(t)) && t != []
    requires p + |t| <= |s| && s[p..p + |t|] == t
    requires p + |t| == |s| || s[p + |t|] == ','
    requires LookaheadOk(s, p + |t|)
    ensures TokenAt(s, p) == Some(p + |t|)
  {
    var e := p + |t|;
    forall k | p <= k < e ensures IsBare(s[k]) {
      assert s[k] == t[k - p];
    }
    assert BareRunEnd(s, p) == e;
  }

  lemma TrimUnchanged(t: string)
    requires t == [] || (!IsSpace(t[0]) && !IsSpace(t[|t| - 1]))
    ensures Trim(t) == t
  {
    TrimSpec(t);
    var r := Trim(t);
    var a, b :| 0 <= a <= b <= |t| && r == t[a..b] && SpaceRun(t, 0, a) && SpaceRun(t, b, |t|);
  }

  /** The column a simple field becomes: its text, when that has no outer white space and does not start with a comma. */
  lemma CleanSimpleField(f: Field)
    requires SimpleField(f) && f != Bare("")
    requires f.text == [] || (!IsSpace(f.text[0]) && !IsSpace(f.text[|f.text| - 1]) && f.text[0] != ',')
    ensures CleanColumn(Render(f)) == f.text
  {
    var t := f.text;
    match f
    case Quoted(_) =>
      assert StripQuotes(Render(f)) == t;
    case Bare(_) =>
      assert t[0] != '"' && t[|t| - 1] != '"';
      assert StripQuotes(t) == t;
    TrimUnchanged(t);
  }
}

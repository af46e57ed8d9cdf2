/**
 * The record parser's driver, `parseScheduleData` (src/App.jsx:48-51 and
 * 149-161): every line of the text goes through the structured pass with its
 * 0-based index; only when no line yields a record is the whole text given
 * to the unstructured pass; whichever list is chosen is sorted by start time.
 */
module Schedule {
  import opened Wrappers
  import opened Text
  import opened Flights
  import opened Sorting
  import CsvParser
  import Unstructured

  /** What the callback `parse(row, index)` gives for each line. */
  function Results<T>(rows: seq<string>, parse: (string, nat) -> Option<T>): (rs: seq<Option<T>>)
    ensures |rs| == |rows|
  {
    seq(|rows|, i requires 0 <= i < |rows| => parse(rows[i], i))
  }

  /** The values of the first `n` results that are present, in order: what `push` collects. */
  function Present<T>(rs: seq<Option<T>>, n: nat): seq<T>
    requires n <= |rs|
  {
    if n == 0 then []
    else
      match rs[n - 1]
      case Some(x) => Present(rs, n - 1) + [x]
      case None => Present(rs, n - 1)
  }

  /** The position of the result that the `k`-th collected value came from. */
  function Origin<T>(rs: seq<Option<T>>, n: nat, k: nat): (i: nat)
    requires n <= |rs| && k < |Present(rs, n)|
    ensures i < n && rs[i] == Some(Present(rs, n)[k])
  {
    if rs[n - 1].Some? && k == |Present(rs, n - 1)| then n - 1
    else
      assert Present(rs, n)[k] == Present(rs, n - 1)[k];
      Origin(rs, n - 1, k)
  }

  /** The structured records of the whole text. */
  function Structured(text: string): seq<Flight> {
    var rows := Split(text, '\n');
    Present(Results(rows, CsvParser.ParseCsvLine), |rows|)
  }

  /** The records of the unstructured pass over the whole text (line 155). */
  function UnstructuredRecords(text: string): seq<Flight> {
    Unstructured.Extract(Unstructured.Matches(NewlinesToSpaces(text), 0), 0)
  }

  /** The list that gets sorted: the structured records, or the unstructured ones when there are none (lines 154-161). */
  function Selected(text: string): seq<Flight> {
    var s := Structured(text);
    if s == [] then UnstructuredRecords(text) else s
  }

  /**
   * The `forEach` over the lines (lines 149-152): the callback `parse` is
   * called on each line with its index, and each record it returns is
   * pushed, in line order.
   */
  method CollectRecords(rows: seq<string>, parse: (string, nat) -> Option<Flight>) returns (flights: seq<Flight>)
    ensures flights == Present(Results(rows, parse), |rows|)
  {
    ghost var results := Results(rows, parse);
    flights := [];
    for index := 0 to |rows|
      invariant flights == Present(results, index)
    {
      var flight := parse(rows[index], index);
      assert flight == results[index];
      if flight.Some? {
        flights := flights + [flight.value];
      }
    }
  }

  /** `parseScheduleData(text)`. */
  method ParseScheduleData(text: string) returns (flights: seq<Flight>)
    ensures flights == SortByKey(Selected(text), StartOf)
  {
    var rows := Split(text, '\n');
    var parsed := CollectRecords(rows, CsvParser.ParseCsvLine);
    if |parsed| == 0 {
      var regexFlights := Unstructured.ParseUnstructuredText(text);
      assert regexFlights == Selected(text);
      if |regexFlights| > 0 {
        flights := SortedCopy(regexFlights, StartOf);
        return;
      }
    }
    assert parsed == Selected(text);
    flights := SortedCopy(parsed, StartOf);
  }

  // ---------------------------------------------------------------------
  // What the driver promises
  // ---------------------------------------------------------------------

  /** The result is ordered by start time. */
  lemma ScheduleSorted(text: string)
    ensures SortedBy(SortByKey(Selected(text), StartOf), StartOf)
  {
    SortByKeySorted(Selected(text), StartOf);
  }

  /** The result holds exactly the selected records: nothing lost, nothing added, nothing duplicated. */
  lemma SchedulePermutes(text: string)
    ensures multiset(SortByKey(Selected(text), StartOf)) == multiset(Selected(text))
  {
    SortByKeyPermutes(Selected(text), StartOf);
  }

  /** Records that start at the same minute keep their order: the line order, or the order of the matches. */
  lemma ScheduleStable(text: string, start: int)
    ensures WithKey(SortByKey(Selected(text), StartOf), StartOf, start) == WithKey(Selected(text), StartOf, start)
  {
    SortByKeyStable(Selected(text), StartOf, start);
  }

  /** Every result that is present is collected: the loop drops nothing. */
  lemma {:induction false} PresentComplete<T>(rs: seq<Option<T>>, n: nat, i: nat)
    requires i < n <= |rs| && rs[i].Some?
    ensures rs[i].value in Present(rs, n)
  {
    if i < n - 1 {
      PresentComplete(rs, n - 1, i);
    }
  }

  /** Values are collected in the order of their results. */
  lemma {:induction false} OriginAscending<T>(rs: seq<Option<T>>, n: nat, j: nat, k: nat)
    requires n <= |rs| && j < k < |Present(rs, n)|
    ensures Origin(rs, n, j) < Origin(rs, n, k)
  {
    var pre := Present(rs, n - 1);
    if k < |pre| {
      assert Present(rs, n)[j] == pre[j] && Present(rs, n)[k] == pre[k];
      OriginAscending(rs, n - 1, j, k);
    }
  }

  /**
   * Every structured record is the record of one line, carries that line's
   * index, and every line that yields a record contributes it, in line order.
   */
  lemma StructuredLines(text: string, k: nat)
    requires k < |Structured(text)|
    ensures var rows := Split(text, '\n'); var i := Origin(Results(rows, CsvParser.ParseCsvLine), |rows|, k);
      && CsvParser.ParseCsvLine(rows[i], i) == Some(Structured(text)[k])
      && Structured(text)[k].id == LineIndex(i)
  {
  }

  /** Every line that yields a record contributes it to the structured records. */
  lemma StructuredComplete(text: string, i: nat)
    requires var rows := Split(text, '\n'); i < |rows| && CsvParser.ParseCsvLine(rows[i], i).Some?
    ensures CsvParser.ParseCsvLine(Split(text, '\n')[i], i).value in Structured(text)
  {
    var rows := Split(text, '\n');
    PresentComplete(Results(rows, CsvParser.ParseCsvLine), |rows|, i);
  }

  /** Structured records come out in line order: their indices strictly increase. */
  lemma StructuredOrdered(text: string, j: nat, k: nat)
    requires j < k < |Structured(text)|
    ensures Structured(text)[j].id.LineIndex? && Structured(text)[k].id.LineIndex?
    ensures Structured(text)[j].id.index < Structured(text)[k].id.index
  {
    StructuredLines(text, j);
    StructuredLines(text, k);
    var rows := Split(text, '\n');
    OriginAscending(Results(rows, CsvParser.ParseCsvLine), |rows|, j, k);
  }

  /**
   * The two passes never mix: the selected records all carry line indices
   * when some line yields a record, and all are "extracted-N" otherwise.
   */
  lemma SelectedIds(text: string, k: nat)
    requires k < |Selected(text)|
    ensures Selected(text)[k].id.LineIndex? <==> Structured(text) != []
  {
    if Structured(text) != [] {
      StructuredLines(text, k);
    } else {
      var c := Unstructured.ExtractedFrom(NewlinesToSpaces(text), k);
    }
  }

  /** No line yields a record and no match has two times that decode: the schedule is empty. */
  lemma NothingParsed(text: string)
    requires Structured(text) == []
    requires Unstructured.Kept(Unstructured.Matches(NewlinesToSpaces(text), 0)) == []
    ensures SortByKey(Selected(text), StartOf) == []
  {
    Unstructured.ExtractLength(Unstructured.Matches(NewlinesToSpaces(text), 0), 0);
  }

  /** Both passes name every pad: the structured one defaults to "Unknown", the unstructured one to "TBD". */
  lemma SelectedPadsNamed(text: string, k: nat)
    requires k < |Selected(text)|
    ensures Selected(text)[k].takeoffPad != "" && Selected(text)[k].landingPad != ""
  {
    if Structured(text) != [] {
      StructuredLines(text, k);
    } else {
      var c := Unstructured.ExtractedFrom(NewlinesToSpaces(text), k);
      Unstructured.RecordOfShape(c, k);
    }
  }
}

/**
 * The overlap engine, `globalConflicts` (src/App.jsx:352-388): an occupancy
 * array with one cell per minute from 08:00 to 17:00 counts the windows that
 * mark each minute, and a scan reports every maximal run of minutes marked
 * by two windows or more.
 */
module Conflicts {
  import opened Events

  /** One cell per minute of the working day, both ends included: 541 (line 353). */
  const Cells: int := EndOfDay - StartOfDay + 1

  /** A reported conflict `{ start, end, duration }`, in minutes after midnight. */
  datatype Conflict = Conflict(start: int, end: int, duration: int)

  function Max(a: int, b: int): int { if a >= b then a else b }
  function Min(a: int, b: int): int { if a <= b then a else b }

  /** The first cell a window marks: its start, clamped at the first cell (line 356). */
  function Lo(w: Window): int { Max(0, w.start - StartOfDay) }

  /** The cell after the last one a window marks: its end, clamped at the last cell (line 357). */
  function Hi(w: Window): int { Min(Cells - 1, w.end - StartOfDay) }

  /** The number of windows that mark cell `i`. */
  function Coverage(ws: seq<Window>, i: int): nat {
    if ws == [] then 0
    else Coverage(ws[..|ws| - 1], i) + (if Lo(ws[|ws| - 1]) <= i < Hi(ws[|ws| - 1]) then 1 else 0)
  }

  /** The occupancy array the windows produce. */
  function Occupancy(ws: seq<Window>): (c: seq<int>)
    ensures |c| == Cells
  {
    seq(Cells, i requires 0 <= i < Cells => Coverage(ws, i))
  }

  // ---------------------------------------------------------------------
  // The specification of the scan
  // ---------------------------------------------------------------------

  /**
   * `x` is a maximal run of crowded cells of `c` (a count above one): it lies
   * within the day, its duration is its length, its first cell and every
   * cell inside it are crowded, and the cells just before and just after it
   * are not, unless it touches the start or the end of the day.
   */
  predicate MaximalRun(c: seq<int>, x: Conflict)
    requires |c| == Cells
  {
    && StartOfDay <= x.start <= x.end <= EndOfDay
    && x.duration == x.end - x.start
    && c[x.start - StartOfDay] > 1
    && (forall i :: x.start - StartOfDay <= i < x.end - StartOfDay ==> c[i] > 1)
    && (x.start == StartOfDay || c[x.start - StartOfDay - 1] <= 1)
    && (x.end == EndOfDay || c[x.end - StartOfDay] <= 1)
  }

  /** Cell `i` lies inside one of the conflicts. */
  predicate Inside(cs: seq<Conflict>, i: int) {
    exists k :: 0 <= k < |cs| && cs[k].start - StartOfDay <= i < cs[k].end - StartOfDay
  }

  /**
   * `cs` is the conflict report of `c`: maximal runs, in ascending order,
   * each ending before the next starts, and covering every crowded cell
   * but the last, which no half-open run can contain.
   */
  predicate ConflictsOf(c: seq<int>, cs: seq<Conflict>)
    requires |c| == Cells
  {
    && AllRuns(c, cs)
    && Ordered(cs)
    && (forall i :: 0 <= i < Cells - 1 && c[i] > 1 ==> Inside(cs, i))
  }

  predicate AllRuns(c: seq<int>, cs: seq<Conflict>)
    requires |c| == Cells
  {
    forall k :: 0 <= k < |cs| ==> MaximalRun(c, cs[k])
  }

  /** Each conflict ends before the next one starts. */
  predicate Ordered(cs: seq<Conflict>) {
    forall k, l :: 0 <= k < l < |cs| ==> cs[k].end < cs[l].start
  }

  // ---------------------------------------------------------------------
  // globalConflicts
  // ---------------------------------------------------------------------

  /** The array of line 353 filled by the loops of lines 355-361. */
  method BuildOccupancy(ws: seq<Window>) returns (timelineMap: array<int>)
    ensures fresh(timelineMap)
    ensures timelineMap[..] == Occupancy(ws)
  {
    timelineMap := new int[Cells](_ => 0);
    for k := 0 to |ws|
      invariant timelineMap.Length == Cells
      invariant forall i :: 0 <= i < Cells ==> timelineMap[i] == Coverage(ws[..k], i)
    {
      var evt := ws[k];
      var startIdx := Max(0, evt.start - StartOfDay);
      var endIdx := Min(timelineMap.Length - 1, evt.end - StartOfDay);
      assert ws[..k + 1][..k] == ws[..k];
      var i := startIdx;
      while i < endIdx
        invariant startIdx <= i <= Max(startIdx, endIdx)
        invariant forall j :: 0 <= j < Cells ==> timelineMap[j] == Coverage(ws[..k], j) + (if startIdx <= j < i then 1 else 0)
      {
        timelineMap[i] := timelineMap[i] + 1;
        i := i + 1;
      }
    }
    assert ws[..|ws|] == ws;
  }

  /** The scan of lines 363-387 over a filled array. */
  method ScanConflicts(timelineMap: array<int>) returns (conflicts: seq<Conflict>)
    requires timelineMap.Length == Cells
    ensures ConflictsOf(timelineMap[..], conflicts)
  {
    ghost var c := timelineMap[..];
    conflicts := [];
    var inConflict := false;
    var conflictStart := 0;
    for i := 0 to timelineMap.Length
      invariant 0 <= conflictStart < Cells
      invariant inConflict ==> conflictStart < i && (conflictStart == 0 || c[conflictStart - 1] <= 1)
      invariant inConflict ==> forall j :: conflictStart <= j < i ==> c[j] > 1
      invariant !inConflict ==> i == 0 || c[i - 1] <= 1
      invariant AllRuns(c, conflicts)
      invariant forall k :: 0 <= k < |conflicts| ==> conflicts[k].end - StartOfDay < i
      invariant inConflict ==> forall k :: 0 <= k < |conflicts| ==> conflicts[k].end - StartOfDay < conflictStart
      invariant Ordered(conflicts)
      invariant forall j :: 0 <= j < i && c[j] > 1 ==> Inside(conflicts, j) || (inConflict && conflictStart <= j)
    {
      if timelineMap[i] > 1 && !inConflict {
        inConflict := true;
        conflictStart := i;
      } else if timelineMap[i] <= 1 && inConflict {
        inConflict := false;
        var x := Conflict(conflictStart + StartOfDay, i + StartOfDay, i - conflictStart);
        PushRun(c, conflicts, x);
        conflicts := conflicts + [x];
      }
    }
    if inConflict {
      var x := Conflict(conflictStart + StartOfDay, EndOfDay, EndOfDay - (conflictStart + StartOfDay));
      PushRun(c, conflicts, x);
      conflicts := conflicts + [x];
    }
  }

  /**
   * Appending a maximal run that starts after every earlier one ends keeps
   * the report well formed and adds the run's cells to those inside.
   */
  lemma PushRun(c: seq<int>, cs: seq<Conflict>, x: Conflict)
    requires |c| == Cells && AllRuns(c, cs) && Ordered(cs) && MaximalRun(c, x)
    requires forall k :: 0 <= k < |cs| ==> cs[k].end < x.start
    ensures AllRuns(c, cs + [x]) && Ordered(cs + [x])
    ensures forall j :: Inside(cs, j) ==> Inside(cs + [x], j)
    ensures forall j :: x.start - StartOfDay <= j < x.end - StartOfDay ==> Inside(cs + [x], j)
  {
    var cs' := cs + [x];
    forall k | 0 <= k < |cs'| ensures MaximalRun(c, cs'[k]) {
      if k < |cs| {
        assert cs'[k] == cs[k];
      }
    }
    forall k, l | 0 <= k < l < |cs'| ensures cs'[k].end < cs'[l].start {
      assert cs'[k] == cs[k];
      if l < |cs| {
        assert cs'[l] == cs[l];
      }
    }
    forall j | Inside(cs, j) ensures Inside(cs + [x], j) {
      var k :| 0 <= k < |cs| && cs[k].start - StartOfDay <= j < cs[k].end - StartOfDay;
      assert (cs + [x])[k] == cs[k];
    }
    forall j | x.start - StartOfDay <= j < x.end - StartOfDay ensures Inside(cs + [x], j) {
      assert (cs + [x])[|cs|] == x;
    }
  }

  /** `globalConflicts`: the report of the windows' occupancy. */
  method GlobalConflicts(allEvents: seq<Window>) returns (conflicts: seq<Conflict>)
    ensures ConflictsOf(Occupancy(allEvents), conflicts)
  {
    var timelineMap := BuildOccupancy(allEvents);
    conflicts := ScanConflicts(timelineMap);
  }

  // ---------------------------------------------------------------------
  // What the engine promises
  // ---------------------------------------------------------------------

  /** No window marks the last cell: a window's cells stop before its clamped end. */
  lemma {:induction false} LastCellEmpty(ws: seq<Window>)
    ensures Coverage(ws, Cells - 1) == 0
  {
    if ws != [] {
      LastCellEmpty(ws[..|ws| - 1]);
    }
  }

  /**
   * So the scan never ends inside a conflict (the branch of lines 380-386
   * is never taken): every conflict has a positive duration and ends at an
   * uncrowded cell.
   */
  lemma ConflictsEndCold(ws: seq<Window>, cs: seq<Conflict>, k: nat)
    requires ConflictsOf(Occupancy(ws), cs) && k < |cs|
    ensures cs[k].start < cs[k].end
    ensures Occupancy(ws)[cs[k].end - StartOfDay] <= 1
  {
    var c := Occupancy(ws);
    LastCellEmpty(ws);
    assert AllRuns(c, cs);
    RunCoversStart(c, cs[k]);
  }

  /** Crowding nowhere: no conflict. */
  lemma NoCrowding(c: seq<int>, cs: seq<Conflict>)
    requires |c| == Cells && ConflictsOf(c, cs)
    requires forall i :: 0 <= i < Cells ==> c[i] <= 1
    ensures cs == []
  {
    assert cs == [] || MaximalRun(c, cs[0]);
  }

  /** Crowding on exactly the cells `a..b-1`, away from both ends of the day: exactly that one conflict. */
  lemma SingleCrowding(c: seq<int>, cs: seq<Conflict>, a: int, b: int)
    requires |c| == Cells && ConflictsOf(c, cs)
    requires 0 < a < b < Cells - 1
    requires forall i :: 0 <= i < Cells ==> (c[i] > 1 <==> a <= i < b)
    ensures cs == [Conflict(a + StartOfDay, b + StartOfDay, b - a)]
  {
    var x := Conflict(a + StartOfDay, b + StartOfDay, b - a);
    assert Inside(cs, a);
    forall k | 0 <= k < |cs| ensures cs[k] == x {
      RunIs(c, cs[k], a, b);
    }
    assert |cs| <= 1 || cs[0].end < cs[1].start;
  }

  lemma RunIs(c: seq<int>, y: Conflict, a: int, b: int)
    requires |c| == Cells && MaximalRun(c, y)
    requires 0 < a < b < Cells - 1
    requires forall i :: 0 <= i < Cells ==> (c[i] > 1 <==> a <= i < b)
    ensures y == Conflict(a + StartOfDay, b + StartOfDay, b - a)
  {
    var s := y.start - StartOfDay;
    var e := y.end - StartOfDay;
    assert a <= s < b;
    assert s == 0 || c[s - 1] <= 1;
    assert e == Cells - 1 || c[e] <= 1;
    assert c[b] <= 1;
  }

  /** The count for two windows. */
  lemma CoverageTwo(v: Window, w: Window, i: int)
    ensures Coverage([v, w], i) == (if Lo(v) <= i < Hi(v) then 1 else 0) + (if Lo(w) <= i < Hi(w) then 1 else 0)
  {
    assert [v][..0] == [];
    assert Coverage([v], i) == (if Lo(v) <= i < Hi(v) then 1 else 0);
    assert [v, w][..1] == [v];
  }

  /** Two windows whose cells 100..109 and 105..114 overlap give one conflict, 09:45 to 09:50. */
  lemma OverlapExample(cs: seq<Conflict>)
    requires ConflictsOf(Occupancy([Window(580, 590), Window(585, 595)]), cs)
    ensures cs == [Conflict(585, 590, 5)]
  {
    var ws := [Window(580, 590), Window(585, 595)];
    var c := Occupancy(ws);
    forall i | 0 <= i < Cells ensures c[i] > 1 <==> 105 <= i < 110 {
      CoverageTwo(ws[0], ws[1], i);
    }
    SingleCrowding(c, cs, 105, 110);
  }

  /** Two windows that only touch (cells 100..109 and 110..119) give no conflict. */
  lemma TouchingExample(cs: seq<Conflict>)
    requires ConflictsOf(Occupancy([Window(580, 590), Window(590, 600)]), cs)
    ensures cs == []
  {
    var ws := [Window(580, 590), Window(590, 600)];
    var c := Occupancy(ws);
    forall i | 0 <= i < Cells ensures c[i] <= 1 {
      CoverageTwo(ws[0], ws[1], i);
    }
    NoCrowding(c, cs);
  }

  // ---------------------------------------------------------------------
  // The report is unique
  // ---------------------------------------------------------------------

  /** The half-open run `x` contains cell `i`. */
  predicate Covers(x: Conflict, i: int) {
    x.start - StartOfDay <= i < x.end - StartOfDay
  }

  /** When the last cell is not crowded, a run has a positive length, so it contains its first cell, which is not the last. */
  lemma RunCoversStart(c: seq<int>, x: Conflict)
    requires |c| == Cells && c[Cells - 1] <= 1 && MaximalRun(c, x)
    ensures x.start < x.end && x.start - StartOfDay < Cells - 1
    ensures c[x.end - StartOfDay] <= 1
  {
  }

  /** Two maximal runs that share a cell are the same run. */
  lemma RunsMeet(c: seq<int>, x: Conflict, y: Conflict, i: int)
    requires |c| == Cells && c[Cells - 1] <= 1 && MaximalRun(c, x) && MaximalRun(c, y)
    requires Covers(x, i) && Covers(y, i)
    ensures x == y
  {
    var sx, sy := x.start - StartOfDay, y.start - StartOfDay;
    var ex, ey := x.end - StartOfDay, y.end - StartOfDay;
    assert sx == 0 || c[sx - 1] <= 1;
    assert sy == 0 || c[sy - 1] <= 1;
    assert ex == Cells - 1 || c[ex] <= 1;
    assert ey == Cells - 1 || c[ey] <= 1;
  }

  /** Every run of one report is a run of any other report of the same array. */
  lemma RunInOther(c: seq<int>, a: seq<Conflict>, b: seq<Conflict>, k: nat)
    requires |c| == Cells && c[Cells - 1] <= 1 && ConflictsOf(c, a) && ConflictsOf(c, b) && k < |a|
    ensures a[k] in b
  {
    assert MaximalRun(c, a[k]);
    RunCoversStart(c, a[k]);
    var s := a[k].start - StartOfDay;
    assert Inside(b, s);
    var l :| 0 <= l < |b| && Covers(b[l], s);
    RunsMeet(c, a[k], b[l], s);
  }

  /** Starts strictly increase along a report. */
  predicate Ascending(cs: seq<Conflict>) {
    forall k, l :: 0 <= k < l < |cs| ==> cs[k].start < cs[l].start
  }

  lemma ReportAscending(c: seq<int>, cs: seq<Conflict>)
    requires |c| == Cells && ConflictsOf(c, cs)
    ensures Ascending(cs)
  {
    forall k, l | 0 <= k < l < |cs| ensures cs[k].start < cs[l].start {
      assert MaximalRun(c, cs[k]);
    }
  }

  /** Dropping the first element keeps starts increasing. */
  lemma AscendingTail(a: seq<Conflict>)
    requires Ascending(a) && a != []
    ensures Ascending(a[1..])
  {
    forall k, l | 0 <= k < l < |a| - 1 ensures a[1..][k].start < a[1..][l].start {
      assert a[1..][k] == a[k + 1] && a[1..][l] == a[l + 1];
    }
  }

  /** Two ascending lists with the same elements start with the same element. */
  lemma HeadsEqual(a: seq<Conflict>, b: seq<Conflict>)
    requires Ascending(a) && Ascending(b) && a != [] && b != []
    requires forall x :: x in a <==> x in b
    ensures a[0] == b[0]
  {
    assert a[0] in b;
    assert b[0] in a;
    var l :| 0 <= l < |b| && b[l] == a[0];
    var m :| 0 <= m < |a| && a[m] == b[0];
    assert b[0].start <= b[l].start && a[0].start <= a[m].start;
    assert l == 0;
  }

  /** With the heads equal, an element of one tail is in the other tail. */
  lemma TailInTail(a: seq<Conflict>, b: seq<Conflict>, x: Conflict)
    requires Ascending(a) && Ascending(b) && a != [] && b != [] && a[0] == b[0]
    requires forall y :: y in a <==> y in b
    requires x in a[1..]
    ensures x in b[1..]
  {
    var i :| 1 <= i < |a| && a[i] == x;
    assert a[0].start < x.start && x in a;
    var j :| 0 <= j < |b| && b[j] == x;
    assert j != 0 && b[1..][j - 1] == x;
  }

  /** Two lists with strictly increasing starts and the same elements are equal. */
  lemma {:induction false} AscendingSame(a: seq<Conflict>, b: seq<Conflict>)
    requires Ascending(a) && Ascending(b)
    requires forall x :: x in a <==> x in b
    ensures a == b
    decreases |a|
  {
    if a != [] && b != [] {
      HeadsEqual(a, b);
      forall x ensures x in a[1..] <==> x in b[1..] {
        if x in a[1..] {
          TailInTail(a, b, x);
        }
        if x in b[1..] {
          TailInTail(b, a, x);
        }
      }
      AscendingTail(a);
      AscendingTail(b);
      AscendingSame(a[1..], b[1..]);
      assert a == [a[0]] + a[1..] && b == [b[0]] + b[1..];
    } else {
      HasFirst(a);
      HasFirst(b);
    }
  }

  lemma HasFirst<T>(s: seq<T>)
    ensures s == [] || s[0] in s
  {
  }

  /**
   * An array whose last cell is not crowded has only one conflict report,
   * so the scan's postcondition determines its result completely.
   */
  lemma ReportUnique(c: seq<int>, a: seq<Conflict>, b: seq<Conflict>)
    requires |c| == Cells && c[Cells - 1] <= 1 && ConflictsOf(c, a) && ConflictsOf(c, b)
    ensures a == b
  {
    forall x | x in a ensures x in b {
      var k :| 0 <= k < |a| && a[k] == x;
      RunInOther(c, a, b, k);
    }
    forall x | x in b ensures x in a {
      var k :| 0 <= k < |b| && b[k] == x;
      RunInOther(c, b, a, k);
    }
    ReportAscending(c, a);
    ReportAscending(c, b);
    AscendingSame(a, b);
  }

  /** `globalConflicts` is a function of the windows: any two reports of their occupancy agree. */
  lemma GlobalConflictsUnique(ws: seq<Window>, a: seq<Conflict>, b: seq<Conflict>)
    requires ConflictsOf(Occupancy(ws), a) && ConflictsOf(Occupancy(ws), b)
    ensures a == b
  {
    LastCellEmpty(ws);
    ReportUnique(Occupancy(ws), a, b);
  }
}

/**
 * The timeline's constants and its first projection, `allEvents`
 * (src/App.jsx:331-349): every departure from the hub and every arrival at
 * it occupies the pad for a window of `BufferMins` minutes either side of the
 * scheduled time. Also the hub counters of the summary cards (lines 764 and
 * 776).
 */
module Events {
  import opened Flights
  import opened Sorting
  import Schedule

  const HubId: string := "PDR"
  const BufferMins: int := 5
  /** 08:00 and 17:00 in minutes after midnight. */
  const StartOfDay: int := 8 * 60
  const EndOfDay: int := 17 * 60

  /** A pad occupation `{ start, end }`, in minutes after midnight. */
  datatype Window = Window(start: int, end: int)

  predicate DepartsHub(f: Flight) { f.from == HubId }
  predicate ArrivesHub(f: Flight) { f.to == HubId }

  /** The windows one flight contributes, departure first (lines 340-347). */
  function WindowsOf(f: Flight): seq<Window> {
    (if DepartsHub(f) && f.takeoffPad != "" then [Window(f.start - BufferMins, f.start + BufferMins)] else [])
    + (if ArrivesHub(f) && f.landingPad != "" then [Window(f.end - BufferMins, f.end + BufferMins)] else [])
  }

  /** The windows of all flights, flight by flight. */
  function AllWindows(flights: seq<Flight>): seq<Window> {
    if flights == [] then []
    else AllWindows(flights[..|flights| - 1]) + WindowsOf(flights[|flights| - 1])
  }

  /** `allEvents`: the `forEach` that pushes each flight's windows. */
  method AllEvents(flights: seq<Flight>) returns (list: seq<Window>)
    ensures list == AllWindows(flights)
  {
    list := [];
    for i := 0 to |flights|
      invariant list == AllWindows(flights[..i])
    {
      var f := flights[i];
      assert flights[..i + 1][..i] == flights[..i];
      if f.from == HubId && f.takeoffPad != "" {
        list := list + [Window(f.start - BufferMins, f.start + BufferMins)];
      }
      if f.to == HubId && f.landingPad != "" {
        list := list + [Window(f.end - BufferMins, f.end + BufferMins)];
      }
    }
    assert flights[..|flights|] == flights;
  }

  // ---------------------------------------------------------------------
  // The hub counters (lines 764 and 776)
  // ---------------------------------------------------------------------

  /** The number of flights that leave the hub (line 764). */
  function HubDepartures(flights: seq<Flight>): (n: nat)
    ensures n <= |flights|
    ensures n == 0 <==> forall k :: 0 <= k < |flights| ==> !DepartsHub(flights[k])
  {
    if flights == [] then 0
    else HubDepartures(flights[..|flights| - 1]) + (if DepartsHub(flights[|flights| - 1]) then 1 else 0)
  }

  /** The number of flights that land at the hub (line 776). */
  function HubArrivals(flights: seq<Flight>): (n: nat)
    ensures n <= |flights|
    ensures n == 0 <==> forall k :: 0 <= k < |flights| ==> !ArrivesHub(flights[k])
  {
    if flights == [] then 0
    else HubArrivals(flights[..|flights| - 1]) + (if ArrivesHub(flights[|flights| - 1]) then 1 else 0)
  }

  /** `filter(...).length` distributes over concatenation. */
  lemma {:induction false} HubCountsAppend(a: seq<Flight>, b: seq<Flight>)
    ensures HubDepartures(a + b) == HubDepartures(a) + HubDepartures(b)
    ensures HubArrivals(a + b) == HubArrivals(a) + HubArrivals(b)
    decreases |b|
  {
    if b == [] {
      assert a + b == a;
    } else {
      var init := b[..|b| - 1];
      HubCountsAppend(a, init);
      assert (a + b)[..|a + b| - 1] == a + init;
      assert (a + b)[|a + b| - 1] == b[|b| - 1];
    }
  }

  /** Every flight with a non-empty pad on each side of the hub. */
  predicate PadsNamed(flights: seq<Flight>) {
    forall k :: 0 <= k < |flights| ==> flights[k].takeoffPad != "" && flights[k].landingPad != ""
  }

  // ---------------------------------------------------------------------
  // What the projection promises
  // ---------------------------------------------------------------------

  /** `w` is the window of `f`'s hub departure or hub arrival, the pad being named. */
  predicate HubWindow(f: Flight, w: Window) {
    || (DepartsHub(f) && f.takeoffPad != "" && w == Window(f.start - BufferMins, f.start + BufferMins))
    || (ArrivesHub(f) && f.landingPad != "" && w == Window(f.end - BufferMins, f.end + BufferMins))
  }

  /** Every window is ten minutes wide and centred on a hub departure or arrival of some flight. */
  lemma {:induction false} WindowsSound(flights: seq<Flight>, k: nat) returns (j: nat)
    requires k < |AllWindows(flights)|
    ensures AllWindows(flights)[k].end - AllWindows(flights)[k].start == 2 * BufferMins
    ensures j < |flights| && HubWindow(flights[j], AllWindows(flights)[k])
  {
    var init := flights[..|flights| - 1];
    if k < |AllWindows(init)| {
      assert AllWindows(flights)[k] == AllWindows(init)[k];
      j := WindowsSound(init, k);
      assert flights[j] == init[j];
    } else {
      j := |flights| - 1;
      assert AllWindows(flights)[k] == WindowsOf(flights[j])[k - |AllWindows(init)|];
    }
  }

  /** Every hub departure and hub arrival whose pad is named has its window in the list. */
  lemma {:induction false} WindowsComplete(flights: seq<Flight>, j: nat, w: Window)
    requires j < |flights| && HubWindow(flights[j], w)
    ensures w in AllWindows(flights)
  {
    var init := flights[..|flights| - 1];
    if j < |init| {
      assert flights[j] == init[j];
      WindowsComplete(init, j, w);
    } else {
      assert w in WindowsOf(flights[j]);
    }
  }

  /**
   * A flight contributes at most two windows, so there are at most as many
   * windows as hub departures plus hub arrivals, and exactly as many when
   * every pad is named (as the parser guarantees: it defaults a missing pad).
   */
  lemma {:induction false} WindowCount(flights: seq<Flight>)
    ensures |AllWindows(flights)| <= HubDepartures(flights) + HubArrivals(flights)
    ensures PadsNamed(flights) ==> |AllWindows(flights)| == HubDepartures(flights) + HubArrivals(flights)
  {
    if flights != [] {
      var init := flights[..|flights| - 1];
      WindowCount(init);
      if PadsNamed(flights) {
        assert PadsNamed(init) by {
          forall k | 0 <= k < |init| ensures init[k].takeoffPad != "" && init[k].landingPad != "" {
            assert init[k] == flights[k];
          }
        }
      }
    }
  }

  /**
   * On any parsed schedule every pad is named, so there is exactly one
   * window per hub departure and one per hub arrival.
   */
  lemma ParsedWindowCount(text: string)
    ensures var flights := SortByKey(Schedule.Selected(text), StartOf);
      |AllWindows(flights)| == HubDepartures(flights) + HubArrivals(flights)
  {
    var sel := Schedule.Selected(text);
    var flights := SortByKey(sel, StartOf);
    SortByKeyPermutes(sel, StartOf);
    forall k | 0 <= k < |flights| ensures flights[k].takeoffPad != "" && flights[k].landingPad != "" {
      assert flights[k] in multiset(sel);
      var j :| 0 <= j < |sel| && sel[j] == flights[k];
      Schedule.SelectedPadsNamed(text, j);
    }
    WindowCount(flights);
  }
}

/**
 * The timeline's rows, `rows` (src/App.jsx:392-440): every departure from
 * the hub and every arrival at it becomes an event, grouped under its pad
 * (pad view) or its aircraft (any other view); events whose key is empty or
 * "Unknown" are dropped. The rows come out in ascending key order, each with
 * its events sorted by the start of their buffer.
 */
module Rows {
  import opened Flights
  import opened Sorting
  import opened Events

  /** `viewMode === 'pad'`, or any other value, which groups by aircraft. */
  datatype ViewMode = PadView | AircraftView

  datatype Kind = Departure | Arrival

  /** An event `{ id, type, time, pad, flight, startBuffer, endBuffer }` (lines 399-407, 415-423). */
  datatype RowEvent = RowEvent(
    id: string,
    kind: Kind,
    time: int,
    pad: string,
    flight: Flight,
    startBuffer: int,
    endBuffer: int)

  /** A row `{ id, label, events, overlaps }` (lines 431-436); `label` is a keyword here. */
  datatype Row = Row(id: string, labelText: string, events: seq<RowEvent>, overlaps: seq<Window>)

  function StartBufferOf(e: RowEvent): int { e.startBuffer }

  /** A key under which an event is grouped: neither empty nor "Unknown" (lines 398 and 414). */
  predicate Named(key: string) { key != "" && key != "Unknown" }

  function DepartureKey(f: Flight, mode: ViewMode): string {
    if mode == PadView then f.takeoffPad else f.aircraft
  }

  function ArrivalKey(f: Flight, mode: ViewMode): string {
    if mode == PadView then f.landingPad else f.aircraft
  }

  function DepartureEvent(f: Flight): RowEvent {
    RowEvent("dep-" + IdText(f.id), Departure, f.start, f.takeoffPad, f, f.start - BufferMins, f.start + BufferMins)
  }

  function ArrivalEvent(f: Flight): RowEvent {
    RowEvent("arr-" + IdText(f.id), Arrival, f.end, f.landingPad, f, f.end - BufferMins, f.end + BufferMins)
  }

  /** One `groups[key].push(event)`. */
  datatype Push = Push(key: string, event: RowEvent)

  /** The push of a hub departure under a named key (lines 396-410). */
  function DeparturePushes(f: Flight, mode: ViewMode): seq<Push> {
    if DepartsHub(f) && Named(DepartureKey(f, mode)) then [Push(DepartureKey(f, mode), DepartureEvent(f))] else []
  }

  /** The push of a hub arrival under a named key (lines 412-426). */
  function ArrivalPushes(f: Flight, mode: ViewMode): seq<Push> {
    if ArrivesHub(f) && Named(ArrivalKey(f, mode)) then [Push(ArrivalKey(f, mode), ArrivalEvent(f))] else []
  }

  /** The pushes one flight makes, departure first. */
  function PushesOf(f: Flight, mode: ViewMode): seq<Push> {
    DeparturePushes(f, mode) + ArrivalPushes(f, mode)
  }

  /** The pushes of all flights, flight by flight. */
  function Pushes(flights: seq<Flight>, mode: ViewMode): seq<Push> {
    if flights == [] then []
    else Pushes(flights[..|flights| - 1], mode) + PushesOf(flights[|flights| - 1], mode)
  }

  /** The object `groups`: its keys in insertion order and the array under each key. */
  datatype Groups = Groups(keys: seq<string>, lists: map<string, seq<RowEvent>>)

  /** One push: an absent key is added with an empty array first. */
  function Add(g: Groups, p: Push): Groups {
    if p.key in g.lists then Groups(g.keys, g.lists[p.key := g.lists[p.key] + [p.event]])
    else Groups(g.keys + [p.key], g.lists[p.key := [p.event]])
  }

  /** `groups` after a sequence of pushes. */
  function Grouped(ps: seq<Push>): Groups {
    if ps == [] then Groups([], map[]) else Add(Grouped(ps[..|ps| - 1]), ps[|ps| - 1])
  }

  /** The events pushed under `key`, in push order. */
  function EventsUnder(ps: seq<Push>, key: string): seq<RowEvent> {
    if ps == [] then []
    else EventsUnder(ps[..|ps| - 1], key) + (if ps[|ps| - 1].key == key then [ps[|ps| - 1].event] else [])
  }

  /** The row of one key. */
  function RowOf(key: string, events: seq<RowEvent>): Row {
    Row(key, key, SortByKey(events, StartBufferOf), [])
  }

  /** The rows of the keys `ks`, in that order. */
  function RowsOver(ps: seq<Push>, ks: seq<string>): (rs: seq<Row>)
    ensures |rs| == |ks|
  {
    if ks == [] then []
    else RowsOver(ps, ks[..|ks| - 1]) + [RowOf(ks[|ks| - 1], EventsUnder(ps, ks[|ks| - 1]))]
  }

  /** The rows the flights produce. */
  function RowsOf(flights: seq<Flight>, mode: ViewMode): seq<Row> {
    var ps := Pushes(flights, mode);
    RowsOver(ps, SortKeys(Grouped(ps).keys))
  }

  // ---------------------------------------------------------------------
  // rows
  // ---------------------------------------------------------------------

  /** `groups[key] = groups[key] || []` followed by `groups[key].push(event)`. */
  method PushEvent(keys: seq<string>, lists: map<string, seq<RowEvent>>, key: string, event: RowEvent)
    returns (keys': seq<string>, lists': map<string, seq<RowEvent>>)
    ensures Groups(keys', lists') == Add(Groups(keys, lists), Push(key, event))
  {
    keys', lists' := keys, lists;
    if key !in lists' {
      lists' := lists'[key := []];
      keys' := keys' + [key];
    }
    ghost var before := lists';
    lists' := lists'[key := lists'[key] + [event]];
    if key !in lists {
      assert before[key] + [event] == [event];
      assert lists' == lists[key := [event]];
    }
  }

  /** The body of the `forEach` of lines 395-427 for one flight. */
  method GroupFlight(keys: seq<string>, groups: map<string, seq<RowEvent>>, f: Flight, viewMode: ViewMode, ghost before: seq<Push>)
    returns (keys': seq<string>, groups': map<string, seq<RowEvent>>)
    requires Groups(keys, groups) == Grouped(before)
    ensures Groups(keys', groups') == Grouped(before + PushesOf(f, viewMode))
  {
    keys', groups' := GroupDeparture(keys, groups, f, viewMode, before);
    keys', groups' := GroupArrival(keys', groups', f, viewMode, before + DeparturePushes(f, viewMode));
    assert before + DeparturePushes(f, viewMode) + ArrivalPushes(f, viewMode) == before + PushesOf(f, viewMode);
  }

  /** Lines 396-410: a hub departure is pushed under its key, unless that key is empty or "Unknown". */
  method GroupDeparture(keys: seq<string>, groups: map<string, seq<RowEvent>>, f: Flight, viewMode: ViewMode, ghost before: seq<Push>)
    returns (keys': seq<string>, groups': map<string, seq<RowEvent>>)
    requires Groups(keys, groups) == Grouped(before)
    ensures Groups(keys', groups') == Grouped(before + DeparturePushes(f, viewMode))
  {
    keys', groups' := keys, groups;
    if f.from == HubId {
      var key := if viewMode == PadView then f.takeoffPad else f.aircraft;
      if key != "" && key != "Unknown" {
        var event := RowEvent("dep-" + IdText(f.id), Departure, f.start, f.takeoffPad, f, f.start - BufferMins, f.start + BufferMins);
        keys', groups' := PushEvent(keys', groups', key, event);
        GroupedAppend(before, Push(key, event));
        assert DeparturePushes(f, viewMode) == [Push(key, event)];
        return;
      }
    }
    assert DeparturePushes(f, viewMode) == [];
    assert before + [] == before;
  }

  /** Lines 412-426: a hub arrival is pushed under its key, unless that key is empty or "Unknown". */
  method GroupArrival(keys: seq<string>, groups: map<string, seq<RowEvent>>, f: Flight, viewMode: ViewMode, ghost before: seq<Push>)
    returns (keys': seq<string>, groups': map<string, seq<RowEvent>>)
    requires Groups(keys, groups) == Grouped(before)
    ensures Groups(keys', groups') == Grouped(before + ArrivalPushes(f, viewMode))
  {
    keys', groups' := keys, groups;
    if f.to == HubId {
      var key := if viewMode == PadView then f.landingPad else f.aircraft;
      if key != "" && key != "Unknown" {
        var event := RowEvent("arr-" + IdText(f.id), Arrival, f.end, f.landingPad, f, f.end - BufferMins, f.end + BufferMins);
        keys', groups' := PushEvent(keys', groups', key, event);
        GroupedAppend(before, Push(key, event));
        assert ArrivalPushes(f, viewMode) == [Push(key, event)];
        return;
      }
    }
    assert ArrivalPushes(f, viewMode) == [];
    assert before + [] == before;
  }

  /** `rows`: group the events, then one row per key in key order, each sorted by `startBuffer`. */
  method BuildRows(flights: seq<Flight>, viewMode: ViewMode) returns (rowData: seq<Row>)
    ensures rowData == RowsOf(flights, viewMode)
  {
    var keys: seq<string> := [];
    var groups: map<string, seq<RowEvent>> := map[];
    for i := 0 to |flights|
      invariant Groups(keys, groups) == Grouped(Pushes(flights[..i], viewMode))
    {
      assert flights[..i + 1][..i] == flights[..i];
      keys, groups := GroupFlight(keys, groups, flights[i], viewMode, Pushes(flights[..i], viewMode));
    }
    assert flights[..|flights|] == flights;
    rowData := RowsFromGroups(keys, groups, Pushes(flights, viewMode));
  }

  /** `Object.keys(groups).sort().map(...)` (lines 429-437). */
  method RowsFromGroups(keys: seq<string>, groups: map<string, seq<RowEvent>>, ghost ps: seq<Push>) returns (rowData: seq<Row>)
    requires Groups(keys, groups) == Grouped(ps)
    ensures rowData == RowsOver(ps, SortKeys(keys))
  {
    var sorted := SortKeys(keys);
    rowData := [];
    for j := 0 to |sorted|
      invariant rowData == RowsOver(ps, sorted[..j])
    {
      var key := sorted[j];
      GroupedLists(ps, key);
      var events := SortedCopy(groups[key], StartBufferOf);
      assert sorted[..j + 1][..j] == sorted[..j];
      rowData := rowData + [Row(key, key, events, [])];
    }
    assert sorted[..|sorted|] == sorted;
  }

  lemma GroupedAppend(ps: seq<Push>, p: Push)
    ensures Grouped(ps + [p]) == Add(Grouped(ps), p)
  {
    assert (ps + [p])[..|ps|] == ps;
  }

  // ---------------------------------------------------------------------
  // What the rows promise
  // ---------------------------------------------------------------------

  /**
   * `groups` holds exactly the keys pushed, each once in the key list, and
   * under each key the events pushed under it, in push order.
   */
  lemma {:induction false} GroupedLists(ps: seq<Push>, key: string)
    ensures key in Grouped(ps).keys <==> key in Grouped(ps).lists
    ensures key in Grouped(ps).lists <==> EventsUnder(ps, key) != []
    ensures key in Grouped(ps).lists ==> Grouped(ps).lists[key] == EventsUnder(ps, key)
  {
    if ps != [] {
      GroupedLists(ps[..|ps| - 1], key);
    }
  }

  /** `p` is one of the pushes flight `f` makes in view `mode`. */
  predicate PushedBy(f: Flight, mode: ViewMode, p: Push) {
    || (DepartsHub(f) && Named(DepartureKey(f, mode)) && p == Push(DepartureKey(f, mode), DepartureEvent(f)))
    || (ArrivesHub(f) && Named(ArrivalKey(f, mode)) && p == Push(ArrivalKey(f, mode), ArrivalEvent(f)))
  }

  /** Every push is a hub departure or hub arrival of some flight, under a named key. */
  lemma {:induction false} PushesSound(flights: seq<Flight>, mode: ViewMode, k: nat) returns (j: nat)
    requires k < |Pushes(flights, mode)|
    ensures j < |flights| && PushedBy(flights[j], mode, Pushes(flights, mode)[k])
  {
    var init := flights[..|flights| - 1];
    if k < |Pushes(init, mode)| {
      assert Pushes(flights, mode)[k] == Pushes(init, mode)[k];
      j := PushesSound(init, mode, k);
      assert flights[j] == init[j];
    } else {
      j := |flights| - 1;
      assert Pushes(flights, mode)[k] == PushesOf(flights[j], mode)[k - |Pushes(init, mode)|];
    }
  }

  /** The pushes of one flight are exactly those it makes. */
  lemma PushesOfMembers(f: Flight, mode: ViewMode, p: Push)
    ensures p in PushesOf(f, mode) <==> PushedBy(f, mode, p)
  {
  }

  /** Appending a flight keeps the pushes made before it in place. */
  lemma PushesPrefix(flights: seq<Flight>, mode: ViewMode, m: nat)
    requires flights != [] && m < |Pushes(flights[..|flights| - 1], mode)|
    ensures m < |Pushes(flights, mode)| && Pushes(flights, mode)[m] == Pushes(flights[..|flights| - 1], mode)[m]
  {
  }

  /** The pushes of the last flight come after those of the flights before it. */
  lemma PushesLast(flights: seq<Flight>, mode: ViewMode, q: nat)
    requires flights != [] && q < |PushesOf(flights[|flights| - 1], mode)|
    ensures |Pushes(flights[..|flights| - 1], mode)| + q < |Pushes(flights, mode)|
    ensures Pushes(flights, mode)[|Pushes(flights[..|flights| - 1], mode)| + q] == PushesOf(flights[|flights| - 1], mode)[q]
  {
  }

  /** Every push a flight makes is among the pushes of the list. */
  lemma {:induction false} PushesComplete(flights: seq<Flight>, mode: ViewMode, j: nat, q: nat) returns (m: nat)
    requires j < |flights| && q < |PushesOf(flights[j], mode)|
    ensures m < |Pushes(flights, mode)| && Pushes(flights, mode)[m] == PushesOf(flights[j], mode)[q]
  {
    var init := flights[..|flights| - 1];
    if j < |init| {
      assert flights[j] == init[j];
      m := PushesComplete(init, mode, j, q);
      PushesPrefix(flights, mode, m);
      assert Pushes(flights, mode)[m] == Pushes(init, mode)[m] == PushesOf(init[j], mode)[q];
    } else {
      assert j == |flights| - 1;
      m := |Pushes(init, mode)| + q;
      PushesLast(flights, mode, q);
    }
  }

  /** The events under `key` are exactly the events pushed with that key. */
  lemma {:induction false} EventsUnderMembers(ps: seq<Push>, key: string, e: RowEvent)
    ensures e in EventsUnder(ps, key) <==> Push(key, e) in ps
  {
    if ps != [] {
      var init := ps[..|ps| - 1];
      EventsUnderMembers(init, key, e);
      assert ps == init + [ps[|ps| - 1]];
    }
  }

  /** The rows over `ks` are one per key, in that order. */
  lemma {:induction false} RowsOverAt(ps: seq<Push>, ks: seq<string>, k: nat)
    requires k < |ks|
    ensures RowsOver(ps, ks)[k] == RowOf(ks[k], EventsUnder(ps, ks[k]))
  {
    var init := ks[..|ks| - 1];
    if k < |init| {
      RowsOverAt(ps, init, k);
    }
  }

  /**
   * Each row is labelled by its key, which is named (neither empty nor
   * "Unknown"); it has events, none of its own overlaps, and its events are
   * those pushed under its key, sorted by the start of their buffer.
   */
  lemma RowShape(flights: seq<Flight>, mode: ViewMode, k: nat)
    requires k < |RowsOf(flights, mode)|
    ensures var r := RowsOf(flights, mode)[k];
      && r.id == r.labelText && Named(r.id) && r.overlaps == [] && r.events != []
      && SortedBy(r.events, StartBufferOf)
      && multiset(r.events) == multiset(EventsUnder(Pushes(flights, mode), r.id))
  {
    var ps := Pushes(flights, mode);
    var ks := SortKeys(Grouped(ps).keys);
    RowsOverAt(ps, ks, k);
    var key := ks[k];
    GroupedLists(ps, key);
    var e := EventsUnder(ps, key)[0];
    EventsUnderMembers(ps, key, e);
    var i :| 0 <= i < |ps| && ps[i] == Push(key, e);
    var j := PushesSound(flights, mode, i);
    SortByKeySorted(EventsUnder(ps, key), StartBufferOf);
    SortByKeyPermutes(EventsUnder(ps, key), StartBufferOf);
  }

  /** Rows come in strictly ascending key order, so no key has two rows. */
  lemma RowsAscending(flights: seq<Flight>, mode: ViewMode, j: nat, k: nat)
    requires j < k < |RowsOf(flights, mode)|
    ensures StrLess(RowsOf(flights, mode)[j].id, RowsOf(flights, mode)[k].id)
  {
    var ps := Pushes(flights, mode);
    var ks := SortKeys(Grouped(ps).keys);
    RowsOverAt(ps, ks, j);
    RowsOverAt(ps, ks, k);
  }

  /**
   * Every event of a row is the departure or arrival event of some flight,
   * pushed under the row's key: in pad view its pad is the key, in aircraft
   * view its flight's aircraft is, and its buffer is centred on its time.
   */
  lemma RowEventSound(flights: seq<Flight>, mode: ViewMode, k: nat, i: nat) returns (j: nat)
    requires k < |RowsOf(flights, mode)| && i < |RowsOf(flights, mode)[k].events|
    ensures var r := RowsOf(flights, mode)[k]; var e := r.events[i];
      && j < |flights| && e.flight == flights[j] && PushedBy(flights[j], mode, Push(r.id, e))
      && e.time == e.startBuffer + BufferMins && e.endBuffer == e.time + BufferMins
      && (mode == PadView ==> e.pad == r.id)
      && (mode == AircraftView ==> e.flight.aircraft == r.id)
  {
    var ps := Pushes(flights, mode);
    var r := RowsOf(flights, mode)[k];
    var e := r.events[i];
    RowShape(flights, mode, k);
    assert e in multiset(EventsUnder(ps, r.id));
    EventsUnderMembers(ps, r.id, e);
    var m :| 0 <= m < |ps| && ps[m] == Push(r.id, e);
    j := PushesSound(flights, mode, m);
  }

  /**
   * Every hub departure and hub arrival under a named key shows up as an
   * event in the row of that key.
   */
  lemma RowEventComplete(flights: seq<Flight>, mode: ViewMode, j: nat, p: Push) returns (k: nat)
    requires j < |flights| && PushedBy(flights[j], mode, p)
    ensures k < |RowsOf(flights, mode)|
    ensures RowsOf(flights, mode)[k].id == p.key && p.event in RowsOf(flights, mode)[k].events
  {
    var ps := Pushes(flights, mode);
    PushesOfMembers(flights[j], mode, p);
    var q :| 0 <= q < |PushesOf(flights[j], mode)| && PushesOf(flights[j], mode)[q] == p;
    var m := PushesComplete(flights, mode, j, q);
    EventsUnderMembers(ps, p.key, p.event);
    GroupedLists(ps, p.key);
    var ks := SortKeys(Grouped(ps).keys);
    k :| 0 <= k < |ks| && ks[k] == p.key;
    RowsOverAt(ps, ks, k);
    SortByKeyPermutes(EventsUnder(ps, p.key), StartBufferOf);
    assert p.event in multiset(RowsOf(flights, mode)[k].events);
  }

  /**
   * A hub departure from the pad "Unknown" gets no row in pad view but does
   * in aircraft view, while its pad window still enters the conflict scan,
   * which only drops empty pads.
   */
  lemma UnknownPad(f: Flight)
    requires DepartsHub(f) && !ArrivesHub(f) && f.takeoffPad == "Unknown" && Named(f.aircraft)
    ensures RowsOf([f], PadView) == []
    ensures RowsOf([f], AircraftView) == [Row(f.aircraft, f.aircraft, [DepartureEvent(f)], [])]
    ensures AllWindows([f]) == [Window(f.start - BufferMins, f.start + BufferMins)]
  {
    assert [f][..0] == [];
    assert Pushes([f], PadView) == [];
    var ps := Pushes([f], AircraftView);
    assert PushesOf(f, AircraftView) == [Push(f.aircraft, DepartureEvent(f))] + [];
    assert ps == Pushes([], AircraftView) + PushesOf(f, AircraftView);
    assert ps == [Push(f.aircraft, DepartureEvent(f))];
    assert ps[..0] == [];
    assert Grouped(ps).keys == [f.aircraft];
    assert SortKeys([f.aircraft]) == [f.aircraft];
    assert EventsUnder(ps, f.aircraft) == [DepartureEvent(f)];
    assert SortByKey([DepartureEvent(f)], StartBufferOf) == [DepartureEvent(f)];
    assert AllWindows([f]) == AllWindows([]) + WindowsOf(f);
  }

  /** Events of a row with the same buffer start keep their push order: flight order, departure before arrival. */
  lemma RowStable(flights: seq<Flight>, mode: ViewMode, k: nat, t: int)
    requires k < |RowsOf(flights, mode)|
    ensures WithKey(RowsOf(flights, mode)[k].events, StartBufferOf, t)
         == WithKey(EventsUnder(Pushes(flights, mode), RowsOf(flights, mode)[k].id), StartBufferOf, t)
  {
    var ps := Pushes(flights, mode);
    var ks := SortKeys(Grouped(ps).keys);
    RowsOverAt(ps, ks, k);
    SortByKeyStable(EventsUnder(ps, ks[k]), StartBufferOf, t);
  }
}

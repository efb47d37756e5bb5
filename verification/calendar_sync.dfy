/** The synchronisation task of `src/components/CalendarView/calendar-view.tsx`:
    when the selection or the visible window changes, clear the calendar and
    the shared event list, then refill both from the per-technician fetch
    results. The fan-out itself is outside the model; its results arrive as
    a list of responses, one per selected technician, in selection order. */
module CalendarSync {

  import opened Wrappers
  import opened Types
  import opened Seqs
  import opened Text

  /** An event as added to the calendar widget. */
  datatype WidgetEvent = WidgetEvent(
    id: string,
    title: string,
    start: int,
    end: Option<int>,
    color: Option<string>,
    textColor: Option<string>,
    techId: Option<string>)

  /** The shared calendar store: the widget's active and current windows,
      its view type, and the materialised bookings. */
  datatype CalendarStore = CalendarStore(
    activeStart: int, activeEnd: int, currentStart: int, currentEnd: int,
    viewType: string, events: seq<BookingView>)

  /** The page state the task works on: the store, and the widget's events
      once the widget exists. */
  datatype View = View(store: CalendarStore, widget: Option<seq<WidgetEvent>>)

  const MillisPerMinute: int := 60000

  /** `b.duration * 60000` reads a null duration as 0. */
  function DurationMinutes(b: BookingView): int
  {
    b.duration.GetOr(0)
  }

  /** The event's end: its start plus its duration in milliseconds. */
  function EventEnd(b: BookingView): (end: int)
    ensures end >= b.datetime <==> DurationMinutes(b) >= 0
    ensures end - b.datetime == DurationMinutes(b) * MillisPerMinute
  {
    b.datetime + DurationMinutes(b) * MillisPerMinute
  }

  /** "<technician initial> | <client> | <service, service, ...>". */
  function Title(b: BookingView): (title: string)
    ensures IsPrefix(FirstChar(b.technicianName) + " | ", title)
  {
    FirstChar(b.technicianName) + " | " + b.clientName + " | " + Join(b.servicesNames, ", ")
  }

  /** The widget event `addEvent` receives for one booking: the booking's
      id, title and start, an end one duration later, black text and the
      technician's id. */
  function ToWidgetEvent(b: BookingView): (w: WidgetEvent)
    ensures w.id == b.id && w.title == Title(b) && w.start == b.datetime
    ensures w.end.Some? && w.end.value - w.start == DurationMinutes(b) * MillisPerMinute
    ensures w.color == b.color && w.textColor == Some("black") && w.techId == Some(b.technicianId)
  {
    WidgetEvent(b.id, Title(b), b.datetime, Some(EventEnd(b)), b.color, Some("black"), Some(b.technicianId))
  }

  function WidgetEvents(events: seq<BookingView>): (ws: seq<WidgetEvent>)
    ensures |ws| == |events|
    ensures forall i :: 0 <= i < |events| ==> ws[i] == ToWidgetEvent(events[i])
  {
    seq(|events|, i requires 0 <= i < |events| => ToWidgetEvent(events[i]))
  }

  function Ids(ws: seq<WidgetEvent>): seq<string>
  {
    seq(|ws|, i requires 0 <= i < |ws| => ws[i].id)
  }

  /** `flatMap((b) => b.data || [])`: the data of every response in order, a
      failed response contributing nothing. */
  function EventsOf(responses: seq<ApiResponse<seq<BookingView>>>): (es: seq<BookingView>)
    ensures forall b :: b in es <==>
      exists i :: 0 <= i < |responses| && responses[i].Success? && b in responses[i].data
  {
    var parts := seq(|responses|, i requires 0 <= i < |responses| => responses[i].DataOr([]));
    FlattenMembers(parts);
    forall b
      ensures b in Flatten(parts) <==>
        exists i :: 0 <= i < |responses| && responses[i].Success? && b in responses[i].data
    {
      if b in Flatten(parts) {
        var i :| 0 <= i < |parts| && b in parts[i];
        assert responses[i].Success? && b in responses[i].data;
      }
      if exists i :: 0 <= i < |responses| && responses[i].Success? && b in responses[i].data {
        var i :| 0 <= i < |responses| && responses[i].Success? && b in responses[i].data;
        assert b in parts[i];
      }
    }
    Flatten(parts)
  }

  lemma EventsOfAppend(responses: seq<ApiResponse<seq<BookingView>>>, last: ApiResponse<seq<BookingView>>)
    ensures EventsOf(responses + [last]) ==
      EventsOf(responses) + (if last.Success? then last.data else [])
  {
    var parts := seq(|responses|, i requires 0 <= i < |responses| => responses[i].DataOr([]));
    var rs := responses + [last];
    assert seq(|rs|, i requires 0 <= i < |rs| => rs[i].DataOr([])) == parts + [last.DataOr([])];
    FlattenAppend(parts, last.DataOr([]));
  }

  /** The first half of the task, before the fetches are awaited: the widget
      is emptied and the store's events cleared. Without a widget nothing
      happens. */
  function BeginSync(v: View): (r: View)
    ensures v.widget.None? ==> r == v
    ensures v.widget.Some? ==> r.widget == Some([]) && r.store == v.store.(events := [])
  {
    if v.widget.None? then v
    else View(v.store.(events := []), Some([]))
  }

  /** The second half, once the responses are in: the store's events become
      the flattened data and one widget event is added per booking. */
  function CompleteSync(v: View, responses: seq<ApiResponse<seq<BookingView>>>): (r: View)
    ensures v.widget.None? ==> r == v
    ensures v.widget.Some? ==> r.store == v.store.(events := EventsOf(responses))
    ensures v.widget.Some? ==> r.widget == Some(v.widget.value + WidgetEvents(EventsOf(responses)))
  {
    if v.widget.None? then v
    else
      var events := EventsOf(responses);
      View(v.store.(events := events), Some(v.widget.value + WidgetEvents(events)))
  }

  /** One uninterrupted run of the task. */
  function Sync(v: View, responses: seq<ApiResponse<seq<BookingView>>>): (r: View)
    ensures v.widget.None? ==> r == v
    ensures v.widget.Some? ==> r.store == v.store.(events := EventsOf(responses))
    ensures v.widget.Some? ==> r.widget == Some(WidgetEvents(EventsOf(responses)))
    ensures v.widget.Some? ==> Ids(r.widget.value) == seq(|r.store.events|, i requires 0 <= i < |r.store.events| => r.store.events[i].id)
  {
    var ws := WidgetEvents(EventsOf(responses));
    assert [] + ws == ws;
    CompleteSync(BeginSync(v), responses)
  }

  /** Full replace: what was displayed before has no influence on the
      result. */
  lemma SyncForgetsPreviousEvents(v1: View, v2: View, responses: seq<ApiResponse<seq<BookingView>>>)
    requires v1.widget.Some? && v2.widget.Some?
    requires v1.store.(events := []) == v2.store.(events := [])
    ensures Sync(v1, responses) == Sync(v2, responses)
  {
  }

  /** Re-running the task with the same responses changes nothing. */
  lemma SyncIdempotent(v: View, responses: seq<ApiResponse<seq<BookingView>>>)
    ensures Sync(Sync(v, responses), responses) == Sync(v, responses)
  {
  }

  /** Two runs whose fetches overlap (both clear before either completes)
      leave both result lists on the widget, while the store keeps only the
      later one. */
  lemma OverlappingRunsAccumulate(v: View, first: seq<ApiResponse<seq<BookingView>>>,
                                  second: seq<ApiResponse<seq<BookingView>>>)
    requires v.widget.Some?
    ensures var r := CompleteSync(CompleteSync(BeginSync(BeginSync(v)), first), second);
      && r.store.events == EventsOf(second)
      && r.widget == Some(WidgetEvents(EventsOf(first)) + WidgetEvents(EventsOf(second)))
  {
    assert [] + WidgetEvents(EventsOf(first)) == WidgetEvents(EventsOf(first));
  }

  /** A failed fetch adds no event; a successful one adds its bookings in
      order after those of the technicians before it. */
  lemma SyncAppendsPerTechnician(v: View, responses: seq<ApiResponse<seq<BookingView>>>, last: ApiResponse<seq<BookingView>>)
    requires v.widget.Some?
    ensures Sync(v, responses + [last]).store.events ==
      Sync(v, responses).store.events + (if last.Success? then last.data else [])
  {
    EventsOfAppend(responses, last);
  }

  /** The title shows the client and every service name of the booking. */
  lemma TitleShowsClientAndServices(b: BookingView)
    ensures Contains(Title(b), b.clientName)
    ensures forall i :: 0 <= i < |b.servicesNames| ==> Contains(Title(b), b.servicesNames[i])
  {
    var head := FirstChar(b.technicianName) + " | ";
    var title := Title(b);
    assert title == head + (b.clientName + (" | " + Join(b.servicesNames, ", ")));
    assert OccursAt(b.clientName + (" | " + Join(b.servicesNames, ", ")), b.clientName, 0);
    ContainsAt(b.clientName + (" | " + Join(b.servicesNames, ", ")), b.clientName);
    ContainsInSuffix(head, b.clientName + (" | " + Join(b.servicesNames, ", ")), b.clientName);
    forall i | 0 <= i < |b.servicesNames|
      ensures Contains(title, b.servicesNames[i])
    {
      JoinContainsParts(b.servicesNames, ", ", i);
      assert title == (head + b.clientName + " | ") + Join(b.servicesNames, ", ");
      ContainsInSuffix(head + b.clientName + " | ", Join(b.servicesNames, ", "), b.servicesNames[i]);
    }
  }

  /** When neither the names nor the client contain a comma, the title has
      exactly one comma fewer than the booking has service names. */
  lemma TitleCommas(b: BookingView)
    requires Occurrences(b.technicianName, ',') == 0 && Occurrences(b.clientName, ',') == 0
    requires forall i :: 0 <= i < |b.servicesNames| ==> Occurrences(b.servicesNames[i], ',') == 0
    ensures Occurrences(Title(b), ',') == if b.servicesNames == [] then 0 else |b.servicesNames| - 1
  {
    var first := FirstChar(b.technicianName);
    assert Occurrences(first, ',') == 0 by {
      if b.technicianName != [] {
        assert b.technicianName == first + b.technicianName[1..];
        OccurrencesAppend(first, b.technicianName[1..], ',');
      }
    }
    JoinCommas(b.servicesNames);
    OccurrencesAppend(first, " | ", ',');
    OccurrencesAppend(first + " | ", b.clientName, ',');
    OccurrencesAppend(first + " | " + b.clientName, " | ", ',');
    OccurrencesAppend(first + " | " + b.clientName + " | ", Join(b.servicesNames, ", "), ',');
  }

  /** Reading the title back. Split on " | ", it gives the technician's
      initial, the client and the joined service names; split on ", ", the
      joined names give back the booking's service names. This needs that no
      name contains '|' and, for the service names, no ','. */
  lemma TitleParts(b: BookingView)
    requires '|' !in b.technicianName && '|' !in b.clientName
    requires forall i :: 0 <= i < |b.servicesNames| ==> '|' !in b.servicesNames[i]
    ensures var parts := Split(Title(b), " | ");
      && parts == [FirstChar(b.technicianName), b.clientName, Join(b.servicesNames, ", ")]
      && (b.servicesNames == [] ==> parts[2] == "")
      && (var commaFree := forall i :: 0 <= i < |b.servicesNames| ==> ',' !in b.servicesNames[i];
          b.servicesNames != [] && commaFree ==> Split(parts[2], ", ") == b.servicesNames)
  {
    var first := FirstChar(b.technicianName);
    var services := Join(b.servicesNames, ", ");
    assert '|' !in first by {
      assert first == b.technicianName[..|first|];
    }
    JoinAvoids(b.servicesNames, ", ", '|');
    var parts := [first, b.clientName, services];
    assert Join(parts, " | ") == Title(b) by {
      assert parts[1..][1..] == [services];
      assert Join(parts[1..], " | ") == b.clientName + " | " + services;
    }
    SplitJoin(parts, " | ", 1);
    if b.servicesNames != [] && forall i :: 0 <= i < |b.servicesNames| ==> ',' !in b.servicesNames[i] {
      SplitJoin(b.servicesNames, ", ", 0);
    }
  }

  /** One argument of a JavaScript call, as far as the fetch call needs. */
  datatype JsArg = JsString(s: string) | JsUndefined | JsServices(catalog: seq<Service>) | JsIsoInstant(ms: int)

  /** Number of parameters `fetchBookings` declares. */
  const FetchBookingsArity: nat := 5

  /** JavaScript's positional binding: surplus arguments are dropped and
      missing ones read as `undefined`. */
  function Bind(args: seq<JsArg>, arity: nat): (params: seq<JsArg>)
    ensures |params| == arity
    ensures forall i :: 0 <= i < arity && i < |args| ==> params[i] == args[i]
    ensures forall i :: |args| <= i < arity ==> params[i] == JsUndefined
  {
    seq(arity, i requires 0 <= i < arity => if i < |args| then args[i] else JsUndefined)
  }

  function ColorArg(t: Technician): JsArg
  {
    if t.color.Some? then JsString(t.color.value) else JsUndefined
  }

  /** The call as written: six arguments, the colour third. */
  function FetchCallAsWritten(t: Technician, catalog: seq<Service>, activeStart: int, activeEnd: int): seq<JsArg>
  {
    [JsString(t.id), JsString(t.name), ColorArg(t), JsServices(catalog), JsIsoInstant(activeStart), JsIsoInstant(activeEnd)]
  }

  /** With the call as written, the catalog lands in `from`, the window start
      in `to`, the colour (or `undefined`) in `services`, and the window end
      is dropped. */
  lemma FetchCallAsWrittenMisbinds(t: Technician, catalog: seq<Service>, activeStart: int, activeEnd: int)
    ensures var params := Bind(FetchCallAsWritten(t, catalog, activeStart, activeEnd), FetchBookingsArity);
      && params[2] != JsServices(catalog)
      && params[3] == JsServices(catalog)
      && params[4] == JsIsoInstant(activeStart)
      && (JsIsoInstant(activeEnd) in params <==> activeEnd == activeStart)
  {
    var params := Bind(FetchCallAsWritten(t, catalog, activeStart, activeEnd), FetchBookingsArity);
    assert params == [JsString(t.id), JsString(t.name), ColorArg(t), JsServices(catalog), JsIsoInstant(activeStart)];
  }

  /** The call with the colour left out, matching the declared parameters. */
  function FetchCall(t: Technician, catalog: seq<Service>, activeStart: int, activeEnd: int): seq<JsArg>
  {
    [JsString(t.id), JsString(t.name), JsServices(catalog), JsIsoInstant(activeStart), JsIsoInstant(activeEnd)]
  }

  /** Every parameter receives its intended value: the technician, the
      catalog, and the active window's bounds. */
  lemma FetchCallBindsWindow(t: Technician, catalog: seq<Service>, activeStart: int, activeEnd: int)
    ensures Bind(FetchCall(t, catalog, activeStart, activeEnd), FetchBookingsArity) ==
      [JsString(t.id), JsString(t.name), JsServices(catalog), JsIsoInstant(activeStart), JsIsoInstant(activeEnd)]
  {
  }

  /** The fan-out's responses, in selection order: the technician's fetch
      receives its id, its name, the catalog and the window's two bounds. */
  function WindowResponses(selected: seq<Technician>, catalog: seq<Service>, activeStart: int, activeEnd: int,
                           fetch: seq<JsArg> -> ApiResponse<seq<BookingView>>): (rs: seq<ApiResponse<seq<BookingView>>>)
    ensures |rs| == |selected|
  {
    seq(|selected|, i requires 0 <= i < |selected| =>
      fetch([JsString(selected[i].id), JsString(selected[i].name), JsServices(catalog),
             JsIsoInstant(activeStart), JsIsoInstant(activeEnd)]))
  }

  /** The whole task with the corrected call: each selected technician's
      fetch receives the parameters that positional binding makes of
      `FetchCall`, and the run is `Sync` over those responses. So the store
      holds exactly the successful responses' bookings, technician by
      technician in selection order. `fetch` stands for `fetchBookings`
      applied to its bound parameters. */
  function SyncSelection(v: View, selected: seq<Technician>, catalog: seq<Service>,
                         fetch: seq<JsArg> -> ApiResponse<seq<BookingView>>): (r: View)
    ensures v.widget.None? ==> r == v
    ensures r == Sync(v, WindowResponses(selected, catalog, v.store.activeStart, v.store.activeEnd, fetch))
    ensures v.widget.Some? ==>
      r.store.events == EventsOf(WindowResponses(selected, catalog, v.store.activeStart, v.store.activeEnd, fetch))
    ensures v.widget.Some? ==> r.widget.Some? && |r.widget.value| == |r.store.events|
    ensures v.widget.Some? ==> forall i :: 0 <= i < |selected| ==>
      var resp := fetch([JsString(selected[i].id), JsString(selected[i].name), JsServices(catalog),
                         JsIsoInstant(v.store.activeStart), JsIsoInstant(v.store.activeEnd)]);
      resp.Success? ==> forall b :: b in resp.data ==> b in r.store.events
  {
    var responses := seq(|selected|, i requires 0 <= i < |selected| =>
      fetch(Bind(FetchCall(selected[i], catalog, v.store.activeStart, v.store.activeEnd), FetchBookingsArity)));
    var window := WindowResponses(selected, catalog, v.store.activeStart, v.store.activeEnd, fetch);
    forall i | 0 <= i < |selected|
      ensures responses[i] == window[i]
    {
      FetchCallBindsWindow(selected[i], catalog, v.store.activeStart, v.store.activeEnd);
    }
    assert responses == window;
    var r := Sync(v, responses);
    if v.widget.Some? then
      forall i | 0 <= i < |selected|
        ensures var resp := fetch([JsString(selected[i].id), JsString(selected[i].name), JsServices(catalog),
                                   JsIsoInstant(v.store.activeStart), JsIsoInstant(v.store.activeEnd)]);
          resp.Success? ==> forall b :: b in resp.data ==> b in r.store.events
      {
        assert responses[i] == window[i];
      }
      r
    else r
  }
}

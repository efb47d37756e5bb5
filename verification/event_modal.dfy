/** The booking modal of `src/components/CalendarView/calendar-view.tsx`:
    opening it from a clicked event or a selected range, editing its
    fields, and saving or deleting against the calendar widget the modal
    was opened on. */
module EventModal {

  import opened Wrappers
  import opened Types
  import opened Text
  import opened CalendarSync

  /** The duration field: a number, or `NaN` when the typed text does not
      start with a number. */
  datatype Duration = Num(minutes: real) | NaN
  {
    /** JavaScript truthiness: 0 and `NaN` are false. */
    predicate Truthy()
    {
      Num? && minutes != 0.0
    }
  }

  /** The modal's event. `start` and `end` are instants in milliseconds,
      absent when the field holds `null`. */
  datatype ModalEvent = ModalEvent(id: string, title: string, start: Option<int>, end: Option<int>, duration: Duration)

  /** `(end - start) / 60000` when both ends are known, 0 otherwise. */
  function DerivedDuration(start: Option<int>, end: Option<int>): (d: Duration)
    ensures d.Num?
    ensures start.Some? && end.Some? ==> d.minutes * 60000.0 == (end.value - start.value) as real
    ensures start.None? || end.None? ==> d.minutes == 0.0
  {
    if start.Some? && end.Some? then Num((end.value - start.value) as real / 60000.0)
    else Num(0.0)
  }

  /** `EventClick`: the clicked event's fields, its duration derived from
      its ends. */
  function OpenFromEvent(w: WidgetEvent): (m: ModalEvent)
    ensures m.id == w.id && m.title == w.title && m.start == Some(w.start) && m.end == w.end
    ensures m.duration == DerivedDuration(Some(w.start), w.end)
  {
    ModalEvent(w.id, w.title, Some(w.start), w.end, DerivedDuration(Some(w.start), w.end))
  }

  /** `SelectClick`: a blank event spanning the selected range. */
  function OpenFromSelection(start: int, end: int): (m: ModalEvent)
    ensures m.id == "" && m.title == ""
    ensures m.start == Some(start) && m.end == Some(end)
    ensures m.duration.Num? && m.duration.minutes * 60000.0 == (end - start) as real
  {
    ModalEvent("", "", Some(start), Some(end), DerivedDuration(Some(start), Some(end)))
  }

  /** The title input. */
  function SetTitle(m: ModalEvent, title: string): (r: ModalEvent)
    ensures r.title == title && r.(title := m.title) == m
  {
    m.(title := title)
  }

  /** The start input: an instant, or `null` when the field is cleared. */
  function SetStart(m: ModalEvent, start: Option<int>): (r: ModalEvent)
    ensures r.start == start && r.(start := m.start) == m
  {
    m.(start := start)
  }

  /** `Number.parseInt` of the duration field, on texts that are entirely an
      optionally negative decimal integer. */
  function ParseDuration(text: string): (d: Duration)
    ensures d.Num? <==> ParseDecimal(text).Some?
    ensures d.Num? ==> d.minutes == ParseDecimal(text).value as real
  {
    match ParseDecimal(text)
    case Some(n) => Num(n as real)
    case None => NaN
  }

  /** The duration input. */
  function SetDuration(m: ModalEvent, text: string): (r: ModalEvent)
    ensures r.duration == ParseDuration(text) && r.(duration := m.duration) == m
  {
    m.(duration := ParseDuration(text))
  }

  /** `new Date(ms)` keeps the integral part of a fractional millisecond
      count (truncation toward zero). */
  function Trunc(x: real): (n: int)
    ensures x >= 0.0 ==> n as real <= x < n as real + 1.0
    ensures x < 0.0 ==> n as real - 1.0 < x <= n as real
  {
    if x >= 0.0 then x.Floor else -((-x).Floor)
  }

  lemma TruncWhole(n: int)
    ensures Trunc(n as real) == n
  {
  }

  /** The end the save computes: start plus duration when both are set and
      the duration is truthy, otherwise the end the modal was opened with. */
  function SaveEnd(m: ModalEvent): (end: Option<int>)
    ensures m.start.Some? && m.duration.Truthy() ==>
      end.Some? && Trunc(m.start.value as real + m.duration.minutes * 60000.0) == end.value
    ensures !(m.start.Some? && m.duration.Truthy()) ==> end == m.end
  {
    if m.start.Some? && m.duration.Truthy() then
      Some(Trunc(m.start.value as real + m.duration.minutes * 60000.0))
    else m.end
  }

  /** Index of the first event with id `id`, or `|cal|` when there is none
      (`getEventById`). */
  function FindEvent(cal: seq<WidgetEvent>, id: string): (k: nat)
    ensures k <= |cal|
    ensures k < |cal| ==> cal[k].id == id
    ensures forall j :: 0 <= j < k ==> cal[j].id != id
  {
    if cal == [] then 0
    else if cal[0].id == id then 0
    else 1 + FindEvent(cal[1..], id)
  }

  datatype SaveOutcome = Rejected | Saved(calendar: Option<seq<WidgetEvent>>)

  /** The Save button. A missing title or start is rejected. An existing id
      updates the title and dates of that event on the modal's calendar (a
      vanished event is left alone); a new event gets `freshId` and is added.
      Without a calendar nothing is written. */
  function Save(m: ModalEvent, calendar: Option<seq<WidgetEvent>>, freshId: string): (r: SaveOutcome)
    ensures r.Rejected? <==> m.title == "" || m.start.None?
    ensures r.Saved? && calendar.None? ==> r.calendar.None?
    ensures r.Saved? && calendar.Some? && m.id != "" ==>
      var cal := calendar.value;
      var k := FindEvent(cal, m.id);
      && r.calendar.Some?
      && |r.calendar.value| == |cal|
      && (forall j :: 0 <= j < |cal| && j != k ==> r.calendar.value[j] == cal[j])
      && (k < |cal| ==>
            r.calendar.value[k] == cal[k].(title := m.title, start := m.start.value, end := SaveEnd(m)))
    ensures r.Saved? && calendar.Some? && m.id == "" ==>
      r.calendar == Some(calendar.value +
        [WidgetEvent(freshId, m.title, m.start.value, SaveEnd(m), None, None, None)])
  {
    if m.title == "" || m.start.None? then Rejected
    else if calendar.None? then Saved(None)
    else
      var cal := calendar.value;
      if m.id != "" then
        var k := FindEvent(cal, m.id);
        if k < |cal| then
          Saved(Some(cal[k := cal[k].(title := m.title, start := m.start.value, end := SaveEnd(m))]))
        else Saved(calendar)
      else
        Saved(Some(cal + [WidgetEvent(freshId, m.title, m.start.value, SaveEnd(m), None, None, None)]))
  }

  /** The Delete button, shown only for an existing id: the first event with
      that id is removed from the modal's calendar. */
  function Delete(m: ModalEvent, calendar: Option<seq<WidgetEvent>>): (r: Option<seq<WidgetEvent>>)
    requires m.id != ""
    ensures r.None? <==> calendar.None?
    ensures calendar.Some? ==>
      var cal := calendar.value;
      var k := FindEvent(cal, m.id);
      && (k == |cal| ==> r.value == cal)
      && (k < |cal| ==>
            |r.value| == |cal| - 1 && multiset(r.value) + multiset{cal[k]} == multiset(cal))
  {
    if calendar.None? then None
    else
      var cal := calendar.value;
      var k := FindEvent(cal, m.id);
      if k < |cal| then
        assert cal == cal[..k] + [cal[k]] + cal[k + 1..];
        Some(cal[..k] + cal[k + 1..])
      else calendar
  }

  /** Deleting an event keeps the other events in order and removes exactly
      one event carrying the id. */
  lemma DeleteRemovesFirstMatch(m: ModalEvent, cal: seq<WidgetEvent>)
    requires m.id != ""
    requires exists j :: 0 <= j < |cal| && cal[j].id == m.id
    ensures var k := FindEvent(cal, m.id);
      && k < |cal|
      && Delete(m, Some(cal)) == Some(cal[..k] + cal[k + 1..])
      && Seqs.Occurrences(Ids(Delete(m, Some(cal)).value), m.id) == Seqs.Occurrences(Ids(cal), m.id) - 1
  {
    var k := FindEvent(cal, m.id);
    var j :| 0 <= j < |cal| && cal[j].id == m.id;
    assert k < |cal|;
    DeleteAt(m, cal, k);
    IdsRemoveAt(cal, k);
    Seqs.OccurrencesRemoveAt(Ids(cal), k);
  }

  lemma DeleteAt(m: ModalEvent, cal: seq<WidgetEvent>, k: nat)
    requires m.id != "" && k == FindEvent(cal, m.id) && k < |cal|
    ensures Delete(m, Some(cal)) == Some(cal[..k] + cal[k + 1..])
  {
  }

  lemma IdsRemoveAt(cal: seq<WidgetEvent>, k: nat)
    requires k < |cal|
    ensures Ids(cal[..k] + cal[k + 1..]) == Ids(cal)[..k] + Ids(cal)[k + 1..]
  {
    var ids := Ids(cal);
    var rest := cal[..k] + cal[k + 1..];
    forall i | 0 <= i < |rest|
      ensures Ids(rest)[i] == (ids[..k] + ids[k + 1..])[i]
    {
      if i < k {
        assert rest[i] == cal[i];
      } else {
        assert rest[i] == cal[i + 1];
      }
    }
  }

  /** Opening an event and saving it without edits leaves the calendar as it
      was: the derived duration reproduces the event's end. */
  lemma OpenThenSaveUnchanged(cal: seq<WidgetEvent>, k: nat, freshId: string)
    requires k < |cal|
    requires cal[k].id != "" && cal[k].title != ""
    requires forall j :: 0 <= j < k ==> cal[j].id != cal[k].id
    ensures Save(OpenFromEvent(cal[k]), Some(cal), freshId) == Saved(Some(cal))
  {
    var w := cal[k];
    var m := OpenFromEvent(w);
    assert FindEvent(cal, w.id) == k;
    if w.end.Some? && m.duration.Truthy() {
      var x := w.start as real + m.duration.minutes * 60000.0;
      assert x == w.end.value as real;
      assert Trunc(x) == w.end.value;
    }
    assert SaveEnd(m) == w.end;
    assert cal[k := cal[k].(title := m.title, start := m.start.value, end := SaveEnd(m))] == cal;
  }

  /** A new booking drawn on the calendar and given a title is added with
      the selected range, under the fresh id. */
  lemma SelectThenSaveAdds(cal: seq<WidgetEvent>, start: int, end: int, title: string, freshId: string)
    requires title != ""
    ensures Save(SetTitle(OpenFromSelection(start, end), title), Some(cal), freshId) ==
      Saved(Some(cal + [WidgetEvent(freshId, title, start, Some(end), None, None, None)]))
  {
    var m := SetTitle(OpenFromSelection(start, end), title);
    if m.duration.Truthy() {
      var x := start as real + m.duration.minutes * 60000.0;
      assert x == end as real;
      assert Trunc(x) == end;
    }
    assert SaveEnd(m) == Some(end);
  }

  /** A typed whole number of minutes moves the end to start plus that many
      minutes; clearing the field or typing 0 keeps the previous end. */
  lemma EditedDurationSetsEnd(m: ModalEvent, text: string)
    requires m.start.Some?
    ensures var d := ParseDecimal(text);
      SaveEnd(SetDuration(m, text)) ==
        if d.Some? && d.value != 0 then Some(m.start.value + d.value * 60000) else m.end
  {
    var d := ParseDecimal(text);
    if d.Some? {
      assert SetDuration(m, text) == m.(duration := Num(d.value as real));
      WholeMinutesEnd(m, d.value);
    }
  }

  lemma WholeMinutesEnd(m: ModalEvent, n: int)
    requires m.start.Some?
    ensures SaveEnd(m.(duration := Num(n as real))) ==
      if n != 0 then Some(m.start.value + n * 60000) else m.end
  {
    if n != 0 {
      var x := m.start.value as real + (n as real) * 60000.0;
      assert x == (m.start.value + n * 60000) as real;
      TruncWhole(m.start.value + n * 60000);
    }
  }

  /** Editing the start moves the saved end with it: with a whole, non-zero
      number of minutes in the duration field, the end is the new start plus
      that duration. A cleared start makes the save rejected. */
  lemma EditedStartMovesEnd(m: ModalEvent, start: int, n: int,
                            calendar: Option<seq<WidgetEvent>>, freshId: string)
    requires m.duration == Num(n as real)
    ensures SaveEnd(SetStart(m, Some(start))) == if n != 0 then Some(start + n * 60000) else m.end
    ensures Save(SetStart(m, None), calendar, freshId) == Rejected
  {
    var e := SetStart(m, Some(start));
    assert e == e.(duration := Num(n as real));
    WholeMinutesEnd(e, n);
  }

  /** The modal opened on a synchronised booking shows the booking's
      duration in minutes (a null duration shows as 0). */
  lemma OpenedBookingShowsDuration(b: BookingView)
    ensures OpenFromEvent(ToWidgetEvent(b)).duration == Num(DurationMinutes(b) as real)
  {
    var w := ToWidgetEvent(b);
    assert w.end == Some(b.datetime + DurationMinutes(b) * MillisPerMinute);
    assert ((w.end.value - w.start) as real) == (DurationMinutes(b) as real) * 60000.0;
  }
}

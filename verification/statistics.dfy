/** The per-technician statistics panel of `src/components/Stats/statistics.tsx`:
    the window filter, the sums, the distinct-day and distinct-client counts,
    the service breakdown and the minutes formatter. The local-time date
    string of an instant (`toDateString`) is the parameter `dayKey`. */
module Statistics {

  import opened Wrappers
  import opened Types
  import opened Seqs
  import opened Text
  import opened ServiceBreakdown

  /** `formatMinutes`: under an hour, "<m> mins" (always plural); otherwise
      "<h> hr[s] <m> min[s]", with "hrs" only for more than one hour and
      "min" only for exactly one minute. */
  function FormatMinutes(minutes: int): (r: string)
    ensures minutes < 60 ==> r == DecimalString(minutes) + " mins"
  {
    if minutes < 60 then DecimalString(minutes) + " mins"
    else HoursAndMinutes(minutes / 60, minutes % 60)
  }

  function HourUnit(hrs: int): string
  {
    if hrs > 1 then "hrs" else "hr"
  }

  function MinuteUnit(mins: int): string
  {
    if mins != 1 then "mins" else "min"
  }

  function HoursAndMinutes(hrs: int, mins: int): string
  {
    DecimalString(hrs) + " " + (HourUnit(hrs) + " " + (DecimalString(mins) + " " + MinuteUnit(mins)))
  }

  lemma WordsOfHoursAndMinutes(hrs: int, mins: int)
    ensures Words(HoursAndMinutes(hrs, mins)) ==
      [DecimalString(hrs), HourUnit(hrs), DecimalString(mins), MinuteUnit(mins)]
  {
    assert ' ' !in HourUnit(hrs) && ' ' !in MinuteUnit(mins);
    WordsOfFour(DecimalString(hrs), HourUnit(hrs), DecimalString(mins), MinuteUnit(mins));
  }

  /** Reads a formatted duration back to minutes. */
  function ParseFormatted(s: string): Option<int>
  {
    ParseWords(Words(s))
  }

  function ParseWords(w: seq<string>): Option<int>
  {
    if |w| == 2 && w[1] == "mins" then ParseDecimal(w[0])
    else if |w| == 4 && w[1] in {"hr", "hrs"} && w[3] in {"min", "mins"} then
      match (ParseDecimal(w[0]), ParseDecimal(w[2]))
      case (Some(h), Some(m)) => Some(h * 60 + m)
      case _ => None
    else None
  }

  /** The words of a formatted duration of an hour or more: the hours, the
      hour unit, the minutes and the minute unit. */
  lemma {:induction false} FormatMinutesWords(minutes: int)
    requires minutes >= 60
    ensures var w := Words(FormatMinutes(minutes));
      && |w| == 4
      && w[0] == DecimalString(minutes / 60) && w[2] == DecimalString(minutes % 60)
      && (w[1] == "hrs" <==> minutes / 60 > 1) && w[1] in {"hr", "hrs"}
      && (w[3] == "mins" <==> minutes % 60 != 1) && w[3] in {"min", "mins"}
  {
    WordsOfHoursAndMinutes(minutes / 60, minutes % 60);
  }

  lemma ParseHoursAndMinutes(hrs: int, mins: int)
    ensures ParseFormatted(HoursAndMinutes(hrs, mins)) == Some(hrs * 60 + mins)
  {
    var w := [DecimalString(hrs), HourUnit(hrs), DecimalString(mins), MinuteUnit(mins)];
    assert Words(HoursAndMinutes(hrs, mins)) == w by {
      WordsOfHoursAndMinutes(hrs, mins);
    }
    assert ParseWords(w) == Some(hrs * 60 + mins) by {
      DecimalRoundTrip(hrs);
      DecimalRoundTrip(mins);
      ParseFourWords(w[0], w[1], w[2], w[3]);
    }
  }

  lemma ParseFourWords(h: string, hu: string, m: string, mu: string)
    requires hu in {"hr", "hrs"} && mu in {"min", "mins"}
    requires ParseDecimal(h).Some? && ParseDecimal(m).Some?
    ensures ParseWords([h, hu, m, mu]) == Some(ParseDecimal(h).value * 60 + ParseDecimal(m).value)
  {
  }

  /** Round trip: the formatted text determines the number of minutes. */
  lemma FormatMinutesRoundTrip(minutes: int)
    ensures ParseFormatted(FormatMinutes(minutes)) == Some(minutes)
  {
    if minutes < 60 {
      assert FormatMinutes(minutes) == DecimalString(minutes) + " " + "mins";
      WordsOfTwo(DecimalString(minutes), "mins");
      DecimalRoundTrip(minutes);
    } else {
      var hrs, mins := minutes / 60, minutes % 60;
      ParseHoursAndMinutes(hrs, mins);
      assert hrs * 60 + mins == minutes;
    }
  }

  /** The hour/minute split of a duration of at least an hour. */
  lemma FormatMinutesSplit(minutes: int)
    requires minutes >= 60
    ensures var w := Words(FormatMinutes(minutes));
      && |w| == 4 && ParseDecimal(w[0]).Some? && ParseDecimal(w[2]).Some?
      && var hrs := ParseDecimal(w[0]).value;
         var mins := ParseDecimal(w[2]).value;
         hrs * 60 + mins == minutes && 0 <= mins < 60 && hrs >= 1
  {
    FormatMinutesWords(minutes);
    DecimalRoundTrip(minutes / 60);
    DecimalRoundTrip(minutes % 60);
  }

  lemma SmallDecimal(n: int)
    requires 0 <= n < 10
    ensures DecimalString(n) == [DigitChar(n)]
  {
  }

  lemma FormatMinutesExamples()
    ensures FormatMinutes(1) == "1 mins"
    ensures FormatMinutes(60) == "1 hr 0 mins"
    ensures FormatMinutes(61) == "1 hr 1 min"
    ensures FormatMinutes(125) == "2 hrs 5 mins"
  {
    SmallDecimal(0);
    SmallDecimal(1);
    SmallDecimal(2);
    SmallDecimal(5);
    assert FormatMinutes(1) == "1" + " mins";
    assert FormatMinutes(60) == "1" + " " + ("hr" + " " + ("0" + " " + "mins"));
    assert FormatMinutes(61) == "1" + " " + ("hr" + " " + ("1" + " " + "min"));
    assert FormatMinutes(125) == "2" + " " + ("hrs" + " " + ("5" + " " + "mins"));
  }

  /** The booking belongs to the technician and lies in the inclusive
      window. */
  predicate InWindow(e: BookingView, technicianId: string, start: int, end: int)
  {
    e.technicianId == technicianId && start <= e.datetime <= end
  }

  /** `techEvents`: the technician's bookings in `[start, end]`, in store
      order. */
  function TechEvents(events: seq<BookingView>, technicianId: string, start: int, end: int): (r: seq<BookingView>)
    ensures forall i :: 0 <= i < |r| ==> r[i] in events && InWindow(r[i], technicianId, start, end)
    ensures forall i :: 0 <= i < |events| && InWindow(events[i], technicianId, start, end) ==> events[i] in r
  {
    Filter(events, (e: BookingView) => InWindow(e, technicianId, start, end))
  }

  /** Exactly the matching bookings, each as often as in the store, in
      store order. */
  lemma TechEventsExact(events: seq<BookingView>, technicianId: string, start: int, end: int, e: BookingView)
    ensures IsSubsequence(TechEvents(events, technicianId, start, end), events)
    ensures Occurrences(TechEvents(events, technicianId, start, end), e) ==
      if InWindow(e, technicianId, start, end) then Occurrences(events, e) else 0
  {
    var p := (b: BookingView) => InWindow(b, technicianId, start, end);
    FilterIsSubsequence(events, p);
    FilterOccurrences(events, p, e);
  }

  /** `reduce((sum, e) => sum + (e.duration || 0), 0)`. */
  function TotalMinutes(es: seq<BookingView>): (total: int)
    ensures (forall j :: 0 <= j < |es| ==> es[j].duration.GetOr(0) >= 0) ==> total >= 0
  {
    if es == [] then 0 else es[0].duration.GetOr(0) + TotalMinutes(es[1..])
  }

  /** `reduce((sum, e) => sum + (e.price || 0), 0)`. */
  function MoneyEarned(es: seq<BookingView>): (money: int)
    ensures (forall j :: 0 <= j < |es| ==> es[j].price.GetOr(0) >= 0) ==> money >= 0
  {
    if es == [] then 0 else es[0].price.GetOr(0) + MoneyEarned(es[1..])
  }

  /** Both sums add up over consecutive runs of bookings. */
  lemma {:induction false} SumsAppend(a: seq<BookingView>, b: seq<BookingView>)
    ensures TotalMinutes(a + b) == TotalMinutes(a) + TotalMinutes(b)
    ensures MoneyEarned(a + b) == MoneyEarned(a) + MoneyEarned(b)
    decreases |a|
  {
    if a == [] {
      assert a + b == b;
    } else {
      assert (a + b)[1..] == a[1..] + b;
      SumsAppend(a[1..], b);
    }
  }

  /** The sums are the source's left-to-right reductions: each booking adds
      its value to the running sum, a missing value adding 0. */
  lemma SumsSnoc(es: seq<BookingView>, e: BookingView)
    ensures TotalMinutes(es + [e]) == TotalMinutes(es) + e.duration.GetOr(0)
    ensures MoneyEarned(es + [e]) == MoneyEarned(es) + e.price.GetOr(0)
  {
    SumsAppend(es, [e]);
    assert [e][1..] == [];
  }

  /** With no negative duration recorded, the working time is at least every
      single booking's duration. */
  lemma {:induction false} TotalMinutesBoundsEach(es: seq<BookingView>, i: nat)
    requires forall j :: 0 <= j < |es| ==> es[j].duration.GetOr(0) >= 0
    requires i < |es|
    ensures TotalMinutes(es) >= es[i].duration.GetOr(0)
  {
    if i > 0 {
      TotalMinutesBoundsEach(es[1..], i - 1);
    }
  }

  /** Number of distinct values of `key` over `es`. */
  function DistinctCount(es: seq<BookingView>, key: BookingView -> string): nat
  {
    |set e | e in es :: key(e)|
  }

  /** A set of distinct keys is never larger than the list it comes from,
      and is empty exactly when the list is. */
  lemma {:induction false} DistinctCountBounds(es: seq<BookingView>, key: BookingView -> string)
    ensures DistinctCount(es, key) <= |es|
    ensures DistinctCount(es, key) == 0 <==> es == []
  {
    if es != [] {
      var last := es[|es| - 1];
      var prefix := es[..|es| - 1];
      DistinctCountBounds(prefix, key);
      assert (set e | e in es :: key(e)) == (set e | e in prefix :: key(e)) + {key(last)} by {
        assert forall e :: e in es <==> e in prefix || e == last by {
          assert es == prefix + [last];
        }
      }
      assert key(last) in (set e | e in es :: key(e));
    }
  }

  /** Every service name of every booking, in visiting order. */
  function AllServiceNames(es: seq<BookingView>): seq<string>
  {
    Flatten(seq(|es|, i requires 0 <= i < |es| => es[i].servicesNames))
  }

  datatype TechStats = TechStats(
    technicianId: string,
    technicianName: string,
    moneyEarned: int,
    daysWorked: nat,
    totalMinutes: int,
    workingTime: string,
    bookings: nat,
    uniqueClients: nat,
    services: seq<ServiceCount>)

  /** One technician's card. */
  function TechnicianStats(tech: Technician, events: seq<BookingView>, start: int, end: int,
                           dayKey: int -> string): (r: TechStats)
    ensures var es := TechEvents(events, tech.id, start, end);
      && r.technicianId == tech.id
      && r.bookings == |es|
      && r.daysWorked <= r.bookings && r.uniqueClients <= r.bookings
      && (r.daysWorked == 0 <==> r.bookings == 0)
      && (r.uniqueClients == 0 <==> r.bookings == 0)
      && (r.bookings == 0 ==> r.moneyEarned == 0 && r.totalMinutes == 0 && r.services == [])
      && r.workingTime == FormatMinutes(r.totalMinutes)
      && SortedByCountDesc(r.services)
      && SumCounts(r.services) == |AllServiceNames(es)|
      && (forall i :: 0 <= i < |r.services| ==>
            r.services[i].count == Occurrences(AllServiceNames(es), r.services[i].name))
      && (forall n :: n in Keys(r.services) <==> n in AllServiceNames(es))
      && (forall i, j :: 0 <= i < j < |r.services| && r.services[i].count == r.services[j].count ==>
            FirstIndex(AllServiceNames(es), r.services[i].name) < FirstIndex(AllServiceNames(es), r.services[j].name))
  {
    var es := TechEvents(events, tech.id, start, end);
    var days := (e: BookingView) => dayKey(e.datetime);
    var client := (e: BookingView) => e.clientId;
    DistinctCountBounds(es, days);
    DistinctCountBounds(es, client);
    var table := Tally(AllServiceNames(es));
    var services := SortByCountDesc(table);
    BreakdownPermutesTable(table, services);
    SortKeepsTieOrder(table, AllServiceNames(es));
    var minutes := TotalMinutes(es);
    TechStats(tech.id, tech.name, MoneyEarned(es), DistinctCount(es, days), minutes,
              FormatMinutes(minutes), |es|, DistinctCount(es, client), services)
  }

  /** The sorted breakdown lists the same entries as the table. */
  lemma BreakdownPermutesTable(table: seq<ServiceCount>, sorted: seq<ServiceCount>)
    requires multiset(sorted) == multiset(table)
    ensures |sorted| == |table|
    ensures SumCounts(sorted) == SumCounts(table)
    ensures forall i :: 0 <= i < |sorted| ==> sorted[i] in table
    ensures forall n :: n in Keys(sorted) <==> n in Keys(table)
  {
    assert |multiset(sorted)| == |multiset(table)|;
    SumCountsPermutation(sorted, table);
    forall i | 0 <= i < |sorted|
      ensures sorted[i] in table
    {
      assert sorted[i] in multiset(sorted);
    }
    forall n
      ensures n in Keys(sorted) <==> n in Keys(table)
    {
      if n in Keys(sorted) {
        var i :| 0 <= i < |sorted| && Keys(sorted)[i] == n;
        assert sorted[i] in multiset(table);
        var j :| 0 <= j < |table| && table[j] == sorted[i];
        assert Keys(table)[j] == n;
      }
      if n in Keys(table) {
        var j :| 0 <= j < |table| && Keys(table)[j] == n;
        assert table[j] in multiset(sorted);
        var i :| 0 <= i < |sorted| && sorted[i] == table[j];
        assert Keys(sorted)[i] == n;
      }
    }
  }

  lemma {:induction false} SumCountsPermutation(a: seq<ServiceCount>, b: seq<ServiceCount>)
    requires multiset(a) == multiset(b)
    ensures SumCounts(a) == SumCounts(b)
    decreases |a|
  {
    if a != [] {
      assert a[0] in multiset(b);
      var k :| 0 <= k < |b| && b[k] == a[0];
      MultisetRemoveAt(a, b, k);
      SumCountsPermutation(a[1..], b[..k] + b[k + 1..]);
      SumCountsRemoveAt(b, k);
    }
  }

  /** Taking the head of `a` and a matching element of `b` off two
      permutations leaves two permutations. */
  lemma MultisetRemoveAt(a: seq<ServiceCount>, b: seq<ServiceCount>, k: nat)
    requires multiset(a) == multiset(b) && a != []
    requires k < |b| && b[k] == a[0]
    ensures multiset(a[1..]) == multiset(b[..k] + b[k + 1..])
  {
    var rest := b[..k] + b[k + 1..];
    assert multiset(a) == multiset{a[0]} + multiset(a[1..]) by {
      assert a == [a[0]] + a[1..];
    }
    assert multiset(b) == multiset{b[k]} + multiset(rest) by {
      assert b == b[..k] + [b[k]] + b[k + 1..];
    }
    forall x
      ensures multiset(a[1..])[x] == multiset(rest)[x]
    {
      assert multiset(a)[x] == multiset(b)[x];
    }
  }

  lemma {:induction false} SumCountsRemoveAt(b: seq<ServiceCount>, k: nat)
    requires k < |b|
    ensures SumCounts(b) == b[k].count + SumCounts(b[..k] + b[k + 1..])
  {
    var rest := b[..k] + b[k + 1..];
    if k == 0 {
      assert rest == b[1..];
    } else {
      var tail := b[1..];
      SumCountsRemoveAt(tail, k - 1);
      assert rest[1..] == tail[..k - 1] + tail[k..];
    }
  }

  /** The panel: one card per selected technician, in selection order; no
      cards when nobody is selected. */
  function StatisticsPanel(selected: seq<Technician>, events: seq<BookingView>, currentStart: int,
                           currentEnd: int, dayKey: int -> string): (cards: seq<TechStats>)
    ensures |cards| == |selected|
    ensures forall i :: 0 <= i < |selected| ==>
      cards[i] == TechnicianStats(selected[i], events, currentStart, currentEnd, dayKey)
  {
    seq(|selected|, i requires 0 <= i < |selected| =>
      TechnicianStats(selected[i], events, currentStart, currentEnd, dayKey))
  }

  /** The counts of the breakdown add up to the total number of service
      names over the technician's bookings. */
  lemma ServiceCountsTotal(tech: Technician, events: seq<BookingView>, start: int, end: int, dayKey: int -> string)
    ensures var es := TechEvents(events, tech.id, start, end);
      SumCounts(TechnicianStats(tech, events, start, end, dayKey).services)
        == TotalLength(seq(|es|, i requires 0 <= i < |es| => es[i].servicesNames))
  {
    var es := TechEvents(events, tech.id, start, end);
    FlattenLength(seq(|es|, i requires 0 <= i < |es| => es[i].servicesNames));
  }

  /** A booking of technician `techId` at `datetime` with the given duration,
      price and service names; the other columns are blank. */
  function SampleBooking(id: string, techId: string, datetime: int, duration: int, price: int,
                         names: seq<string>): BookingView
  {
    BookingView(id, techId, "", [], names, Some(duration), Some(price), datetime, "", "",
                "", "", "", None, None)
  }

  /** Two bookings of 30 and 45 minutes, priced 20 and 35, inside the window:
      75 minutes, 55 earned, 2 bookings. */
  lemma TwoBookingsScenario(tech: Technician, dayKey: int -> string)
    ensures var events := [SampleBooking("a", tech.id, 10, 30, 20, []), SampleBooking("b", tech.id, 20, 45, 35, [])];
      var r := TechnicianStats(tech, events, 0, 100, dayKey);
      r.totalMinutes == 75 && r.moneyEarned == 55 && r.bookings == 2
  {
    var a := SampleBooking("a", tech.id, 10, 30, 20, []);
    var b := SampleBooking("b", tech.id, 20, 45, 35, []);
    var es := TechEvents([a, b], tech.id, 0, 100);
    assert es == [a, b] by {
      FilterKeepsAll([a, b], (e: BookingView) => InWindow(e, tech.id, 0, 100));
    }
    assert TotalMinutes(es) == 75 && MoneyEarned(es) == 55 by {
      SumsOfPair(a, b);
    }
    StatsSums(tech, [a, b], 0, 100, dayKey);
  }

  lemma SumsOfPair(a: BookingView, b: BookingView)
    ensures TotalMinutes([a, b]) == a.duration.GetOr(0) + b.duration.GetOr(0)
    ensures MoneyEarned([a, b]) == a.price.GetOr(0) + b.price.GetOr(0)
  {
    assert [a, b][1..] == [b];
    assert [b][1..] == [];
    assert TotalMinutes([b]) == b.duration.GetOr(0) + TotalMinutes([]);
    assert MoneyEarned([b]) == b.price.GetOr(0) + MoneyEarned([]);
  }

  lemma StatsSums(tech: Technician, events: seq<BookingView>, start: int, end: int, dayKey: int -> string)
    ensures var es := TechEvents(events, tech.id, start, end);
      var r := TechnicianStats(tech, events, start, end, dayKey);
      r.totalMinutes == TotalMinutes(es) && r.moneyEarned == MoneyEarned(es)
  {
  }

  /** The card carries the technician's name, counts the distinct local days
      of the kept bookings as days worked and their distinct clients as
      unique clients. */
  lemma StatsDistinctCounts(tech: Technician, events: seq<BookingView>, start: int, end: int,
                            dayKey: int -> string)
    ensures var es := TechEvents(events, tech.id, start, end);
      var r := TechnicianStats(tech, events, start, end, dayKey);
      && r.technicianName == tech.name
      && r.daysWorked == DistinctCount(es, (e: BookingView) => dayKey(e.datetime))
      && r.uniqueClients == DistinctCount(es, (e: BookingView) => e.clientId)
  {
  }

  /** "Massage", then "Haircut" twice: the table lists Massage first (first
      seen), the sorted breakdown puts Haircut first. */
  lemma HaircutMassageScenario()
    ensures Tally(["Massage", "Haircut", "Haircut"]) == [ServiceCount("Massage", 1), ServiceCount("Haircut", 2)]
    ensures SortByCountDesc(Tally(["Massage", "Haircut", "Haircut"])) ==
      [ServiceCount("Haircut", 2), ServiceCount("Massage", 1)]
  {
    TallyTwoNames();
    TallyThreeNames();
    SortTwoEntries();
  }

  lemma TallyTwoNames()
    ensures Tally(["Massage", "Haircut"]) == [ServiceCount("Massage", 1), ServiceCount("Haircut", 1)]
  {
    var m1, h1 := ServiceCount("Massage", 1), ServiceCount("Haircut", 1);
    assert ["Massage", "Haircut"][..1] == ["Massage"];
    assert Tally(["Massage"]) == [m1] by {
      assert ["Massage"][..0] == [];
    }
    assert Keys([m1]) == ["Massage"];
    assert Bump([m1], "Haircut") == [m1, h1];
  }

  lemma TallyThreeNames()
    requires Tally(["Massage", "Haircut"]) == [ServiceCount("Massage", 1), ServiceCount("Haircut", 1)]
    ensures Tally(["Massage", "Haircut", "Haircut"]) == [ServiceCount("Massage", 1), ServiceCount("Haircut", 2)]
  {
    var m1, h1 := ServiceCount("Massage", 1), ServiceCount("Haircut", 1);
    assert ["Massage", "Haircut", "Haircut"][..2] == ["Massage", "Haircut"];
    assert Keys([m1, h1]) == ["Massage", "Haircut"];
    assert KeyIndex([m1, h1], "Haircut") == 1;
  }

  lemma SortTwoEntries()
    ensures SortByCountDesc([ServiceCount("Massage", 1), ServiceCount("Haircut", 2)]) ==
      [ServiceCount("Haircut", 2), ServiceCount("Massage", 1)]
  {
    var m1, h2 := ServiceCount("Massage", 1), ServiceCount("Haircut", 2);
    assert [m1, h2][1..] == [h2];
    assert SortByCountDesc([h2]) == [h2] by {
      assert [h2][1..] == [];
    }
  }
}

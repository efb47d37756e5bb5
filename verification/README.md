# Aesthetic Lab admin: bookings, statistics and calendar core in Dafny

This project models the core of the Aesthetic Lab admin dashboard, a Qwik web page where salon staff see the technicians' bookings on a calendar and a statistics panel. The model covers:

- **Loaders** (`src/api/bookings/get.ts`). Services, a client, technicians and bookings are read from the booking store. A store error becomes a tagged failure (`ApiResponse.Failure`) and is never thrown. Booking rows are reshaped into view-models with the technician's name and the names of the booked services. The store itself is the function parameter `run`.
- **Technician multi-select** (`src/components/Selection/multiselect.tsx` and its older variant `src/components/multiselect.tsx`). Covers the selected-id list and its toggle and remove transitions, the case-insensitive search, the selected technicians derived from the ids, and the initial all-selected state. The older variant's handlers are modelled as loops. Each is proved to compute exactly what the newer component's pure transition computes.
- **Statistics panel** (`src/components/Stats/statistics.tsx`). Covers `formatMinutes` and the per-technician card:
  - the technician's bookings in the inclusive window;
  - money earned and working minutes, with a missing value counting as 0;
  - days worked and unique clients, as set sizes;
  - the service breakdown, an insertion-ordered occurrence table sorted stably by descending count.
- **Calendar page** (`src/components/CalendarView/calendar-view.tsx`):
  - The synchronisation task clears the widget and the shared event list, then refills both from the per-technician fetch results.
  - Each widget event gets a title and an end time.
  - The booking modal derives a duration from an event, validates a save and computes its end, then updates or adds the event, or deletes it.

Instants are integers of milliseconds. Durations and prices are `Option<int>`, where `None` is a SQL null. The local-time day of an instant is the parameter `dayKey`. The modal's duration is a real number (fractional minutes), and the `Date` built from it truncates to whole milliseconds.

Where the declared types in `src/types.ts` and the code disagree, the model follows the code:

- `BookingResponse.color` is declared but never set by the booking loader.
- `BookingResponse.client_email` reads `clients.email`, which the join does not select, so it is always absent.
- `TechnicianResponse.color` is declared but not selected by the technicians loader.

## Model

| member | source | states |
|---|---|---|
| `BookingsApi.Tag` | src/api/bookings/get.ts:77-79 | a store error becomes a failure carrying exactly its message, rows become a success; the two cases are exclusive |
| `BookingsApi.FetchServices` | src/api/bookings/get.ts:5-22 | the result is a failure iff the active-services query errs, with the store's message; otherwise its data are the rows |
| `BookingsApi.FetchClient` | src/api/bookings/get.ts:26-41 | failure iff the query errs; on success the client is the first row, and absent exactly when no row matched |
| `BookingsApi.FetchTechnicians` | src/api/bookings/get.ts:44-59 | failure iff the query errs; on success one technician per row with the row's columns, and none carries a colour |
| `BookingsApi.BookingsQuery` | src/api/bookings/get.ts:64-71 | ordering is always ascending datetime; each of the three filters is present iff its argument is non-empty, no other filter is present, and the filter count is the number of non-empty arguments |
| `BookingsApi.UnboundedFetchFiltersTechnicianOnly` | src/api/bookings/get.ts:69-71 | with both bounds empty, the only filter is the technician's id |
| `BookingsApi.ServicesNames` | src/api/bookings/get.ts:87 | a name is listed iff some catalog service with that name has its id among the booking's ids; no longer than the catalog |
| `BookingsApi.ServicesNamesCatalogOrder` | src/api/bookings/get.ts:87 | names come in catalog order: appending a service to the catalog appends its name exactly when the booking lists its id |
| `BookingsApi.ServicesNamesOnlyIdSet` | src/api/bookings/get.ts:87 | reordering or repeating the booking's service ids does not change the names |
| `BookingsApi.ServicesNamesDropsUnknown` | src/api/bookings/get.ts:87 | an id that no catalog service carries contributes nothing |
| `BookingsApi.Reshape` | src/api/bookings/get.ts:81-88 | every row column is kept, client name and phone come from the join, the technician name is the argument, the e-mail and colour are absent, and the service names are the catalog join |
| `BookingsApi.FetchBookings` | src/api/bookings/get.ts:62-91 | failure iff the bookings query errs, with its message; on success one reshaped view-model per returned row, in the store's order |
| `ServiceBreakdown.Tally` | src/components/Stats/statistics.tsx:43-48 | the counted table lists each distinct name once, in order of first occurrence, with its number of occurrences, and the counts sum to the number of names |
| `ServiceBreakdown.Bump` | src/components/Stats/statistics.tsx:46 | counting a name keeps every existing entry's name in place, appends an entry only for a new name, makes the name a key, and raises the counts' total by exactly one |
| `ServiceBreakdown.BumpStep` | src/components/Stats/statistics.tsx:46 | counting one more name keeps the table an occurrence table of the extended name list |
| `ServiceBreakdown.SortByCountDesc` | src/components/Stats/statistics.tsx:75-76 | the breakdown is sorted by non-increasing count, is a permutation of the table, and keeps the table's order among entries of equal count (stability) |
| `ServiceBreakdown.InsertStable` | src/components/Stats/statistics.tsx:76 | inserting an entry puts it ahead of every entry of the same count, so arrival order survives among equal counts |
| `ServiceBreakdown.InsertKeepsTieOrder` | src/components/Stats/statistics.tsx:76 | inserting an entry whose name occurs before every other name keeps entries of equal count in order of their names' first occurrence |
| `ServiceBreakdown.SortKeepsTieOrder` | src/components/Stats/statistics.tsx:75-76 | sorting a table kept in first-occurrence order lists entries of equal count in the order their names first occur |
| `Statistics.FormatMinutes` | src/components/Stats/statistics.tsx:5 | under an hour the text is the number followed by " mins", also for 1 |
| `Statistics.FormatMinutesRoundTrip` | src/components/Stats/statistics.tsx:4-9 | reading the formatted text back gives the original number of minutes |
| `Statistics.FormatMinutesSplit` | src/components/Stats/statistics.tsx:6-7 | from an hour on, the text shows hours h and minutes m with h·60 + m equal to the input, 0 ≤ m < 60 and h ≥ 1 |
| `Statistics.FormatMinutesWords` | src/components/Stats/statistics.tsx:8 | from an hour on, the hour unit is "hrs" iff hours > 1 and the minute unit is "mins" iff minutes ≠ 1 |
| `Statistics.FormatMinutesExamples` | src/components/Stats/statistics.tsx:4-9 | 1 → "1 mins", 60 → "1 hr 0 mins", 61 → "1 hr 1 min", 125 → "2 hrs 5 mins" |
| `Statistics.TechEvents` | src/components/Stats/statistics.tsx:23-30 | every kept booking belongs to the technician and lies in the inclusive window, and every such booking is kept |
| `Statistics.TechEventsExact` | src/components/Stats/statistics.tsx:23-30 | the kept bookings are a sub-sequence of the store's list, each matching booking occurring as often as in the store |
| `Statistics.TotalMinutes` | src/components/Stats/statistics.tsx:34-37 | when no booking has a negative duration, the working minutes are not negative |
| `Statistics.MoneyEarned` | src/components/Stats/statistics.tsx:56 | when no booking has a negative price, the money earned is not negative |
| `Statistics.SumsSnoc` | src/components/Stats/statistics.tsx:34-37 | each booking adds its duration (and its price) to the running sum, taken left to right as `reduce` does, a missing value adding 0 |
| `Statistics.SumsAppend` | src/components/Stats/statistics.tsx:34-37 | working minutes and money earned add up over consecutive runs of bookings |
| `Statistics.TotalMinutesBoundsEach` | src/components/Stats/statistics.tsx:34-37 | without negative durations, the working time is at least every single booking's duration |
| `Statistics.DistinctCountBounds` | src/components/Stats/statistics.tsx:31-40 | the number of distinct days or clients is at most the number of bookings, and zero exactly when there are none |
| `Statistics.TechnicianStats` | src/components/Stats/statistics.tsx:22-79 | the card's booking count is the number of kept bookings; days and clients are bounded by it and zero iff it is; no bookings means zero sums and an empty breakdown; the working time is the formatted minutes (the exact day, client and name values are `Statistics.StatsDistinctCounts`); the breakdown is sorted, lists exactly the service names seen, with per-name occurrence counts summing to the number of names, and lists names of equal count in the order they first occur among the kept bookings |
| `Statistics.StatsSums` | src/components/Stats/statistics.tsx:34-56 | the card's working minutes and money earned are the sums over exactly the technician's bookings in the window |
| `Statistics.StatsDistinctCounts` | src/components/Stats/statistics.tsx:31-40 | the card carries the technician's name (line 52); days worked is the number of distinct local days among exactly the kept bookings, and unique clients the number of distinct client ids among them |
| `Statistics.BreakdownPermutesTable` | src/components/Stats/statistics.tsx:75-76 | a permutation of the table has the same length, count sum and set of names |
| `Statistics.ServiceCountsTotal` | src/components/Stats/statistics.tsx:43-48 | the breakdown's counts add up to the total length of the kept bookings' service-name lists |
| `Statistics.StatisticsPanel` | src/components/Stats/statistics.tsx:18-22 | one card per selected technician, in selection order; none when nobody is selected |
| `Statistics.TwoBookingsScenario` | src/components/Stats/statistics.tsx:34-37 | bookings of 30 and 45 minutes priced 20 and 35 in the window give 75 minutes, 55 earned and 2 bookings |
| `Statistics.HaircutMassageScenario` | src/components/Stats/statistics.tsx:43-76 | names Massage, Haircut, Haircut give the table [Massage 1, Haircut 2] and the breakdown [Haircut 2, Massage 1] |
| `TechSelection.InitialSelection` | src/components/Selection/multiselect.tsx:35 | the initial selection is every technician's id, in catalog order |
| `TechSelection.RemoveSelected` | src/components/Selection/multiselect.tsx:62-64 | the id is gone afterwards and every other id keeps its membership |
| `TechSelection.RemoveSelectedIsSubsequence` | src/components/Selection/multiselect.tsx:63 | removal keeps the other ids in order and shortens the list by the id's number of occurrences |
| `TechSelection.RemoveSelectedIdempotent` | src/components/Selection/multiselect.tsx:63 | removing twice is removing once |
| `TechSelection.RemoveAbsent` | src/components/Selection/multiselect.tsx:63 | removing an id that is not selected changes nothing |
| `TechSelection.Toggle` | src/components/Selection/multiselect.tsx:56-60 | afterwards the id is selected iff it was not before; other ids keep their membership |
| `TechSelection.ToggleTwiceAbsent` | src/components/Selection/multiselect.tsx:56-60 | toggling an unselected id twice restores the selection |
| `TechSelection.ToggleTwicePresent` | src/components/Selection/multiselect.tsx:56-60 | toggling a selected id twice moves it to the end, collapsing its duplicates |
| `TechSelection.ToggleKeepsNoDuplicates` | src/components/Selection/multiselect.tsx:56-60 | a duplicate-free selection stays duplicate-free |
| `TechSelection.Search` | src/components/Selection/multiselect.tsx:40-46 | a technician is kept iff its lower-cased name contains the lower-cased term |
| `TechSelection.SearchEmptyKeepsAll` | src/components/Selection/multiselect.tsx:42-45 | an empty term keeps every technician |
| `TechSelection.SearchCaseInsensitive` | src/components/Selection/multiselect.tsx:42 | the case of the term does not matter |
| `TechSelection.SearchNarrows` | src/components/Selection/multiselect.tsx:42-45 | extending the term can only narrow the result |
| `TechSelection.SearchIsSubsequence` | src/components/Selection/multiselect.tsx:43-45 | the result keeps catalog order |
| `TechSelection.SelectedTechnicians` | src/components/Selection/multiselect.tsx:49-54 | a technician is selected iff its id is among the selected ids |
| `TechSelection.SelectedTechniciansOrderIndependent` | src/components/Selection/multiselect.tsx:51-53 | the selected technicians depend only on the set of ids, not on the order of picking |
| `TechSelection.SelectedTechniciansIsSubsequence` | src/components/Selection/multiselect.tsx:51-53 | the selected technicians come in catalog order |
| `TechSelection.InitiallyAllSelected` | src/components/Selection/multiselect.tsx:35-53 | with the initial selection every technician is selected |
| `TechSelection.RemovedTechnicianNotSelected` | src/components/Selection/multiselect.tsx:62-64 | after removing an id no technician with that id is selected |
| `LegacySelection.InitialIds` | src/components/multiselect.tsx:19-21 | the older mount task selects every technician, as the newer one does |
| `LegacySelection.RemoveSelected` | src/components/multiselect.tsx:46-48 | the older removal equals the newer one |
| `LegacySelection.ToggleSelect` | src/components/multiselect.tsx:38-44 | the older if/else toggle equals the newer toggle |
| `LegacySelection.FilterTechs` | src/components/multiselect.tsx:23-28 | the older search, lower-casing the term per technician, equals the newer search |
| `LegacySelection.SyncSelected` | src/components/multiselect.tsx:31-36 | the older selected-technicians task equals the newer one |
| `CalendarSync.EventEnd` | src/components/CalendarView/calendar-view.tsx:171-173 | the end minus the start is the duration times 60000 ms (a null duration counts as 0), so the end is not before the start iff the duration is non-negative |
| `CalendarSync.Title` | src/components/CalendarView/calendar-view.tsx:169 | the title starts with the technician's initial and " \| " |
| `CalendarSync.TitleParts` | src/components/CalendarView/calendar-view.tsx:169 | when no name contains '\|', splitting the title on " \| " gives exactly the initial, the client and the joined service names, in that order; when additionally no service name contains ',', splitting the last part on ", " gives back the service names (an empty list gives an empty last part) |
| `CalendarSync.TitleShowsClientAndServices` | src/components/CalendarView/calendar-view.tsx:169 | the title contains the client's name and every service name of the booking |
| `CalendarSync.TitleCommas` | src/components/CalendarView/calendar-view.tsx:169 | with comma-free names, the title has one comma fewer than the booking has services |
| `CalendarSync.ToWidgetEvent` | src/components/CalendarView/calendar-view.tsx:167-179 | the added event keeps the booking's id and start, carries its title, ends one duration (in ms) after its start, keeps its colour, has black text and records the technician's id |
| `CalendarSync.WidgetEvents` | src/components/CalendarView/calendar-view.tsx:166-180 | one widget event per stored booking, in the store's order |
| `CalendarSync.EventsOf` | src/components/CalendarView/calendar-view.tsx:164 | a booking is in the flattened list iff some successful response carries it; failed responses contribute nothing |
| `CalendarSync.BeginSync` | src/components/CalendarView/calendar-view.tsx:145-149 | without a widget nothing changes; otherwise the widget and the store's events are emptied and nothing else in the store changes |
| `CalendarSync.CompleteSync` | src/components/CalendarView/calendar-view.tsx:163-180 | the store's events become the flattened response data and one widget event per booking is added after what the widget holds |
| `CalendarSync.Sync` | src/components/CalendarView/calendar-view.tsx:142-184 | after a run the store holds the concatenated successful data and the widget holds exactly one event per stored booking, with the same ids in the same order |
| `CalendarSync.SyncForgetsPreviousEvents` | src/components/CalendarView/calendar-view.tsx:147-149 | full replace: previously displayed events have no influence on the result |
| `CalendarSync.SyncIdempotent` | src/components/CalendarView/calendar-view.tsx:142-184 | re-running with the same responses changes nothing |
| `CalendarSync.SyncAppendsPerTechnician` | src/components/CalendarView/calendar-view.tsx:163-164 | a failed response adds no booking; a successful one adds its bookings after those of the technicians before it |
| `CalendarSync.OverlappingRunsAccumulate` | src/components/CalendarView/calendar-view.tsx:147-180 | two runs that both clear before either completes leave both result lists on the widget, while the store keeps only the later one |
| `CalendarSync.SyncSelection` | src/components/CalendarView/calendar-view.tsx:151-164 | each fetch receives what positional binding makes of the corrected five-argument call, and the run is `CalendarSync.Sync` over the fetches with parameters (id, name, catalog, window start, window end) in selection order; with a widget the store holds exactly the successful fetches' bookings, concatenated in selection order, the widget holds as many events, and every booking of every successful fetch is in the store |
| `CalendarSync.FetchCallAsWrittenMisbinds` | src/components/CalendarView/calendar-view.tsx:153-160 | as written, the catalog lands in `from`, the window start in `to`, something other than the catalog in `services`, and the window end is dropped |
| `CalendarSync.FetchCallBindsWindow` | src/api/bookings/get.ts:62 | the corrected five-argument call binds the technician, the catalog and both window bounds to their parameters |
| `EventModal.DerivedDuration` | src/components/CalendarView/calendar-view.tsx:56-57 | with both ends known, duration × 60000 is end − start; otherwise the duration is 0 |
| `EventModal.OpenFromEvent` | src/components/CalendarView/calendar-view.tsx:49-58 | the modal shows the clicked event's id, title and dates and the duration derived from them |
| `EventModal.OpenFromSelection` | src/components/CalendarView/calendar-view.tsx:64-72 | a new-booking modal has no id and no title, spans the selection, and its duration × 60000 is the selection's length |
| `EventModal.OpenedBookingShowsDuration` | src/components/CalendarView/calendar-view.tsx:56-57 | opening a synchronised booking shows the booking's own duration in minutes |
| `EventModal.SetTitle` | src/components/CalendarView/calendar-view.tsx:202-204 | the title input sets the title and changes nothing else |
| `EventModal.SetStart` | src/components/CalendarView/calendar-view.tsx:218-221 | the start input sets the start (or clears it) and changes nothing else |
| `EventModal.SetDuration` | src/components/CalendarView/calendar-view.tsx:231-235 | the duration input stores the parsed duration and changes nothing else |
| `EventModal.EditedStartMovesEnd` | src/components/CalendarView/calendar-view.tsx:218-277 | with a whole non-zero number of minutes in the duration field, a newly typed start moves the saved end to that start plus the duration; a cleared start makes the save rejected |
| `EventModal.ParseDuration` | src/components/CalendarView/calendar-view.tsx:231-234 | the field holds a number iff the text reads as a decimal integer, and then that integer |
| `EventModal.Trunc` | src/components/CalendarView/calendar-view.tsx:276 | the millisecond count is truncated toward zero: within one of the real value, on the zero side |
| `EventModal.SaveEnd` | src/components/CalendarView/calendar-view.tsx:275-277 | with a start and a truthy duration the end is the truncated start plus duration minutes; otherwise it is the modal's end |
| `EventModal.EditedDurationSetsEnd` | src/components/CalendarView/calendar-view.tsx:231-277 | typing a non-zero whole number of minutes sets the end to start plus that many minutes; zero or a non-number keeps the previous end |
| `EventModal.FindEvent` | src/components/CalendarView/calendar-view.tsx:289 | the index found is the first event with the id, or the length when there is none |
| `EventModal.Save` | src/components/CalendarView/calendar-view.tsx:265-297 | rejected iff the title is empty or there is no start; otherwise an existing id updates title, start and end of its first event and nothing else, a new event is appended under the fresh id, and without a calendar nothing is written |
| `EventModal.OpenThenSaveUnchanged` | src/components/CalendarView/calendar-view.tsx:275-293 | opening an event and saving it unedited leaves the calendar as it was |
| `EventModal.SelectThenSaveAdds` | src/components/CalendarView/calendar-view.tsx:280-295 | a selected range given a title is appended with the fresh id and the selection's start and end |
| `EventModal.Delete` | src/components/CalendarView/calendar-view.tsx:245-256 | without a calendar nothing happens; otherwise the first event with the id is removed (one element fewer, the rest the same multiset), or nothing changes if there is none |
| `EventModal.DeleteRemovesFirstMatch` | src/components/CalendarView/calendar-view.tsx:251-254 | deleting keeps the other events in order and removes exactly one event carrying the id |

## Left out

- Network, the query store and the Supabase client are left out. Every loader takes the store's reply as the parameter `run`, and the sync task takes the responses of its fan-out as input.
- The `Promise.all` fan-out and the interleaving of overlapping runs are left out because they are asynchronous. `CalendarSync.OverlappingRunsAccumulate` states only the effect of one overlap.
- Reactivity is left out. In the sync task only `activeStart` is tracked (`activeStart || activeEnd` is the former whenever it is set). The widget's `datesSet` callback, in `calendar-init.ts`, is not part of this model. There the store parameter receives the mouse-enter handler, so the window writes land on that handler, and the store's `activeStart`, `activeEnd`, `currentStart` and `currentEnd` keep the `new Date()` values they got at mount.
- `calendar-init.ts` declares six parameters but receives seven arguments, which is why its store parameter receives the mouse-enter handler. The rest of the widget's configuration is outside this model.
- `CalendarStore` is not declared in the types file. Its fields are taken from their uses.
- ISO-8601 parsing and formatting, `toDateString` and Luxon formatting are left out. Instants are integer milliseconds, and the day of an instant is the parameter `dayKey`.
- CalendarSync.ToWidgetEvent: the end is stored as given. The calendar widget's `addEvent` discards an end at or before the start, so an event whose booking has a negative duration would reopen in the modal with duration 0. `EventModal.OpenedBookingShowsDuration` shows the negative duration instead. The widget's own event normalisation is not modelled.
- Floating point is left out. The modal's duration is an exact real, so `start + ((end − start) / 60000) · 60000` is exactly `end` here.
- `EventModal.ParseDuration`: `Number.parseInt` also accepts leading blanks, a `+` sign and trailing non-digits. Only texts that are entirely an optionally negative decimal integer are read as numbers; anything else reads as `NaN`.
- An unparseable start text (`new Date` of a malformed string gives an invalid but truthy date) is left out. The start input is modelled as an instant or `null`.
- `Text.Lower`: `toLowerCase` is modelled on ASCII letters only.
- CalendarSync.Title: `charAt(0)` returns one UTF-16 code unit, so a technician name starting with a character outside the Basic Multilingual Plane (an emoji, say) gives half of a surrogate pair. Characters here are whole code points, so the model's title shows the whole character.
- ServiceBreakdown.Tally: the counts live in a plain object literal. A service named after an inherited member ("toString", "constructor", "hasOwnProperty", ...) reads that function in `serviceCounts[name] || 0`, so its count becomes a string. A service named "__proto__" changes the prototype instead of adding an entry. The model counts every name as an ordinary key.
- Statistics.TotalMinutes and Statistics.MoneyEarned: durations and prices are declared as `number` in `src/types.ts`, but they are modelled as integers (`Option<int>`). Fractional durations or prices, and the floating-point rounding of their sums, are not modelled.
- The breakdown assumes service names are not integer-like. `Object.entries` lists integer-like keys first in numeric order, and that is not modelled.
- A booking row whose joined client is `null` makes `b.clients.name` throw. Rows are modelled with a client join always present.
- These are left out because they do not bear on the data being computed:
  - the DOM tooltip, `alert` and `console.log`;
  - dialog opening and closing;
  - the `setTimeout` that closes the dropdown.
- `crypto.randomUUID` is the parameter `freshId` of `EventModal.Save`.
- The page `src/routes/index.tsx` and the route layouts are wiring and are not part of this model.

## Findings

| source | as written | input that shows it | evidently intended | confidence | as-written member | corrected member |
|---|---|---|---|---|---|---|
| src/components/CalendarView/calendar-view.tsx:153-160 | `fetchBookings` is called with six arguments: id, name, `technician.color`, catalog, window start, window end. Its declaration (src/api/bookings/get.ts:62) has five parameters. | Any selected technician with catalog S and window [s, e]. `services` receives the colour, which is undefined because technicians are loaded without `color`. `from` receives S, `to` receives s, and e is dropped. So `services.filter` (src/api/bookings/get.ts:87) throws for any returned row, `Promise.all` rejects after the widget has already been emptied, and the calendar stays empty. | Drop the colour argument: `fetchBookings(id, name, S, s, e)`. | not executed | `CalendarSync.FetchCallAsWrittenMisbinds` | `CalendarSync.FetchCallBindsWindow` (used by `CalendarSync.SyncSelection`) |

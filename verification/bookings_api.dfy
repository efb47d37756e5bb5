/** The data loaders of `src/api/bookings/get.ts`: the query each one builds,
    the tagging of the store's reply into an `ApiResponse`, and the reshaping
    of booking rows into view-models. The store itself is the parameter
    `run`, which maps a query to the store's reply. */
module BookingsApi {

  import opened Wrappers
  import opened Types
  import Seqs

  /** A filter appended to a query (`.eq`, `.gte`, `.lte`); values are
      strings as the store's wire format carries them. */
  datatype Filter = Eq(column: string, value: string) | Gte(column: string, value: string) | Lte(column: string, value: string)

  datatype Order = Order(column: string, ascending: bool)

  datatype Query = Query(table: string, columns: string, filters: seq<Filter>, order: Option<Order>)

  /** What the store answers: the selected rows, or an error message. */
  datatype Reply<T> = Rows(rows: T) | QueryError(message: string)

  /** A technicians row as the loader selects it (no `color` column). */
  datatype TechnicianRow = TechnicianRow(id: string, name: string, email: string, role: string, active: bool)

  /** The error-to-tagged-result step every loader ends with: a store error
      becomes `Failure(message)`, rows become `Success(rows)`; nothing is
      thrown. */
  function Tag<T>(reply: Reply<T>): (r: ApiResponse<T>)
    ensures r.Failure? <==> reply.QueryError?
    ensures r.Failure? ==> r.error == reply.message
    ensures r.Success? ==> r.data == reply.rows
  {
    match reply
    case QueryError(m) => Failure(m)
    case Rows(rows) => Success(rows)
  }

  const ServicesQuery: Query := Query("services", "id, name, price, duration, active", [Eq("active", "true")], None)

  const TechniciansQuery: Query := Query("technicians", "id, name, email, role, active", [Eq("active", "true")], None)

  function ClientQuery(clientId: string): Query
  {
    Query("clients", "id, name, email, phone", [Eq("id", clientId)], None)
  }

  /** `fetchServices`: the active services, or the store's error. */
  function FetchServices(run: Query -> Reply<seq<Service>>): (r: ApiResponse<seq<Service>>)
    ensures r.Failure? <==> run(ServicesQuery).QueryError?
    ensures r.Failure? ==> r.error == run(ServicesQuery).message
    ensures r.Success? ==> r.data == run(ServicesQuery).rows
  {
    Tag(run(ServicesQuery))
  }

  /** `fetchClient`: the first matching client; with no matching row the
      success carries no client (`data[0]` is undefined). */
  function FetchClient(clientId: string, run: Query -> Reply<seq<Client>>): (r: ApiResponse<Option<Client>>)
    ensures r.Failure? <==> run(ClientQuery(clientId)).QueryError?
    ensures r.Failure? ==> r.error == run(ClientQuery(clientId)).message
    ensures r.Success? ==> (r.data.None? <==> run(ClientQuery(clientId)).rows == [])
    ensures r.Success? && r.data.Some? ==> r.data.value == run(ClientQuery(clientId)).rows[0]
  {
    match run(ClientQuery(clientId))
    case QueryError(m) => Failure(m)
    case Rows(rows) => Success(if rows == [] then None else Some(rows[0]))
  }

  function AsTechnician(row: TechnicianRow): Technician
  {
    Technician(row.id, row.name, row.email, row.role, row.active, None)
  }

  /** `fetchTechnicians`: the active technicians; none of them carries a
      colour, since the select list leaves `color` out. */
  function FetchTechnicians(run: Query -> Reply<seq<TechnicianRow>>): (r: ApiResponse<seq<Technician>>)
    ensures r.Failure? <==> run(TechniciansQuery).QueryError?
    ensures r.Failure? ==> r.error == run(TechniciansQuery).message
    ensures r.Success? ==> |r.data| == |run(TechniciansQuery).rows|
    ensures r.Success? ==> forall i :: 0 <= i < |r.data| ==>
      var row := run(TechniciansQuery).rows[i];
      r.data[i].color.None? && r.data[i].id == row.id && r.data[i].name == row.name
      && r.data[i].email == row.email && r.data[i].role == row.role && r.data[i].active == row.active
  {
    match run(TechniciansQuery)
    case QueryError(m) => Failure(m)
    case Rows(rows) => Success(seq(|rows|, i requires 0 <= i < |rows| => AsTechnician(rows[i])))
  }

  /** The bookings query: always ordered by ascending `datetime`; each of the
      three filters is present exactly when its argument is non-empty. */
  function BookingsQuery(technicianId: string, from: string, to: string): (q: Query)
    ensures q.table == "bookings" && q.order == Some(Order("datetime", true))
    ensures Gte("datetime", from) in q.filters <==> from != ""
    ensures Lte("datetime", to) in q.filters <==> to != ""
    ensures Eq("technician_id", technicianId) in q.filters <==> technicianId != ""
    ensures forall f :: f in q.filters ==>
      f == Gte("datetime", from) || f == Lte("datetime", to) || f == Eq("technician_id", technicianId)
    ensures |q.filters| == (if from != "" then 1 else 0) + (if to != "" then 1 else 0) + (if technicianId != "" then 1 else 0)
  {
    var afterFrom := if from != "" then [Gte("datetime", from)] else [];
    var afterTo := afterFrom + if to != "" then [Lte("datetime", to)] else [];
    var filters := afterTo + if technicianId != "" then [Eq("technician_id", technicianId)] else [];
    Query("bookings", "*, clients(name, phone)", filters, Some(Order("datetime", true)))
  }

  function Names(catalog: seq<Service>): (names: seq<string>)
    ensures |names| == |catalog|
    ensures forall i :: 0 <= i < |catalog| ==> names[i] == catalog[i].name
  {
    seq(|catalog|, i requires 0 <= i < |catalog| => catalog[i].name)
  }

  /** `services_names`: the names of the catalog services whose id occurs in
      `ids`, in catalog order; ids absent from the catalog contribute
      nothing. */
  function ServicesNames(catalog: seq<Service>, ids: seq<string>): (names: seq<string>)
    ensures |names| <= |catalog|
    ensures forall n :: n in names <==> exists s :: s in catalog && s.id in ids && s.name == n
  {
    var chosen := Seqs.Filter(catalog, (s: Service) => s.id in ids);
    assert forall n :: n in Names(chosen) ==> exists s :: s in catalog && s.id in ids && s.name == n by {
      forall n | n in Names(chosen)
        ensures exists s :: s in catalog && s.id in ids && s.name == n
      {
        var i :| 0 <= i < |chosen| && Names(chosen)[i] == n;
        assert chosen[i] in catalog;
      }
    }
    assert forall s :: s in catalog && s.id in ids ==> s.name in Names(chosen) by {
      forall s | s in catalog && s.id in ids
        ensures s.name in Names(chosen)
      {
        var i :| 0 <= i < |catalog| && catalog[i] == s;
        var j :| 0 <= j < |chosen| && chosen[j] == s;
        assert Names(chosen)[j] == s.name;
      }
    }
    Names(chosen)
  }

  lemma {:induction false} NamesAppend(a: seq<Service>, b: seq<Service>)
    ensures Names(a + b) == Names(a) + Names(b)
  {
  }

  /** Catalog order: extending the catalog by one service extends the names
      by that service's name exactly when the booking lists its id. */
  lemma {:induction false} ServicesNamesCatalogOrder(catalog: seq<Service>, s: Service, ids: seq<string>)
    ensures ServicesNames(catalog + [s], ids) ==
      ServicesNames(catalog, ids) + (if s.id in ids then [s.name] else [])
  {
    var p := (x: Service) => x.id in ids;
    Seqs.FilterAppend(catalog, [s], p);
    NamesAppend(Seqs.Filter(catalog, p), Seqs.Filter([s], p));
  }

  /** The names depend only on the set of ids: reordering or repeating the
      booking's service ids changes nothing. */
  lemma ServicesNamesOnlyIdSet(catalog: seq<Service>, ids1: seq<string>, ids2: seq<string>)
    requires forall x :: x in ids1 <==> x in ids2
    ensures ServicesNames(catalog, ids1) == ServicesNames(catalog, ids2)
  {
    Seqs.FilterCongruent(catalog, (s: Service) => s.id in ids1, (s: Service) => s.id in ids2);
  }

  /** An id that no catalog service carries is silently dropped. */
  lemma ServicesNamesDropsUnknown(catalog: seq<Service>, ids: seq<string>, unknown: string)
    requires forall s :: s in catalog ==> s.id != unknown
    ensures ServicesNames(catalog, ids + [unknown]) == ServicesNames(catalog, ids)
  {
    Seqs.FilterCongruent(catalog, (s: Service) => s.id in ids + [unknown], (s: Service) => s.id in ids);
  }

  /** The booking row a view-model was made from: every column of the row is
      kept by the spread `...b`, and the join's name and phone are copied. */
  function RawOf(v: BookingView): RawBooking
  {
    RawBooking(v.id, v.technicianId, v.clientId, v.services, v.duration, v.price, v.datetime,
               v.calendarId, v.eventId, ClientJoin(v.clientName, v.clientPhone))
  }

  /** One booking row reshaped into a view-model. `client_email` reads a
      field the join does not select, and no colour is set, so both are
      absent. */
  function Reshape(row: RawBooking, technicianName: string, catalog: seq<Service>): (v: BookingView)
    ensures RawOf(v) == row
    ensures v.technicianName == technicianName
    ensures v.clientEmail.None? && v.color.None?
    ensures v.servicesNames == ServicesNames(catalog, row.services)
  {
    BookingView(row.id, row.technicianId, row.clientId, row.services, ServicesNames(catalog, row.services),
                row.duration, row.price, row.datetime, row.calendarId, row.eventId,
                technicianName, row.clients.name, row.clients.phone, None, None)
  }

  /** `fetchBookings`: the store's error as a failure, or one view-model per
      returned row, in the store's (ascending datetime) order. */
  function FetchBookings(technicianId: string, technicianName: string, catalog: seq<Service>,
                         from: string, to: string, run: Query -> Reply<seq<RawBooking>>): (r: ApiResponse<seq<BookingView>>)
    ensures var reply := run(BookingsQuery(technicianId, from, to));
      && (r.Failure? <==> reply.QueryError?)
      && (r.Failure? ==> r.error == reply.message)
      && (r.Success? ==> |r.data| == |reply.rows|)
      && (r.Success? ==> forall i :: 0 <= i < |r.data| ==>
            RawOf(r.data[i]) == reply.rows[i] && r.data[i].technicianName == technicianName
            && r.data[i].clientEmail.None? && r.data[i].color.None?
            && r.data[i].servicesNames == ServicesNames(catalog, reply.rows[i].services))
  {
    match run(BookingsQuery(technicianId, from, to))
    case QueryError(m) => Failure(m)
    case Rows(rows) =>
      Success(seq(|rows|, i requires 0 <= i < |rows| => Reshape(rows[i], technicianName, catalog)))
  }

  /** A fetch for one technician with both bounds unset filters on the
      technician only. */
  lemma UnboundedFetchFiltersTechnicianOnly(technicianId: string)
    requires technicianId != ""
    ensures BookingsQuery(technicianId, "", "").filters == [Eq("technician_id", technicianId)]
  {
  }
}

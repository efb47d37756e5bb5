/** The records exchanged between the booking store, the selection widget, the
    calendar and the statistics panel. Instants are integer milliseconds since
    the epoch; amounts of money and minutes are integers. A column that the
    store may return as null is an `Option`. */
module Types {

  import opened Wrappers

  /** A row of the `services` table as selected by the services loader. */
  datatype Service = Service(id: string, name: string, price: int, duration: int, active: bool)

  /** A row of the `technicians` table. The technicians loader selects
      `id, name, email, role, active` only, so `color` is absent on every row
      it returns. */
  datatype Technician = Technician(
    id: string, name: string, email: string, role: string, active: bool, color: Option<string>)

  /** A row of the `clients` table. */
  datatype Client = Client(id: string, name: string, email: string, phone: string)

  /** The `clients(name, phone)` embedding of a booking row. */
  datatype ClientJoin = ClientJoin(name: string, phone: string)

  /** A row of the `bookings` table together with its joined client. */
  datatype RawBooking = RawBooking(
    id: string,
    technicianId: string,
    clientId: string,
    services: seq<string>,
    duration: Option<int>,
    price: Option<int>,
    datetime: int,
    calendarId: string,
    eventId: string,
    clients: ClientJoin)

  /** The booking view-model handed to the calendar and the statistics. */
  datatype BookingView = BookingView(
    id: string,
    technicianId: string,
    clientId: string,
    services: seq<string>,
    servicesNames: seq<string>,
    duration: Option<int>,
    price: Option<int>,
    datetime: int,
    calendarId: string,
    eventId: string,
    technicianName: string,
    clientName: string,
    clientPhone: string,
    clientEmail: Option<string>,
    color: Option<string>)

  /** The tagged result every fetcher returns instead of throwing. */
  datatype ApiResponse<T> = Success(data: T) | Failure(error: string) {

    /** `response.data || []` at the call sites: a failure reads as the
        fallback value. */
    function DataOr(fallback: T): T
    {
      match this
      case Success(d) => d
      case Failure(_) => fallback
    }
  }
}

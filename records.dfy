/**
 * The records the dashboard works on (types.ts): providers (doctors and
 * ambulances), appointments, the ambulance request and the views of the
 * right-hand panel. Fields that only the rendering components read (images,
 * fees, timings, feature lists) are not part of this model.
 */
module Records {
  import opened Wrappers

  type Text = seq<char>

  /** A position in degrees: `{ lat, lng }`. */
  datatype Coordinates = Coordinates(lat: real, lng: real)

  /**
   * A doctor. `coordinates` is attached when the user's location becomes
   * known; `distance` and `isBestMatch` are derived by a ranking pass.
   */
  datatype Doctor = Doctor(
    id: Text,
    name: Text,
    department: Text,
    rating: real,
    coordinates: Option<Coordinates>,
    distance: Option<real>,
    isBestMatch: Option<bool>)

  datatype AmbulanceKind = BasicLifeSupport | AdvancedLifeSupport | IcuExpress

  /** An ambulance; `distance` is derived by a ranking pass. */
  datatype Ambulance = Ambulance(
    id: Text,
    provider: Text,
    kind: AmbulanceKind,
    rating: real,
    coordinates: Option<Coordinates>,
    distance: Option<real>)

  datatype AppointmentStatus = Confirmed | Cancelled

  datatype Appointment = Appointment(
    id: Text,
    doctorName: Text,
    department: Option<Text>,
    date: Text,
    time: Text,
    patientName: Text,
    status: AppointmentStatus)

  datatype Traffic = Clear | Moderate | Heavy

  datatype RouteStep = RouteStep(instruction: Text, distance: Text, duration: Text, trafficStatus: Traffic)

  datatype RequestStatus = Searching | Dispatched | EnRoute | Arrived

  datatype AmbulanceRequest = AmbulanceRequest(
    active: bool,
    status: RequestStatus,
    eta: Text,
    hospital: Text,
    route: seq<RouteStep>)

  datatype ViewState =
    | Home
    | Doctors
    | AmbulanceSelection
    | AmbulanceTracking
    | BookingForm
    | BookingSuccess
    | MyAppointments
}

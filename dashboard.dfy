/**
 * The component state of App.tsx that the assistant's action callbacks in
 * `handleSendMessage` update: the current view, the ranked doctor list, the
 * ambulance list, the appointments and the ambulance request.
 */
module Dashboard {
  import opened Wrappers
  import opened Records
  import opened Ranking

  /** The hospital named when the assistant does not give one. */
  const DefaultHospital: Text := "City General Hospital"

  /** The department recorded on appointments booked through the assistant. */
  const BookedDepartment: Text := "General"

  /** The arrival estimate shown for a dispatched ambulance. */
  const DispatchEta: Text := "8 mins"

  /** The fixed mock route (constants.ts:117-122) that every dispatched ambulance follows. */
  const MockRoute: seq<RouteStep> := [
    RouteStep("Head north on Broadway", "0.5 km", "2 mins", Clear),
    RouteStep("Turn right onto 5th Ave (Avoids construction on 4th)", "1.2 km", "4 mins", Moderate),
    RouteStep("Take the express lane via Downtown Tunnel", "3.0 km", "5 mins", Clear),
    RouteStep("Arrive at General Hospital Emergency Entrance", "0.1 km", "1 min", Clear)
  ]

  /** The appointment the page starts with. */
  const InitialAppointment: Appointment :=
    Appointment("1", "Dr. Sarah Chen", Some("Cardiology"), "2025-06-15", "10:00 AM", "John Doe", Confirmed)

  /** The request shown before any dispatch. */
  const IdleRequest: AmbulanceRequest := AmbulanceRequest(false, Searching, "--", "", [])

  /** The hospital named by the assistant; an absent or empty name is falsy and gives the default (App.tsx:176). */
  function HospitalOrDefault(hospital: Option<Text>): (h: Text)
    ensures h != []
    ensures hospital.Some? && hospital.value != [] ==> h == hospital.value
    ensures hospital.None? || hospital.value == [] ==> h == DefaultHospital
  {
    if hospital.None? || hospital.value == [] then DefaultHospital else hospital.value
  }

  /** The request the dispatch callback installs. */
  function DispatchedRequest(hospital: Option<Text>): (r: AmbulanceRequest)
    ensures r.active && r.status == EnRoute && r.hospital != []
    ensures r.eta == DispatchEta && r.route == MockRoute
    ensures r.hospital == HospitalOrDefault(hospital)
  {
    AmbulanceRequest(true, EnRoute, DispatchEta, HospitalOrDefault(hospital), MockRoute)
  }

  /** The appointment the booking callback creates; `id` stands for the timestamp id. */
  function BookedAppointment(id: Text, doctorName: Text, date: Text, time: Text, patientName: Text): (a: Appointment)
    ensures a.status == Confirmed && a.department == Some(BookedDepartment)
    ensures a.id == id && a.doctorName == doctorName && a.date == date && a.time == time && a.patientName == patientName
  {
    Appointment(id, doctorName, Some(BookedDepartment), date, time, patientName, Confirmed)
  }

  /**
   * The App component's state. The provider lists and the user's location are
   * given as they stand once the location lookup has finished; the distance
   * function is fixed for the lifetime of the page.
   */
  class App {
    var viewState: ViewState
    var doctorsWithLoc: seq<Doctor>
    var filteredDoctors: seq<Doctor>
    var ambulancesWithLoc: seq<Ambulance>
    var appointments: seq<Appointment>
    var userLocation: Option<Coordinates>
    var ambulanceRequest: AmbulanceRequest
    const distanceKm: DistanceFn

    /**
     * When the doctors' ids are unique, the shown doctor list never flags more
     * than one best match; every callback keeps this so.
     */
    ghost predicate Valid()
      reads this
    {
      UniqueIds(doctorsWithLoc) ==> AtMostOneBestMatch(filteredDoctors)
    }

    constructor (doctors: seq<Doctor>, ambulances: seq<Ambulance>, location: Option<Coordinates>, distance: DistanceFn)
      ensures Valid()
      ensures viewState == Home && filteredDoctors == []
      ensures doctorsWithLoc == doctors && ambulancesWithLoc == ambulances
      ensures appointments == [InitialAppointment] && ambulanceRequest == IdleRequest
      ensures userLocation == location && distanceKm == distance
    {
      viewState := Home;
      doctorsWithLoc := doctors;
      filteredDoctors := [];
      ambulancesWithLoc := ambulances;
      appointments := [InitialAppointment];
      userLocation := location;
      ambulanceRequest := IdleRequest;
      distanceKm := distance;
    }

    /** `onFindDoctors(dept)`: show the doctor list, ranked for `department`. */
    method OnFindDoctors(department: Option<Text>)
      requires Valid()
      modifies this`viewState, this`filteredDoctors
      ensures Valid()
      ensures viewState == Doctors
      ensures filteredDoctors == ProcessDoctors(doctorsWithLoc, userLocation, department, distanceKm)
      ensures |filteredDoctors| <= |doctorsWithLoc|
    {
      viewState := Doctors;
      filteredDoctors := ProcessDoctors(doctorsWithLoc, userLocation, department, distanceKm);
      FilterByDepartmentSpec(doctorsWithLoc, department);
      if UniqueIds(doctorsWithLoc) {
        ProcessDoctorsKeepsIdsUnique(doctorsWithLoc, userLocation, department, distanceKm);
        if |filteredDoctors| > 0 {
          ProcessDoctorsBestMatch(doctorsWithLoc, userLocation, department, distanceKm);
        }
      }
    }

    /** `onFindAmbulances()`: show the ambulances, ranked in place. */
    method OnFindAmbulances()
      requires Valid()
      modifies this`viewState, this`ambulancesWithLoc
      ensures Valid()
      ensures viewState == AmbulanceSelection
      ensures ambulancesWithLoc == ProcessAmbulances(old(ambulancesWithLoc), userLocation, distanceKm)
    {
      viewState := AmbulanceSelection;
      ambulancesWithLoc := ProcessAmbulances(ambulancesWithLoc, userLocation, distanceKm);
    }

    /** `onBookAppointment(data)`: put a confirmed appointment in front of the others. */
    method OnBookAppointment(id: Text, doctorName: Text, date: Text, time: Text, patientName: Text)
      requires Valid()
      modifies this`viewState, this`appointments
      ensures Valid()
      ensures viewState == BookingSuccess
      ensures appointments == [BookedAppointment(id, doctorName, date, time, patientName)] + old(appointments)
    {
      appointments := [BookedAppointment(id, doctorName, date, time, patientName)] + appointments;
      viewState := BookingSuccess;
    }

    /**
     * `onDispatchAmbulance(location, hospital)`: show the tracking view with an
     * en-route request. The pick-up location is passed but not used.
     */
    method OnDispatchAmbulance(location: Text, hospital: Option<Text>)
      requires Valid()
      modifies this`viewState, this`ambulanceRequest
      ensures Valid()
      ensures viewState == AmbulanceTracking
      ensures ambulanceRequest == DispatchedRequest(hospital)
    {
      viewState := AmbulanceTracking;
      ambulanceRequest := DispatchedRequest(hospital);
    }
  }
}

/** The Flask back end's own logic: the doctor directory with its filter
    and lookup, the validation in front of a diagnosis, and the order of the
    steps of a booking. The crew, the Google services and the date parser
    are parameters. */
module BackendApi {
  import opened Common
  import Appointments

  // ---------------------------------------------------------------------
  // Doctors
  // ---------------------------------------------------------------------

  datatype Doctor = Doctor(id: int, name: string, specialty: string, rating: int, location: string, bio: string)

  const Doctors: seq<Doctor> := [
    Doctor(1, "Dr. John Smith", "Cardiologist", 5, "New York, USA",
           "Experienced cardiologist with 15+ years of practice."),
    Doctor(2, "Dr. Sarah Johnson", "Dentist", 5, "Los Angeles, USA",
           "Specialized in cosmetic and general dentistry.")]

  predicate SameSpecialty(d: Doctor, specialty: string) {
    AsciiLower(d.specialty) == AsciiLower(specialty)
  }

  /** The list comprehension: the doctors of the given specialty, ignoring
      case. */
  function OfSpecialty(ds: seq<Doctor>, specialty: string): (r: seq<Doctor>)
    ensures |r| <= |ds|
    ensures forall d :: d in r <==> d in ds && SameSpecialty(d, specialty)
    decreases |ds|
  {
    if ds == [] then []
    else
      var init := ds[..|ds| - 1];
      var d := ds[|ds| - 1];
      assert ds == init + [d];
      OfSpecialty(init, specialty) + (if SameSpecialty(d, specialty) then [d] else [])
  }

  /** The filter keeps the directory's order: two doctors listed one after
      the other come from positions in the same order. */
  lemma {:induction false} OfSpecialtyKeepsOrder(ds: seq<Doctor>, specialty: string, i: nat, j: nat)
    requires i < j < |OfSpecialty(ds, specialty)|
    ensures exists a, b :: 0 <= a < b < |ds| && ds[a] == OfSpecialty(ds, specialty)[i] && ds[b] == OfSpecialty(ds, specialty)[j]
    decreases |ds|
  {
    var init := ds[..|ds| - 1];
    var before := OfSpecialty(init, specialty);
    var r := OfSpecialty(ds, specialty);
    assert r[i] == before[i];
    if j < |before| {
      OfSpecialtyKeepsOrder(init, specialty, i, j);
      var a, b :| 0 <= a < b < |init| && init[a] == before[i] && init[b] == before[j];
      assert ds[a] == r[i] && ds[b] == r[j];
    } else {
      assert before[i] in before;
      var a :| 0 <= a < |init| && init[a] == before[i];
      assert ds[a] == r[i] && ds[|ds| - 1] == r[j];
    }
  }

  /** `GET /api/doctors`: everyone without a specialty or for exactly
      "all", otherwise the case-insensitive filter. */
  function GetDoctors(specialty: Option<string>): (r: seq<Doctor>)
    ensures !Truthy(specialty) || specialty.value == "all" ==> r == Doctors
    ensures Truthy(specialty) && specialty.value != "all" ==>
              forall d :: d in r <==> d in Doctors && SameSpecialty(d, specialty.value)
  {
    if Truthy(specialty) && specialty.value != "all" then OfSpecialty(Doctors, specialty.value) else Doctors
  }

  /** The sentinel is compared before lower-casing, so "All" filters on a
      specialty called "all" and finds no one. */
  lemma AllIsCaseSensitive()
    ensures GetDoctors(Some("All")) == []
  {
    var r := GetDoctors(Some("All"));
    assert AsciiLower("All") == "all";
    assert AsciiLower(Doctors[0].specialty)[0] == 'c';
    assert AsciiLower(Doctors[1].specialty)[0] == 'd';
    forall d | d in Doctors
      ensures !SameSpecialty(d, "All")
    {
    }
  }

  /** `next(...)`: the first doctor with the given id. */
  function FirstWithId(ds: seq<Doctor>, id: int): (r: Option<nat>)
    ensures r.Some? ==> r.value < |ds| && ds[r.value].id == id
    ensures r.Some? ==> forall k :: 0 <= k < r.value ==> ds[k].id != id
    ensures r.None? <==> forall k :: 0 <= k < |ds| ==> ds[k].id != id
    decreases |ds|
  {
    if ds == [] then None
    else if ds[0].id == id then Some(0)
    else
      match FirstWithId(ds[1..], id)
      case None => None
      case Some(k) => Some(k + 1)
  }

  const NotFound: nat := 404

  /** `GET /api/doctors/<id>`: the first doctor with that id, or 404. */
  function GetDoctor(id: int): (r: Result<Doctor, nat>)
    ensures r.Ok? ==> r.value in Doctors && r.value.id == id
    ensures r.Ok? ==> exists i :: 0 <= i < |Doctors| && Doctors[i] == r.value && forall k :: 0 <= k < i ==> Doctors[k].id != id
    ensures r.Err? <==> forall d :: d in Doctors ==> d.id != id
    ensures r.Err? ==> r.error == NotFound
  {
    match FirstWithId(Doctors, id)
    case None => Err(NotFound)
    case Some(i) => Ok(Doctors[i])
  }

  // ---------------------------------------------------------------------
  // Diagnosis
  // ---------------------------------------------------------------------

  /** The JSON fields of a diagnosis request. */
  datatype DiagnoseRequest = DiagnoseRequest(name: Option<string>, age: Option<string>, gender: Option<string>, symptoms: Option<string>)

  /** The patient record handed to the crew, missing fields as "". */
  datatype PatientData = PatientData(name: string, age: string, gender: string, symptoms: string)

  /** A crew result dictionary, or the message of an exception it raised. */
  type Crew = PatientData -> Result<map<string, string>, string>

  datatype Reply = Reply(status: nat, body: map<string, string>)

  const SymptomsRequired: string := "Symptoms are required"

  function PatientOf(req: DiagnoseRequest): PatientData {
    PatientData(req.name.GetOr(""), req.age.GetOr(""), req.gender.GetOr(""), req.symptoms.GetOr(""))
  }

  /** `POST /api/diagnose` */
  function Diagnose(req: DiagnoseRequest, crew: Crew): (r: Reply)
    ensures r.status == 400 <==> !Truthy(req.symptoms)
    ensures r.status == 400 ==> r.body == map["error" := SymptomsRequired]
    ensures r.status in {200, 400, 500}
    ensures r.status == 200 <==> "error" !in r.body
    ensures r.status == 200 ==> crew(PatientOf(req)) == Ok(r.body)
  {
    var p := PatientOf(req);
    if p.symptoms == [] then Reply(400, map["error" := SymptomsRequired])
    else
      match crew(p)
      case Err(e) => Reply(500, map["error" := e])
      case Ok(results) => if "error" in results then Reply(500, results) else Reply(200, results)
  }

  /** Empty symptoms are rejected before the crew is consulted: the reply
      does not depend on the crew at all. */
  lemma EmptySymptomsNeverReachCrew(req: DiagnoseRequest, one: Crew, other: Crew)
    requires !Truthy(req.symptoms)
    ensures Diagnose(req, one) == Diagnose(req, other)
  {
  }

  // ---------------------------------------------------------------------
  // Booking
  // ---------------------------------------------------------------------

  /** The JSON fields of a booking request; the report is the diagnosis
      dictionary sent along. */
  datatype BookingRequest = BookingRequest(
    patientName: Option<string>,
    date: Option<string>,
    time: Option<string>,
    duration: Option<int>,
    notes: Option<string>,
    attachReport: bool,
    diagnosisReport: Option<map<string, string>>)

  /** What the calendar is asked to create. */
  datatype Booking = Booking(patientName: string, notes: string, start: int, end: int, docUrl: Option<string>)

  /** The Google side, as seen from this handler: whether each service is
      connected, the link of the report document (absent when creation
      fails or returns nothing), the number of events clashing with an
      interval, and the `htmlLink` of the created event, if one is created. */
  datatype Google = Google(
    calendar: bool,
    docs: bool,
    reportDoc: Option<string>,
    clashes: (int, int) -> nat,
    createEvent: Booking -> Option<Option<string>>)

  /** `datetime.fromisoformat`: minutes, or the exception's message. */
  type DateTimeParser = string -> Result<int, string>

  datatype BookingReply =
    | MissingFields                      // 400
    | ServerError(message: string)       // 500
    | Conflict(count: nat)               // 409, no event
    | Booked(booking: Booking, calendarLink: Option<string>)

  function Status(r: BookingReply): nat {
    match r
    case MissingFields => 400
    case ServerError(_) => 500
    case Conflict(_) => 409
    case Booked(_, _) => 200
  }

  /** The reply, and whether a report document was requested on the way. */
  datatype BookingOutcome = BookingOutcome(reply: BookingReply, docAttempted: bool)

  const DefaultDuration: int := 60
  const NotConnected: string := "Google Calendar not connected"
  const NoEvent: string := "Failed to create appointment"

  predicate HasRequiredFields(req: BookingRequest) {
    Truthy(req.patientName) && Truthy(req.date) && Truthy(req.time)
  }

  /** `attach_report and docs_service and diagnosis_report` */
  predicate AttemptsDoc(req: BookingRequest, g: Google) {
    req.attachReport && g.docs && req.diagnosisReport.Some? && req.diagnosisReport.value != map[]
  }

  /** `POST /api/appointments`: validate, parse the start, require the
      calendar, maybe create the report document, refuse on a clash, then
      create the event. */
  function BookAppointment(req: BookingRequest, parse: DateTimeParser, g: Google): (o: BookingOutcome)
    ensures o.reply.MissingFields? <==> !HasRequiredFields(req)
    ensures o.docAttempted ==> AttemptsDoc(req, g) && g.calendar && HasRequiredFields(req)
    ensures o.reply.Booked? ==> o.reply.booking.end - o.reply.booking.start == req.duration.GetOr(DefaultDuration)
    ensures o.reply.Booked? ==> o.reply.booking.docUrl == (if AttemptsDoc(req, g) then g.reportDoc else None)
    ensures o.reply.Booked? ==> g.calendar && g.clashes(o.reply.booking.start, o.reply.booking.end) == 0
    ensures o.reply.Booked? ==> g.createEvent(o.reply.booking) == Some(o.reply.calendarLink)
    ensures o.reply.Conflict? ==> o.reply.count > 0
    ensures HasRequiredFields(req) ==>
              var started := parse(req.date.value + "T" + req.time.value);
              && (started.Err? ==> o == BookingOutcome(ServerError(started.error), false))
              && (started.Ok? && !g.calendar ==> o == BookingOutcome(ServerError(NotConnected), false))
    ensures HasRequiredFields(req) && parse(req.date.value + "T" + req.time.value).Ok? && g.calendar ==>
              var start := parse(req.date.value + "T" + req.time.value).value;
              var end := Appointments.EndTime(start, req.duration.GetOr(DefaultDuration));
              var b := Booking(req.patientName.value, req.notes.GetOr(""), start, end,
                               if AttemptsDoc(req, g) then g.reportDoc else None);
              && o.docAttempted == AttemptsDoc(req, g)
              && (o.reply.Conflict? <==> g.clashes(start, end) > 0)
              && (o.reply.Conflict? ==> o.reply.count == g.clashes(start, end))
              && (g.clashes(start, end) == 0 ==> (o.reply.Booked? <==> g.createEvent(b).Some?))
              && (g.clashes(start, end) == 0 && g.createEvent(b).None? ==> o.reply == ServerError(NoEvent))
  {
    if !HasRequiredFields(req) then BookingOutcome(MissingFields, false)
    else
      match parse(req.date.value + "T" + req.time.value)
      case Err(e) => BookingOutcome(ServerError(e), false)
      case Ok(start) =>
        var end := Appointments.EndTime(start, req.duration.GetOr(DefaultDuration));
        if !g.calendar then BookingOutcome(ServerError(NotConnected), false)
        else
          var attempted := AttemptsDoc(req, g);
          var docUrl := if attempted then g.reportDoc else None;
          var clashes := g.clashes(start, end);
          if clashes > 0 then BookingOutcome(Conflict(clashes), attempted)
          else
            var b := Booking(req.patientName.value, req.notes.GetOr(""), start, end, docUrl);
            match g.createEvent(b)
            case None => BookingOutcome(ServerError(NoEvent), attempted)
            case Some(link) => BookingOutcome(Booked(b, link), attempted)
  }

  /** Validation comes first: a request missing a required field gets the
      same reply whatever the parser and the Google side would do. */
  lemma ValidationPrecedesServices(req: BookingRequest, p1: DateTimeParser, g1: Google, p2: DateTimeParser, g2: Google)
    requires !HasRequiredFields(req)
    ensures BookAppointment(req, p1, g1) == BookAppointment(req, p2, g2)
    ensures Status(BookAppointment(req, p1, g1).reply) == 400
  {
  }

  /** A clash creates no event: the outcome does not depend on the event
      creator. The report document, requested before the clash check, is
      still created. */
  lemma ClashCreatesNoEvent(req: BookingRequest, parse: DateTimeParser, g: Google, other: Booking -> Option<Option<string>>)
    requires HasRequiredFields(req) && g.calendar
    requires parse(req.date.value + "T" + req.time.value).Ok?
    requires var start := parse(req.date.value + "T" + req.time.value).value;
             g.clashes(start, start + req.duration.GetOr(DefaultDuration)) > 0
    ensures BookAppointment(req, parse, g) == BookAppointment(req, parse, g.(createEvent := other))
    ensures Status(BookAppointment(req, parse, g).reply) == 409
    ensures BookAppointment(req, parse, g).docAttempted == AttemptsDoc(req, g)
  {
  }
}

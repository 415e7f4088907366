/** The patient blueprint's state-changing handlers as transitions
    `State × request -> Step`. */
module PatientRoutes {
  import opened Base
  import opened Calendar
  import opened Store

  /** `POST /book_slot`: reserve an availability slot and create the
      appointment for it in one commit. `reason` is absent when the body has no
      `reason` key. */
  function BookSlot(st: State, slotId: nat, patientId: nat, reason: Option<string>): (r: Step)
    ensures r.response.code == 404 <==> slotId !in st.slots
    ensures r.response.code == 400 <==> slotId in st.slots && st.slots[slotId].booked
    ensures r.response.code == 201 <==> slotId in st.slots && !st.slots[slotId].booked
    ensures r.response.code != 201 ==> r.state == st
    ensures r.response.code == 400 ==> r.response.message == "Slot already booked"
    ensures r.response.code == 201 ==>
              var s := st.slots[slotId];
              && r.state.slots == st.slots[slotId := s.(booked := true)]
              && AddsOne(st.appointments, r.state.appointments,
                         Appointment(s.doctorId, patientId, s.date, s.start, Some(reason.GetOr("")), Booked))
              && r.state.(slots := st.slots, appointments := st.appointments) == st
  {
    if slotId !in st.slots then Step(NotFound, st)
    else
      var slot := st.slots[slotId];
      if slot.booked then Step(Response(400, "Slot already booked"), st)
      else
        var appointment := Appointment(slot.doctorId, patientId, slot.date, slot.start, Some(reason.GetOr("")), Booked);
        var id := FreshId(st.appointments);
        var st' := st.(slots := st.slots[slotId := slot.(booked := true)],
                       appointments := st.appointments[id := appointment]);
        Step(Response(201, "Appointment booked successfully"), st')
  }

  /** `POST /book`: create an appointment at any date and time, without looking
      at or touching the availability table. Neither the doctor nor the patient
      is checked to exist. */
  function BookDirect(st: State, doctorId: nat, patientId: nat, date: CalendarDate, time: ClockTime): (r: Step)
    ensures r.response == Response(201, "Appointment booked")
    ensures AddsOne(st.appointments, r.state.appointments,
                    Appointment(doctorId, patientId, date, time, None, Booked))
    ensures r.state.slots == st.slots
    ensures r.state.(appointments := st.appointments) == st
  {
    var id := FreshId(st.appointments);
    Step(Response(201, "Appointment booked"),
         st.(appointments := st.appointments[id := Appointment(doctorId, patientId, date, time, None, Booked)]))
  }

  /** Frees the lowest-numbered booked slot at `k`, if there is one. */
  function ReleaseSlot(slots: map<nat, Slot>, k: SlotKey): (r: map<nat, Slot>)
    ensures r.Keys == slots.Keys
    ensures SlotsAt(slots, k, true) == {} ==> r == slots
    ensures SlotsAt(slots, k, true) != {} ==>
              exists sid :: sid in SlotsAt(slots, k, true) && r == slots[sid := slots[sid].(booked := false)]
  {
    match FirstSlotAt(slots, k, true)
    case None => slots
    case Some(sid) => slots[sid := slots[sid].(booked := false)]
  }

  /** The effect both cancel handlers that free a slot promise: the appointment
      becomes `Cancelled` whatever its status was, and if a booked slot of the
      same doctor, date and start time exists exactly one such slot is freed;
      every other row stays as it was. */
  ghost predicate CancelledAndReleased(st: State, id: nat, r: Step)
    requires id in st.appointments
  {
    var a := st.appointments[id];
    var booked := SlotsAt(st.slots, KeyOfAppointment(a), true);
    && r.response == Response(200, "Appointment cancelled and slot freed")
    && r.state.appointments == st.appointments[id := a.(status := Cancelled)]
    && r.state.(slots := st.slots, appointments := st.appointments) == st
    && r.state.slots.Keys == st.slots.Keys
    && (booked == {} ==> r.state.slots == st.slots)
    && (booked != {} ==>
          exists sid :: sid in booked && r.state.slots == st.slots[sid := st.slots[sid].(booked := false)])
  }

  /** `PUT /appointments/<id>/cancel` (patient side). */
  function CancelAppointment(st: State, id: nat): (r: Step)
    ensures id !in st.appointments ==> r == Step(NotFound, st)
    ensures id in st.appointments ==> CancelledAndReleased(st, id, r)
  {
    if id !in st.appointments then Step(NotFound, st)
    else
      var a := st.appointments[id];
      var slots := ReleaseSlot(st.slots, KeyOfAppointment(a));
      Step(Response(200, "Appointment cancelled and slot freed"),
           st.(slots := slots, appointments := st.appointments[id := a.(status := Cancelled)]))
  }

  /** `PUT /appointments/<id>/reschedule`: overwrite the date and/or time that
      the body carries. Absent (or empty) fields keep their value; the status is
      not looked at and no slot is freed, claimed or checked. */
  function Reschedule(st: State, id: nat, date: Option<CalendarDate>, time: Option<ClockTime>): (r: Step)
    ensures id !in st.appointments ==> r == Step(NotFound, st)
    ensures id in st.appointments ==>
              var a := st.appointments[id];
              && r.response == Response(200, "Appointment rescheduled successfully")
              && r.state.slots == st.slots
              && r.state.(appointments := st.appointments) == st
              && r.state.appointments.Keys == st.appointments.Keys
              && (forall j :: j in st.appointments && j != id ==> r.state.appointments[j] == st.appointments[j])
              && r.state.appointments[id].date == date.GetOr(a.date)
              && r.state.appointments[id].time == time.GetOr(a.time)
              && r.state.appointments[id].(date := a.date, time := a.time) == a
  {
    if id !in st.appointments then Step(NotFound, st)
    else
      var a := st.appointments[id];
      var a' := a.(date := date.GetOr(a.date), time := time.GetOr(a.time));
      Step(Response(200, "Appointment rescheduled successfully"),
           st.(appointments := st.appointments[id := a']))
  }

  /** The body of `PUT /profile/<patient_id>`: each field is `Some` when its key
      is present. `dob` is `Some` only when the value is non-empty and parses
      (a failed parse is swallowed). */
  datatype ProfileUpdate = ProfileUpdate(
    name: Option<string>,
    dob: Option<CalendarDate>,
    contact: Option<string>,
    email: Option<string>)

  function ApplyToPatient(p: PatientProfile, u: ProfileUpdate): PatientProfile {
    p.(name := u.name.GetOr(p.name),
       dob := if u.dob.Some? then u.dob else p.dob,
       contact := if u.contact.Some? then u.contact else p.contact)
  }

  /** `PUT /profile/<patient_id>`: a partial update of the patient row and of
      its user's email. A missing user row is skipped silently. */
  function UpdateProfile(st: State, patientId: nat, u: ProfileUpdate): (r: Step)
    ensures patientId !in st.patients ==> r == Step(NotFound, st)
    ensures r.state.patients.Keys == st.patients.Keys
    ensures patientId in st.patients ==>
              var p := st.patients[patientId];
              var p' := r.state.patients[patientId];
              && r.response == Response(200, "Profile updated successfully")
              && (forall j :: j in st.patients && j != patientId ==> r.state.patients[j] == st.patients[j])
              && p'.userId == p.userId
              && (u.name.None? ==> p'.name == p.name)
              && (u.name.Some? ==> p'.name == u.name.value)
              && (u.dob.None? ==> p'.dob == p.dob)
              && (u.dob.Some? ==> p'.dob == u.dob)
              && (u.contact.None? ==> p'.contact == p.contact)
              && (u.contact.Some? ==> p'.contact == u.contact)
              && r.state.users.Keys == st.users.Keys
              && (forall j :: j in st.users && j != p.userId ==> r.state.users[j] == st.users[j])
              && (p.userId in st.users ==>
                    r.state.users[p.userId] == st.users[p.userId].(email := if u.email.Some? then u.email else st.users[p.userId].email))
              && r.state.(patients := st.patients, users := st.users) == st
  {
    if patientId !in st.patients then Step(NotFound, st)
    else
      var p := st.patients[patientId];
      var users :=
        if u.email.Some? && p.userId in st.users
        then st.users[p.userId := st.users[p.userId].(email := u.email)]
        else st.users;
      Step(Response(200, "Profile updated successfully"),
           st.(patients := st.patients[patientId := ApplyToPatient(p, u)], users := users))
  }

  /** Sending the same profile update twice has the effect of sending it once. */
  lemma UpdateProfileIdempotent(st: State, patientId: nat, u: ProfileUpdate)
    ensures var once := UpdateProfile(st, patientId, u);
            UpdateProfile(once.state, patientId, u) == once
  {
  }
}

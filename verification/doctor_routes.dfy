/** The doctor blueprint: availability management, cancellation, treatment
    records, and the two list queries the dashboard reads. */
module DoctorRoutes {
  import opened Base
  import opened Calendar
  import opened Store
  import opened Sorting
  import PatientRoutes

  /** `GET /appointments/<doctor_id>`: the doctor's `Booked` appointments,
      ordered by date (rows of one date in primary-key order). Rendering a row
      reads `a.patient.name`, which raises (a 500) when the appointment's
      patient does not exist; the booking handlers store any patient id, so
      that can happen. */
  function Agenda(st: State, doctorId: nat): (r: Option<seq<nat>>)
    ensures r.None? <==>
              exists id :: id in st.appointments && st.appointments[id].doctorId == doctorId
                           && st.appointments[id].status == Booked && st.appointments[id].patientId !in st.patients
    ensures r.Some? ==> forall i :: 0 <= i < |r.value| ==>
              r.value[i] in st.appointments
              && st.appointments[r.value[i]].doctorId == doctorId
              && st.appointments[r.value[i]].status == Booked
              && st.appointments[r.value[i]].patientId in st.patients
    ensures r.Some? ==> forall id :: (id in st.appointments && st.appointments[id].doctorId == doctorId
                                      && st.appointments[id].status == Booked) ==> id in r.value
    ensures r.Some? ==> forall i, j :: 0 <= i < j < |r.value| ==> r.value[i] != r.value[j]
    ensures r.Some? ==> forall i, j :: 0 <= i < j < |r.value| ==>
              DateLeq(st.appointments[r.value[i]].date, st.appointments[r.value[j]].date)
  {
    var rows := SortBy(AscendingKeys(OpenAppointments(st, doctorId)), ByDate(st));
    AgendaContents(st, doctorId, rows);
    if forall i :: 0 <= i < |rows| ==> st.appointments[rows[i]].patientId in st.patients then Some(rows)
    else None
  }

  /** The facts `Agenda` promises about the sorted open appointments. */
  lemma AgendaContents(st: State, doctorId: nat, r: seq<nat>)
    requires r == SortBy(AscendingKeys(OpenAppointments(st, doctorId)), ByDate(st))
    ensures forall i :: 0 <= i < |r| ==>
              r[i] in st.appointments
              && st.appointments[r[i]].doctorId == doctorId
              && st.appointments[r[i]].status == Booked
    ensures forall id :: (id in st.appointments && st.appointments[id].doctorId == doctorId
                          && st.appointments[id].status == Booked) ==> id in r
    ensures forall i, j :: 0 <= i < j < |r| ==> r[i] != r[j]
    ensures forall i, j :: 0 <= i < j < |r| ==>
              DateLeq(st.appointments[r[i]].date, st.appointments[r[j]].date)
  {
    var ids := OpenAppointments(st, doctorId);
    var open := AscendingKeys(ids);
    assert forall i :: 0 <= i < |open| ==> open[i] in ids;
    AgendaOrdered(st, open, r);
    forall i | 0 <= i < |r|
      ensures r[i] in st.appointments && st.appointments[r[i]].doctorId == doctorId
      ensures st.appointments[r[i]].status == Booked
    {
      assert r[i] in open;
      assert r[i] in ids;
    }
    forall id | id in st.appointments && st.appointments[id].doctorId == doctorId
                && st.appointments[id].status == Booked
      ensures id in r
    {
      assert id in ids;
      assert id in open;
    }
  }

  /** The ids of the doctor's appointments that are still `Booked`. */
  function OpenAppointments(st: State, doctorId: nat): set<nat> {
    set id | id in st.appointments && st.appointments[id].doctorId == doctorId
                                   && st.appointments[id].status == Booked
  }

  /** Sort key of the agenda: the appointment's date, then its id. */
  function ByDate(st: State): nat -> Rank {
    (id: nat) => if id in st.appointments then Rank(Ordinal(st.appointments[id].date), id) else Rank(0, id)
  }

  lemma AgendaOrdered(st: State, open: seq<nat>, r: seq<nat>)
    requires forall i, j :: 0 <= i < j < |open| ==> open[i] < open[j]
    requires forall i :: 0 <= i < |open| ==> open[i] in st.appointments
    requires SortedBy(r, ByDate(st)) && multiset(r) == multiset(open)
    ensures forall x :: x in r <==> x in open
    ensures forall i :: 0 <= i < |r| ==> r[i] in open
    ensures forall i, j :: 0 <= i < j < |r| ==> r[i] != r[j]
    ensures forall i, j :: 0 <= i < j < |r| ==>
              r[i] in st.appointments && r[j] in st.appointments
              && DateLeq(st.appointments[r[i]].date, st.appointments[r[j]].date)
  {
    PermutationKeepsNoRepeats(open, r);
    forall x ensures x in r <==> x in open {
      assert x in r <==> x in multiset(r);
      assert x in open <==> x in multiset(open);
    }
    forall i, j | 0 <= i < j < |r|
      ensures r[i] in st.appointments && r[j] in st.appointments
      ensures DateLeq(st.appointments[r[i]].date, st.appointments[r[j]].date)
    {
      assert r[i] in open && r[j] in open;
      assert RankLeq(ByDate(st)(r[i]), ByDate(st)(r[j]));
      OrdinalOrdersDates(st.appointments[r[i]].date, st.appointments[r[j]].date);
    }
  }

  /** `GET /assigned_patients/<doctor_id>`: the existing patients with at least
      one appointment (of any status) with the doctor, in primary-key order. */
  function AssignedPatients(st: State, doctorId: nat): (r: seq<nat>)
    ensures forall p :: p in r <==>
              p in st.patients
              && exists a :: a in st.appointments && st.appointments[a].doctorId == doctorId
                             && st.appointments[a].patientId == p
    ensures forall i, j :: 0 <= i < j < |r| ==> r[i] < r[j]
  {
    var ids := set a | a in st.appointments && st.appointments[a].doctorId == doctorId :: st.appointments[a].patientId;
    AscendingKeys(set p | p in ids && p in st.patients)
  }

  /** `POST /availability`: add a free slot. Nothing compares it with the
      doctor's existing slots, so overlapping and identical slots are accepted. */
  function AddAvailability(st: State, doctorId: nat, date: CalendarDate, start: ClockTime, end: ClockTime): (r: Step)
    ensures r.response == Response(201, "Availability added")
    ensures AddsOne(st.slots, r.state.slots, Slot(doctorId, date, start, end, false))
    ensures r.state.(slots := st.slots) == st
  {
    var id := FreshId(st.slots);
    Step(Response(201, "Availability added"),
         st.(slots := st.slots[id := Slot(doctorId, date, start, end, false)]))
  }

  /** With no overlap check, every call adds one more free slot at its time,
      however many identical ones exist already. */
  lemma AddAvailabilityAddsFreeSlot(st: State, doctorId: nat, date: CalendarDate, start: ClockTime, end: ClockTime)
    ensures var k := SlotKey(doctorId, date, start);
            var r := AddAvailability(st, doctorId, date, start, end);
            && |SlotsAt(r.state.slots, k, false)| == |SlotsAt(st.slots, k, false)| + 1
            && forall k' :: SlotsAt(r.state.slots, k', true) == SlotsAt(st.slots, k', true)
  {
    var k := SlotKey(doctorId, date, start);
    var r := AddAvailability(st, doctorId, date, start, end);
    var id := FreshId(st.slots);
    var s := Slot(doctorId, date, start, end, false);
    assert r.state.slots == st.slots[id := s];
    InsertFreeSlot(st.slots, id, s);
  }

  /** `DELETE /availability/<doctor_id>/<date>/<time>`: delete the first free
      slot at that time; a booked slot is never deleted. */
  function RemoveAvailability(st: State, doctorId: nat, date: CalendarDate, time: ClockTime): (r: Step)
    ensures var free := SlotsAt(st.slots, SlotKey(doctorId, date, time), false);
            && (free == {} ==> r == Step(Response(404, "Slot not found or already booked"), st))
            && (free != {} ==>
                  && r.response == Response(200, "Availability removed")
                  && exists sid :: sid in free && r.state.slots == st.slots - {sid})
    ensures r.state.(slots := st.slots) == st
  {
    match FirstSlotAt(st.slots, SlotKey(doctorId, date, time), false)
    case None => Step(Response(404, "Slot not found or already booked"), st)
    case Some(sid) => Step(Response(200, "Availability removed"), st.(slots := st.slots - {sid}))
  }

  /** Removing availability deletes at most one row and keeps every booked slot. */
  lemma RemoveAvailabilityKeepsBooked(st: State, doctorId: nat, date: CalendarDate, time: ClockTime)
    ensures var r := RemoveAvailability(st, doctorId, date, time);
            && |st.slots| - 1 <= |r.state.slots| <= |st.slots|
            && forall k :: SlotsAt(r.state.slots, k, true) == SlotsAt(st.slots, k, true)
  {
    var r := RemoveAvailability(st, doctorId, date, time);
    var free := SlotsAt(st.slots, SlotKey(doctorId, date, time), false);
    if free != {} {
      var sid :| sid in free && r.state.slots == st.slots - {sid};
      assert r.state.slots.Keys == st.slots.Keys - {sid};
    }
  }

  /** `PUT /appointments/<id>/cancel` (doctor side): the same code as the
      patient's handler, so the same transition. */
  function CancelAppointment(st: State, id: nat): (r: Step)
    ensures r == PatientRoutes.CancelAppointment(st, id)
  {
    if id !in st.appointments then Step(NotFound, st)
    else
      var a := st.appointments[id];
      var slots := PatientRoutes.ReleaseSlot(st.slots, KeyOfAppointment(a));
      Step(Response(200, "Appointment cancelled and slot freed"),
           st.(slots := slots, appointments := st.appointments[id := a.(status := Cancelled)]))
  }

  /** `POST /treatment`: record a treatment and mark the appointment
      `Completed`, whatever its status was (a cancelled appointment can be
      completed, and a second call adds a second treatment). For an unknown
      appointment the handler raises on `None.status` before committing: a 500
      reply with nothing stored. */
  function AddTreatment(st: State, appointmentId: nat, diagnosis: Option<string>, prescription: Option<string>): (r: Step)
    ensures appointmentId !in st.appointments ==> r == Step(Response(500, "Internal Server Error"), st)
    ensures appointmentId in st.appointments ==>
              var a := st.appointments[appointmentId];
              && r.response == Response(201, "Treatment added")
              && AddsOne(st.treatments, r.state.treatments, Treatment(appointmentId, diagnosis, prescription, None))
              && r.state.appointments == st.appointments[appointmentId := a.(status := Completed)]
              && r.state.(treatments := st.treatments, appointments := st.appointments) == st
  {
    if appointmentId !in st.appointments then Step(Response(500, "Internal Server Error"), st)
    else
      var a := st.appointments[appointmentId];
      var tid := FreshId(st.treatments);
      Step(Response(201, "Treatment added"),
           st.(treatments := st.treatments[tid := Treatment(appointmentId, diagnosis, prescription, None)],
               appointments := st.appointments[appointmentId := a.(status := Completed)]))
  }

  /** The body of `PUT /treatment/<id>`: `Some` for each key present. */
  datatype TreatmentUpdate = TreatmentUpdate(diagnosis: Option<string>, prescription: Option<string>, notes: Option<string>)

  /** `PUT /treatment/<id>`: overwrite exactly the fields present. */
  function UpdateTreatment(st: State, treatmentId: nat, u: TreatmentUpdate): (r: Step)
    ensures treatmentId !in st.treatments ==> r == Step(NotFound, st)
    ensures r.state.treatments.Keys == st.treatments.Keys
    ensures treatmentId in st.treatments ==>
              var t := st.treatments[treatmentId];
              var t' := r.state.treatments[treatmentId];
              && r.response == Response(200, "Treatment updated successfully")
              && t'.appointmentId == t.appointmentId
              && (u.diagnosis.None? ==> t'.diagnosis == t.diagnosis)
              && (u.diagnosis.Some? ==> t'.diagnosis == u.diagnosis)
              && (u.prescription.None? ==> t'.prescription == t.prescription)
              && (u.prescription.Some? ==> t'.prescription == u.prescription)
              && (u.notes.None? ==> t'.notes == t.notes)
              && (u.notes.Some? ==> t'.notes == u.notes)
              && (forall j :: j in st.treatments && j != treatmentId ==> r.state.treatments[j] == st.treatments[j])
              && r.state.(treatments := st.treatments) == st
  {
    if treatmentId !in st.treatments then Step(NotFound, st)
    else
      var t := st.treatments[treatmentId];
      var t' := t.(diagnosis := if u.diagnosis.Some? then u.diagnosis else t.diagnosis,
                   prescription := if u.prescription.Some? then u.prescription else t.prescription,
                   notes := if u.notes.Some? then u.notes else t.notes);
      Step(Response(200, "Treatment updated successfully"), st.(treatments := st.treatments[treatmentId := t']))
  }

  /** Sending the same treatment update twice equals sending it once. */
  lemma UpdateTreatmentIdempotent(st: State, treatmentId: nat, u: TreatmentUpdate)
    ensures var once := UpdateTreatment(st, treatmentId, u);
            UpdateTreatment(once.state, treatmentId, u) == once
  {
    if treatmentId in st.treatments {
      var once := UpdateTreatment(st, treatmentId, u);
      var t' := once.state.treatments[treatmentId];
      assert once.state.treatments[treatmentId := t'] == once.state.treatments;
    }
  }
}

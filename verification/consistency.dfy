/** Slot/appointment consistency: at every (doctor, date, start time) there are
    never more booked slots than appointments that still hold that time, so
    each booked slot is backed by some live appointment.

    Booking, direct booking, the patient and doctor cancels, availability
    changes, completion and doctor deletion keep this invariant. Three handlers
    break it: the admin cancel, patient deletion and rescheduling each leave a
    slot booked with nothing behind it. The invariant only counts, though. The
    patient and doctor cancels free a slot at the appointment's time without
    asking who holds it, so a repeated cancel, or the cancel of a `/book`
    appointment, frees a slot that another live appointment still holds, and
    the slot can then be booked a second time. The lemmas at the end show each
    of these. */
module Consistency {
  import opened Base
  import opened Calendar
  import opened Store
  import PatientRoutes
  import DoctorRoutes
  import AdminRoutes

  /** The appointments at `k` that still hold their time: all but the cancelled. */
  function LiveAt(appts: map<nat, Appointment>, k: SlotKey): set<nat> {
    set id | id in appts && KeyOfAppointment(appts[id]) == k && appts[id].status != Cancelled
  }

  ghost predicate Consistent(st: State) {
    forall k :: |SlotsAt(st.slots, k, true)| <= |LiveAt(st.appointments, k)|
  }

  lemma LiveAtInsert(appts: map<nat, Appointment>, id: nat, a: Appointment, k: SlotKey)
    requires id !in appts
    ensures LiveAt(appts[id := a], k)
            == LiveAt(appts, k) + (if KeyOfAppointment(a) == k && a.status != Cancelled then {id} else {})
  {
  }

  lemma LiveAtUpdate(appts: map<nat, Appointment>, id: nat, a: Appointment, k: SlotKey)
    ensures LiveAt(appts[id := a], k)
            == (LiveAt(appts, k) - {id}) + (if KeyOfAppointment(a) == k && a.status != Cancelled then {id} else {})
  {
  }

  /** Under the invariant every booked slot has a live appointment at its time. */
  lemma BookedSlotIsBacked(st: State, sid: nat)
    requires Consistent(st)
    requires sid in st.slots && st.slots[sid].booked
    ensures exists a :: a in st.appointments && st.appointments[a].status != Cancelled
                        && KeyOfAppointment(st.appointments[a]) == KeyOfSlot(st.slots[sid])
  {
    var k := KeyOfSlot(st.slots[sid]);
    assert sid in SlotsAt(st.slots, k, true);
    assert |LiveAt(st.appointments, k)| >= 1;
    var a :| a in LiveAt(st.appointments, k);
  }

  /** Booking a slot twice in a row: the second attempt is refused and changes
      nothing. (Once the slot has been freed again it can be booked again, even
      while its first holder is live: see `RepeatCancelDoublesSlot`.) */
  lemma NoDoubleBooking(st: State, slotId: nat, p1: nat, r1: Option<string>, p2: nat, r2: Option<string>)
    ensures var first := PatientRoutes.BookSlot(st, slotId, p1, r1);
            var second := PatientRoutes.BookSlot(first.state, slotId, p2, r2);
            && second.response.code != 201
            && second.state == first.state
  {
    var first := PatientRoutes.BookSlot(st, slotId, p1, r1);
    if first.response.code == 201 {
      assert first.state.slots[slotId].booked;
    }
  }

  lemma BookSlotKeepsConsistent(st: State, slotId: nat, patientId: nat, reason: Option<string>)
    requires Consistent(st)
    ensures Consistent(PatientRoutes.BookSlot(st, slotId, patientId, reason).state)
  {
    var r := PatientRoutes.BookSlot(st, slotId, patientId, reason);
    if r.response.code == 201 {
      var s := st.slots[slotId];
      var s' := s.(booked := true);
      var aid := FreshId(st.appointments);
      var a := Appointment(s.doctorId, patientId, s.date, s.start, Some(reason.GetOr("")), Booked);
      assert r.state.slots == st.slots[slotId := s'];
      assert r.state.appointments == st.appointments[aid := a];
      forall k ensures |SlotsAt(r.state.slots, k, true)| <= |LiveAt(r.state.appointments, k)| {
        BookingCountAt(st, slotId, aid, a, k);
      }
    }
  }

  /** At any one time, marking a free slot booked and adding a live
      appointment at that slot's time raise both counts together. */
  lemma BookingCountAt(st: State, slotId: nat, aid: nat, a: Appointment, k: SlotKey)
    requires |SlotsAt(st.slots, k, true)| <= |LiveAt(st.appointments, k)|
    requires slotId in st.slots && !st.slots[slotId].booked
    requires aid !in st.appointments
    requires KeyOfAppointment(a) == KeyOfSlot(st.slots[slotId]) && a.status != Cancelled
    ensures |SlotsAt(st.slots[slotId := st.slots[slotId].(booked := true)], k, true)|
            <= |LiveAt(st.appointments[aid := a], k)|
  {
    var s' := st.slots[slotId].(booked := true);
    var booked, live := SlotsAt(st.slots, k, true), LiveAt(st.appointments, k);
    SlotsAtUpdate(st.slots, slotId, s', k, true);
    LiveAtInsert(st.appointments, aid, a, k);
    assert slotId !in booked;
    assert aid !in live;
    GrowTogether(booked, live, slotId, aid, KeyOfSlot(s') == k);
  }

  /** Adding one new element to each of two sets, or to neither, keeps the
      first no larger than the second. */
  lemma GrowTogether(a: set<nat>, b: set<nat>, x: nat, y: nat, grow: bool)
    requires |a| <= |b| && x !in a && y !in b
    ensures |(a - {x}) + (if grow then {x} else {})| <= |b + (if grow then {y} else {})|
  {
    assert a - {x} == a;
    if grow {
      assert |a + {x}| == |a| + 1;
      assert |b + {y}| == |b| + 1;
    } else {
      assert b + {} == b;
    }
  }

  lemma BookDirectKeepsConsistent(st: State, doctorId: nat, patientId: nat, date: CalendarDate, time: ClockTime)
    requires Consistent(st)
    ensures Consistent(PatientRoutes.BookDirect(st, doctorId, patientId, date, time).state)
  {
    var r := PatientRoutes.BookDirect(st, doctorId, patientId, date, time);
    var aid := FreshId(st.appointments);
    var a := Appointment(doctorId, patientId, date, time, None, Booked);
    assert r.state.appointments == st.appointments[aid := a];
    forall k ensures |SlotsAt(r.state.slots, k, true)| <= |LiveAt(r.state.appointments, k)| {
      LiveAtInsert(st.appointments, aid, a, k);
      assert LiveAt(st.appointments, k) <= LiveAt(r.state.appointments, k);
    }
  }

  /** The patient cancel frees a slot exactly when it takes a live appointment
      away from that time, so the counts stay in step. */
  lemma CancelKeepsConsistent(st: State, id: nat)
    requires Consistent(st)
    ensures Consistent(PatientRoutes.CancelAppointment(st, id).state)
  {
    var r := PatientRoutes.CancelAppointment(st, id);
    if id in st.appointments {
      forall k ensures |SlotsAt(r.state.slots, k, true)| <= |LiveAt(r.state.appointments, k)| {
        CancelKeepsCountAt(st, id, k);
      }
    }
  }

  lemma CancelKeepsCountAt(st: State, id: nat, k: SlotKey)
    requires id in st.appointments
    requires |SlotsAt(st.slots, k, true)| <= |LiveAt(st.appointments, k)|
    ensures var r := PatientRoutes.CancelAppointment(st, id).state;
            |SlotsAt(r.slots, k, true)| <= |LiveAt(r.appointments, k)|
  {
    var r := PatientRoutes.CancelAppointment(st, id).state;
    var a := st.appointments[id];
    var ka := KeyOfAppointment(a);
    var a' := a.(status := Cancelled);
    assert r.appointments == st.appointments[id := a'];
    assert r.slots == PatientRoutes.ReleaseSlot(st.slots, ka);
    LiveAtUpdate(st.appointments, id, a', k);
    ReleaseSlotCount(st.slots, ka, k);
    if k != ka {
      assert id !in LiveAt(st.appointments, k);
    }
  }

  /** Releasing at `ka` frees one booked slot there when there is one, and
      leaves every other time as it was. */
  lemma ReleaseSlotCount(slots: map<nat, Slot>, ka: SlotKey, k: SlotKey)
    ensures var r := PatientRoutes.ReleaseSlot(slots, ka);
            && (k != ka ==> SlotsAt(r, k, true) == SlotsAt(slots, k, true))
            && (k == ka && SlotsAt(slots, k, true) == {} ==> SlotsAt(r, k, true) == {})
            && (k == ka && SlotsAt(slots, k, true) != {} ==> |SlotsAt(r, k, true)| == |SlotsAt(slots, k, true)| - 1)
  {
    var r := PatientRoutes.ReleaseSlot(slots, ka);
    var booked := SlotsAt(slots, ka, true);
    if booked != {} {
      var sid :| sid in booked && r == slots[sid := slots[sid].(booked := false)];
      SlotsAtUpdate(slots, sid, slots[sid].(booked := false), k, true);
      if k != ka {
        assert sid !in SlotsAt(slots, k, true);
      }
    }
  }

  lemma DoctorCancelKeepsConsistent(st: State, id: nat)
    requires Consistent(st)
    ensures Consistent(DoctorRoutes.CancelAppointment(st, id).state)
  {
    CancelKeepsConsistent(st, id);
  }

  /** A second cancel of the same appointment frees nothing more exactly when
      the time had at most one booked slot; with two or more, it frees another
      one, whoever holds it. */
  lemma CancelTwiceFreesNoMore(st: State, id: nat)
    requires id in st.appointments
    ensures var once := PatientRoutes.CancelAppointment(st, id).state;
            PatientRoutes.CancelAppointment(once, id).state.slots == once.slots
            <==> |SlotsAt(st.slots, KeyOfAppointment(st.appointments[id]), true)| <= 1
  {
    var a := st.appointments[id];
    var k := KeyOfAppointment(a);
    var once := PatientRoutes.CancelAppointment(st, id).state;
    var twice := PatientRoutes.CancelAppointment(once, id).state;
    assert KeyOfAppointment(once.appointments[id]) == k;
    assert twice.slots == PatientRoutes.ReleaseSlot(once.slots, k);
    var booked := SlotsAt(st.slots, k, true);
    ReleaseSlotCount(st.slots, k, k);
    if |booked| <= 1 {
      assert SlotsAt(once.slots, k, true) == {};
    } else {
      var left := SlotsAt(once.slots, k, true);
      assert left != {};
      var sid :| sid in left && twice.slots == once.slots[sid := once.slots[sid].(booked := false)];
      assert twice.slots[sid] != once.slots[sid];
    }
  }

  /** The cancel frees a booked slot at the appointment's time without asking
      who booked it. If another live appointment holds that time, it keeps its
      place while the booked count drops. A repeated cancel changes no live
      appointment at all, yet still frees a slot. So does cancelling a `/book`
      appointment that never held one. */
  lemma CancelFreesHeldSlot(st: State, id: nat, other: nat)
    requires id in st.appointments && other in st.appointments && other != id
    requires st.appointments[other].status != Cancelled
    requires KeyOfAppointment(st.appointments[other]) == KeyOfAppointment(st.appointments[id])
    requires SlotsAt(st.slots, KeyOfAppointment(st.appointments[id]), true) != {}
    ensures var k := KeyOfAppointment(st.appointments[id]);
            var r := PatientRoutes.CancelAppointment(st, id).state;
            && other in LiveAt(r.appointments, k)
            && |SlotsAt(r.slots, k, true)| == |SlotsAt(st.slots, k, true)| - 1
            && (st.appointments[id].status == Cancelled ==> LiveAt(r.appointments, k) == LiveAt(st.appointments, k))
  {
    var a := st.appointments[id];
    var k := KeyOfAppointment(a);
    var r := PatientRoutes.CancelAppointment(st, id).state;
    assert r.appointments == st.appointments[id := a.(status := Cancelled)];
    assert r.slots == PatientRoutes.ReleaseSlot(st.slots, k);
    ReleaseSlotCount(st.slots, k, k);
    LiveAtUpdate(st.appointments, id, a.(status := Cancelled), k);
    assert r.appointments[other] == st.appointments[other];
  }

  /** The invariant cannot see a slot serving two appointments. Start from a
      time with a single free slot and no live appointment. Patient 1 books the
      slot and cancels; patient 2 books it; patient 1 cancels again, which frees
      patient 2's slot; patient 3 books it. The invariant holds throughout, and
      the time still has one slot, yet two appointments are live on it. */
  lemma RepeatCancelDoublesSlot(st: State, sid: nat, p1: nat, p2: nat, p3: nat, reason: Option<string>)
    requires sid in st.slots && !st.slots[sid].booked
    requires var k := KeyOfSlot(st.slots[sid]);
             SlotsAt(st.slots, k, true) == {} && SlotsAt(st.slots, k, false) == {sid}
    requires Consistent(st)
    ensures var k := KeyOfSlot(st.slots[sid]);
            var s1 := PatientRoutes.BookSlot(st, sid, p1, reason).state;
            var a := FreshId(st.appointments);
            var s2 := PatientRoutes.CancelAppointment(s1, a).state;
            var s3 := PatientRoutes.BookSlot(s2, sid, p2, reason).state;
            var s4 := PatientRoutes.CancelAppointment(s3, a).state;
            var s5 := PatientRoutes.BookSlot(s4, sid, p3, reason);
            && s5.response.code == 201
            && Consistent(s5.state)
            && SlotsAt(s5.state.slots, k, true) == {sid} && SlotsAt(s5.state.slots, k, false) == {}
            && |LiveAt(s5.state.appointments, k)| >= 2
  {
    var a := FreshId(st.appointments);
    var s1 := PatientRoutes.BookSlot(st, sid, p1, reason).state;
    var s2 := PatientRoutes.CancelAppointment(s1, a).state;
    var s3 := PatientRoutes.BookSlot(s2, sid, p2, reason).state;
    BookCancelRebook(st, sid, p1, p2, reason);
    CancelAgainRebook(s3, sid, a, FreshId(s2.appointments), p3, reason);
  }

  /** The first three steps: book, cancel, and book again by someone else. The
      slot ends booked by the second appointment; the first stays cancelled. */
  lemma BookCancelRebook(st: State, sid: nat, p1: nat, p2: nat, reason: Option<string>)
    requires sid in st.slots && !st.slots[sid].booked
    requires var k := KeyOfSlot(st.slots[sid]);
             SlotsAt(st.slots, k, true) == {} && SlotsAt(st.slots, k, false) == {sid}
    requires Consistent(st)
    ensures var k := KeyOfSlot(st.slots[sid]);
            var s1 := PatientRoutes.BookSlot(st, sid, p1, reason).state;
            var a := FreshId(st.appointments);
            var s2 := PatientRoutes.CancelAppointment(s1, a).state;
            var s3 := PatientRoutes.BookSlot(s2, sid, p2, reason).state;
            var b := FreshId(s2.appointments);
            && sid in s3.slots && KeyOfSlot(s3.slots[sid]) == k
            && SlotsAt(s3.slots, k, true) == {sid} && SlotsAt(s3.slots, k, false) == {}
            && a in s3.appointments && KeyOfAppointment(s3.appointments[a]) == k
            && b in s3.appointments && b != a
            && s3.appointments[b].status == Booked && KeyOfAppointment(s3.appointments[b]) == k
            && Consistent(s3)
  {
    var a := FreshId(st.appointments);
    var s1 := PatientRoutes.BookSlot(st, sid, p1, reason).state;
    BookOnlySlot(st, sid, p1, reason);
    BookSlotKeepsConsistent(st, sid, p1, reason);
    var s2 := PatientRoutes.CancelAppointment(s1, a).state;
    CancelOnlySlot(s1, sid, a);
    CancelKeepsConsistent(s1, a);
    var b := FreshId(s2.appointments);
    BookOnlySlot(s2, sid, p2, reason);
    BookSlotKeepsConsistent(s2, sid, p2, reason);
    assert a in s2.appointments && b != a;
  }

  /** The last two steps: cancelling the first appointment again frees the slot
      the second still holds, and a third booking takes it, so two live
      appointments share the one slot while the invariant still holds. */
  lemma CancelAgainRebook(st: State, sid: nat, a: nat, b: nat, p: nat, reason: Option<string>)
    requires sid in st.slots
    requires var k := KeyOfSlot(st.slots[sid]);
             && SlotsAt(st.slots, k, true) == {sid} && SlotsAt(st.slots, k, false) == {}
             && a in st.appointments && KeyOfAppointment(st.appointments[a]) == k
             && b in st.appointments && b != a
             && st.appointments[b].status == Booked && KeyOfAppointment(st.appointments[b]) == k
    requires Consistent(st)
    ensures var k := KeyOfSlot(st.slots[sid]);
            var s4 := PatientRoutes.CancelAppointment(st, a).state;
            var s5 := PatientRoutes.BookSlot(s4, sid, p, reason);
            && s5.response.code == 201
            && Consistent(s5.state)
            && SlotsAt(s5.state.slots, k, true) == {sid} && SlotsAt(s5.state.slots, k, false) == {}
            && |LiveAt(s5.state.appointments, k)| >= 2
  {
    var k := KeyOfSlot(st.slots[sid]);
    var s4 := PatientRoutes.CancelAppointment(st, a).state;
    CancelOnlySlot(st, sid, a);
    CancelKeepsConsistent(st, a);
    var c := FreshId(s4.appointments);
    var s5 := PatientRoutes.BookSlot(s4, sid, p, reason).state;
    BookOnlySlot(s4, sid, p, reason);
    BookSlotKeepsConsistent(s4, sid, p, reason);
    assert s4.appointments[b] == st.appointments[b];
    assert b in s4.appointments && c != b;
    assert s5.appointments[b] == s4.appointments[b];
    TwoMembers(LiveAt(s5.appointments, k), b, c);
  }

  /** Booking the one slot of a time, when it is free, makes it the one booked
      slot there and adds a live appointment at that time. */
  lemma BookOnlySlot(st: State, sid: nat, p: nat, reason: Option<string>)
    requires sid in st.slots && !st.slots[sid].booked
    requires var k := KeyOfSlot(st.slots[sid]);
             SlotsAt(st.slots, k, true) == {} && SlotsAt(st.slots, k, false) == {sid}
    ensures var k := KeyOfSlot(st.slots[sid]);
            var r := PatientRoutes.BookSlot(st, sid, p, reason);
            var id := FreshId(st.appointments);
            && r.response.code == 201
            && r.state.slots.Keys == st.slots.Keys && sid in r.state.slots && KeyOfSlot(r.state.slots[sid]) == k
            && SlotsAt(r.state.slots, k, true) == {sid} && SlotsAt(r.state.slots, k, false) == {}
            && r.state.appointments == st.appointments[id := r.state.appointments[id]]
            && id !in st.appointments
            && KeyOfAppointment(r.state.appointments[id]) == k && r.state.appointments[id].status == Booked
  {
    var k := KeyOfSlot(st.slots[sid]);
    SlotsAtUpdate(st.slots, sid, st.slots[sid].(booked := true), k, true);
    SlotsAtUpdate(st.slots, sid, st.slots[sid].(booked := true), k, false);
  }

  /** Cancelling any appointment at a time whose one slot is booked frees that
      slot and marks the appointment cancelled. */
  lemma CancelOnlySlot(st: State, sid: nat, id: nat)
    requires sid in st.slots && id in st.appointments
    requires var k := KeyOfSlot(st.slots[sid]);
             && KeyOfAppointment(st.appointments[id]) == k
             && SlotsAt(st.slots, k, true) == {sid} && SlotsAt(st.slots, k, false) == {}
    ensures var k := KeyOfSlot(st.slots[sid]);
            var r := PatientRoutes.CancelAppointment(st, id).state;
            && r.slots.Keys == st.slots.Keys && sid in r.slots && !r.slots[sid].booked && KeyOfSlot(r.slots[sid]) == k
            && SlotsAt(r.slots, k, true) == {} && SlotsAt(r.slots, k, false) == {sid}
            && r.appointments == st.appointments[id := st.appointments[id].(status := Cancelled)]
  {
    var k := KeyOfSlot(st.slots[sid]);
    var r := PatientRoutes.CancelAppointment(st, id).state;
    assert r.slots == st.slots[sid := st.slots[sid].(booked := false)];
    SlotsAtUpdate(st.slots, sid, st.slots[sid].(booked := false), k, true);
    SlotsAtUpdate(st.slots, sid, st.slots[sid].(booked := false), k, false);
  }

  lemma AddAvailabilityKeepsConsistent(st: State, doctorId: nat, date: CalendarDate, start: ClockTime, end: ClockTime)
    requires Consistent(st)
    ensures Consistent(DoctorRoutes.AddAvailability(st, doctorId, date, start, end).state)
  {
    DoctorRoutes.AddAvailabilityAddsFreeSlot(st, doctorId, date, start, end);
  }

  lemma RemoveAvailabilityKeepsConsistent(st: State, doctorId: nat, date: CalendarDate, time: ClockTime)
    requires Consistent(st)
    ensures Consistent(DoctorRoutes.RemoveAvailability(st, doctorId, date, time).state)
  {
    DoctorRoutes.RemoveAvailabilityKeepsBooked(st, doctorId, date, time);
  }

  /** Completion never takes a live appointment away (it may even revive a
      cancelled one), so it keeps the invariant. */
  lemma AddTreatmentKeepsConsistent(st: State, appointmentId: nat, diagnosis: Option<string>, prescription: Option<string>)
    requires Consistent(st)
    ensures Consistent(DoctorRoutes.AddTreatment(st, appointmentId, diagnosis, prescription).state)
  {
    var r := DoctorRoutes.AddTreatment(st, appointmentId, diagnosis, prescription);
    if appointmentId in st.appointments {
      var a' := st.appointments[appointmentId].(status := Completed);
      forall k ensures |SlotsAt(r.state.slots, k, true)| <= |LiveAt(r.state.appointments, k)| {
        LiveAtUpdate(st.appointments, appointmentId, a', k);
        assert LiveAt(st.appointments, k) <= LiveAt(r.state.appointments, k);
      }
    }
  }

  /** Deleting a doctor removes the slots and the appointments of every time of
      that doctor together, and touches no other time. */
  lemma DeleteDoctorKeepsConsistent(st: State, id: nat)
    requires Consistent(st)
    ensures Consistent(AdminRoutes.DeleteDoctor(st, id).state)
  {
    var r := AdminRoutes.DeleteDoctor(st, id);
    if id in st.doctors {
      forall k ensures |SlotsAt(r.state.slots, k, true)| <= |LiveAt(r.state.appointments, k)| {
        if k.doctorId == id {
          assert SlotsAt(r.state.slots, k, true) == {};
        } else {
          assert SlotsAt(r.state.slots, k, true) == SlotsAt(st.slots, k, true);
          assert LiveAt(r.state.appointments, k) == LiveAt(st.appointments, k);
        }
      }
    }
  }

  /** A booked time is "tight" when each of its live appointments is matched by
      a booked slot: the situation right after a booking. */
  ghost predicate Tight(st: State, k: SlotKey) {
    |SlotsAt(st.slots, k, true)| == |LiveAt(st.appointments, k)|
  }

  /** The admin cancel takes a live appointment away without freeing its slot:
      at a tight time the slot is left booked with nothing behind it. */
  lemma AdminCancelStrandsSlot(st: State, id: nat)
    requires id in st.appointments && st.appointments[id].status != Cancelled
    requires Tight(st, KeyOfAppointment(st.appointments[id]))
    ensures !Consistent(AdminRoutes.CancelAppointment(st, id).state)
  {
    var a := st.appointments[id];
    var k := KeyOfAppointment(a);
    var r := AdminRoutes.CancelAppointment(st, id);
    LiveAtUpdate(st.appointments, id, a.(status := Cancelled), k);
    assert id in LiveAt(st.appointments, k);
    assert LiveAt(r.state.appointments, k) == LiveAt(st.appointments, k) - {id};
    assert |SlotsAt(r.state.slots, k, true)| > |LiveAt(r.state.appointments, k)|;
  }

  /** Deleting a patient drops their live appointment but keeps its slot booked. */
  lemma DeletePatientStrandsSlot(st: State, pid: nat, id: nat)
    requires pid in st.patients
    requires id in st.appointments && st.appointments[id].patientId == pid
    requires st.appointments[id].status != Cancelled
    requires Tight(st, KeyOfAppointment(st.appointments[id]))
    ensures !Consistent(AdminRoutes.DeletePatient(st, pid).state)
  {
    var k := KeyOfAppointment(st.appointments[id]);
    var r := AdminRoutes.DeletePatient(st, pid);
    assert id in LiveAt(st.appointments, k);
    SubsetCard(LiveAt(r.state.appointments, k), LiveAt(st.appointments, k) - {id});
    assert |SlotsAt(r.state.slots, k, true)| > |LiveAt(r.state.appointments, k)|;
  }

  /** Moving a live appointment to another date or time leaves its old slot
      booked and claims none at the new time. */
  lemma RescheduleStrandsSlot(st: State, id: nat, date: Option<CalendarDate>, time: Option<ClockTime>)
    requires id in st.appointments && st.appointments[id].status != Cancelled
    requires Tight(st, KeyOfAppointment(st.appointments[id]))
    requires var a := st.appointments[id];
             (date.GetOr(a.date), time.GetOr(a.time)) != (a.date, a.time)
    ensures !Consistent(PatientRoutes.Reschedule(st, id, date, time).state)
  {
    var a := st.appointments[id];
    var k := KeyOfAppointment(a);
    var r := PatientRoutes.Reschedule(st, id, date, time);
    var a' := r.state.appointments[id];
    assert r.state.appointments == st.appointments[id := a'];
    LiveAtUpdate(st.appointments, id, a', k);
    assert id in LiveAt(st.appointments, k);
    assert LiveAt(r.state.appointments, k) == LiveAt(st.appointments, k) - {id};
    assert |SlotsAt(r.state.slots, k, true)| > |LiveAt(r.state.appointments, k)|;
  }

  /** Booking a free slot at a tight time leaves that time tight. A time with
      no booked slot and no live appointment is tight, so after bookings from
      such a start the three stranding lemmas apply. */
  lemma BookingKeepsTight(st: State, slotId: nat, patientId: nat, reason: Option<string>)
    requires slotId in st.slots && !st.slots[slotId].booked
    requires Tight(st, KeyOfSlot(st.slots[slotId]))
    ensures Tight(PatientRoutes.BookSlot(st, slotId, patientId, reason).state, KeyOfSlot(st.slots[slotId]))
  {
    var s := st.slots[slotId];
    var k := KeyOfSlot(s);
    var aid := FreshId(st.appointments);
    var a := Appointment(s.doctorId, patientId, s.date, s.start, Some(reason.GetOr("")), Booked);
    var r := PatientRoutes.BookSlot(st, slotId, patientId, reason);
    assert r.state.slots == st.slots[slotId := s.(booked := true)];
    assert r.state.appointments == st.appointments[aid := a];
    SlotsAtUpdate(st.slots, slotId, s.(booked := true), k, true);
    LiveAtInsert(st.appointments, aid, a, k);
    assert slotId !in SlotsAt(st.slots, k, true);
    assert aid !in LiveAt(st.appointments, k);
  }

  /** A set with two different members has at least two elements. */
  lemma TwoMembers(s: set<nat>, x: nat, y: nat)
    requires x in s && y in s && x != y
    ensures |s| >= 2
  {
    SubsetCard({x, y}, s);
  }

  lemma {:induction false} SubsetCard(a: set<nat>, b: set<nat>)
    requires a <= b
    ensures |a| <= |b|
    decreases |b|
  {
    if a != {} {
      var x :| x in a;
      SubsetCard(a - {x}, b - {x});
    }
  }
}

/** The admin blueprint: account provisioning, profile edits, the blacklist
    switch, cascading deletes, and the admin's own appointment cancel. */
module AdminRoutes {
  import opened Base
  import opened Calendar
  import opened Store

  /** `PUT /blacklist/<user_id>`: flip the user's blacklist flag. */
  function ToggleBlacklist(st: State, userId: nat): (r: Step)
    ensures userId !in st.users ==> r == Step(NotFound, st)
    ensures r.state.users.Keys == st.users.Keys
    ensures userId in st.users ==>
              var u := st.users[userId];
              && r.state.users[userId] == u.(blacklisted := !u.blacklisted)
              && r.response.code == 200
              && r.response.message == (if u.blacklisted then "User active" else "User blacklisted")
              && (forall j :: j in st.users && j != userId ==> r.state.users[j] == st.users[j])
              && r.state.(users := st.users) == st
  {
    if userId !in st.users then Step(NotFound, st)
    else
      var u := st.users[userId];
      var u' := u.(blacklisted := !u.blacklisted);
      var status := if u'.blacklisted then "blacklisted" else "active";
      Step(Response(200, "User " + status), st.(users := st.users[userId := u']))
  }

  /** Toggling twice restores the original state. */
  lemma ToggleBlacklistTwice(st: State, userId: nat)
    ensures ToggleBlacklist(ToggleBlacklist(st, userId).state, userId).state == st
  {
    if userId in st.users {
      var u := st.users[userId];
      assert st.users[userId := u.(blacklisted := !u.blacklisted)][userId := u] == st.users;
    }
  }

  /** `POST /doctors`: create a doctor account (a `doctor` user without email)
      and its profile, unless the username is in use. Only the username is
      checked. */
  function CreateDoctor(st: State, username: string, passwordHash: string,
                        name: string, specialization: string, department: string): (r: Step)
    ensures UsernameTaken(st.users, username) ==> r == Step(Response(400, "Username exists"), st)
    ensures !UsernameTaken(st.users, username) ==>
              && r.response == Response(201, "Doctor added")
              && (exists uid: nat ::
                    && uid !in st.users
                    && r.state.users == st.users[uid := User(username, None, passwordHash, Doctor, true, false)]
                    && AddsOne(st.doctors, r.state.doctors, DoctorProfile(uid, name, specialization, department)))
              && r.state.(users := st.users, doctors := st.doctors) == st
  {
    if UsernameTaken(st.users, username) then Step(Response(400, "Username exists"), st)
    else
      var uid := FreshId(st.users);
      var did := FreshId(st.doctors);
      Step(Response(201, "Doctor added"),
           st.(users := st.users[uid := User(username, None, passwordHash, Doctor, true, false)],
               doctors := st.doctors[did := DoctorProfile(uid, name, specialization, department)]))
  }

  /** A doctor account is created only under an unused username, so usernames
      stay unique. */
  lemma CreateDoctorKeepsUniqueUsernames(st: State, username: string, passwordHash: string,
                                         name: string, specialization: string, department: string)
    requires UniqueUsernames(st.users)
    ensures UniqueUsernames(CreateDoctor(st, username, passwordHash, name, specialization, department).state.users)
  {
    if !UsernameTaken(st.users, username) {
      AddUserKeepsUnique(st.users, FreshId(st.users), User(username, None, passwordHash, Doctor, true, false));
    }
  }

  /** `PUT /doctors/<id>`: `data.get(field, old)` for each profile field. */
  function UpdateDoctor(st: State, id: nat, name: Option<string>, specialization: Option<string>,
                        department: Option<string>): (r: Step)
    ensures id !in st.doctors ==> r == Step(NotFound, st)
    ensures r.state.doctors.Keys == st.doctors.Keys
    ensures id in st.doctors ==>
              var d := st.doctors[id];
              var d' := r.state.doctors[id];
              && r.response == Response(200, "Doctor updated")
              && d'.userId == d.userId
              && d'.name == (if name.Some? then name.value else d.name)
              && d'.specialization == (if specialization.Some? then specialization.value else d.specialization)
              && d'.department == (if department.Some? then department.value else d.department)
              && (forall j :: j in st.doctors && j != id ==> r.state.doctors[j] == st.doctors[j])
              && r.state.(doctors := st.doctors) == st
  {
    if id !in st.doctors then Step(NotFound, st)
    else
      var d := st.doctors[id];
      var d' := d.(name := name.GetOr(d.name),
                   specialization := specialization.GetOr(d.specialization),
                   department := department.GetOr(d.department));
      Step(Response(200, "Doctor updated"), st.(doctors := st.doctors[id := d']))
  }

  /** Sending the same doctor update twice equals sending it once. */
  lemma UpdateDoctorIdempotent(st: State, id: nat, name: Option<string>, specialization: Option<string>,
                               department: Option<string>)
    ensures var once := UpdateDoctor(st, id, name, specialization, department);
            UpdateDoctor(once.state, id, name, specialization, department) == once
  {
    if id in st.doctors {
      var once := UpdateDoctor(st, id, name, specialization, department);
      var d' := once.state.doctors[id];
      assert once.state.doctors[id := d'] == once.state.doctors;
    }
  }

  /** The ids of a doctor's appointments, of any status. */
  function AppointmentsOfDoctor(st: State, doctorId: nat): set<nat> {
    set a | a in st.appointments && st.appointments[a].doctorId == doctorId
  }

  /** The ids of a patient's appointments, of any status. */
  function AppointmentsOfPatient(st: State, patientId: nat): set<nat> {
    set a | a in st.appointments && st.appointments[a].patientId == patientId
  }

  /** Drops the given appointments and every treatment recorded on them. */
  function DropAppointments(st: State, gone: set<nat>): (r: State)
    ensures forall a :: a in r.appointments <==> a in st.appointments && a !in gone
    ensures forall a :: a in r.appointments ==> r.appointments[a] == st.appointments[a]
    ensures forall t :: t in r.treatments <==> t in st.treatments && st.treatments[t].appointmentId !in gone
    ensures forall t :: t in r.treatments ==> r.treatments[t] == st.treatments[t]
    ensures r.(appointments := st.appointments, treatments := st.treatments) == st
  {
    st.(appointments := map a | a in st.appointments && a !in gone :: st.appointments[a],
        treatments := map t | t in st.treatments && st.treatments[t].appointmentId !in gone :: st.treatments[t])
  }

  /** `DELETE /doctors/<id>`: remove the doctor's appointments with their
      treatments, the doctor's availability slots, the profile and its user. */
  function DeleteDoctor(st: State, id: nat): (r: Step)
    ensures id !in st.doctors ==> r == Step(NotFound, st)
    ensures id in st.doctors ==>
              var s := r.state;
              && r.response == Response(200, "Doctor deleted successfully")
              && (forall a :: a in s.appointments <==> a in st.appointments && st.appointments[a].doctorId != id)
              && (forall a :: a in s.appointments ==> s.appointments[a] == st.appointments[a])
              && (forall t :: t in s.treatments <==>
                    t in st.treatments && !(st.treatments[t].appointmentId in st.appointments
                                           && st.appointments[st.treatments[t].appointmentId].doctorId == id))
              && (forall t :: t in s.treatments ==> s.treatments[t] == st.treatments[t])
              && (forall k :: k in s.slots <==> k in st.slots && st.slots[k].doctorId != id)
              && (forall k :: k in s.slots ==> s.slots[k] == st.slots[k])
              && s.doctors == st.doctors - {id}
              && s.users == st.users - {st.doctors[id].userId}
              && s.patients == st.patients
  {
    if id !in st.doctors then Step(NotFound, st)
    else
      var st1 := DropAppointments(st, AppointmentsOfDoctor(st, id));
      Step(Response(200, "Doctor deleted successfully"),
           st1.(slots := map k | k in st.slots && st.slots[k].doctorId != id :: st.slots[k],
                doctors := st.doctors - {id},
                users := st.users - {st.doctors[id].userId}))
  }

  /** `POST /patients`: create a patient account and profile. The username is
      checked first, then the email; an absent email collides with any user
      that has none. */
  function CreatePatient(st: State, username: string, email: Option<string>, passwordHash: string,
                         name: string, dob: Option<CalendarDate>, contact: Option<string>): (r: Step)
    ensures UsernameTaken(st.users, username) ==> r == Step(Response(400, "Username already exists"), st)
    ensures !UsernameTaken(st.users, username) && EmailTaken(st.users, email) ==>
              r == Step(Response(400, "Email already exists"), st)
    ensures !UsernameTaken(st.users, username) && !EmailTaken(st.users, email) ==>
              && r.response == Response(201, "Patient added")
              && (exists uid: nat ::
                    && uid !in st.users
                    && r.state.users == st.users[uid := User(username, email, passwordHash, Patient, true, false)]
                    && AddsOne(st.patients, r.state.patients, PatientProfile(uid, name, dob, contact)))
              && r.state.(users := st.users, patients := st.patients) == st
  {
    if UsernameTaken(st.users, username) then Step(Response(400, "Username already exists"), st)
    else if EmailTaken(st.users, email) then Step(Response(400, "Email already exists"), st)
    else
      var uid := FreshId(st.users);
      var pid := FreshId(st.patients);
      Step(Response(201, "Patient added"),
           st.(users := st.users[uid := User(username, email, passwordHash, Patient, true, false)],
               patients := st.patients[pid := PatientProfile(uid, name, dob, contact)]))
  }

  /** A patient account is created only under an unused username, so
      usernames stay unique. */
  lemma CreatePatientKeepsUniqueUsernames(st: State, username: string, email: Option<string>, passwordHash: string,
                                          name: string, dob: Option<CalendarDate>, contact: Option<string>)
    requires UniqueUsernames(st.users)
    ensures UniqueUsernames(CreatePatient(st, username, email, passwordHash, name, dob, contact).state.users)
  {
    if !UsernameTaken(st.users, username) && !EmailTaken(st.users, email) {
      AddUserKeepsUnique(st.users, FreshId(st.users), User(username, email, passwordHash, Patient, true, false));
    }
  }

  /** `PUT /patients/<id>`: name and contact via `data.get(field, old)`; the
      date of birth only when a non-empty value is given. */
  function UpdatePatient(st: State, id: nat, name: Option<string>, contact: Option<string>,
                         dob: Option<CalendarDate>): (r: Step)
    ensures id !in st.patients ==> r == Step(NotFound, st)
    ensures r.state.patients.Keys == st.patients.Keys
    ensures id in st.patients ==>
              var p := st.patients[id];
              var p' := r.state.patients[id];
              && r.response == Response(200, "Patient updated")
              && p'.userId == p.userId
              && p'.name == (if name.Some? then name.value else p.name)
              && p'.contact == (if contact.Some? then contact else p.contact)
              && p'.dob == (if dob.Some? then dob else p.dob)
              && (forall j :: j in st.patients && j != id ==> r.state.patients[j] == st.patients[j])
              && r.state.(patients := st.patients) == st
  {
    if id !in st.patients then Step(NotFound, st)
    else
      var p := st.patients[id];
      var p' := p.(name := name.GetOr(p.name),
                   contact := if contact.Some? then contact else p.contact,
                   dob := if dob.Some? then dob else p.dob);
      Step(Response(200, "Patient updated"), st.(patients := st.patients[id := p']))
  }

  /** Sending the same patient update twice equals sending it once. */
  lemma UpdatePatientIdempotent(st: State, id: nat, name: Option<string>, contact: Option<string>,
                                dob: Option<CalendarDate>)
    ensures var once := UpdatePatient(st, id, name, contact, dob);
            UpdatePatient(once.state, id, name, contact, dob) == once
  {
    if id in st.patients {
      var once := UpdatePatient(st, id, name, contact, dob);
      var p' := once.state.patients[id];
      assert once.state.patients[id := p'] == once.state.patients;
    }
  }

  /** `DELETE /patients/<id>`: remove the patient's appointments with their
      treatments, the profile and its user. No availability slot is touched, so
      the slots those appointments held stay booked. */
  function DeletePatient(st: State, id: nat): (r: Step)
    ensures id !in st.patients ==> r == Step(NotFound, st)
    ensures id in st.patients ==>
              var s := r.state;
              && r.response == Response(200, "Patient deleted successfully")
              && (forall a :: a in s.appointments <==> a in st.appointments && st.appointments[a].patientId != id)
              && (forall a :: a in s.appointments ==> s.appointments[a] == st.appointments[a])
              && (forall t :: t in s.treatments <==>
                    t in st.treatments && !(st.treatments[t].appointmentId in st.appointments
                                           && st.appointments[st.treatments[t].appointmentId].patientId == id))
              && (forall t :: t in s.treatments ==> s.treatments[t] == st.treatments[t])
              && s.slots == st.slots
              && s.patients == st.patients - {id}
              && s.users == st.users - {st.patients[id].userId}
              && s.doctors == st.doctors
  {
    if id !in st.patients then Step(NotFound, st)
    else
      var st1 := DropAppointments(st, AppointmentsOfPatient(st, id));
      Step(Response(200, "Patient deleted successfully"),
           st1.(patients := st.patients - {id}, users := st.users - {st.patients[id].userId}))
  }

  /** `PUT /appointments/<id>/cancel` (admin side): only the status changes;
      unlike the patient and doctor handlers no slot is freed. */
  function CancelAppointment(st: State, id: nat): (r: Step)
    ensures id !in st.appointments ==> r == Step(NotFound, st)
    ensures id in st.appointments ==>
              && r.response == Response(200, "Appointment cancelled")
              && r.state.appointments == st.appointments[id := st.appointments[id].(status := Cancelled)]
              && r.state.slots == st.slots
              && r.state.(appointments := st.appointments) == st
  {
    if id !in st.appointments then Step(NotFound, st)
    else
      Step(Response(200, "Appointment cancelled"),
           st.(appointments := st.appointments[id := st.appointments[id].(status := Cancelled)]))
  }
}

/** The persistent state of the hospital backend: one finite map per table,
    keyed by primary key, with the entity records the route handlers read and
    write, and the lookups (`filter_by(...).first()`) they share. */
module Store {
  import opened Base
  import opened Calendar

  datatype Role = Admin | Doctor | Patient

  /** The role string stored on a user and carried in its token. */
  function RoleName(r: Role): (s: string)
    ensures s in {"admin", "doctor", "patient"}
  {
    match r
    case Admin => "admin"
    case Doctor => "doctor"
    case Patient => "patient"
  }

  lemma RoleNameInjective(a: Role, b: Role)
    ensures RoleName(a) == RoleName(b) ==> a == b
  {
  }

  /** The appointment status column. New appointments are taken to start as
      `Booked`: the code never sets it, and every filter for open appointments
      asks for that value. */
  datatype Status = Booked | Completed | Cancelled

  datatype User = User(
    username: string,
    email: Option<string>,
    passwordHash: string,
    role: Role,
    active: bool,
    blacklisted: bool)

  datatype DoctorProfile = DoctorProfile(
    userId: nat,
    name: string,
    specialization: string,
    department: string)

  datatype PatientProfile = PatientProfile(
    userId: nat,
    name: string,
    dob: Option<CalendarDate>,
    contact: Option<string>)

  /** An availability row: a bookable window of one doctor. */
  datatype Slot = Slot(doctorId: nat, date: CalendarDate, start: ClockTime, end: ClockTime, booked: bool)

  datatype Appointment = Appointment(
    doctorId: nat,
    patientId: nat,
    date: CalendarDate,
    time: ClockTime,
    reason: Option<string>,
    status: Status)

  datatype Treatment = Treatment(
    appointmentId: nat,
    diagnosis: Option<string>,
    prescription: Option<string>,
    notes: Option<string>)

  datatype State = State(
    users: map<nat, User>,
    doctors: map<nat, DoctorProfile>,
    patients: map<nat, PatientProfile>,
    slots: map<nat, Slot>,
    appointments: map<nat, Appointment>,
    treatments: map<nat, Treatment>)

  /** What one request does: the reply it sends and the state it commits. */
  datatype Step = Step(response: Response, state: State)

  /** The (doctor, date, start time) triple that ties a slot to an appointment. */
  datatype SlotKey = SlotKey(doctorId: nat, date: CalendarDate, time: ClockTime)

  function KeyOfSlot(s: Slot): SlotKey {
    SlotKey(s.doctorId, s.date, s.start)
  }

  function KeyOfAppointment(a: Appointment): SlotKey {
    SlotKey(a.doctorId, a.date, a.time)
  }

  /** The ids of the slots at `k` whose booked flag is `booked`. */
  function SlotsAt(slots: map<nat, Slot>, k: SlotKey, booked: bool): set<nat> {
    set id | id in slots && KeyOfSlot(slots[id]) == k && slots[id].booked == booked
  }

  lemma SlotsAtInsert(slots: map<nat, Slot>, id: nat, s: Slot, k: SlotKey, booked: bool)
    requires id !in slots
    ensures SlotsAt(slots[id := s], k, booked)
            == SlotsAt(slots, k, booked) + (if KeyOfSlot(s) == k && s.booked == booked then {id} else {})
  {
  }

  /** A new free slot adds one to the free count at its time and leaves every
      booked set alone. */
  lemma InsertFreeSlot(slots: map<nat, Slot>, id: nat, s: Slot)
    requires id !in slots && !s.booked
    ensures |SlotsAt(slots[id := s], KeyOfSlot(s), false)| == |SlotsAt(slots, KeyOfSlot(s), false)| + 1
    ensures forall k :: SlotsAt(slots[id := s], k, true) == SlotsAt(slots, k, true)
  {
    var free := SlotsAt(slots, KeyOfSlot(s), false);
    SlotsAtInsert(slots, id, s, KeyOfSlot(s), false);
    assert id !in free;
    forall k ensures SlotsAt(slots[id := s], k, true) == SlotsAt(slots, k, true) {
      SlotsAtInsert(slots, id, s, k, true);
    }
  }

  lemma SlotsAtUpdate(slots: map<nat, Slot>, id: nat, s: Slot, k: SlotKey, booked: bool)
    ensures SlotsAt(slots[id := s], k, booked)
            == (SlotsAt(slots, k, booked) - {id}) + (if KeyOfSlot(s) == k && s.booked == booked then {id} else {})
  {
  }

  lemma SlotsAtRemove(slots: map<nat, Slot>, id: nat, k: SlotKey, booked: bool)
    ensures SlotsAt(slots - {id}, k, booked) == SlotsAt(slots, k, booked) - {id}
  {
  }

  /** `Availability.query.filter_by(doctor_id=…, date=…, start_time=…,
      is_booked=…).first()`: the lowest-numbered matching slot, if any. */
  function FirstSlotAt(slots: map<nat, Slot>, k: SlotKey, booked: bool): (r: Option<nat>)
    ensures r.None? <==> SlotsAt(slots, k, booked) == {}
    ensures r.Some? ==>
              && r.value in slots
              && KeyOfSlot(slots[r.value]) == k
              && slots[r.value].booked == booked
              && forall id :: id in SlotsAt(slots, k, booked) ==> r.value <= id
  {
    var ids := SlotsAt(slots, k, booked);
    if ids == {} then None else Some(MinOf(ids))
  }

  /** `User.query.filter_by(username=…).first()`. */
  function FirstUserNamed(users: map<nat, User>, username: string): (r: Option<nat>)
    ensures r.None? <==> forall id :: id in users ==> users[id].username != username
    ensures r.Some? ==> r.value in users && users[r.value].username == username
  {
    var ids := set id | id in users && users[id].username == username;
    if ids == {} then
      assert forall id :: id in users ==> (id in ids <==> users[id].username == username);
      None
    else Some(MinOf(ids))
  }

  /** No two user rows share a username, so a username names at most one
      account. Only the account handlers' username check maintains this; the
      schema's uniqueness constraint is not part of this model. */
  predicate UniqueUsernames(users: map<nat, User>) {
    forall i, j :: i in users && j in users && users[i].username == users[j].username ==> i == j
  }

  /** Adding a user under an unused id and an unused username keeps usernames
      unique. */
  lemma AddUserKeepsUnique(users: map<nat, User>, uid: nat, u: User)
    requires UniqueUsernames(users) && uid !in users && !UsernameTaken(users, u.username)
    ensures UniqueUsernames(users[uid := u])
  {
  }

  /** Whether some user row has this username. */
  predicate UsernameTaken(users: map<nat, User>, username: string) {
    exists id :: id in users && users[id].username == username
  }

  /** Whether some user row has this email; `filter_by(email=None)` compiles to
      `email IS NULL`, so an absent email matches users without one. */
  predicate EmailTaken(users: map<nat, User>, email: Option<string>) {
    exists id :: id in users && users[id].email == email
  }

  /** `Doctor.query.filter_by(user_id=…).first()`. */
  function DoctorOfUser(doctors: map<nat, DoctorProfile>, userId: nat): (r: Option<nat>)
    ensures r.None? <==> forall id :: id in doctors ==> doctors[id].userId != userId
    ensures r.Some? ==> r.value in doctors && doctors[r.value].userId == userId
  {
    var ids := set id | id in doctors && doctors[id].userId == userId;
    if ids == {} then
      assert forall id :: id in doctors ==> (id in ids <==> doctors[id].userId == userId);
      None
    else Some(MinOf(ids))
  }

  /** `Patient.query.filter_by(user_id=…).first()`. */
  function PatientOfUser(patients: map<nat, PatientProfile>, userId: nat): (r: Option<nat>)
    ensures r.None? <==> forall id :: id in patients ==> patients[id].userId != userId
    ensures r.Some? ==> r.value in patients && patients[r.value].userId == userId
  {
    var ids := set id | id in patients && patients[id].userId == userId;
    if ids == {} then
      assert forall id :: id in patients ==> (id in ids <==> patients[id].userId == userId);
      None
    else Some(MinOf(ids))
  }

  /** `appointment.treatment`: the treatment row of an appointment (the lowest
      numbered one should there be several). */
  function TreatmentOf(treatments: map<nat, Treatment>, appointmentId: nat): (r: Option<Treatment>)
    ensures r.None? <==> forall id :: id in treatments ==> treatments[id].appointmentId != appointmentId
    ensures r.Some? ==> r.value in treatments.Values && r.value.appointmentId == appointmentId
  {
    var ids := set id | id in treatments && treatments[id].appointmentId == appointmentId;
    if ids == {} then
      assert forall id :: id in treatments ==> (id in ids <==> treatments[id].appointmentId == appointmentId);
      None
    else Some(treatments[MinOf(ids)])
  }

  /** `m2` is `m` with exactly one new row, holding `v`, under a key `m` did not use. */
  ghost predicate AddsOne<T>(m: map<nat, T>, m2: map<nat, T>, v: T) {
    exists id: nat :: id !in m && m2 == m[id := v]
  }

  /** An email the mailer can use: Python treats `None` and `''` as missing. */
  predicate HasEmail(u: User) {
    u.email.Some? && u.email.value != ""
  }
}

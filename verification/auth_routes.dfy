/** The auth blueprint: login, self-registration of patients, and token
    verification. Password hashing and JWT decoding are parameters; a
    successful login is described by the claims it signs. */
module AuthRoutes {
  import opened Base
  import opened Calendar
  import opened Store
  import opened Tokens
  import AdminRoutes

  /** `JWT_EXPIRATION_HOURS`. */
  const JwtExpirationHours := 24
  const SecondsPerHour := 3600

  /** The payload `generate_token` signs, with times in seconds. */
  datatype Claims = Claims(userId: nat, role: string, exp: int, iat: int)

  datatype LoginReply =
    | LoginOk(claims: Claims, role: string, userId: nat, doctorId: Option<nat>, patientId: Option<nat>)
    | LoginRefused(response: Response)

  /** The user row `User.query.filter_by(username=…).first()` finds; an absent
      username (`None`) matches nobody, every row having one. */
  function UserNamed(st: State, username: Option<string>): (r: Option<nat>)
    ensures r.Some? ==> r.value in st.users && username.Some? && st.users[r.value].username == username.value
    ensures r.None? <==> username.None? || !UsernameTaken(st.users, username.value)
  {
    if username.None? then None else FirstUserNamed(st.users, username.value)
  }

  /** `POST /login`. `checkPassword(hash, password)` stands for
      `check_password_hash`; `now` is the issuing time. */
  function Login(st: State, username: Option<string>, password: string,
                 checkPassword: (string, string) -> bool, now: int): (r: LoginReply)
    ensures var found := UserNamed(st, username);
            && (found.None? || !checkPassword(st.users[found.value].passwordHash, password)
                <==> r == LoginRefused(Response(401, "Invalid credentials")))
            && (found.Some? && checkPassword(st.users[found.value].passwordHash, password) ==>
                  var u := st.users[found.value];
                  && (u.blacklisted ==> r == LoginRefused(Response(403, "Account is blacklisted")))
                  && (!u.blacklisted && !u.active ==> r == LoginRefused(Response(403, "Account is inactive")))
                  && (r.LoginOk? <==> !u.blacklisted && u.active))
    ensures r.LoginOk? ==>
              && r.userId in st.users
              && Some(r.userId) == UserNamed(st, username)
              && r.role == RoleName(st.users[r.userId].role)
              && r.claims == Claims(r.userId, r.role, now + JwtExpirationHours * SecondsPerHour, now)
              && (r.doctorId.Some? <==> st.users[r.userId].role == Doctor && DoctorOfUser(st.doctors, r.userId).Some?)
              && (r.doctorId.Some? ==> r.doctorId.value in st.doctors && st.doctors[r.doctorId.value].userId == r.userId)
              && (r.patientId.Some? <==> st.users[r.userId].role == Patient && PatientOfUser(st.patients, r.userId).Some?)
              && (r.patientId.Some? ==> r.patientId.value in st.patients && st.patients[r.patientId.value].userId == r.userId)
  {
    match UserNamed(st, username)
    case None => LoginRefused(Response(401, "Invalid credentials"))
    case Some(id) =>
      var u := st.users[id];
      if !checkPassword(u.passwordHash, password) then LoginRefused(Response(401, "Invalid credentials"))
      else if u.blacklisted then LoginRefused(Response(403, "Account is blacklisted"))
      else if !u.active then LoginRefused(Response(403, "Account is inactive"))
      else
        var role := RoleName(u.role);
        var claims := Claims(id, role, now + JwtExpirationHours * SecondsPerHour, now);
        var doctorId := if u.role == Doctor then DoctorOfUser(st.doctors, id) else None;
        var patientId := if u.role == Patient then PatientOfUser(st.patients, id) else None;
        LoginOk(claims, role, id, doctorId, patientId)
  }

  /** `POST /register`: a `patient` user (with the email as given) and a
      patient profile named after the username, unless the username is taken. */
  function Register(st: State, username: string, email: Option<string>, passwordHash: string): (r: Step)
    ensures UsernameTaken(st.users, username) <==> r == Step(Response(400, "Username already exists"), st)
    ensures !UsernameTaken(st.users, username) ==>
              && r.response == Response(201, "Registration successful")
              && (exists uid: nat ::
                    && uid !in st.users
                    && r.state.users == st.users[uid := User(username, email, passwordHash, Patient, true, false)]
                    && AddsOne(st.patients, r.state.patients, PatientProfile(uid, username, None, None)))
              && r.state.(users := st.users, patients := st.patients) == st
  {
    if UsernameTaken(st.users, username) then Step(Response(400, "Username already exists"), st)
    else
      var uid := FreshId(st.users);
      var pid := FreshId(st.patients);
      var st' := st.(users := st.users[uid := User(username, email, passwordHash, Patient, true, false)],
                     patients := st.patients[pid := PatientProfile(uid, username, None, None)]);
      assert st'.users[uid].username == username;
      Step(Response(201, "Registration successful"), st')
  }

  /** A freshly registered patient can log in at once, as a patient, and the
      reply carries a patient id. */
  lemma RegisterThenLogin(st: State, username: string, email: Option<string>, passwordHash: string,
                          password: string, checkPassword: (string, string) -> bool, now: int)
    requires !UsernameTaken(st.users, username)
    requires checkPassword(passwordHash, password)
    ensures var r := Login(Register(st, username, email, passwordHash).state, Some(username), password, checkPassword, now);
            r.LoginOk? && r.role == "patient" && r.patientId.Some?
  {
    var after := Register(st, username, email, passwordHash).state;
    var uid :| uid !in st.users
               && after.users == st.users[uid := User(username, email, passwordHash, Patient, true, false)]
               && AddsOne(st.patients, after.patients, PatientProfile(uid, username, None, None));
    var found := UserNamed(after, Some(username));
    assert after.users[uid].username == username;
    assert found.value == uid;
    var pid :| pid !in st.patients && after.patients == st.patients[pid := PatientProfile(uid, username, None, None)];
    assert after.patients[pid].userId == uid;
  }

  /** Self-registration succeeds only under an unused username, so usernames
      stay unique. */
  lemma RegisterKeepsUniqueUsernames(st: State, username: string, email: Option<string>, passwordHash: string)
    requires UniqueUsernames(st.users)
    ensures UniqueUsernames(Register(st, username, email, passwordHash).state.users)
  {
    if !UsernameTaken(st.users, username) {
      AddUserKeepsUnique(st.users, FreshId(st.users), User(username, email, passwordHash, Patient, true, false));
    }
  }

  /** A doctor account the admin creates can log in at once, as a doctor, and
      the reply carries a doctor id linked to that account. */
  lemma CreateDoctorThenLogin(st: State, username: string, passwordHash: string, name: string,
                              specialization: string, department: string,
                              password: string, checkPassword: (string, string) -> bool, now: int)
    requires !UsernameTaken(st.users, username)
    requires checkPassword(passwordHash, password)
    ensures var after := AdminRoutes.CreateDoctor(st, username, passwordHash, name, specialization, department).state;
            var r := Login(after, Some(username), password, checkPassword, now);
            && r.LoginOk? && r.role == "doctor" && r.doctorId.Some? && r.patientId.None?
            && r.userId !in st.users
  {
    var after := AdminRoutes.CreateDoctor(st, username, passwordHash, name, specialization, department).state;
    var uid :| uid !in st.users
               && after.users == st.users[uid := User(username, None, passwordHash, Doctor, true, false)]
               && AddsOne(st.doctors, after.doctors, DoctorProfile(uid, name, specialization, department));
    assert after.users[uid].username == username;
    assert UserNamed(after, Some(username)).value == uid;
    var did :| did !in st.doctors && after.doctors == st.doctors[did := DoctorProfile(uid, name, specialization, department)];
    assert after.doctors[did].userId == uid;
  }

  /** A patient account the admin creates can log in at once, as a patient,
      and the reply carries a patient id linked to that account. */
  lemma CreatePatientThenLogin(st: State, username: string, email: Option<string>, passwordHash: string,
                               name: string, dob: Option<CalendarDate>, contact: Option<string>,
                               password: string, checkPassword: (string, string) -> bool, now: int)
    requires !UsernameTaken(st.users, username) && !EmailTaken(st.users, email)
    requires checkPassword(passwordHash, password)
    ensures var after := AdminRoutes.CreatePatient(st, username, email, passwordHash, name, dob, contact).state;
            var r := Login(after, Some(username), password, checkPassword, now);
            && r.LoginOk? && r.role == "patient" && r.patientId.Some? && r.doctorId.None?
            && r.userId !in st.users
  {
    var after := AdminRoutes.CreatePatient(st, username, email, passwordHash, name, dob, contact).state;
    var uid :| uid !in st.users
               && after.users == st.users[uid := User(username, email, passwordHash, Patient, true, false)]
               && AddsOne(st.patients, after.patients, PatientProfile(uid, name, dob, contact));
    assert after.users[uid].username == username;
    assert UserNamed(after, Some(username)).value == uid;
    var pid :| pid !in st.patients && after.patients == st.patients[pid := PatientProfile(uid, name, dob, contact)];
    assert after.patients[pid].userId == uid;
  }

  /** The reply of `GET /verify`: 200 with the payload's claims, or 401. */
  datatype VerifyReply = Verified(userId: nat, role: string) | Unverified(message: string) {
    function Code(): int {
      if Verified? then 200 else 401
    }
  }

  /** `GET /verify`. The header is read under its correct name `Authorization`;
      the bare `except` turns a missing second field and a missing claim into
      "Invalid token format". */
  function Verify(header: Option<string>, decode: string -> Decoded): (r: VerifyReply)
    ensures (header.None? || header.value == "") ==> r == Unverified("No token provided")
    ensures header.Some? && header.value != "" && ' ' !in header.value ==> r == Unverified("Invalid token format")
    ensures r.Verified? <==>
              && header.Some? && SecondField(header.value).Some?
              && var d := decode(SecondField(header.value).value);
                 d.Valid? && d.userId.Some? && d.role.Some?
    ensures r.Verified? ==> var d := decode(SecondField(header.value).value);
              r == Verified(d.userId.value, d.role.value)
    ensures (header.Some? && SecondField(header.value).Some? && !decode(SecondField(header.value).value).Valid?)
            ==> r == Unverified("Invalid or expired token")
  {
    if header.None? || header.value == "" then Unverified("No token provided")
    else
      match SecondField(header.value)
      case None => Unverified("Invalid token format")
      case Some(token) =>
        var d := decode(token);
        if !d.Valid? || !NonEmptyPayload(d) then Unverified("Invalid or expired token")
        else if d.userId.None? || d.role.None? then Unverified("Invalid token format")
        else Verified(d.userId.value, d.role.value)
  }

  /** A token issued at login, sent back as `Bearer <token>` before it expires,
      verifies as the same user and role. The decoder is only asked to return
      the claims that were signed. */
  lemma LoginThenVerify(st: State, username: Option<string>, password: string,
                        checkPassword: (string, string) -> bool, now: int,
                        token: string, decode: string -> Decoded)
    requires Login(st, username, password, checkPassword, now).LoginOk?
    requires ' ' !in token
    requires var c := Login(st, username, password, checkPassword, now).claims;
             decode(token) == Valid(Some(c.userId), Some(c.role), true)
    ensures var r := Login(st, username, password, checkPassword, now);
            Verify(Some("Bearer " + token), decode) == Verified(r.userId, r.role)
  {
    BearerToken(token);
  }
}

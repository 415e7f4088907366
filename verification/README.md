# Hospital management backend: a verified model

This Dafny project models the core of a small hospital management system. The
system is a Flask backend with a Vue front end. Patients book doctors'
availability slots, doctors record treatments, and an administrator manages
accounts. The model covers:

- the appointment and slot state machine behind the patient, doctor and admin
  blueprints;
- the monthly report, daily reminder and treatment export jobs;
- the login, register and verify endpoints;
- the token and role decorators;
- the browser's navigation guard.

Every request handler is a pure function from a `State` and the request's
fields to a `Step`. A `Step` holds the HTTP reply (status code and `message`)
and the state the handler commits. `State` holds one finite map per table
(users, doctors, patients, availability slots, appointments, treatments),
keyed by primary key. New rows get one past the largest key in use. A
`.first()` lookup returns the lowest matching key.

Modules, one per source file plus shared vocabulary:

- `Base`: `Option`, replies, id allocation, decimal rendering.
- `Calendar`: proleptic Gregorian dates and the report window.
- `Store`: the entities and the state.
- `Sorting`: a stable rank sort.
- `PatientRoutes`, `DoctorRoutes` and `AdminRoutes`: the three blueprints.
- `Consistency`: the slot/appointment invariant.
- `Tasks`: the Celery jobs.
- `Tokens`: header splitting and the outcomes of decoding a token.
- `AuthRoutes` and `AuthDecorator`: the auth endpoints and decorators.
- `Router`: the front-end route table and its guard.

The central invariant (`Consistency.Consistent`) bounds booked slots by live
appointments. For each (doctor, date, start time), there are never more booked
slots than non-cancelled appointments at that time. So every booked slot is
backed by some appointment (`BookedSlotIsBacked`), and a slot cannot be booked
twice in a row (`NoDoubleBooking`).

The following keep the invariant:

- booking a slot and direct booking;
- the patient and doctor cancels;
- adding and removing availability;
- completing an appointment;
- deleting a doctor.

Three handlers break it, as the code is written. The model records each break
as a lemma and does not change the handler:

- the admin cancel never frees the slot;
- deleting a patient keeps their slots booked;
- rescheduling ignores slots.

The invariant only counts, so it misses a slot that serves two appointments.
The patient and doctor cancels keep the count but still break the one slot per
appointment rule. They free a booked slot at the appointment's time without
checking the appointment's status or who booked the slot. So each of these
frees a slot that another live appointment holds (`CancelFreesHeldSlot`):

- cancelling the same appointment a second time;
- cancelling a `/book` appointment at a time whose slot someone else booked.

The freed slot can then be booked again. Two live appointments end up on one
slot while the invariant still holds (`RepeatCancelDoublesSlot`).

Assumptions the code leaves open:

- **Initial status.** Nothing in the code sets an appointment's initial status.
  New appointments are taken to be `Booked`, the value every "open appointment"
  filter asks for (backend/application/routes/doctor.py line 10,
  backend/application/tasks.py line 80).
- **Unordered queries.** `.all()` without `order_by` returns rows in
  primary-key order.
- **`add_treatment` on an unknown appointment.** The code raises
  `AttributeError` on `None.status` before committing: a 500 with nothing
  stored (`DoctorRoutes.AddTreatment`).
- **Flags of new accounts.** `register` and the admin's doctor and patient
  creation (backend/application/routes/auth.py line 81,
  backend/application/routes/admin.py lines 39 and 109) set neither `active`
  nor `is_blacklisted`, and the model file is a stub. New users are taken to
  be active and not blacklisted, the defaults `login` needs to let anyone in.
  `RegisterThenLogin`, `CreateDoctorThenLogin` and `CreatePatientThenLogin`
  rest on this assumption.
- **Signing key.** `login` signs with the `SECRET_KEY` environment variable
  (backend/application/routes/auth.py line 12). The decorator decodes with
  `secret` (backend/application/auth_dacorator.py line 6). Both fall back to
  the same default. The model takes both sides to use one key, so a token
  `login` issues decodes alike in `verify` and in the decorators; the `decode`
  parameter stands for that shared decoder.
- **Times.** A slot's start and end and an appointment's time are
  `ClockTime`s: an hour in 0..23 and a minute in 0..59, which is what
  `strptime(..., '%H:%M')` produces.
- **`update_patient_profile`.** There are two functions for
  `PUT /profile/<patient_id>`. Only `update_patient_profile` carries a route
  decorator; `manage_profile` is never registered, so it is not modelled.

## Model

| member | source | states |
|---|---|---|
| Calendar.DaysInMonth | backend/application/tasks.py:122-125 | Month lengths are 28 to 31; February has 29 days exactly in leap years; the other months have 30 or 31, and exactly April, June, September and November have 30 |
| Calendar.PrevDay | backend/application/tasks.py:124 | The day before a valid date is a valid, strictly earlier date, and no valid date lies strictly between the two; it fails only for 0001-01-01, where Python overflows |
| Calendar.NextDay | backend/application/tasks.py:124 | The day after a valid date is a valid, strictly later date, and no valid date lies strictly between the two; it fails only after 9999-12-31 |
| Calendar.ReportRange | backend/application/tasks.py:122-125 | The report window runs from day 1 to the last day of the previous calendar month; January rolls back to December of the year before; it fails only in January of year 1 |
| Calendar.OrdinalOrdersDates | backend/application/routes/doctor.py:10 | The numeric sort key orders valid dates exactly as date comparison does |
| Store.FirstSlotAt | backend/application/routes/patient.py:115-120 | The `.first()` slot lookup is absent iff no slot matches (doctor, date, start time, booked flag); otherwise it is the lowest matching id |
| Sorting.SortBy | backend/application/tasks.py:156 | The rank sort returns a sorted permutation of its input |
| PatientRoutes.BookSlot | backend/application/routes/patient.py:51-74 | 404 iff the slot is missing and 400 iff it is booked, each with nothing changed; otherwise 201: the slot becomes booked and one appointment is added copying the slot's doctor, date and start time, the patient, and the reason (empty when absent) |
| PatientRoutes.BookDirect | backend/application/routes/patient.py:81-96 | Adds exactly one appointment with no reason and touches no slot |
| PatientRoutes.ReleaseSlot | backend/application/routes/patient.py:115-123 | Frees exactly one booked slot at the appointment's time if there is one; otherwise nothing changes |
| PatientRoutes.CancelAppointment | backend/application/routes/patient.py:110-127 | 404 for an unknown id; otherwise the status becomes Cancelled whatever it was, at most one matching booked slot is freed, and nothing else changes |
| PatientRoutes.Reschedule | backend/application/routes/patient.py:251-265 | 404 for an unknown id; otherwise only the given date and time fields change; slots and every other row are untouched |
| PatientRoutes.UpdateProfile | backend/application/routes/patient.py:280-305 | Each present field is overwritten and each absent one kept; the email goes on the linked user only when that user exists |
| PatientRoutes.UpdateProfileIdempotent | backend/application/routes/patient.py:280-305 | Sending the same profile update twice equals sending it once |
| DoctorRoutes.Agenda | backend/application/routes/doctor.py:8-17 | Fails, where reading `a.patient.name` raises, iff one of the doctor's Booked appointments has no existing patient; otherwise the list holds exactly the doctor's Booked appointments, each once, in ascending date order |
| DoctorRoutes.AssignedPatients | backend/application/routes/doctor.py:19-25 | The list holds exactly the existing patients with at least one appointment with the doctor, each once |
| DoctorRoutes.AddAvailability | backend/application/routes/doctor.py:44-59 | Adds exactly one free slot with the given fields and changes nothing else |
| DoctorRoutes.AddAvailabilityAddsFreeSlot | backend/application/routes/doctor.py:56-58 | With no overlap check, each call adds one more free slot at its time, however many exist, and no booked set changes |
| DoctorRoutes.RemoveAvailability | backend/application/routes/doctor.py:61-80 | 404 with nothing changed when no free slot matches; otherwise exactly one matching free slot is deleted |
| DoctorRoutes.RemoveAvailabilityKeepsBooked | backend/application/routes/doctor.py:68-77 | At most one row is deleted and no booked slot is ever deleted |
| DoctorRoutes.CancelAppointment | backend/application/routes/doctor.py:82-99 | The doctor cancel is the same transition as the patient cancel |
| DoctorRoutes.AddTreatment | backend/application/routes/doctor.py:101-115 | For a known appointment: one treatment is added and the status becomes Completed, whatever it was; for an unknown one: a 500 with nothing stored |
| DoctorRoutes.UpdateTreatment | backend/application/routes/doctor.py:117-132 | 404 for an unknown id; otherwise exactly the fields present change |
| DoctorRoutes.UpdateTreatmentIdempotent | backend/application/routes/doctor.py:117-132 | Sending the same treatment update twice equals sending it once |
| AdminRoutes.ToggleBlacklist | backend/application/routes/admin.py:18-24 | Flips the user's blacklist flag and answers with the new status; nothing else changes |
| AdminRoutes.ToggleBlacklistTwice | backend/application/routes/admin.py:20-23 | Toggling twice restores the original state |
| AdminRoutes.CreateDoctor | backend/application/routes/admin.py:26-47 | A taken username gives 400 with nothing created; otherwise exactly one doctor user and its profile are added |
| AdminRoutes.CreateDoctorKeepsUniqueUsernames | backend/application/routes/admin.py:36-42 | Creating a doctor keeps usernames unique |
| AdminRoutes.UpdateDoctor | backend/application/routes/admin.py:59-67 | Every absent field keeps its old value and every present one is overwritten |
| AdminRoutes.UpdateDoctorIdempotent | backend/application/routes/admin.py:59-67 | Sending the same doctor update twice equals sending it once |
| AdminRoutes.DropAppointments | backend/application/routes/admin.py:75-79 | Removes the given appointments together with every treatment recorded on them, and nothing else |
| AdminRoutes.DeleteDoctor | backend/application/routes/admin.py:69-91 | Removes the doctor's appointments, their treatments, the doctor's slots, the profile and its user; all other rows are unchanged |
| AdminRoutes.CreatePatient | backend/application/routes/admin.py:93-120 | The username is checked first and the email second, each duplicate giving 400 with nothing created; otherwise one patient user and its profile are added |
| AdminRoutes.CreatePatientKeepsUniqueUsernames | backend/application/routes/admin.py:104-112 | Creating a patient keeps usernames unique |
| AdminRoutes.UpdatePatient | backend/application/routes/admin.py:132-142 | Name and contact follow `get(field, old)`; the date of birth changes only when one is given |
| AdminRoutes.UpdatePatientIdempotent | backend/application/routes/admin.py:132-142 | Sending the same patient update twice equals sending it once |
| AdminRoutes.DeletePatient | backend/application/routes/admin.py:144-161 | Removes the patient's appointments, their treatments, the profile and its user, but leaves every slot as it was |
| AdminRoutes.CancelAppointment | backend/application/routes/admin.py:176-181 | Only the status becomes Cancelled; no slot is freed |
| Consistency.BookedSlotIsBacked | backend/application/routes/patient.py:62-72 | Under the invariant, every booked slot has a live appointment at its doctor, date and time |
| Consistency.NoDoubleBooking | backend/application/routes/patient.py:58-62 | Booking the same slot twice in a row: the second attempt never succeeds and changes nothing |
| Consistency.BookSlotKeepsConsistent | backend/application/routes/patient.py:51-74 | Booking a slot preserves the invariant |
| Consistency.BookDirectKeepsConsistent | backend/application/routes/patient.py:81-96 | Direct booking preserves the invariant |
| Consistency.CancelKeepsConsistent | backend/application/routes/patient.py:110-127 | The patient cancel preserves the invariant |
| Consistency.ReleaseSlotCount | backend/application/routes/patient.py:115-123 | Releasing frees one booked slot at the appointment's time when there is one, and no other time changes |
| Consistency.DoctorCancelKeepsConsistent | backend/application/routes/doctor.py:82-99 | The doctor cancel preserves the invariant |
| Consistency.CancelTwiceFreesNoMore | backend/application/routes/patient.py:111-126 | A second cancel of the same appointment frees nothing more iff the time had at most one booked slot |
| Consistency.CancelFreesHeldSlot | backend/application/routes/patient.py:115-125 | The cancel frees a booked slot at the appointment's time while another live appointment there stays live; for an already cancelled appointment, no live appointment changes at all |
| Consistency.RepeatCancelDoublesSlot | backend/application/routes/patient.py:51-127 | From a time with one free slot: book, cancel, book by another patient, cancel the first again, book by a third. Every booking succeeds and the invariant holds, yet two appointments are live on the time's one slot |
| Consistency.CancelAgainRebook | backend/application/routes/patient.py:51-127 | With one booked slot at a time, a cancelled and a live appointment there: cancelling the first again and booking the slot leaves two live appointments on that one slot |
| Consistency.AddAvailabilityKeepsConsistent | backend/application/routes/doctor.py:44-59 | Adding availability preserves the invariant |
| Consistency.RemoveAvailabilityKeepsConsistent | backend/application/routes/doctor.py:61-80 | Removing availability preserves the invariant |
| Consistency.AddTreatmentKeepsConsistent | backend/application/routes/doctor.py:101-115 | Completing an appointment preserves the invariant |
| Consistency.DeleteDoctorKeepsConsistent | backend/application/routes/admin.py:69-91 | Deleting a doctor preserves the invariant |
| Consistency.AdminCancelStrandsSlot | backend/application/routes/admin.py:176-181 | At a tight time, the admin cancel breaks the invariant: a booked slot is left with no live appointment |
| Consistency.DeletePatientStrandsSlot | backend/application/routes/admin.py:144-161 | At a tight time, deleting a patient with a live appointment breaks the invariant |
| Consistency.RescheduleStrandsSlot | backend/application/routes/patient.py:251-265 | At a tight time, moving a live appointment to another date or time breaks the invariant |
| Consistency.BookingKeepsTight | backend/application/routes/patient.py:62-72 | Booking a free slot at a tight time leaves it tight, so after bookings at a time that started with nothing booked and nothing live, the three breaking lemmas apply |
| Tasks.InWindow | backend/application/tasks.py:135-139 | Holds exactly the doctor's appointments of any status dated inside the window |
| Tasks.CountStatus | backend/application/tasks.py:146-147 | The count is the number of occurrences of the status among the listed appointments' statuses; so it is at most the total, and zero iff no appointment has that status |
| Tasks.StatusCountsPartition | backend/application/tasks.py:145-147 | The three status counts sum to the total, so completed + cancelled <= total |
| Tasks.DiagnosisOf | backend/application/tasks.py:152-153 | A diagnosis is taken iff the appointment's treatment has a non-empty one |
| Tasks.Diagnoses | backend/application/tasks.py:150-153 | The list holds non-empty diagnoses, at most one per appointment, and exactly the diagnoses of the appointments |
| Tasks.TopDiagnoses | backend/application/tasks.py:155-156 | At most 5 entries with distinct names, each with its frequency; counts are non-increasing and ties keep first-seen order; every omitted diagnosis is outranked by the fifth entry |
| Tasks.TopIsPrefix | backend/application/tasks.py:156 | The first entries of the ranked names are the most common ones, and an omitted name implies a full list |
| Tasks.Rows | backend/application/tasks.py:159-167 | One row per appointment in input order, with its date, status and patient name, and "N/A" when there is no treatment; fails iff a patient is missing |
| Tasks.DoctorReport | backend/application/tasks.py:132-197 | A doctor without appointments in the window is skipped; the run fails iff a shown appointment lost its patient; a sent report carries the total, the status counts, the rows of the first min(20, total) appointments and the top diagnoses, and goes to the doctor's own email |
| Tasks.IdleMeansNoReport | backend/application/tasks.py:135-142 | A doctor is skipped exactly when none of their appointments falls in the previous calendar month |
| Tasks.MonthlyReports | backend/application/tasks.py:122-199 | One outcome per doctor in id order, each the doctor's report over last month's window, skipped exactly when idle last month; the run fails only in January of year 1 |
| Tasks.SentCount | backend/application/tasks.py:130-193 | The count is exactly the number of Sent outcomes, one per report that went out; so it is at most the number of doctors, and zero iff none was sent |
| Tasks.DueToday | backend/application/tasks.py:77-81 | Holds exactly the Booked appointments dated today |
| Tasks.CountReminded | backend/application/tasks.py:83-107 | The count is the number of remindable appointments in the list; so it is at most the total, and all are sent iff every one is remindable |
| Tasks.DailyReminders | backend/application/tasks.py:76-112 | The run fails iff a due appointment has lost its patient; otherwise the sent count is the number of remindable due appointments, at most the number due |
| Tasks.ExportTreatments | backend/application/tasks.py:209-254 | An error iff the patient is unknown; otherwise the record count is the number of treatments on the patient's appointments, and the file name gives back the patient id and timestamp |
| Tasks.TreatmentShowsInExport | backend/application/tasks.py:214 | A treatment recorded on one of the patient's appointments adds exactly one export record |
| Tasks.PatientTreatmentsGrow | backend/application/tasks.py:214 | Adding a treatment row for the patient's appointment grows the joined set by that row |
| Tasks.ExportFilenameRoundTrip | backend/application/tasks.py:220-221 | Parsing the export file name recovers the patient id and the timestamp |
| Tasks.ExportFilenameInjective | backend/application/tasks.py:220-221 | Different patients or timestamps never share an export file name |
| Tokens.Split | backend/application/auth_dacorator.py:16 | Splitting on single spaces yields space-free pieces that join back to the input, and a single piece iff there is no space |
| Tokens.SplitJoin | backend/application/auth_dacorator.py:16 | Splitting undoes joining space-free pieces |
| Tokens.SecondField | backend/application/auth_dacorator.py:16 | The second field is missing, where `[1]` raises, iff the header has no space |
| Tokens.BearerToken | backend/application/routes/auth.py:101 | A `Bearer <token>` header yields exactly the token |
| AuthRoutes.UserNamed | backend/application/routes/auth.py:39 | The lookup finds a user with that username iff one exists; an absent username finds nobody |
| AuthRoutes.Login | backend/application/routes/auth.py:33-69 | 401 iff the user is unknown or the password is wrong; then blacklisted gives 403 before inactive does; success carries the user's own id and role, a token expiring 24 hours after issue, a doctor id only for doctors and a patient id only for patients |
| AuthRoutes.Register | backend/application/routes/auth.py:71-91 | 400 with nothing created iff the username is taken; otherwise one patient user and a profile named after the username, linked to it |
| AuthRoutes.RegisterThenLogin | backend/application/routes/auth.py:78-89 | A freshly registered user logs in at once as a patient with a patient id |
| AuthRoutes.RegisterKeepsUniqueUsernames | backend/application/routes/auth.py:78-84 | Registering keeps usernames unique |
| AuthRoutes.CreateDoctorThenLogin | backend/application/routes/admin.py:36-47 | A doctor account the admin creates logs in at once as a doctor, with a doctor id and no patient id, as a new user |
| AuthRoutes.CreatePatientThenLogin | backend/application/routes/admin.py:104-120 | A patient account the admin creates logs in at once as a patient, with a patient id and no doctor id, as a new user |
| AuthRoutes.Verify | backend/application/routes/auth.py:93-108 | 401 without a header or with a header lacking a space; 200 iff the decoded payload has both claims, returning them; 401 for an expired or invalid token |
| AuthRoutes.LoginThenVerify | backend/application/routes/auth.py:96-104 | A login token sent back as a bearer header verifies as the same user and role |
| AuthDecorator.TokenRequired | backend/application/auth_dacorator.py:8-28 | 401 "Token is missing" iff the misspelled header is absent or empty; expired and invalid tokens, a missing second field and missing claims each give their own 401; it passes iff both claims decode |
| AuthDecorator.TokenGuarded | backend/application/auth_dacorator.py:8-28 | The view's reply comes back iff the token passes; otherwise the gate's 401 does |
| AuthDecorator.RoleRequired | backend/application/auth_dacorator.py:30-39 | Token checks come first; a passing token with another role gives 403; a matching role returns the view's reply unchanged |
| AuthDecorator.RefusalIgnoresView | backend/application/auth_dacorator.py:33-37 | When the gate refuses, the reply is 401 or 403 and does not depend on the view |
| AuthDecorator.StandardHeaderIsIgnored | backend/application/auth_dacorator.py:11-14 | A request with only a correctly spelled `Authorization` header is refused as tokenless |
| AuthDecorator.BearerWithRoleReachesView | backend/application/auth_dacorator.py:16-37 | A bearer token under the header the decorator reads, carrying the required role, reaches the view |
| Router.HomeOf | frontend/src/router/index.js:69-74 | admin goes to /admin, doctor to /doctor, patient to /patient, and anything else to / |
| Router.Guard | frontend/src/router/index.js:58-84 | Unprotected routes proceed; protected ones redirect to / without a token; with a token they proceed iff the route has no role or it matches; a mismatch redirects to the user's dashboard |
| Router.MetaIn | frontend/src/router/index.js:14-50 | Finding a meta for a path means the path is in the table, with that meta |
| Router.LookupFrom | frontend/src/router/index.js:14-50 | A path's lookup returns the meta of its first entry in the table |
| Router.NoRedirectLoop | frontend/src/router/index.js:58-84 | Every redirect lands on a route in the table that the same session passes, so the guard never redirects twice in a row |
| Router.WrongRoleGoesHome | frontend/src/router/index.js:69-74 | A signed-in admin, doctor or patient who knocks on another role's page is sent to their own dashboard |

## Left out

- SQL text search (`contains`/`ilike` in the search endpoints): this is string matching inside the database.
- Read-only listing endpoints other than the doctor's agenda and assigned patients: they only render rows.
- Sessions, commits and transaction isolation: each handler is one atomic step. The concurrent double-booking race needs concurrency and is not modelled.
- Non-atomic creation of a user and its profile: the account handlers commit the user before the profile, and the model commits both together.
- Celery wiring, task status polling and the export download endpoint: framework plumbing.
- `send_booking_confirmation`: a mail-only task with no state effect.
- Mail sending, template rendering and CSV writing: I/O. A failing mail server is not modelled, so a report or reminder that reaches `mail.send` counts as sent.
- The texts of the returned job messages. `MonthlyMessage` and `ReminderMessage` give their shape, but no property is proved about them.
- Password hashing and JWT signing and decoding: they become parameters. `checkPassword` stands for the hash check, and a decoder returns `Valid`, `Expired` or `Invalid`.
- Clocks: `date.today()`, `datetime.now()` and the token's issue time are inputs.
- `strptime` parsing: dates and times arrive parsed. A malformed value, which raises (a 500), is not modelled; the patient profile update swallows such a failure, which is modelled as an absent date.
- Missing or `null` JSON fields that make a handler raise or store NULL, for example a missing `password` or a `null` name. The model takes field values as present strings, or absent where the code uses `get`.
- HTTP header names are case-insensitive in Flask. The model looks them up exactly.
- backend/send_report_to_user.py is not part of this model: it repeats the report statistics and seeds test data.
- backend/application/models.py is not part of this model. It is a stale stub, so the entities follow the fields the routes use.
- backend/app.py and the configuration files are not part of this model: they only bootstrap the app.
- Store.TreatmentOf: the code reads the appointment's one-to-one `treatment` relation. Where several treatment rows exist (a second `add_treatment`), the model reads the lowest-numbered one, and the cascades delete all of them.
- Tasks.Diagnoses: states which diagnoses occur and that there is at most one per appointment, but not their multiplicities. `TopDiagnoses` takes its counts from the list itself.
- Tasks.DoctorReport: a missing doctor user and a user without an email give the same outcome (`NoEmail`). The model does not say which of the two happened.
- Tasks.SentCount: no lemma bounds the count by the number of doctors active last month; only the bound by the number of doctors is stated.
- Tokens.Decoded: a payload is described only by its two claims and whether it has others, not by the values of the other claims.

# Library membership backend and client rules, in Dafny

This project models the core rules of a study-library management system. The
system is an Express/PostgreSQL backend with a React client. The model covers:

- the student table: create, partial update, renew and delete, each with its
  validation order, the "a seat needs a shift" rule and the one-student-per-
  (seat, shift) constraint; the list filters and the dashboard counts;
- the seat inventory: parsing a comma-separated seat list, the all-or-nothing
  batch insert, delete, and the `is_assigned` listing with and without a
  shift filter;
- access control: the three guards (`checkPermission`, `checkAdmin`,
  `checkAdminOrStaff`), login, logout and status, the CORS origin rule, the
  `authenticateUser` gate, the upload and test-email guards and the
  bootstrap admin;
- the daily expiration-reminder job: the settings map, the `parseInt` check
  of the day count, the target date, the selection and the stop-on-failure
  send loop;
- the client's snake_case/camelCase key rewriting over JSON values, the two
  HTTP interceptors, and the payloads of `renewMembership` and `addSeats`;
- the client-side validators and derivations of the add-student,
  edit-student, settings, dashboard and student-details pages.

One module per source file:

| file | module | source |
|---|---|---|
| `common.dfy` | `Common` | JavaScript semantics the others share: truthiness, `\|\| null`, ASCII `trim`/`toLowerCase`, `parseInt`, `filter` |
| `sorting.dfy` | `Sorting` | `ORDER BY` as a stable insertion sort under a total preorder; code-point string order |
| `students.dfy` | `Students` | `Backend/routes/students.js` |
| `seats.dfy` | `Seats` | `Backend/routes/seats.js` |
| `auth.dfy` | `Auth` | `Backend/routes/auth.js` |
| `server.dfy` | `Server` | `Backend/server.js` |
| `reminders.dfy` | `Reminders` | `Backend/utils/cronJobs.js` |
| `apiclient.dfy` | `ApiClient` | `Frontend/src/services/api.ts` |
| `addstudentform.dfy` | `AddStudentForm` | `Frontend/src/components/AddStudentForm.tsx` |
| `editstudentform.dfy` | `EditStudentForm` | `Frontend/src/components/EditStudentForm.tsx` |
| `settingspage.dfy` | `SettingsPage` | `Frontend/src/pages/Settings.tsx` |
| `dashboard.dfy` | `Dashboard` | `Frontend/src/pages/Dashboard.tsx` |
| `studentdetails.dfy` | `StudentDetails` | `Frontend/src/pages/StudentDetails.tsx` |

The database tables are modelled in memory:

- The student and seat tables are classes (`Students.StudentTable`,
  `Seats.SeatTable`). Each holds a `seq` of rows and the next value of the
  table's id sequence. Their methods perform the route's INSERT, UPDATE or
  DELETE and are proved against the pure outcome functions (`CreateOutcome`,
  `UpdateOutcome`, `RenewOutcome`, `DeleteOutcome`, `AddSeatsOutcome`).
- The session is a class `Auth.Session` whose `user` field login sets and
  logout clears.
- The users table is the class `Server.UserTable`.

The table invariant is `Students.TableInvariant`:

- ids are unique;
- a seat implies a shift;
- no two rows share a non-null (seat, shift);
- non-empty emails are unique.

Every route preserves it (`Students.RequestPreservesInvariant`), and every
mutating method keeps it as part of `Valid()`.

The following enter the model as parameters:

- dates: a date is a whole day number, and an instant is a count of
  milliseconds;
- the current day or instant;
- the bcrypt comparison;
- the image service;
- the e-mail sender;
- the ISO date formatting.

## Model

| member | source | states |
|---|---|---|
| Common.BlankIffAllSpace | Backend/routes/students.js:156-158 | `trim() === ''` holds exactly when every character is white space |
| Common.Filter | Frontend/src/pages/Dashboard.tsx:40-42 | `filter` keeps only elements of the input that satisfy the predicate, and every element that does; never more than the input |
| Common.FilterKeeps | Frontend/src/components/AddStudentForm.tsx:75-76 | a property every input element has is kept by every filtered element |
| Common.FilterDisjointCounts | Frontend/src/pages/Dashboard.tsx:41-42 | two disjoint filters count at most the whole list, and exactly the whole list iff every element passes one of them |
| Common.FilterAppend | Frontend/src/components/AddStudentForm.tsx:75 | filtering keeps the input order: a concatenation filters part by part, and one element is kept iff it satisfies the predicate |
| Common.FilterMultiplicity | Frontend/src/pages/Dashboard.tsx:41-42 | an element satisfying the predicate is kept as often as it occurs, any other element not at all |
| Common.FilterSize | Frontend/src/pages/Dashboard.tsx:41-42 | the length of a filtered list is the number of positions whose element satisfies the predicate |
| Common.NatToStringValue | Frontend/src/components/AddStudentForm.tsx:117 | the decimal text of a number reads back as that number, all of it digits |
| Common.ParseIntOfIntToString | Backend/utils/cronJobs.js:16 | `parseInt` of the decimal text of any integer (negative included) gives that integer, in either radix mode |
| Common.ParseIntOfEmpty | Backend/utils/cronJobs.js:16-17 | `parseInt('')` is NaN |
| Common.ParseIntOfZero | Backend/utils/cronJobs.js:16-17 | `parseInt('0')` is 0, which the job treats as unset |
| Sorting.Insert | Backend/routes/students.js:22 | inserting adds exactly one occurrence of the element (multiset) |
| Sorting.InsertSorted | Backend/routes/students.js:22 | insertion into a sorted list under a total preorder keeps it sorted |
| Sorting.SortBy | Backend/routes/students.js:22 | the sorted list is a permutation of the input |
| Sorting.SortBySorted | Backend/routes/seats.js:17 | the sorted list is ordered under any total preorder |
| Sorting.LexLeTotal | Backend/routes/seats.js:17 | any two texts are comparable in code-point order |
| Sorting.LexLeTransitive | Backend/routes/seats.js:26 | code-point order is transitive |
| Sorting.LexLeAntisymmetric | Backend/routes/seats.js:26 | texts ordered both ways are equal |
| Sorting.LexKeyIsTotalPreorder | Backend/routes/students.js:22 | ordering rows by a text column is a total preorder |
| Students.IndexOfId | Backend/routes/students.js:88-95 | finds the first row with the id, or reports that no row has it |
| Students.CreateOutcome | Backend/routes/students.js:148-197 | a created row is the row built from the body (`NewStudent`) under the new id, with the required fields present; it has an existing shift and seat, a seat only with a shift, and shares no (seat, shift) with another row |
| Students.NewStudent | Backend/routes/students.js:181-184 | the inserted row holds the name and dates as given, each optional text as given or null when falsy, shift and seat as given, a zero or absent fee as null, status `'active'` and the new id |
| Students.FeeOrNull | Backend/routes/students.js:183 | `fee \|\| null`: the fee is kept exactly when present and non-zero |
| Students.CreateFirstFailingCheck | Backend/routes/students.js:152-180 | a failed create reports the first failing check in the order required, phone, email, seat-needs-shift, shift, seat; the slot clash only when all pass |
| Students.CreateSucceedsIffChecksPass | Backend/routes/students.js:152-193 | create succeeds exactly when the required fields are present, no check fails and the (seat, shift) is free |
| Students.CreateStoresAbsentAsNull | Backend/routes/students.js:181-184 | absent or empty optional fields are stored as null, a zero fee as null, and the name as given |
| Students.CreatePreservesInvariant | Backend/routes/students.js:181-193 | appending the created row keeps the table invariant |
| Students.UpdateOutcome | Backend/routes/students.js:199-257 | a successful update writes the updated form of the existing row and breaks no (seat, shift) uniqueness |
| Students.UpdateFirstFailingCheck | Backend/routes/students.js:203-244 | a failed update reports the first failing check in the order seat without shift, email used by another, phone, shift, seat, unknown id; a (seat, shift) clash only when all pass |
| Students.UpdateSucceedsIffChecksPass | Backend/routes/students.js:203-253 | an update succeeds exactly when every check passes, the id is known and the updated row's (seat, shift) is free |
| Students.UpdateFieldRules | Backend/routes/students.js:227-241 | a supplied text field or date is written and an absent one keeps its value; shift and seat are always overwritten; the fee is written when present and non-zero and null otherwise; id, status, image and creation date never change |
| Students.UpdateIdempotent | Backend/routes/students.js:227-241 | applying the same update twice equals applying it once |
| Students.UpdateNotFoundAfterValidation | Backend/routes/students.js:203-244 | an unknown id fails, and with 404 exactly when every validation passes; otherwise with 400 |
| Students.UpdateOwnEmailAccepted | Backend/routes/students.js:206-211 | re-sending a student's own email is never refused as taken |
| Students.UpdatePreservesInvariant | Backend/routes/students.js:227-253 | a successful update keeps the table invariant |
| Students.RenewOutcome | Backend/routes/students.js:289-312 | a renewal succeeds only for an existing id |
| Students.RenewSetsDatesAndStatus | Backend/routes/students.js:293-302 | missing dates give 400, an unknown id 404, and success changes exactly the two dates and sets status `'active'` |
| Students.RenewPreservesInvariant | Backend/routes/students.js:296-299 | a renewal keeps the table invariant |
| Students.DeleteOutcome | Backend/routes/students.js:259-271 | delete succeeds iff a row has the id, returning that row; otherwise 404 |
| Students.RemovePreservesInvariant | Backend/routes/students.js:262 | removing any row keeps the table invariant |
| Students.StudentTable.constructor | Backend/routes/students.js:181 | an empty table whose id sequence starts at 1 |
| Students.StudentTable.Create | Backend/routes/students.js:148-197 | appends exactly the created row on success and changes no row on failure, keeping the invariant |
| Students.StudentTable.Update | Backend/routes/students.js:199-257 | replaces exactly the addressed row on success and nothing on failure, keeping the invariant |
| Students.StudentTable.Renew | Backend/routes/students.js:289-312 | replaces exactly the addressed row on success and nothing on failure, keeping the invariant |
| Students.StudentTable.Delete | Backend/routes/students.js:259-271 | removes exactly the first row with the id, or changes nothing and answers 404 |
| Students.RowsAfter | Backend/routes/students.js:148-312 | a request grows the table by one only for a create and shrinks it by one only for a delete |
| Students.RequestPreservesInvariant | Backend/routes/students.js:148-312 | every write route keeps the table invariant, whatever its outcome |
| Students.NoRouteWritesExpired | Backend/routes/students.js:183 | a row with status `'expired'` after any request already had that id and status before it |
| Students.OrdersAreTotalPreorders | Backend/routes/students.js:22 | ordering by name and by membership end are total preorders |
| Students.Select | Backend/routes/students.js:37 | a listing is a permutation of the matching rows, sorted by the route's order |
| Students.ListStudents | Backend/routes/students.js:5-33 | GET `/` lists exactly the students created within the optional date bounds, ordered by name |
| Students.ActiveStudents | Backend/routes/students.js:35-47 | exactly the students stored `'active'`, ordered by name |
| Students.ExpiredStudents | Backend/routes/students.js:49-61 | exactly the students stored `'expired'`, ordered by name |
| Students.ExpiringSoon | Backend/routes/students.js:63-80 | exactly the active students ending at most 30 days from today, past ends included, ordered by end date |
| Students.StudentsInShift | Backend/routes/students.js:121-146 | exactly the students of the shift matching the optional case-insensitive name/phone search and status (unless `'all'`), ordered by name |
| Students.ShiftViewUnfiltered | Backend/routes/students.js:127-134 | without a search and with no status or `'all'`, the shift view is every student of the shift |
| Students.FindStudent | Backend/routes/students.js:82-119 | returns a row with the id, or 404 when none has it |
| Students.DashboardStats | Backend/routes/students.js:273-287 | total is the number of rows; active and expired are the numbers of rows stored `'active'` and `'expired'`; their sum is at most the total, with equality iff every status is one of the two |
| Seats.Split | Backend/routes/seats.js:49 | `split(',')` yields at least one piece and no piece contains the separator |
| Seats.JoinSplit | Backend/routes/seats.js:49 | joining the pieces of a split gives the input back |
| Seats.SplitJoin | Backend/routes/seats.js:49 | splitting a join of separator-free pieces gives the pieces back |
| Seats.TrimAll | Backend/routes/seats.js:49 | each piece is trimmed, count and order kept |
| Seats.ParseSeatNumbers | Backend/routes/seats.js:49 | every parsed number is non-empty, trimmed and comma-free |
| Seats.ParseJoined | Backend/routes/seats.js:49 | parsing the comma-join of valid numbers returns them in order |
| Seats.ParseKeepsNonBlankPieces | Backend/routes/seats.js:49 | every piece that is not blank after trimming is kept |
| Seats.ExistingNumbers | Backend/routes/seats.js:57-58 | the reported numbers are exactly the requested ones already in the table |
| Seats.AddSeatsOutcome | Backend/routes/seats.js:43-69 | a missing or empty value is refused; otherwise the batch is accepted, with the parsed numbers, exactly when they are non-empty, free of repeats and of numbers already present |
| Seats.AddSeatsRejections | Backend/routes/seats.js:46-64 | a missing or non-string value gives 400, then no pieces, then a repeat; otherwise any existing number gives 400 listing exactly those, and a batch of new numbers is added as parsed |
| Seats.NewSeats | Backend/routes/seats.js:62-63 | the inserted rows carry consecutive ids and the numbers in order |
| Seats.AddSeatsPreservesInvariant | Backend/routes/seats.js:62-63 | a successful batch keeps seat ids and numbers unique |
| Seats.IndexOfSeat | Backend/routes/seats.js:74-77 | finds a seat with the id or reports that none has it |
| Seats.DeleteRemovesExactlyOne | Backend/routes/seats.js:74 | removing one seat keeps uniqueness and removes exactly the seat with that id |
| Seats.SeatTable.constructor | Backend/routes/seats.js:62 | an empty seat table whose id sequence starts at 1 |
| Seats.SeatTable.AddSeats | Backend/routes/seats.js:43-69 | all-or-nothing: on success appends exactly the new seats, on failure changes nothing |
| Seats.SeatTable.DeleteSeat | Backend/routes/seats.js:71-83 | removes exactly the seat with the id, or answers 404 and changes nothing |
| Seats.Holders | Backend/routes/seats.js:12-27 | the joined students are exactly those holding the seat, in the shift when one is given |
| Seats.SeatRows | Backend/routes/seats.js:31-35 | each seat yields at least one row, all carrying its id and number |
| Seats.RowsFromSeats | Backend/routes/seats.js:5-41 | every row of the listing comes from one of the seats |
| Seats.ListSeats | Backend/routes/seats.js:5-41 | the listing has at least one row per seat |
| Seats.ListSeatsSorted | Backend/routes/seats.js:17 | rows come ordered by seat number |
| Seats.RowsInOrderSorted | Backend/routes/seats.js:26 | rows of seats taken in order stay in order |
| Seats.AtMostOneHolder | Backend/routes/seats.js:12-17 | under the unique-seat-per-shift constraint a seat has at most one holder in a shift |
| Seats.SeatRowsAssigned | Backend/routes/seats.js:31-35 | `is_assigned` holds iff the seat is held; an unheld seat has one row, a held one a row per holder |
| Seats.RowsWithShift | Backend/routes/seats.js:11-19 | with a shift, one row per seat, assigned iff some student holds it in that shift |
| Seats.ListSeatsWithShift | Backend/routes/seats.js:11-19 | with a shift, the listing has exactly one row per seat in seat-number order |
| Seats.SeatRowsWithoutShift | Backend/routes/seats.js:20-28 | without a shift, an unheld seat has one unassigned row, a held one an assigned row per holder in any shift |
| Auth.CheckPermission | Backend/routes/auth.js:1-15 | 401 without a user; allow iff admin or the permission is listed; otherwise 403 |
| Auth.CheckAdmin | Backend/routes/auth.js:17-22 | allow iff the user is admin; 403 in every other case, also without a user |
| Auth.CheckAdminOrStaff | Backend/routes/auth.js:24-32 | 401 without a user; allow iff admin or staff; otherwise 403 |
| Auth.AdminPassesEveryGuard | Backend/routes/auth.js:6-8 | whatever `checkAdmin` allows, the other two guards allow for every permission |
| Auth.GuardsDisagreeWithoutSession | Backend/routes/auth.js:18 | without a session `checkAdmin` answers 403 while the other guards answer 401 |
| Auth.FindUser | Backend/routes/auth.js:44-47 | finds a user with the name or reports that none has it |
| Auth.LoginOutcome | Backend/routes/auth.js:38-70 | 400 iff username or password is missing; logged in exactly when the user found by name has a hash matching the password, storing its id, username and role without permissions; any other refusal is the same 401 |
| Auth.UnknownUserLooksLikeWrongPassword | Backend/routes/auth.js:44-52 | an unknown user and a wrong password get the identical 401 |
| Auth.LoggedInNonAdminHasNoPermissions | Backend/routes/auth.js:53-57 | a logged-in non-admin is refused 403 by every `checkPermission` |
| Auth.StatusOf | Backend/routes/auth.js:84-96 | `isAuthenticated` iff a session user exists, reporting its id, username and role |
| Auth.Session.constructor | Backend/routes/auth.js:84-96 | a new session has no user |
| Auth.Session.Login | Backend/routes/auth.js:38-70 | stores the logged-in user on success and leaves the session alone otherwise |
| Auth.Session.Logout | Backend/routes/auth.js:73-81 | clears the user, after which status reports not authenticated |
| Server.CorsAllows | Backend/server.js:18-34 | allowed iff the origin is absent or one of the three listed origins |
| Server.AuthenticateUser | Backend/server.js:116-123 | passes iff the path is the login path or a session user exists; otherwise 401 |
| Server.DataRoutersAreGated | Backend/server.js:135-140 | exactly the five data routers are gated; the auth router is open; without a session a data request gets 401 |
| Server.SessionPassesGate | Backend/server.js:116-123 | any session user passes every mount |
| Server.UploadImage | Backend/server.js:92-113 | no file gives 400 and uploads nothing; a file is handed over once and its outcome reported |
| Server.TestEmail | Backend/server.js:143-168 | no template id gives 400 and sends nothing; otherwise exactly one send with that template |
| Server.Bootstrap | Backend/server.js:205-222 | an empty users table gets exactly one user `admin` with role admin; a non-empty one is unchanged |
| Server.BootstrapIdempotent | Backend/server.js:207-213 | bootstrapping twice equals bootstrapping once |
| Server.FreshInstallAdminLogin | Backend/server.js:207-213 | on a fresh install `admin`/`admin` logs in as an admin that every guard admits |
| Server.UserTable.constructor | Backend/server.js:205 | a users table with the given rows and id sequence |
| Server.UserTable.CreateDefaultAdmin | Backend/server.js:205-222 | the table becomes its bootstrapped form and the id sequence advances only when a user was inserted |
| Reminders.SettingsKeys | Backend/utils/cronJobs.js:11-14 | the settings object has a key iff some row carries it |
| Reminders.LaterRowWins | Backend/utils/cronJobs.js:12-14 | a key's value is that of its last row |
| Reminders.BuildSettings | Backend/utils/cronJobs.js:11-14 | the loop builds the settings object of the rows in order |
| Reminders.DaysBefore | Backend/utils/cronJobs.js:16-20 | the day count is the `parseInt` of the setting when it is neither 0 nor NaN, and is rejected exactly then |
| Reminders.DaysBeforeOfDecimal | Backend/utils/cronJobs.js:16 | a setting holding the decimal text of a non-zero integer, negative included, is accepted as that integer |
| Reminders.DaysBeforeRejects | Backend/utils/cronJobs.js:17-20 | a missing, empty or `'0'` setting aborts the job |
| Reminders.Due | Backend/utils/cronJobs.js:34-38 | selected are exactly the active students ending on the target date |
| Reminders.SendLog | Backend/utils/cronJobs.js:45-47 | at most one send per selected student |
| Reminders.SendLogSpec | Backend/utils/cronJobs.js:45-50 | sends go one per student in order with the template; all before the last succeeded; a shorter log ends at a failure; if all succeed every student is sent to |
| Reminders.SendLogPrefix | Backend/utils/cronJobs.js:45-47 | the log reminds the due students in order with the template, and every send but the last succeeded |
| Reminders.SendLogStops | Backend/utils/cronJobs.js:45-50 | a log shorter than the due list ends at a failed send |
| Reminders.SendLogComplete | Backend/utils/cronJobs.js:45-47 | when every send succeeds, every due student is reminded |
| Reminders.DecideSpec | Backend/utils/cronJobs.js:16-43 | aborts exactly on an invalid day count, then exactly on a missing template; otherwise the target is today + days, nothing is sent iff no one is due, and sends use the configured template |
| Reminders.DecideJob | Backend/utils/cronJobs.js:10-38 | the steps before the sends reach the outcome decided from the settings rows, and select the students due on the target date |
| Reminders.RunReminderJob | Backend/utils/cronJobs.js:6-51 | the job decides as `Decide` does on the parsed settings and sends exactly the stop-on-failure log, nothing when it aborts |
| Reminders.SendReminders | Backend/utils/cronJobs.js:45-47 | the loop produces the send log |
| ApiClient.CamelKey | Frontend/src/services/api.ts:25 | never longer than the key; keeps the first character or upper-cases it after `_`; leaves no `_` before a lower-case letter |
| ApiClient.SnakeKey | Frontend/src/services/api.ts:39 | the result has no upper-case letter |
| ApiClient.SnakeOfNoUpper | Frontend/src/services/api.ts:39 | keys without upper case are left alone |
| ApiClient.CamelOfNoSnakeJoint | Frontend/src/services/api.ts:25 | keys without `_` before a lower-case letter are left alone |
| ApiClient.KeyRewritesIdempotent | Frontend/src/services/api.ts:25-39 | each rewrite applied twice equals applying it once |
| ApiClient.SnakeOfCamel | Frontend/src/services/api.ts:25-39 | snake of camel restores every key without upper case; snake-camel-snake is snake |
| ApiClient.CamelOfSnake | Frontend/src/services/api.ts:25-39 | camel of snake restores every key without `_` before a lower-case letter; camel-snake-camel is camel |
| ApiClient.SnakeOfOneHump | Frontend/src/services/api.ts:39 | one upper-case letter becomes `_` and its lower case |
| ApiClient.RoundTripCounterexample | Frontend/src/services/api.ts:25-39 | `a_b` is unchanged by snake but camel turns it into `aB`, so the round trip is not unconditional |
| ApiClient.Lookup | Frontend/src/services/api.ts:23-27 | a key is found iff the object has it |
| ApiClient.LookupMember | Frontend/src/services/api.ts:23-27 | with distinct keys each member is found with its value |
| ApiClient.Put | Frontend/src/services/api.ts:25 | assigning keeps the key order and adds a new key last |
| ApiClient.PutLookup | Frontend/src/services/api.ts:25 | after assigning, the key reads the new value and every other key is unchanged |
| ApiClient.PutNew | Frontend/src/services/api.ts:25 | assigning a new key appends it |
| ApiClient.Collect | Frontend/src/services/api.ts:23-27 | the built object has distinct keys |
| ApiClient.CollectLastWins | Frontend/src/services/api.ts:23-27 | a key keeps the value of its last assignment |
| ApiClient.CollectDistinct | Frontend/src/services/api.ts:23-27 | members with distinct keys are kept as they are |
| ApiClient.CollectKeys | Frontend/src/services/api.ts:23-27 | the built object has exactly the assigned keys |
| ApiClient.TransformKeysInPlace | Frontend/src/services/api.ts:19-45 | the loop that fills the new object computes the recursive transform |
| ApiClient.TransformMembersInPlace | Frontend/src/services/api.ts:22-27 | the object loop builds the members renamed and transformed, collected in order |
| ApiClient.TransformShape | Frontend/src/services/api.ts:20-21 | non-objects are returned unchanged; arrays map element by element, length and order kept |
| ApiClient.RenamedMembers | Frontend/src/services/api.ts:23-27 | each key is rewritten independently and each value recursively, and the object is built from them in order |
| ApiClient.TransformObjectKeys | Frontend/src/services/api.ts:23-27 | the new object has distinct keys, exactly the rewrites of the old ones |
| ApiClient.TransformObjectLastWins | Frontend/src/services/api.ts:37-41 | a rewritten key carries the transformed value of the last member mapping to it |
| ApiClient.CamelCollision | Frontend/src/services/api.ts:23-27 | `a_b` and `aB` collide and the later member wins |
| ApiClient.Collision | Frontend/src/services/api.ts:37-41 | any two keys with the same rewrite keep only the later value |
| ApiClient.ObjectRoundTrip | Frontend/src/services/api.ts:19-45 | an object whose keys the two rewrites restore is restored |
| ApiClient.TransformRoundTrip | Frontend/src/services/api.ts:19-45 | a value all of whose keys the two rewrites restore is restored, recursively |
| ApiClient.SnakeResponseRoundTrip | Frontend/src/services/api.ts:19-45 | snake-cased data without upper case survives camel then snake |
| ApiClient.CamelRequestRoundTrip | Frontend/src/services/api.ts:19-45 | camel-cased data without `_` before a lower-case letter survives snake then camel |
| ApiClient.RequestData | Frontend/src/services/api.ts:47-52 | only JSON object or array bodies are rewritten to snake case; form data and other bodies pass unchanged |
| ApiClient.ResponseData | Frontend/src/services/api.ts:54-60 | only object or array data are rewritten to camel case |
| ApiClient.InterceptorsTransformAllJson | Frontend/src/services/api.ts:47-60 | for JSON the guards change nothing: every JSON body and response is transformed |
| ApiClient.RequestConfig.constructor | Frontend/src/services/api.ts:47 | the config holds the given data |
| ApiClient.RequestConfig.Intercept | Frontend/src/services/api.ts:48-50 | overwrites the data with its request form |
| ApiClient.Response.constructor | Frontend/src/services/api.ts:54 | the response holds the given data |
| ApiClient.Response.Intercept | Frontend/src/services/api.ts:56-58 | overwrites the data with its response form |
| ApiClient.PutBody | Backend/routes/students.js:202 | the update body never carries a profile image |
| ApiClient.AddSeatsSent | Frontend/src/services/api.ts:338-345 | `addSeats` sends exactly `{seat_numbers}` |
| ApiClient.AddSeatsReachesRoute | Frontend/src/services/api.ts:340 | the route reads the text the client sent, so the outcome is that of the input |
| ApiClient.RenewPayload | Frontend/src/services/api.ts:188-198 | the body carries status `'active'` |
| ApiClient.RenewViaPutKeepsStatus | Frontend/src/services/api.ts:188-193 | a renewal through PUT keeps the stored status |
| ApiClient.RenewPayloadSent | Frontend/src/services/api.ts:190-193 | the sent body has the two snake-case dates and status |
| ApiClient.RenewPutBody | Backend/routes/students.js:202 | PUT reads only the two dates from that body |
| ApiClient.RenewViaPutLeavesExpired | Backend/routes/students.js:227-241 | an expired student renewed via PUT gets the new dates but stays expired and loses shift, seat and fee |
| ApiClient.DatesSent | Frontend/src/services/api.ts:47-52 | the two dates are sent in snake case |
| ApiClient.DateFields | Backend/routes/students.js:292 | the renew route reads both dates from that body |
| ApiClient.RenewRouteActivates | Backend/routes/students.js:289-312 | the renew route sets exactly the two dates and status `'active'` |
| AddStudentForm.HandleImageChange | Frontend/src/components/AddStudentForm.tsx:64-73 | a file over 200 KiB is refused with a message and the form kept; otherwise the file is taken |
| AddStudentForm.ImageLimitKept | Frontend/src/components/AddStudentForm.tsx:67-71 | the form never holds an image over the limit; a file of exactly 204800 bytes is accepted |
| AddStudentForm.SeatsFor | Frontend/src/components/AddStudentForm.tsx:39-57 | the seat list is empty when no shift is chosen, the fetched list otherwise |
| AddStudentForm.AvailableSeats | Frontend/src/components/AddStudentForm.tsx:75 | exactly the unassigned seats, each as often as it is listed |
| AddStudentForm.AvailableSeatsInOrder | Frontend/src/components/AddStudentForm.tsx:75-79 | the free seats keep the order of the fetched list |
| AddStudentForm.OptionsOf | Frontend/src/components/AddStudentForm.tsx:76-79 | "None" first, then one option per seat in order |
| AddStudentForm.SeatOptionsOffered | Frontend/src/components/AddStudentForm.tsx:75-79 | a seat id is offered iff an unassigned seat has it |
| AddStudentForm.NoShiftOnlyNone | Frontend/src/components/AddStudentForm.tsx:52-54 | without a shift the only option is "None" |
| AddStudentForm.FirstBlank | Frontend/src/components/AddStudentForm.tsx:89-95 | the position of the first blank field; all before it are filled |
| AddStudentForm.FirstMissing | Frontend/src/components/AddStudentForm.tsx:89-95 | nothing is reported iff no field is blank; otherwise the first blank one |
| AddStudentForm.EmailMatchesIsWellFormed | Frontend/src/components/AddStudentForm.tsx:99 | the pattern matches iff no white space, exactly one `@` with text before it, and a `.` inside the domain, neither first nor last |
| AddStudentForm.EmailExamples | Frontend/src/components/AddStudentForm.tsx:99 | `a.b@c.d.e` matches and `a@b@c.d` does not |
| AddStudentForm.ValidationError | Frontend/src/components/AddStudentForm.tsx:83-104 | the first missing field is reported first; then a non-empty email must match the pattern |
| AddStudentForm.EmailRule | Frontend/src/components/AddStudentForm.tsx:97-104 | with the required fields filled, the form passes iff the email is empty or well-formed |
| AddStudentForm.RequiredOrder | Frontend/src/components/AddStudentForm.tsx:83-95 | name, then start, then end: the first blank one is reported |
| AddStudentForm.MissingInOrder | Frontend/src/components/AddStudentForm.tsx:83-95 | the three fields are checked in this order |
| AddStudentForm.PayloadNormalised | Frontend/src/components/AddStudentForm.tsx:115-125 | empty email and phone become null, the address is trimmed and blank becomes null, an empty shift is null, otherwise parsed; status `'active'` |
| AddStudentForm.ShiftIdSentAsChosen | Frontend/src/components/AddStudentForm.tsx:117 | a chosen shift id is sent as that number |
| AddStudentForm.HandleSubmit | Frontend/src/components/AddStudentForm.tsx:81-125 | blocked with the message iff validation fails; otherwise uploads iff an image is set and sends the payload |
| AddStudentForm.EmptyFormRefused | Frontend/src/components/AddStudentForm.tsx:83-95 | the empty form is refused for its name |
| EditStudentForm.OrEmpty | Frontend/src/components/EditStudentForm.tsx:32-41 | a falsy value becomes `''`, any other is kept |
| EditStudentForm.IdOrNone | Frontend/src/components/EditStudentForm.tsx:32-41 | an absent or zero id becomes none, any other is kept |
| EditStudentForm.InitialFormDefaults | Frontend/src/components/EditStudentForm.tsx:32-41 | loading loses only the difference between absent and empty; a missing seat or shift becomes none |
| EditStudentForm.SeatsFor | Frontend/src/components/EditStudentForm.tsx:68-70 | no shift, no seats |
| EditStudentForm.SelectableSeatsAre | Frontend/src/components/EditStudentForm.tsx:80 | a seat is selectable iff it is free or the student's own; without a seat exactly the add form's free seats |
| EditStudentForm.SeatOptions | Frontend/src/components/EditStudentForm.tsx:81-84 | options always begin with "None" |
| EditStudentForm.CurrentSeatOffered | Frontend/src/components/EditStudentForm.tsx:60 | the student's own seat is always offered, assigned or not |
| EditStudentForm.HandleSubmit | Frontend/src/components/EditStudentForm.tsx:87-96 | blocked iff the phone is blank; otherwise sends every form field as it is, with an empty fee as null |
| EditStudentForm.MissingPhoneBlocksSave | Frontend/src/components/EditStudentForm.tsx:87-90 | a student stored without a phone cannot be saved unchanged |
| EditStudentForm.ServerAllowsMissingPhone | Backend/routes/students.js:212-214 | the update route never refuses a missing phone |
| SettingsPage.PermissionsFor | Frontend/src/pages/Settings.tsx:49 | staff get the default list, any other role none |
| SettingsPage.HandleNewUserChange | Frontend/src/pages/Settings.tsx:132-141 | a role change sets role and its permissions; other inputs set their field and leave role and permissions |
| SettingsPage.NewUserChangeKeepsPermissions | Frontend/src/pages/Settings.tsx:132-141 | permissions in step with the role stay so; choosing a role puts them in step; the initial form is not |
| SettingsPage.HandleCreateUser | Frontend/src/pages/Settings.tsx:238-249 | refused iff username or password is empty; otherwise sends permissions of the role |
| SettingsPage.CreatedPermissionsFollowRole | Frontend/src/pages/Settings.tsx:240-247 | what is sent does not depend on the form's permissions; staff always get the defaults |
| SettingsPage.ResetFormRefused | Frontend/src/pages/Settings.tsx:181 | the reset form cannot be submitted again |
| SettingsPage.HandlePasswordUpdate | Frontend/src/pages/Settings.tsx:221-236 | sent iff all three fields are filled and new equals confirm, as currentPassword/newPassword; otherwise the matching message |
| SettingsPage.AfterPasswordChange | Frontend/src/pages/Settings.tsx:165-170 | the three password fields are cleared and name and email kept |
| SettingsPage.PasswordChangeClears | Frontend/src/pages/Settings.tsx:165-170 | the profile update is unaffected and the cleared form cannot be resent |
| SettingsPage.HandleProfileUpdate | Frontend/src/pages/Settings.tsx:212-219 | an empty name or email is sent as null |
| SettingsPage.ProfileRoundTrip | Frontend/src/pages/Settings.tsx:106-114 | saving a freshly loaded profile sends what was loaded, empty as null |
| SettingsPage.WithSettings | Frontend/src/pages/Settings.tsx:116-124 | each loaded setting shows as itself when truthy and as `''` when missing or empty |
| SettingsPage.JsonNumber | Frontend/src/pages/Settings.tsx:261 | NaN is written as null, any other number as itself |
| SettingsPage.HandleSettingsUpdate | Frontend/src/pages/Settings.tsx:257-263 | the template id is sent as typed; the day count is null iff `parseInt` without a radix gives NaN, and otherwise its value |
| SettingsPage.SettingsRoundTrip | Frontend/src/pages/Settings.tsx:257-263 | saving freshly loaded settings sends back a decimal day count as that number, and the template id as loaded |
| SettingsPage.UnsetDaysSentAsNull | Frontend/src/pages/Settings.tsx:261 | a missing or empty day count is sent as null |
| SettingsPage.WordDaysSentAsNull | Frontend/src/pages/Settings.tsx:261 | text with no leading digits ("days") is sent as null |
| SettingsPage.TrailingTextDropped | Frontend/src/pages/Settings.tsx:261 | text after the leading digits is dropped: "7 days" is sent as 7 |
| Dashboard.EndedOnLastDay | Frontend/src/pages/Dashboard.tsx:41-42 | a membership counts as ended from the first instant of its end day |
| Dashboard.FetchStats | Frontend/src/pages/Dashboard.tsx:35-43 | total is the number of students; active plus expired is at most total, with equality iff each student has ended or is stored active |
| Dashboard.FetchStatsCounts | Frontend/src/pages/Dashboard.tsx:41-42 | active is the number of students still running and stored `'active'`; expired the number whose end has passed |
| Dashboard.PageAndServerDisagree | Frontend/src/pages/Dashboard.tsx:41-42 | an unmarked ended student is expired on the page and active for the server's statistics |
| Dashboard.CanManageStudents | Frontend/src/pages/Dashboard.tsx:60 | true iff the role is admin or staff |
| Dashboard.ManageMatchesGuard | Frontend/src/pages/Dashboard.tsx:60 | the page's flag agrees with `checkAdminOrStaff` |
| StudentDetails.DisplayedStatus | Frontend/src/pages/StudentDetails.tsx:48-57 | `'expired'` once the end has passed, the stored status otherwise |
| StudentDetails.StatusLabel | Frontend/src/pages/StudentDetails.tsx:50-57 | "Active" iff the status is `'active'`, "Expired" otherwise |
| StudentDetails.LabelMatchesDashboard | Frontend/src/pages/StudentDetails.tsx:48-57 | the page labels a student active iff the dashboard counts it active |
| StudentDetails.FormatDate | Frontend/src/pages/StudentDetails.tsx:25-30 | `'N/A'` for a missing or unparseable date, the date text otherwise |
| StudentDetails.OrElse | Frontend/src/pages/StudentDetails.tsx:250-292 | a falsy value shows the fallback, any other itself |
| StudentDetails.DetailsFallbacks | Frontend/src/pages/StudentDetails.tsx:250-292 | missing name and email show "Unknown", phone and address "N/A", seat "None", shift "No shift assigned"; no field is empty |

## Left out

- SQL `ORDER BY` uses the database collation; the model orders text by Unicode code point (`Sorting.LexLe`). Ties keep table order, which the database does not promise.
- `ILIKE` treats `%` and `_` in the search text as wildcards; the model takes them literally. Case folding, `trim`, `toLowerCase` and the `\s` class of the add form's `emailRegex` (AddStudentForm.tsx:100, which in JavaScript also matches Unicode white space) are ASCII only.
- The fee is an optional integer. `parseFloat`, floating point and `toFixed(2)` on the details page are not modelled. As in the routes, a zero fee is stored as null.
- Dates are whole day numbers and instants are milliseconds. `new Date()`, `setDate`, `toISOString` and time zones are not modelled. The ISO date formatting in `formatDate` is the parameter `dayText`.
- JSON numbers are integers. A body value of the wrong JSON type reads as absent. JavaScript's integer-like key ordering in objects and the `__proto__` key are not modelled.
- The foreign-key effect of deleting a seat that a student holds is not shown in the source and is not modelled.
- Concurrency is not modelled: the race between the checks and the INSERT, and concurrent requests.
- The 500 paths (database or service errors) are not modelled.
- Sessions are a single field; the session store and `destroy` callback are not modelled. bcrypt is the parameter `matches`, the image service the parameter `store`, the mail service the parameter `delivers`.
- Only the callback body of the reminder job is modelled; `node-cron` scheduling is not.
- `Frontend/src/pages/SeatsPage.tsx`, `ShiftList.tsx`, `ShiftStudents.tsx` and `App.tsx` are not part of this model: UI, retries and locale-dependent formatting.
- On the settings page, `handleSettingsChange` (one field set to the typed value), the settings and user-deletion mutations, and `handleDeleteUser`'s confirmation are not modelled. The settings form's load and its `parseInt` conversion of the day count are modelled.
- The add form's image and `imageUrl` spread into the payload are modelled only as the uploaded URL; React rendering, toasts and navigation are not modelled.
- StudentDetails.DetailsFallbacks: the shift text follows the print template (StudentDetails.tsx:345), where a missing description renders as "null". The on-screen card (StudentDetails.tsx:284-288) renders it as empty.
- PutBody: `Students.StudentBody` holds a shift or seat id only when it is a positive integer. A zero id is falsy in the routes and reads as absent in the model too. A negative id is truthy in the routes, so the shift or seat lookup refuses it with 400. The model reads it as absent, so it lets such a request succeed with no shift or seat.
- Seats.ListSeats: states only that each seat yields at least one row. The full shape of the listing is stated by `Seats.ListSeatsWithShift` and `Seats.SeatRowsWithoutShift`.

## Findings

| source | as written | input that shows it | evidently intended | confidence | as-written member | corrected member |
|---|---|---|---|---|---|---|
| Frontend/src/services/api.ts:188-198 | `renewMembership` sends the new dates with `status: 'active'` to PUT `/students/:id`. That route never writes status and overwrites shift, seat and fee with null when they are absent (Backend/routes/students.js:227-241). | An expired student with a seat, renewed with two dates: the PUT succeeds, the status stays `'expired'`, and shift, seat and fee become null. | Renewal sets the two dates and status `'active'` and nothing else, as POST `/students/:id/renew` does (Backend/routes/students.js:289-312). | medium, not executed | ApiClient.RenewViaPutLeavesExpired | ApiClient.RenewRouteActivates |

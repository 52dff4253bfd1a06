/**
 * The student table behind the `/api/students` routes
 * (Backend/routes/students.js): create, partial update, renew and delete with
 * their fixed order of validation checks, the table invariant that keeps a seat
 * together with a shift and no (seat, shift) pair held twice
 * (the `unique_seat_per_shift` constraint), and the list filters and dashboard
 * counts as pure queries over the table.
 *
 * The table is an in-memory sequence of rows. The sets of existing schedule
 * (shift) ids and seat ids are parameters of the operations that consult them.
 */
module Students {
  import opened Common
  import opened Sorting

  /** Database ids are positive serial integers. */
  type Id = x: int | x > 0 witness 1

  /** Calendar dates and `created_at` as day numbers. */
  type Date = int

  const ACTIVE := "active"
  const EXPIRED := "expired"

  /** A row of the `students` table. `status` is a free text column: the routes
      only ever write "active", other values come from outside them. */
  datatype Student = Student(
    id: Id,
    name: string,
    admissionNo: Option<string>,
    email: Option<string>,
    phone: Option<string>,
    address: Option<string>,
    membershipStart: Date,
    membershipEnd: Date,
    shiftId: Option<Id>,
    seatId: Option<Id>,
    status: string,
    fee: Option<int>,
    profileImageUrl: Option<string>,
    createdAt: Date)

  /** The JSON body of POST `/` and PUT `/:id`; an absent or null field is None.
      PUT does not read `profileImageUrl`. */
  datatype StudentBody = StudentBody(
    name: Option<string>,
    admissionNo: Option<string>,
    email: Option<string>,
    phone: Option<string>,
    address: Option<string>,
    membershipStart: Option<Date>,
    membershipEnd: Option<Date>,
    shiftId: Option<Id>,
    seatId: Option<Id>,
    fee: Option<int>,
    profileImageUrl: Option<string>)

  datatype StudentError =
    | MissingRequired
    | InvalidPhone
    | EmailInUse
    | EmailInUseByAnother
    | SeatWithoutShift
    | InvalidShift
    | InvalidSeat
    | SeatTaken
    | NotFound
    | MissingDates

  function HttpStatus(e: StudentError): int {
    if e == NotFound then 404 else 400
  }

  function Message(e: StudentError): string {
    match e
    case MissingRequired => "Name, membership start, and membership end dates are required"
    case InvalidPhone => "Phone number must be a non-empty string if provided"
    case EmailInUse => "Email already in use"
    case EmailInUseByAnother => "Email already in use by another student"
    case SeatWithoutShift => "Shift must be selected when assigning a seat"
    case InvalidShift => "Invalid shift ID"
    case InvalidSeat => "Invalid seat ID"
    case SeatTaken => "Selected seat is already assigned to another student in the same shift"
    case NotFound => "Student not found"
    case MissingDates => "Membership start and end dates are required"
  }

  // ---------------------------------------------------------------------------
  // The table invariant.

  /** Two rows hold the same non-null (seat, shift) pair. */
  predicate SameSlot(a: Student, b: Student) {
    a.seatId.Some? && a.shiftId.Some? && a.seatId == b.seatId && a.shiftId == b.shiftId
  }

  predicate UniqueIds(rows: seq<Student>) {
    forall i, j :: 0 <= i < j < |rows| ==> rows[i].id != rows[j].id
  }

  predicate SeatsHaveShifts(rows: seq<Student>) {
    forall i :: 0 <= i < |rows| ==> rows[i].seatId.Some? ==> rows[i].shiftId.Some?
  }

  /** The `unique_seat_per_shift` constraint. */
  predicate UniqueSeatPerShift(rows: seq<Student>) {
    forall i, j :: 0 <= i < j < |rows| ==> !SameSlot(rows[i], rows[j])
  }

  /** Non-empty emails are not shared (kept by the routes' own email checks). */
  predicate UniqueEmails(rows: seq<Student>) {
    forall i, j :: 0 <= i < j < |rows| && Truthy(rows[i].email) ==> rows[i].email != rows[j].email
  }

  predicate TableInvariant(rows: seq<Student>) {
    UniqueIds(rows) && SeatsHaveShifts(rows) && UniqueSeatPerShift(rows) && UniqueEmails(rows)
  }

  // ---------------------------------------------------------------------------
  // Validation conditions shared by create and update.

  /** `phone && (typeof phone !== 'string' || phone.trim() === '')` for a string phone. */
  predicate PhoneInvalid(phone: Option<string>) {
    Truthy(phone) && IsBlank(phone.value)
  }

  predicate EmailTaken(rows: seq<Student>, email: string) {
    exists i | 0 <= i < |rows| :: rows[i].email == Some(email)
  }

  /** `SELECT ... WHERE email = $1 AND id != $2` finds a row. */
  predicate EmailTakenByOther(rows: seq<Student>, email: string, id: int) {
    exists i | 0 <= i < |rows| :: rows[i].email == Some(email) && rows[i].id != id
  }

  /** Writing `s` would violate `unique_seat_per_shift` against another row. */
  predicate SlotTaken(rows: seq<Student>, s: Student) {
    exists i | 0 <= i < |rows| :: rows[i].id != s.id && SameSlot(s, rows[i])
  }

  /** `fee || null`: a zero or absent fee is stored as null. */
  function FeeOrNull(fee: Option<int>): (r: Option<int>)
    ensures r.Some? <==> fee.Some? && fee.value != 0
    ensures r.Some? ==> r == fee
  {
    if fee.Some? && fee.value != 0 then fee else None
  }

  /** The first row with the given id. */
  function IndexOfId(rows: seq<Student>, id: int): (r: Option<nat>)
    ensures r.Some? ==> r.value < |rows| && rows[r.value].id == id
    ensures r.Some? ==> forall k :: 0 <= k < r.value ==> rows[k].id != id
    ensures r.None? ==> forall k :: 0 <= k < |rows| ==> rows[k].id != id
  {
    if rows == [] then None
    else if rows[0].id == id then Some(0)
    else
      var r := IndexOfId(rows[1..], id);
      if r.None? then None else Some(r.value + 1)
  }

  // ---------------------------------------------------------------------------
  // POST `/`

  /** The row the INSERT writes: the name and dates as given, optional texts as
      given or null when falsy, shift and seat as given, a zero fee as null,
      status `'active'`. */
  function NewStudent(b: StudentBody, id: Id, today: Date): (s: Student)
    requires b.name.Some? && b.membershipStart.Some? && b.membershipEnd.Some?
    ensures s.id == id && s.status == ACTIVE && s.createdAt == today
    ensures s.name == b.name.value && s.membershipStart == b.membershipStart.value
            && s.membershipEnd == b.membershipEnd.value
    ensures (s.admissionNo.Some? <==> Truthy(b.admissionNo)) && (s.admissionNo.Some? ==> s.admissionNo == b.admissionNo)
    ensures (s.email.Some? <==> Truthy(b.email)) && (s.email.Some? ==> s.email == b.email)
    ensures (s.phone.Some? <==> Truthy(b.phone)) && (s.phone.Some? ==> s.phone == b.phone)
    ensures (s.address.Some? <==> Truthy(b.address)) && (s.address.Some? ==> s.address == b.address)
    ensures (s.profileImageUrl.Some? <==> Truthy(b.profileImageUrl))
            && (s.profileImageUrl.Some? ==> s.profileImageUrl == b.profileImageUrl)
    ensures s.shiftId == b.shiftId && s.seatId == b.seatId
    ensures (s.fee.Some? <==> b.fee.Some? && b.fee.value != 0) && (s.fee.Some? ==> s.fee == b.fee)
  {
    Student(id, b.name.value, OrNull(b.admissionNo), OrNull(b.email), OrNull(b.phone),
            OrNull(b.address), b.membershipStart.value, b.membershipEnd.value,
            b.shiftId, b.seatId, ACTIVE, FeeOrNull(b.fee), OrNull(b.profileImageUrl), today)
  }

  predicate RequiredPresent(b: StudentBody) {
    Truthy(b.name) && b.membershipStart.Some? && b.membershipEnd.Some?
  }

  /** The outcome of POST `/` against the table `rows`, with `id` the next serial id. */
  function CreateOutcome(b: StudentBody, rows: seq<Student>, shifts: set<Id>, seats: set<Id>,
                         id: Id, today: Date): (r: Result<Student, StudentError>)
    ensures r.Success? ==> RequiredPresent(b) && r.value == NewStudent(b, id, today)
    ensures r.Success? ==> r.value.id == id && r.value.status == ACTIVE && r.value.createdAt == today
    ensures r.Success? ==> r.value.seatId.Some? ==> r.value.shiftId.Some?
    ensures r.Success? ==> r.value.shiftId.Some? ==> r.value.shiftId.value in shifts
    ensures r.Success? ==> r.value.seatId.Some? ==> r.value.seatId.value in seats
    ensures r.Success? ==> forall k :: 0 <= k < |rows| ==> !SameSlot(r.value, rows[k]) || rows[k].id == id
  {
    if !RequiredPresent(b) then Failure(MissingRequired)
    else if PhoneInvalid(b.phone) then Failure(InvalidPhone)
    else if Truthy(b.email) && EmailTaken(rows, b.email.value) then Failure(EmailInUse)
    else if b.seatId.Some? && b.shiftId.None? then Failure(SeatWithoutShift)
    else if b.shiftId.Some? && b.shiftId.value !in shifts then Failure(InvalidShift)
    else if b.seatId.Some? && b.seatId.value !in seats then Failure(InvalidSeat)
    else
      var s := NewStudent(b, id, today);
      if SlotTaken(rows, s) then Failure(SeatTaken) else Success(s)
  }

  /** The create checks one by one, independently of the order the route runs them in. */
  predicate CreateCheckFails(e: StudentError, b: StudentBody, rows: seq<Student>,
                             shifts: set<Id>, seats: set<Id>) {
    match e
    case MissingRequired => !RequiredPresent(b)
    case InvalidPhone => PhoneInvalid(b.phone)
    case EmailInUse => Truthy(b.email) && EmailTaken(rows, b.email.value)
    case SeatWithoutShift => b.seatId.Some? && b.shiftId.None?
    case InvalidShift => b.shiftId.Some? && b.shiftId.value !in shifts
    case InvalidSeat => b.seatId.Some? && b.seatId.value !in seats
    case _ => false
  }

  /** The position of each create check in the route's order. */
  function CreateRank(e: StudentError): nat {
    match e
    case MissingRequired => 0
    case InvalidPhone => 1
    case EmailInUse => 2
    case SeatWithoutShift => 3
    case InvalidShift => 4
    case InvalidSeat => 5
    case _ => 6
  }

  /** The 400 message of a failed create is decided by the first failing check;
      a uniqueness clash is reported only when every check passes. */
  lemma CreateFirstFailingCheck(b: StudentBody, rows: seq<Student>, shifts: set<Id>, seats: set<Id>,
                                id: Id, today: Date, e: StudentError)
    requires CreateOutcome(b, rows, shifts, seats, id, today) == Failure(e)
    ensures e == SeatTaken || CreateCheckFails(e, b, rows, shifts, seats)
    ensures forall e' :: CreateRank(e') < CreateRank(e) ==> !CreateCheckFails(e', b, rows, shifts, seats)
    ensures e == SeatTaken ==> forall e' :: !CreateCheckFails(e', b, rows, shifts, seats)
  {
  }

  /** A create succeeds exactly when every check passes and the seat is free in
      its shift. */
  lemma CreateSucceedsIffChecksPass(b: StudentBody, rows: seq<Student>, shifts: set<Id>, seats: set<Id>,
                                    id: Id, today: Date)
    ensures CreateOutcome(b, rows, shifts, seats, id, today).Success? <==>
      RequiredPresent(b) && (forall e :: !CreateCheckFails(e, b, rows, shifts, seats))
      && !SlotTaken(rows, NewStudent(b, id, today))
  {
    var r := CreateOutcome(b, rows, shifts, seats, id, today);
    if r.Failure? {
      CreateFirstFailingCheck(b, rows, shifts, seats, id, today, r.error);
    }
  }

  /** Absent optional text fields are stored as null, never as ''. */
  lemma CreateStoresAbsentAsNull(b: StudentBody, rows: seq<Student>, shifts: set<Id>, seats: set<Id>,
                                 id: Id, today: Date)
    requires CreateOutcome(b, rows, shifts, seats, id, today).Success?
    ensures var s := CreateOutcome(b, rows, shifts, seats, id, today).value;
      && (s.email.Some? <==> Truthy(b.email))
      && (s.phone.Some? <==> Truthy(b.phone))
      && (s.address.Some? <==> Truthy(b.address))
      && (s.admissionNo.Some? <==> Truthy(b.admissionNo))
      && (s.profileImageUrl.Some? <==> Truthy(b.profileImageUrl))
      && (s.fee.Some? ==> s.fee.value != 0)
      && s.name == b.name.value && s.name != ""
  {
  }

  /** A successful create keeps the table invariant when its id is fresh. */
  lemma CreatePreservesInvariant(b: StudentBody, rows: seq<Student>, shifts: set<Id>, seats: set<Id>,
                                 id: Id, today: Date)
    requires TableInvariant(rows)
    requires forall k :: 0 <= k < |rows| ==> rows[k].id < id
    requires CreateOutcome(b, rows, shifts, seats, id, today).Success?
    ensures TableInvariant(rows + [CreateOutcome(b, rows, shifts, seats, id, today).value])
  {
    var s := CreateOutcome(b, rows, shifts, seats, id, today).value;
    var t := rows + [s];
    forall i, j | 0 <= i < j < |t| ensures !SameSlot(t[i], t[j]) {
      if j == |rows| {
        assert !SameSlot(s, rows[i]);
      }
    }
    forall i, j | 0 <= i < j < |t| && Truthy(t[i].email) ensures t[i].email != t[j].email {
      if j == |rows| {
        assert t[i] == rows[i] && t[j] == s;
      }
    }
  }

  // ---------------------------------------------------------------------------
  // PUT `/:id`

  /** `COALESCE($n, column)`. */
  function Coalesce<T>(given: Option<T>, current: T): T {
    if given.Some? then given.value else current
  }

  /** The row the UPDATE writes: text fields and dates are kept when not
      supplied, shift, seat and fee are always overwritten, status and the
      profile image are never touched. */
  function UpdatedStudent(s: Student, b: StudentBody): Student {
    s.(name := Coalesce(b.name, s.name),
       admissionNo := if b.admissionNo.Some? then b.admissionNo else s.admissionNo,
       email := if b.email.Some? then b.email else s.email,
       phone := if b.phone.Some? then b.phone else s.phone,
       address := if b.address.Some? then b.address else s.address,
       membershipStart := Coalesce(b.membershipStart, s.membershipStart),
       membershipEnd := Coalesce(b.membershipEnd, s.membershipEnd),
       shiftId := b.shiftId,
       seatId := b.seatId,
       fee := FeeOrNull(b.fee))
  }

  /** The outcome of PUT `/:id`. */
  function UpdateOutcome(id: int, b: StudentBody, rows: seq<Student>, shifts: set<Id>, seats: set<Id>)
    : (r: Result<Student, StudentError>)
    ensures r.Success? ==> IndexOfId(rows, id).Some? && r.value == UpdatedStudent(rows[IndexOfId(rows, id).value], b)
    ensures r.Success? ==> !SlotTaken(rows, r.value)
  {
    if b.seatId.Some? && b.shiftId.None? then Failure(SeatWithoutShift)
    else if Truthy(b.email) && EmailTakenByOther(rows, b.email.value, id) then Failure(EmailInUseByAnother)
    else if PhoneInvalid(b.phone) then Failure(InvalidPhone)
    else if b.shiftId.Some? && b.shiftId.value !in shifts then Failure(InvalidShift)
    else if b.seatId.Some? && b.seatId.value !in seats then Failure(InvalidSeat)
    else
      var k := IndexOfId(rows, id);
      if k.None? then Failure(NotFound)
      else
        var s := UpdatedStudent(rows[k.value], b);
        if SlotTaken(rows, s) then Failure(SeatTaken) else Success(s)
  }

  /** The update checks one by one, independently of the order the route runs
      them in; `NotFound` is the UPDATE matching no row. */
  predicate UpdateCheckFails(e: StudentError, id: int, b: StudentBody, rows: seq<Student>,
                             shifts: set<Id>, seats: set<Id>) {
    match e
    case SeatWithoutShift => b.seatId.Some? && b.shiftId.None?
    case EmailInUseByAnother => Truthy(b.email) && EmailTakenByOther(rows, b.email.value, id)
    case InvalidPhone => PhoneInvalid(b.phone)
    case InvalidShift => b.shiftId.Some? && b.shiftId.value !in shifts
    case InvalidSeat => b.seatId.Some? && b.seatId.value !in seats
    case NotFound => IndexOfId(rows, id).None?
    case _ => false
  }

  /** The position of each update check in the route's order. */
  function UpdateRank(e: StudentError): nat {
    match e
    case SeatWithoutShift => 0
    case EmailInUseByAnother => 1
    case InvalidPhone => 2
    case InvalidShift => 3
    case InvalidSeat => 4
    case NotFound => 5
    case _ => 6
  }

  /** The answer of a failed update is decided by the first failing check, in
      the order seat without shift, email, phone, shift, seat, unknown id; a
      uniqueness clash is reported only when every check passes. */
  lemma UpdateFirstFailingCheck(id: int, b: StudentBody, rows: seq<Student>, shifts: set<Id>, seats: set<Id>,
                                e: StudentError)
    requires UpdateOutcome(id, b, rows, shifts, seats) == Failure(e)
    ensures e == SeatTaken || UpdateCheckFails(e, id, b, rows, shifts, seats)
    ensures forall e' :: UpdateRank(e') < UpdateRank(e) ==> !UpdateCheckFails(e', id, b, rows, shifts, seats)
    ensures e == SeatTaken ==> forall e' :: !UpdateCheckFails(e', id, b, rows, shifts, seats)
  {
  }

  /** An update succeeds exactly when every check passes, the id is known and
      the updated row's seat is free in its shift. */
  lemma UpdateSucceedsIffChecksPass(id: int, b: StudentBody, rows: seq<Student>, shifts: set<Id>, seats: set<Id>)
    ensures UpdateOutcome(id, b, rows, shifts, seats).Success? <==>
      (forall e :: !UpdateCheckFails(e, id, b, rows, shifts, seats))
      && IndexOfId(rows, id).Some? && !SlotTaken(rows, UpdatedStudent(rows[IndexOfId(rows, id).value], b))
  {
    var r := UpdateOutcome(id, b, rows, shifts, seats);
    if r.Failure? {
      UpdateFirstFailingCheck(id, b, rows, shifts, seats, r.error);
    }
  }

  /** Which fields an update keeps, overwrites or never touches: a supplied
      text field or date is written and an absent one kept; shift, seat and fee
      are always written, an absent or zero fee as null. */
  lemma UpdateFieldRules(s: Student, b: StudentBody)
    ensures var u := UpdatedStudent(s, b);
      && (b.name.None? ==> u.name == s.name)
      && (b.admissionNo.None? ==> u.admissionNo == s.admissionNo)
      && (b.email.None? ==> u.email == s.email)
      && (b.phone.None? ==> u.phone == s.phone)
      && (b.address.None? ==> u.address == s.address)
      && (b.membershipStart.None? ==> u.membershipStart == s.membershipStart)
      && (b.membershipEnd.None? ==> u.membershipEnd == s.membershipEnd)
      && (b.name.Some? ==> u.name == b.name.value)
      && (b.admissionNo.Some? ==> u.admissionNo == b.admissionNo)
      && (b.email.Some? ==> u.email == b.email)
      && (b.phone.Some? ==> u.phone == b.phone)
      && (b.address.Some? ==> u.address == b.address)
      && (b.membershipStart.Some? ==> u.membershipStart == b.membershipStart.value)
      && (b.membershipEnd.Some? ==> u.membershipEnd == b.membershipEnd.value)
      && u.shiftId == b.shiftId && u.seatId == b.seatId
      && (u.fee.Some? <==> b.fee.Some? && b.fee.value != 0) && (u.fee.Some? ==> u.fee == b.fee)
      && u.id == s.id && u.status == s.status && u.profileImageUrl == s.profileImageUrl
      && u.createdAt == s.createdAt
  {
  }

  /** Sending the same update twice is the same as sending it once. */
  lemma UpdateIdempotent(s: Student, b: StudentBody)
    ensures UpdatedStudent(UpdatedStudent(s, b), b) == UpdatedStudent(s, b)
  {
  }

  /** The 404 for an unknown id comes only after every validation has passed:
      an unknown id with a clashing email or an invalid phone, shift or seat
      gets a 400. */
  lemma UpdateNotFoundAfterValidation(id: int, b: StudentBody, rows: seq<Student>,
                                      shifts: set<Id>, seats: set<Id>)
    requires forall k :: 0 <= k < |rows| ==> rows[k].id != id
    ensures var r := UpdateOutcome(id, b, rows, shifts, seats);
      r.Failure? && (r.error == NotFound <==>
        !(b.seatId.Some? && b.shiftId.None?) && !PhoneInvalid(b.phone)
        && !(Truthy(b.email) && EmailTaken(rows, b.email.value))
        && !(b.shiftId.Some? && b.shiftId.value !in shifts)
        && !(b.seatId.Some? && b.seatId.value !in seats))
  {
    if Truthy(b.email) {
      assert EmailTaken(rows, b.email.value) <==> EmailTakenByOther(rows, b.email.value, id);
    }
  }

  /** The email check of an update ignores the student's own row: re-sending a
      student's own email never fails on email. */
  lemma UpdateOwnEmailAccepted(id: int, b: StudentBody, rows: seq<Student>, shifts: set<Id>, seats: set<Id>)
    requires UniqueEmails(rows) && UniqueIds(rows)
    requires IndexOfId(rows, id).Some? && b.email.Some? && b.email == rows[IndexOfId(rows, id).value].email
    ensures UpdateOutcome(id, b, rows, shifts, seats) != Failure(EmailInUseByAnother)
  {
  }

  /** A successful update keeps the table invariant. */
  lemma UpdatePreservesInvariant(id: int, b: StudentBody, rows: seq<Student>, shifts: set<Id>, seats: set<Id>)
    requires TableInvariant(rows)
    requires UpdateOutcome(id, b, rows, shifts, seats).Success?
    ensures TableInvariant(rows[IndexOfId(rows, id).value := UpdateOutcome(id, b, rows, shifts, seats).value])
  {
    var k := IndexOfId(rows, id).value;
    var s := UpdateOutcome(id, b, rows, shifts, seats).value;
    var t := rows[k := s];
    assert s.id == rows[k].id;
    forall i, j | 0 <= i < j < |t| ensures !SameSlot(t[i], t[j]) {
      if i == k {
        assert !SameSlot(s, rows[j]);
      } else if j == k {
        assert !SameSlot(s, rows[i]);
      }
    }
    forall i, j | 0 <= i < j < |t| && Truthy(t[i].email) ensures t[i].email != t[j].email {
      if i == k && Truthy(b.email) {
        assert rows[j].id != rows[k].id;
        assert !EmailTakenByOther(rows, b.email.value, id);
      } else if j == k && Truthy(b.email) {
        assert rows[i].id != rows[k].id;
        assert !EmailTakenByOther(rows, b.email.value, id);
      }
    }
  }

  // ---------------------------------------------------------------------------
  // POST `/:id/renew` and DELETE `/:id`

  function RenewOutcome(id: int, start: Option<Date>, end: Option<Date>, rows: seq<Student>)
    : (r: Result<Student, StudentError>)
    ensures r.Success? ==> IndexOfId(rows, id).Some?
  {
    if start.None? || end.None? then Failure(MissingDates)
    else
      var k := IndexOfId(rows, id);
      if k.None? then Failure(NotFound)
      else Success(rows[k.value].(membershipStart := start.value, membershipEnd := end.value, status := ACTIVE))
  }

  /** Renew sets exactly the two dates and the status, and reports 400 before
      404. */
  lemma RenewSetsDatesAndStatus(id: int, start: Option<Date>, end: Option<Date>, rows: seq<Student>)
    ensures var r := RenewOutcome(id, start, end, rows);
      && (start.None? || end.None? ==> r == Failure(MissingDates))
      && (start.Some? && end.Some? && (forall k :: 0 <= k < |rows| ==> rows[k].id != id) ==> r == Failure(NotFound))
      && (r.Success? ==>
            var old_ := rows[IndexOfId(rows, id).value];
            r.value.status == ACTIVE && r.value.membershipStart == start.value && r.value.membershipEnd == end.value
            && r.value.(membershipStart := old_.membershipStart, membershipEnd := old_.membershipEnd, status := old_.status) == old_)
  {
  }

  lemma RenewPreservesInvariant(id: int, start: Option<Date>, end: Option<Date>, rows: seq<Student>)
    requires TableInvariant(rows)
    requires RenewOutcome(id, start, end, rows).Success?
    ensures TableInvariant(rows[IndexOfId(rows, id).value := RenewOutcome(id, start, end, rows).value])
  {
    var k := IndexOfId(rows, id).value;
    var t := rows[k := RenewOutcome(id, start, end, rows).value];
    forall i, j | 0 <= i < j < |t| ensures !SameSlot(t[i], t[j]) {
      assert !SameSlot(rows[i], rows[j]);
    }
    forall i, j | 0 <= i < j < |t| && Truthy(t[i].email) ensures t[i].email != t[j].email {
      assert rows[i].email == t[i].email && rows[j].email == t[j].email;
    }
  }

  function DeleteOutcome(id: int, rows: seq<Student>): (r: Result<Student, StudentError>)
    ensures r.Success? <==> exists k :: 0 <= k < |rows| && rows[k].id == id
    ensures r.Failure? ==> r.error == NotFound
    ensures r.Success? ==> r.value.id == id && r.value in rows
  {
    var k := IndexOfId(rows, id);
    if k.None? then Failure(NotFound) else Success(rows[k.value])
  }

  /** Removing a row keeps the table invariant. */
  lemma RemovePreservesInvariant(rows: seq<Student>, k: nat)
    requires TableInvariant(rows) && k < |rows|
    ensures TableInvariant(rows[..k] + rows[k + 1..])
  {
    var t := rows[..k] + rows[k + 1..];
    assert forall i :: 0 <= i < |t| ==> t[i] == rows[if i < k then i else i + 1];
  }

  // ---------------------------------------------------------------------------
  // The table as the routes change it.

  class StudentTable {
    var rows: seq<Student>
    /** The next value of the `students` id sequence. */
    var nextId: Id

    ghost predicate Valid()
      reads this
    {
      TableInvariant(rows) && forall k :: 0 <= k < |rows| ==> rows[k].id < nextId
    }

    constructor ()
      ensures Valid() && rows == [] && nextId == 1
    {
      rows := [];
      nextId := 1;
    }

    /** POST `/`. A failed INSERT still consumes a value of the id sequence. */
    method Create(b: StudentBody, shifts: set<Id>, seats: set<Id>, today: Date)
      returns (r: Result<Student, StudentError>)
      requires Valid()
      modifies this
      ensures Valid()
      ensures r == CreateOutcome(b, old(rows), shifts, seats, old(nextId), today)
      ensures rows == if r.Success? then old(rows) + [r.value] else old(rows)
      ensures nextId == old(nextId) + (if r.Success? || r == Failure(SeatTaken) then 1 else 0)
    {
      if !RequiredPresent(b) {
        return Failure(MissingRequired);
      }
      if PhoneInvalid(b.phone) {
        return Failure(InvalidPhone);
      }
      if Truthy(b.email) && EmailTaken(rows, b.email.value) {
        return Failure(EmailInUse);
      }
      if b.seatId.Some? && b.shiftId.None? {
        return Failure(SeatWithoutShift);
      }
      if b.shiftId.Some? && b.shiftId.value !in shifts {
        return Failure(InvalidShift);
      }
      if b.seatId.Some? && b.seatId.value !in seats {
        return Failure(InvalidSeat);
      }
      var s := NewStudent(b, nextId, today);
      nextId := nextId + 1;
      if SlotTaken(rows, s) {
        return Failure(SeatTaken);
      }
      CreatePreservesInvariant(b, rows, shifts, seats, s.id, today);
      rows := rows + [s];
      r := Success(s);
    }

    /** PUT `/:id`. */
    method Update(id: int, b: StudentBody, shifts: set<Id>, seats: set<Id>)
      returns (r: Result<Student, StudentError>)
      requires Valid()
      modifies this
      ensures Valid() && nextId == old(nextId)
      ensures r == UpdateOutcome(id, b, old(rows), shifts, seats)
      ensures rows == if r.Success? then old(rows)[IndexOfId(old(rows), id).value := r.value] else old(rows)
    {
      if b.seatId.Some? && b.shiftId.None? {
        return Failure(SeatWithoutShift);
      }
      if Truthy(b.email) && EmailTakenByOther(rows, b.email.value, id) {
        return Failure(EmailInUseByAnother);
      }
      if PhoneInvalid(b.phone) {
        return Failure(InvalidPhone);
      }
      if b.shiftId.Some? && b.shiftId.value !in shifts {
        return Failure(InvalidShift);
      }
      if b.seatId.Some? && b.seatId.value !in seats {
        return Failure(InvalidSeat);
      }
      var k := IndexOfId(rows, id);
      if k.None? {
        return Failure(NotFound);
      }
      var s := UpdatedStudent(rows[k.value], b);
      if SlotTaken(rows, s) {
        return Failure(SeatTaken);
      }
      UpdatePreservesInvariant(id, b, rows, shifts, seats);
      rows := rows[k.value := s];
      r := Success(s);
    }

    /** POST `/:id/renew`. */
    method Renew(id: int, start: Option<Date>, end: Option<Date>) returns (r: Result<Student, StudentError>)
      requires Valid()
      modifies this
      ensures Valid() && nextId == old(nextId)
      ensures r == RenewOutcome(id, start, end, old(rows))
      ensures rows == if r.Success? then old(rows)[IndexOfId(old(rows), id).value := r.value] else old(rows)
    {
      if start.None? || end.None? {
        return Failure(MissingDates);
      }
      var k := IndexOfId(rows, id);
      if k.None? {
        return Failure(NotFound);
      }
      RenewPreservesInvariant(id, start, end, rows);
      var s := rows[k.value].(membershipStart := start.value, membershipEnd := end.value, status := ACTIVE);
      rows := rows[k.value := s];
      r := Success(s);
    }

    /** DELETE `/:id`. */
    method Delete(id: int) returns (r: Result<Student, StudentError>)
      requires Valid()
      modifies this
      ensures Valid() && nextId == old(nextId)
      ensures r == DeleteOutcome(id, old(rows))
      ensures r.Success? ==> var k := IndexOfId(old(rows), id).value; rows == old(rows)[..k] + old(rows)[k + 1..]
      ensures r.Failure? ==> rows == old(rows)
    {
      var k := IndexOfId(rows, id);
      if k.None? {
        return Failure(NotFound);
      }
      RemovePreservesInvariant(rows, k.value);
      r := Success(rows[k.value]);
      rows := rows[..k.value] + rows[k.value + 1..];
    }
  }

  /** A request to one of the routes that change the table. */
  datatype Request =
    | CreateRequest(body: StudentBody, today: Date)
    | UpdateRequest(id: int, changes: StudentBody)
    | RenewRequest(renewId: int, start: Option<Date>, end: Option<Date>)
    | DeleteRequest(deleteId: int)

  /** The table after a request, given the existing shift and seat ids and the
      next serial id. */
  function RowsAfter(rows: seq<Student>, shifts: set<Id>, seats: set<Id>, nextId: Id, req: Request)
    : (after: seq<Student>)
    ensures |after| == |rows| + (if req.CreateRequest? && |after| != |rows| then 1 else 0)
                              - (if req.DeleteRequest? && |after| != |rows| then 1 else 0)
  {
    match req
    case CreateRequest(b, today) =>
      var r := CreateOutcome(b, rows, shifts, seats, nextId, today);
      if r.Success? then rows + [r.value] else rows
    case UpdateRequest(id, b) =>
      var r := UpdateOutcome(id, b, rows, shifts, seats);
      if r.Success? then rows[IndexOfId(rows, id).value := r.value] else rows
    case RenewRequest(id, start, end) =>
      var r := RenewOutcome(id, start, end, rows);
      if r.Success? then rows[IndexOfId(rows, id).value := r.value] else rows
    case DeleteRequest(id) =>
      var k := IndexOfId(rows, id);
      if k.None? then rows else rows[..k.value] + rows[k.value + 1..]
  }

  /** Every route keeps the table invariant. */
  lemma RequestPreservesInvariant(rows: seq<Student>, shifts: set<Id>, seats: set<Id>, nextId: Id, req: Request)
    requires TableInvariant(rows) && forall k :: 0 <= k < |rows| ==> rows[k].id < nextId
    ensures TableInvariant(RowsAfter(rows, shifts, seats, nextId, req))
  {
    match req
    case CreateRequest(b, today) =>
      if CreateOutcome(b, rows, shifts, seats, nextId, today).Success? {
        CreatePreservesInvariant(b, rows, shifts, seats, nextId, today);
      }
    case UpdateRequest(id, b) =>
      if UpdateOutcome(id, b, rows, shifts, seats).Success? {
        UpdatePreservesInvariant(id, b, rows, shifts, seats);
      }
    case RenewRequest(id, start, end) =>
      if RenewOutcome(id, start, end, rows).Success? {
        RenewPreservesInvariant(id, start, end, rows);
      }
    case DeleteRequest(id) =>
      if IndexOfId(rows, id).Some? {
        RemovePreservesInvariant(rows, IndexOfId(rows, id).value);
      }
  }

  /** No route writes "expired": a row that is "expired" after a request was
      already there, with the same id and "expired", before it. */
  lemma NoRouteWritesExpired(rows: seq<Student>, shifts: set<Id>, seats: set<Id>, nextId: Id, req: Request, j: nat)
    requires j < |RowsAfter(rows, shifts, seats, nextId, req)|
    requires RowsAfter(rows, shifts, seats, nextId, req)[j].status == EXPIRED
    ensures exists k :: 0 <= k < |rows| && rows[k].id == RowsAfter(rows, shifts, seats, nextId, req)[j].id
                       && rows[k].status == EXPIRED
  {
    var after := RowsAfter(rows, shifts, seats, nextId, req);
    match req
    case CreateRequest(b, today) =>
      assert after[j] == rows[j];
    case UpdateRequest(id, b) =>
      assert after[j].id == rows[j].id && after[j].status == rows[j].status;
    case RenewRequest(id, start, end) =>
      assert after[j] == rows[j];
    case DeleteRequest(id) =>
      var k := IndexOfId(rows, id);
      if k.Some? {
        assert after[j] == rows[if j < k.value then j else j + 1];
      }
  }

  // ---------------------------------------------------------------------------
  // GET list routes and the dashboard counts.

  function ByName(): (Student, Student) -> bool {
    (a: Student, b: Student) => LexLe(a.name, b.name)
  }

  function ByMembershipEnd(): (Student, Student) -> bool {
    (a: Student, b: Student) => a.membershipEnd <= b.membershipEnd
  }

  lemma OrdersAreTotalPreorders()
    ensures TotalPreorder(ByName()) && TotalPreorder(ByMembershipEnd())
  {
    LexKeyIsTotalPreorder((s: Student) => s.name, ByName());
    IntKeyIsTotalPreorder((s: Student) => s.membershipEnd, ByMembershipEnd());
  }

  /** The students satisfying `p`, ordered by `le`. */
  function Select(rows: seq<Student>, p: Student -> bool, le: (Student, Student) -> bool): (r: seq<Student>)
    requires le == ByName() || le == ByMembershipEnd()
    ensures multiset(r) == multiset(Filter(rows, p))
    ensures forall s :: s in r <==> s in rows && p(s)
    ensures SortedBy(r, le)
  {
    var f := Filter(rows, p);
    var r := SortBy(f, le);
    OrdersAreTotalPreorders();
    SortBySorted(f, le);
    assert forall s :: s in r <==> s in multiset(f);
    r
  }

  predicate CreatedWithin(s: Student, fromDate: Option<Date>, toDate: Option<Date>) {
    (fromDate.None? || s.createdAt >= fromDate.value) && (toDate.None? || s.createdAt <= toDate.value)
  }

  /** GET `/`: optionally bounded by creation date, ordered by name. */
  function ListStudents(rows: seq<Student>, fromDate: Option<Date>, toDate: Option<Date>): (r: seq<Student>)
    ensures forall s :: s in r <==> s in rows && CreatedWithin(s, fromDate, toDate)
    ensures multiset(r) == multiset(Filter(rows, (s: Student) => CreatedWithin(s, fromDate, toDate)))
    ensures SortedBy(r, ByName())
  {
    Select(rows, (s: Student) => CreatedWithin(s, fromDate, toDate), ByName())
  }

  /** GET `/active`. */
  function ActiveStudents(rows: seq<Student>): (r: seq<Student>)
    ensures forall s :: s in r <==> s in rows && s.status == ACTIVE
    ensures multiset(r) == multiset(Filter(rows, (s: Student) => s.status == ACTIVE))
    ensures SortedBy(r, ByName())
  {
    Select(rows, (s: Student) => s.status == ACTIVE, ByName())
  }

  /** GET `/expired`. */
  function ExpiredStudents(rows: seq<Student>): (r: seq<Student>)
    ensures forall s :: s in r <==> s in rows && s.status == EXPIRED
    ensures multiset(r) == multiset(Filter(rows, (s: Student) => s.status == EXPIRED))
    ensures SortedBy(r, ByName())
  {
    Select(rows, (s: Student) => s.status == EXPIRED, ByName())
  }

  /** GET `/expiring-soon`: active memberships ending within 30 days of
      `today`, including those already past, ordered by end date. */
  function ExpiringSoon(rows: seq<Student>, today: Date): (r: seq<Student>)
    ensures forall s :: s in r <==> s in rows && s.status == ACTIVE && s.membershipEnd <= today + 30
    ensures multiset(r) == multiset(Filter(rows, (s: Student) => s.status == ACTIVE && s.membershipEnd <= today + 30))
    ensures SortedBy(r, ByMembershipEnd())
  {
    Select(rows, (s: Student) => s.status == ACTIVE && s.membershipEnd <= today + 30, ByMembershipEnd())
  }

  /** The filter of GET `/shift/:shiftId`. */
  predicate InShiftView(s: Student, shiftId: int, search: Option<string>, status: Option<string>) {
    && s.shiftId == Some(shiftId)
    && (!Truthy(search) || ContainsIgnoreCase(s.name, search.value)
        || (s.phone.Some? && ContainsIgnoreCase(s.phone.value, search.value)))
    && (!Truthy(status) || status.value == "all" || s.status == status.value)
  }

  /** GET `/shift/:shiftId`. */
  function StudentsInShift(rows: seq<Student>, shiftId: int, search: Option<string>, status: Option<string>)
    : (r: seq<Student>)
    ensures forall s :: s in r <==> s in rows && InShiftView(s, shiftId, search, status)
    ensures multiset(r) == multiset(Filter(rows, (s: Student) => InShiftView(s, shiftId, search, status)))
    ensures SortedBy(r, ByName())
  {
    Select(rows, (s: Student) => InShiftView(s, shiftId, search, status), ByName())
  }

  /** With no search text and status "all" (or none), the shift view is every
      student of the shift. */
  lemma ShiftViewUnfiltered(rows: seq<Student>, shiftId: int, status: Option<string>)
    requires status.None? || status.value == "" || status.value == "all"
    ensures forall s :: s in StudentsInShift(rows, shiftId, None, status) <==> s in rows && s.shiftId == Some(shiftId)
  {
  }

  /** GET `/:id`. */
  function FindStudent(rows: seq<Student>, id: int): (r: Result<Student, StudentError>)
    ensures r.Success? ==> r.value in rows && r.value.id == id
    ensures r.Failure? ==> r.error == NotFound && forall s :: s in rows ==> s.id != id
  {
    var k := IndexOfId(rows, id);
    if k.None? then Failure(NotFound) else Success(rows[k.value])
  }

  datatype Stats = Stats(totalStudents: nat, activeStudents: nat, expiredMemberships: nat)

  /** GET `/stats/dashboard`: the number of rows, of rows stored `'active'` and
      of rows stored `'expired'`. */
  function DashboardStats(rows: seq<Student>): (r: Stats)
    ensures r.totalStudents == |rows|
    ensures r.activeStudents == |set k | 0 <= k < |rows| && rows[k].status == ACTIVE|
    ensures r.expiredMemberships == |set k | 0 <= k < |rows| && rows[k].status == EXPIRED|
    ensures r.activeStudents + r.expiredMemberships <= r.totalStudents
    ensures r.activeStudents + r.expiredMemberships == r.totalStudents <==>
      forall k :: 0 <= k < |rows| ==> rows[k].status == ACTIVE || rows[k].status == EXPIRED
  {
    var isActive := (s: Student) => s.status == ACTIVE;
    var isExpired := (s: Student) => s.status == EXPIRED;
    FilterDisjointCounts(rows, isActive, isExpired);
    FilterSize(rows, isActive);
    FilterSize(rows, isExpired);
    assert IndicesWhere(rows, isActive) == set k | 0 <= k < |rows| && rows[k].status == ACTIVE;
    assert IndicesWhere(rows, isExpired) == set k | 0 <= k < |rows| && rows[k].status == EXPIRED;
    Stats(|rows|, |Filter(rows, isActive)|, |Filter(rows, isExpired)|)
  }
}

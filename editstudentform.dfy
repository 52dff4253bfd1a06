/**
 * The client-side rules of the edit-student form
 * (Frontend/src/components/EditStudentForm.tsx): how the loaded student fills
 * the form, which seats can be chosen, and the phone check on submit.
 */
module EditStudentForm {
  import opened Common
  import Seats
  import AddStudentForm
  import Students

  /** The student as GET `/api/students/:id` returns it, camel-cased; a missing
      or null field is None. `fee` is the fee as the response carries it. */
  datatype LoadedStudent = LoadedStudent(
    name: Option<string>,
    email: Option<string>,
    phone: Option<string>,
    membershipStart: Option<string>,
    membershipEnd: Option<string>,
    shiftId: Option<int>,
    seatId: Option<int>,
    fee: Option<string>)

  /** The form state. `shiftId` None is the empty selection `''`. */
  datatype FormData = FormData(
    name: string,
    email: string,
    phone: string,
    membershipStart: string,
    membershipEnd: string,
    shiftId: Option<int>,
    seatId: Option<int>,
    fee: string)

  /** `x || ''`. */
  function OrEmpty(x: Option<string>): (r: string)
    ensures Truthy(x) ==> r == x.value
    ensures !Truthy(x) ==> r == ""
  {
    if Truthy(x) then x.value else ""
  }

  /** `x || null` (or `|| ''`) for a numeric id: absent and 0 are both falsy. */
  function IdOrNone(x: Option<int>): (r: Option<int>)
    ensures r.Some? <==> x.Some? && x.value != 0
    ensures r.Some? ==> r == x
  {
    if x.Some? && x.value != 0 then x else None
  }

  /** The form built from the loaded student. */
  function InitialForm(s: LoadedStudent): FormData {
    FormData(OrEmpty(s.name), OrEmpty(s.email), OrEmpty(s.phone), OrEmpty(s.membershipStart),
             OrEmpty(s.membershipEnd), IdOrNone(s.shiftId), IdOrNone(s.seatId),
             if Truthy(s.fee) then s.fee.value else "")
  }

  /** Every missing text field starts as `''`, a missing seat as no seat, and
      a present value is carried over unchanged; loading a student and reading
      the form back loses nothing but the difference between absent and
      empty. */
  lemma InitialFormDefaults(s: LoadedStudent)
    ensures var f := InitialForm(s);
      && OrNull(Some(f.name)) == OrNull(s.name) && OrNull(Some(f.email)) == OrNull(s.email)
      && OrNull(Some(f.phone)) == OrNull(s.phone) && OrNull(Some(f.fee)) == OrNull(s.fee)
      && OrNull(Some(f.membershipStart)) == OrNull(s.membershipStart)
      && OrNull(Some(f.membershipEnd)) == OrNull(s.membershipEnd)
      && (s.seatId.None? ==> f.seatId.None?) && (s.shiftId.None? ==> f.shiftId.None?)
  {
  }

  // ---------------------------------------------------------------------------
  // Seats.

  /** The seat list: fetched for the selected shift, empty when none is selected. */
  function SeatsFor(shiftId: Option<int>, fetched: seq<Seats.SeatRow>): (r: seq<Seats.SeatRow>)
    ensures shiftId.None? ==> r == []
  {
    if shiftId.Some? then fetched else []
  }

  /** `availableSeats`: unassigned seats and the student's own seat, in list order. */
  function SelectableSeats(seats: seq<Seats.SeatRow>, current: Option<int>): seq<Seats.SeatRow> {
    Filter(seats, (seat: Seats.SeatRow) => !seat.isAssigned || Some(seat.id) == current)
  }

  /** A seat can be chosen exactly when it is free or is the one the student
      already holds; a student without a seat sees only the free ones. */
  lemma SelectableSeatsAre(seats: seq<Seats.SeatRow>, current: Option<int>, seat: Seats.SeatRow)
    ensures seat in SelectableSeats(seats, current) <==>
      seat in seats && (!seat.isAssigned || current == Some(seat.id))
    ensures current.None? ==> SelectableSeats(seats, current) == AddStudentForm.AvailableSeats(seats)
  {
    var p := (seat: Seats.SeatRow) => !seat.isAssigned || Some(seat.id) == current;
    if seat in seats && p(seat) {
      var k :| 0 <= k < |seats| && seats[k] == seat;
    }
    if current.None? {
      FilterSame(seats, p, AddStudentForm.IsFree);
    }
  }

  /** Filtering by two conditions that agree on every element gives the same list. */
  lemma {:induction false} FilterSame(s: seq<Seats.SeatRow>, p: Seats.SeatRow -> bool, q: Seats.SeatRow -> bool)
    requires forall x :: p(x) == q(x)
    ensures Filter(s, p) == Filter(s, q)
  {
    if s != [] {
      FilterSame(s[1..], p, q);
    }
  }

  /** `seatOptions`. */
  function SeatOptions(seats: seq<Seats.SeatRow>, current: Option<int>): (r: seq<AddStudentForm.SeatOption>)
    ensures r != [] && r[0] == AddStudentForm.NO_SEAT
  {
    AddStudentForm.OptionsOf(SelectableSeats(seats, current))
  }

  /** The student's own seat, when the fetched list holds it, is always among
      the options, assigned or not. */
  lemma CurrentSeatOffered(seats: seq<Seats.SeatRow>, k: nat)
    requires k < |seats|
    ensures exists i :: 1 <= i < |SeatOptions(seats, Some(seats[k].id))|
                        && SeatOptions(seats, Some(seats[k].id))[i].value == Some(seats[k].id)
  {
    var current: Option<int> := Some(seats[k].id);
    SelectableSeatsAre(seats, current, seats[k]);
    var selectable := SelectableSeats(seats, current);
    var j :| 0 <= j < |selectable| && selectable[j] == seats[k];
    assert SeatOptions(seats, current)[j + 1].value == current;
  }

  // ---------------------------------------------------------------------------
  // Submit.

  /** The body handed to `updateStudent`: the form with `fee` null when empty
      (`fee` is the text `parseFloat` reads). */
  datatype UpdatePayload = UpdatePayload(
    name: string,
    email: string,
    phone: string,
    membershipStart: string,
    membershipEnd: string,
    shiftId: Option<int>,
    seatId: Option<int>,
    fee: Option<string>)

  datatype SubmitOutcome = Blocked(message: string) | Submitted(payload: UpdatePayload)

  /** `handleSubmit`. */
  function HandleSubmit(form: FormData): (r: SubmitOutcome)
    ensures r.Blocked? <==> IsBlank(form.phone)
    ensures r.Blocked? ==> r.message == "Phone number is required"
    ensures r.Submitted? ==>
      && r.payload.name == form.name && r.payload.email == form.email && r.payload.phone == form.phone
      && r.payload.membershipStart == form.membershipStart && r.payload.membershipEnd == form.membershipEnd
      && r.payload.seatId == form.seatId && r.payload.shiftId == form.shiftId
      && (r.payload.fee.None? <==> form.fee == "") && (r.payload.fee.Some? ==> r.payload.fee.value == form.fee)
  {
    if IsBlank(form.phone) then Blocked("Phone number is required")
    else Submitted(UpdatePayload(form.name, form.email, form.phone, form.membershipStart, form.membershipEnd,
                                 form.shiftId, form.seatId, OrNull(Some(form.fee))))
  }

  /** A student stored without a phone cannot be saved from this form until a
      phone is typed in. */
  lemma MissingPhoneBlocksSave(s: LoadedStudent)
    requires !Truthy(s.phone)
    ensures HandleSubmit(InitialForm(s)) == Blocked("Phone number is required")
  {
    BlankIffAllSpace("");
  }

  /** The route behind the form has no such rule: an update without a phone
      is never refused for it. */
  lemma ServerAllowsMissingPhone(id: int, b: Students.StudentBody, rows: seq<Students.Student>,
                                 shifts: set<Students.Id>, seats: set<Students.Id>)
    requires b.phone.None?
    ensures Students.UpdateOutcome(id, b, rows, shifts, seats) != Failure(Students.InvalidPhone)
  {
  }
}

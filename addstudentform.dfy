/**
 * The client-side rules of the add-student form
 * (Frontend/src/components/AddStudentForm.tsx): the image size limit, the seat
 * choices offered for the selected shift, the validation run on submit and
 * the normalisation of the form into the request payload.
 *
 * The seat rows are those GET `/api/seats` answers, after the response
 * interceptor has camel-cased them. Uploading the image is an outside call: the
 * model takes the URL it returns as a parameter.
 */
module AddStudentForm {
  import opened Common
  import Seats

  /** A selected file; only its size matters here. */
  datatype ImageFile = ImageFile(name: string, size: nat)

  /** The form state; every text input holds a string, `''` when untouched. */
  datatype FormData = FormData(
    name: string,
    email: string,
    phone: string,
    membershipStart: string,
    membershipEnd: string,
    shiftId: string,
    seatId: Option<int>,
    fee: string,
    image: Option<ImageFile>,
    address: string)

  const INITIAL_FORM := FormData("", "", "", "", "", "", None, "", None, "")

  // ---------------------------------------------------------------------------
  // `handleImageChange`

  /** 200 KB. */
  const MAX_IMAGE_BYTES: nat := 200 * 1024

  predicate ImageWithinLimit(form: FormData) {
    form.image.None? || form.image.value.size <= MAX_IMAGE_BYTES
  }

  datatype ImageChange = ImageChange(form: FormData, error: Option<string>)

  /** Choosing a file (or none): a file over the limit is refused with a
      message and the form is left as it was. */
  function HandleImageChange(form: FormData, file: Option<ImageFile>): (r: ImageChange)
    ensures r.error.Some? <==> file.Some? && file.value.size > MAX_IMAGE_BYTES
    ensures r.error.Some? ==> r.form == form && r.error.value == "Image size exceeds 200KB limit"
    ensures r.error.None? ==> r.form == form.(image := if file.Some? then file else form.image)
  {
    if file.None? then ImageChange(form, None)
    else if file.value.size > MAX_IMAGE_BYTES then ImageChange(form, Some("Image size exceeds 200KB limit"))
    else ImageChange(form.(image := file), None)
  }

  /** No sequence of file choices ever puts an image over the limit into the
      form, and a file of exactly 200 KB is accepted. */
  lemma ImageLimitKept(form: FormData, file: Option<ImageFile>)
    requires ImageWithinLimit(form)
    ensures ImageWithinLimit(HandleImageChange(form, file).form)
    ensures file.Some? && file.value.size == 204800 ==> HandleImageChange(form, file).form.image == file
  {
  }

  // ---------------------------------------------------------------------------
  // Seats and seat options.

  /** The seat list: fetched for the selected shift, empty when none is selected. */
  function SeatsFor(shiftId: string, fetched: seq<Seats.SeatRow>): (r: seq<Seats.SeatRow>)
    ensures shiftId == "" ==> r == []
    ensures shiftId != "" ==> r == fetched
  {
    if shiftId != "" then fetched else []
  }

  predicate IsFree(seat: Seats.SeatRow) {
    !seat.isAssigned
  }

  /** `availableSeats`: the unassigned seats, in list order. */
  function AvailableSeats(seats: seq<Seats.SeatRow>): (r: seq<Seats.SeatRow>)
    ensures forall s :: s in r <==> s in seats && !s.isAssigned
    ensures forall s :: multiset(r)[s] == if s.isAssigned then 0 else multiset(seats)[s]
  {
    assert forall s :: multiset(Filter(seats, IsFree))[s] == if s.isAssigned then 0 else multiset(seats)[s] by {
      forall s ensures multiset(Filter(seats, IsFree))[s] == if s.isAssigned then 0 else multiset(seats)[s] {
        FilterMultiplicity(seats, IsFree, s);
      }
    }
    Filter(seats, IsFree)
  }

  /** The free seats of a list split in two are those of the first part, then
      those of the second; a single seat is kept exactly when it is free. So
      the drop-down lists the free seats in the order they were fetched. */
  lemma AvailableSeatsInOrder(a: seq<Seats.SeatRow>, b: seq<Seats.SeatRow>)
    ensures AvailableSeats(a + b) == AvailableSeats(a) + AvailableSeats(b)
    ensures forall s :: AvailableSeats([s]) == if s.isAssigned then [] else [s]
  {
    FilterAppend(a, b, IsFree);
  }

  /** An entry of the seat drop-down; `value` None is the "None" entry. */
  datatype SeatOption = SeatOption(value: Option<int>, caption: string)

  const NO_SEAT := SeatOption(None, "None")

  /** The drop-down built from a list of seats: "None" first, then one entry
      per seat, in list order. */
  function OptionsOf(seats: seq<Seats.SeatRow>): (r: seq<SeatOption>)
    ensures |r| == |seats| + 1 && r[0] == NO_SEAT
    ensures forall i :: 0 <= i < |seats| ==> r[i + 1] == SeatOption(Some(seats[i].id), seats[i].seatNumber)
  {
    [NO_SEAT] + seq(|seats|, i requires 0 <= i < |seats| => SeatOption(Some(seats[i].id), seats[i].seatNumber))
  }

  /** `seatOptions`. */
  function SeatOptions(seats: seq<Seats.SeatRow>): seq<SeatOption> {
    OptionsOf(AvailableSeats(seats))
  }

  /** The drop-down offers "None" first and, after it, a seat id exactly when
      the list holds an unassigned seat with that id. */
  lemma SeatOptionsOffered(seats: seq<Seats.SeatRow>, id: int)
    ensures SeatOptions(seats)[0] == NO_SEAT
    ensures (exists i :: 1 <= i < |SeatOptions(seats)| && SeatOptions(seats)[i].value == Some(id))
            <==> (exists s :: s in seats && !s.isAssigned && s.id == id)
  {
    var free := AvailableSeats(seats);
    var opts := OptionsOf(free);
    assert SeatOptions(seats) == opts;
    if i :| 1 <= i < |opts| && opts[i].value == Some(id) {
      OfferedSeatIsFree(seats, free, opts, i);
    }
    if s :| s in seats && !s.isAssigned && s.id == id {
      FreeSeatIsOffered(seats, free, opts, s);
    }
  }

  /** The seat behind an offered id is a free seat of the list. */
  lemma OfferedSeatIsFree(seats: seq<Seats.SeatRow>, free: seq<Seats.SeatRow>, opts: seq<SeatOption>, i: nat)
    requires free == AvailableSeats(seats) && opts == OptionsOf(free) && 1 <= i < |opts|
    ensures free[i - 1] in seats && !free[i - 1].isAssigned && opts[i].value == Some(free[i - 1].id)
  {
    assert free[i - 1] in free;
  }

  /** Every free seat of the list is offered. */
  lemma FreeSeatIsOffered(seats: seq<Seats.SeatRow>, free: seq<Seats.SeatRow>, opts: seq<SeatOption>,
                          s: Seats.SeatRow)
    requires free == AvailableSeats(seats) && opts == OptionsOf(free) && s in seats && !s.isAssigned
    ensures exists i :: 1 <= i < |opts| && opts[i].value == Some(s.id)
  {
    var k :| 0 <= k < |free| && free[k] == s;
    assert opts[k + 1].value == Some(s.id);
  }

  /** Without a selected shift the only choice is "None". */
  lemma NoShiftOnlyNone(fetched: seq<Seats.SeatRow>)
    ensures SeatOptions(SeatsFor("", fetched)) == [NO_SEAT]
  {
  }

  // ---------------------------------------------------------------------------
  // Validation on submit.

  /** A required field: its title and whether the form's value for it is
      blank after trimming. */
  datatype Field = Field(title: string, blank: bool)

  /** `requiredFields`, with the form's values, in checking order. */
  function RequiredFields(form: FormData): seq<Field> {
    [Field("Name", IsBlank(form.name)), Field("Membership Start", IsBlank(form.membershipStart)),
     Field("Membership End", IsBlank(form.membershipEnd))]
  }

  /** The position of the first blank field, or the number of fields when
      none is. */
  function FirstBlank(fields: seq<Field>): (k: nat)
    ensures k <= |fields|
    ensures forall j :: 0 <= j < k ==> !fields[j].blank
    ensures k < |fields| ==> fields[k].blank
  {
    if fields == [] then 0
    else if fields[0].blank then 0
    else 1 + FirstBlank(fields[1..])
  }

  /** The title of the first blank required field, if any. */
  function FirstMissing(fields: seq<Field>): (r: Option<string>)
    ensures r.None? <==> forall i :: 0 <= i < |fields| ==> !fields[i].blank
    ensures r.Some? ==> r.value == fields[FirstBlank(fields)].title
  {
    var k := FirstBlank(fields);
    if k < |fields| then Some(fields[k].title) else None
  }

  // The e-mail pattern `^[^\s@]+@[^\s@]+\.[^\s@]+$`.

  /** A character of the class `[^\s@]`. */
  predicate Plain(c: char) {
    !IsSpace(c) && c != '@'
  }

  predicate AllPlain(s: string) {
    forall i :: 0 <= i < |s| ==> Plain(s[i])
  }

  /** `s` splits as `local@middle.last` at the `@` in position `a` and the `.`
      in position `b`, with the three parts non-empty and made of plain
      characters: one way the pattern can match. */
  predicate EmailSplit(s: string, a: int, b: int) {
    0 < a && a + 1 < b && b + 1 < |s| && s[a] == '@' && s[b] == '.'
    && AllPlain(s[..a]) && AllPlain(s[a + 1..b]) && AllPlain(s[b + 1..])
  }

  /** `emailRegex.test(s)`. */
  predicate EmailMatches(s: string) {
    exists a, b | 0 <= a < b < |s| :: EmailSplit(s, a, b)
  }

  /** The same condition said plainly: no white space, exactly one `@`, a
      non-empty local part, and a domain with a `.` that is neither its first
      nor its last character. */
  predicate WellFormedEmail(s: string) {
    (forall i :: 0 <= i < |s| ==> !IsSpace(s[i]))
    && exists a | 0 < a < |s| :: s[a] == '@' && (forall i :: 0 <= i < |s| && s[i] == '@' ==> i == a)
                               && exists k | a + 1 < k < |s| - 1 :: s[k] == '.'
  }

  lemma EmailMatchesIsWellFormed(s: string)
    ensures EmailMatches(s) <==> WellFormedEmail(s)
  {
    if EmailMatches(s) {
      var a, b :| 0 <= a < b < |s| && EmailSplit(s, a, b);
      forall i | 0 <= i < |s|
        ensures !IsSpace(s[i]) && (s[i] == '@' ==> i == a)
      {
        if i < a {
          assert s[i] == s[..a][i];
        } else if a < i < b {
          assert s[i] == s[a + 1..b][i - a - 1];
        } else if b < i {
          assert s[i] == s[b + 1..][i - b - 1];
        }
      }
      assert s[b] == '.';
    }
    if WellFormedEmail(s) {
      var a :| 0 < a < |s| && s[a] == '@' && (forall i :: 0 <= i < |s| && s[i] == '@' ==> i == a)
               && exists k | a + 1 < k < |s| - 1 :: s[k] == '.';
      var b :| a + 1 < b < |s| - 1 && s[b] == '.';
      assert AllPlain(s[..a]) by {
        forall i | 0 <= i < a ensures Plain(s[..a][i]) {
          assert s[..a][i] == s[i];
        }
      }
      var middle, last := s[a + 1..b], s[b + 1..];
      assert AllPlain(middle) by {
        forall i | 0 <= i < |middle| ensures Plain(middle[i]) {
          assert middle[i] == s[a + 1 + i];
        }
      }
      assert AllPlain(last) by {
        forall i | 0 <= i < |last| ensures Plain(last[i]) {
          assert last[i] == s[b + 1 + i];
        }
      }
      assert EmailSplit(s, a, b);
    }
  }

  /** A counterexample to looser readings: the parts may contain further dots,
      but a second `@` is refused. */
  lemma EmailExamples()
    ensures EmailMatches("a.b@c.d.e")
    ensures !EmailMatches("a@b@c.d")
  {
    assert EmailSplit("a.b@c.d.e", 3, 5) by {
      assert AllPlain("a.b@c.d.e"[..3]) by { assert "a.b@c.d.e"[..3] == "a.b"; }
      assert AllPlain("a.b@c.d.e"[4..5]) by { assert "a.b@c.d.e"[4..5] == "c"; }
      assert AllPlain("a.b@c.d.e"[6..]) by { assert "a.b@c.d.e"[6..] == "d.e"; }
    }
    EmailMatchesIsWellFormed("a@b@c.d");
    assert "a@b@c.d"[1] == '@' && "a@b@c.d"[3] == '@';
  }

  /** Why submitting is refused. */
  datatype FormError = Missing(title: string) | BadEmail

  /** The toast shown for an error. */
  function Message(e: FormError): string {
    match e
    case Missing(title) => title + " is required"
    case BadEmail => "Please enter a valid email address"
  }

  /** The checks of `handleSubmit`, in order: the required fields, then the
      e-mail pattern for a non-empty address. */
  function ValidationError(form: FormData): (r: Option<FormError>)
    ensures FirstMissing(RequiredFields(form)).Some? ==> r == Some(Missing(FirstMissing(RequiredFields(form)).value))
    ensures FirstMissing(RequiredFields(form)).None? ==>
      (r.None? <==> form.email == "" || EmailMatches(form.email)) && (r.Some? ==> r.value == BadEmail)
  {
    var missing := FirstMissing(RequiredFields(form));
    if missing.Some? then Some(Missing(missing.value))
    else if form.email != "" && !EmailMatches(form.email) then Some(BadEmail)
    else None
  }

  /** With every required field filled, the form is refused exactly when the
      e-mail is non-empty and not well formed. */
  lemma EmailRule(form: FormData)
    requires !IsBlank(form.name) && !IsBlank(form.membershipStart) && !IsBlank(form.membershipEnd)
    ensures ValidationError(form).None? <==> form.email == "" || WellFormedEmail(form.email)
  {
    MissingInOrder(false, false, false, RequiredFields(form));
    EmailMatchesIsWellFormed(form.email);
  }

  /** The first blank required field, in the order name, start, end, is the
      one reported. */
  lemma RequiredOrder(form: FormData)
    ensures IsBlank(form.name) ==> ValidationError(form) == Some(Missing("Name"))
    ensures !IsBlank(form.name) && IsBlank(form.membershipStart) ==>
      ValidationError(form) == Some(Missing("Membership Start"))
    ensures !IsBlank(form.name) && !IsBlank(form.membershipStart) && IsBlank(form.membershipEnd) ==>
      ValidationError(form) == Some(Missing("Membership End"))
  {
    var x, y, z := IsBlank(form.name), IsBlank(form.membershipStart), IsBlank(form.membershipEnd);
    MissingInOrder(x, y, z, RequiredFields(form));
  }

  /** Three checks in a row report the first that fails. */
  lemma MissingInOrder(x: bool, y: bool, z: bool, fields: seq<Field>)
    requires fields == [Field("Name", x), Field("Membership Start", y), Field("Membership End", z)]
    ensures FirstMissing(fields) == (if x then Some("Name") else if y then Some("Membership Start")
                                     else if z then Some("Membership End") else None)
  {
    var f1, f2 := fields[1..], fields[2..];
    assert f2[1..] == [];
    assert FirstBlank(f2) == if z then 0 else 1;
    assert f1[1..] == f2;
    assert FirstBlank(f1) == if y then 0 else 1 + FirstBlank(f2);
    assert fields[1..] == f1;
  }

  // ---------------------------------------------------------------------------
  // The request payload.

  /** The body handed to `addStudent` (before the request interceptor). `fee`
      is the text `parseFloat` reads, and `shiftId` the value of
      `parseInt(shiftId, 10)`. */
  datatype StudentPayload = StudentPayload(
    name: string,
    email: Option<string>,
    phone: Option<string>,
    membershipStart: string,
    membershipEnd: string,
    shiftId: Option<Number>,
    seatId: Option<int>,
    fee: Option<string>,
    status: string,
    profileImageUrl: string,
    address: Option<string>)

  function Payload(form: FormData, imageUrl: string): StudentPayload {
    StudentPayload(form.name, OrNull(Some(form.email)), OrNull(Some(form.phone)),
                   form.membershipStart, form.membershipEnd,
                   if form.shiftId != "" then Some(ParseInt(form.shiftId, Decimal)) else None,
                   form.seatId, OrNull(Some(form.fee)), "active", imageUrl,
                   OrNull(Some(Trim(form.address))))
  }

  /** Empty text becomes null, the address is trimmed (a blank one becomes
      null), the shift id is parsed in base 10, and the status is `'active'`. */
  lemma PayloadNormalised(form: FormData, imageUrl: string)
    ensures var p := Payload(form, imageUrl);
      && p.status == "active"
      && (p.email.None? <==> form.email == "") && (p.email.Some? ==> p.email.value == form.email)
      && (p.phone.None? <==> form.phone == "") && (p.phone.Some? ==> p.phone.value == form.phone)
      && (p.address.None? <==> IsBlank(form.address)) && (p.address.Some? ==> p.address.value == Trim(form.address))
      && (p.shiftId.None? <==> form.shiftId == "")
      && (p.shiftId.Some? ==> p.shiftId.value == ParseInt(form.shiftId, Decimal))
      && p.seatId == form.seatId
  {
  }

  /** A shift chosen from the drop-down holds the decimal text of its id, which
      is sent as that id. */
  lemma ShiftIdSentAsChosen(form: FormData, id: nat, imageUrl: string)
    requires form.shiftId == IntToString(id)
    ensures Payload(form, imageUrl).shiftId == Some(Num(id))
  {
    ParseIntOfIntToString(id, Decimal);
  }

  datatype SubmitOutcome = Blocked(message: string) | Submitted(uploadedImage: bool, payload: StudentPayload)

  /** `handleSubmit`: `uploaded` is the URL the image upload answers with. A
      refused form uploads nothing and sends nothing. */
  function HandleSubmit(form: FormData, uploaded: string): (r: SubmitOutcome)
    ensures r.Blocked? <==> ValidationError(form).Some?
    ensures r.Blocked? ==> r.message == Message(ValidationError(form).value)
    ensures r.Submitted? ==>
      r.uploadedImage == form.image.Some?
      && r.payload == Payload(form, if form.image.Some? then uploaded else "")
  {
    var error := ValidationError(form);
    if error.Some? then Blocked(Message(error.value))
    else Submitted(form.image.Some?, Payload(form, if form.image.Some? then uploaded else ""))
  }

  /** The untouched form is refused, reporting the name first. */
  lemma EmptyFormRefused(uploaded: string)
    ensures HandleSubmit(INITIAL_FORM, uploaded) == Blocked(Message(Missing("Name")))
  {
    RequiredOrder(INITIAL_FORM);
  }
}

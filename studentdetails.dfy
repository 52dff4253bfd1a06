/**
 * What the student-details page shows (Frontend/src/pages/StudentDetails.tsx):
 * the displayed status, its label, the date formatting fallbacks and the
 * fallbacks for missing values.
 *
 * Turning an ISO date text into a date and back into `YYYY-MM-DD` is outside
 * the model: `dayText` stands for `new Date(x).toISOString().split('T')[0]`,
 * None where the text is not a valid date.
 */
module StudentDetails {
  import opened Common
  import Students
  import Dashboard

  /** The status the page shows: `'expired'` once the end has passed, the
      stored status otherwise. */
  function DisplayedStatus(membershipEnd: Students.Date, stored: string, now: int): (r: string)
    ensures Dashboard.Ended(membershipEnd, now) ==> r == Students.EXPIRED
    ensures !Dashboard.Ended(membershipEnd, now) ==> r == stored
  {
    if Dashboard.Ended(membershipEnd, now) then Students.EXPIRED else stored
  }

  /** The badge text: anything but `'active'` reads "Expired". */
  function StatusLabel(status: string): (r: string)
    ensures r == "Active" <==> status == Students.ACTIVE
    ensures r != "Active" ==> r == "Expired"
  {
    if status == "active" then "Active" else "Expired"
  }

  /** The page labels a student "Active" exactly when the dashboard counts it
      as active. */
  lemma LabelMatchesDashboard(s: Students.Student, now: int)
    ensures StatusLabel(DisplayedStatus(s.membershipEnd, s.status, now)) == "Active"
            <==> Dashboard.CountedActive(s, now)
  {
  }

  /** `formatDate`. */
  function FormatDate(iso: Option<string>, dayText: string -> Option<string>): (r: string)
    ensures !Truthy(iso) ==> r == "N/A"
    ensures Truthy(iso) && dayText(iso.value).None? ==> r == "N/A"
    ensures Truthy(iso) && dayText(iso.value).Some? ==> r == dayText(iso.value).value
  {
    if !Truthy(iso) then "N/A"
    else if dayText(iso.value).None? then "N/A"
    else dayText(iso.value).value
  }

  /** `x || fallback` for a displayed text. */
  function OrElse(x: Option<string>, fallback: string): (r: string)
    ensures Truthy(x) ==> r == x.value
    ensures !Truthy(x) ==> r == fallback
  {
    if Truthy(x) then x.value else fallback
  }

  /** The student as GET `/api/students/:id` returns it, camel-cased; a missing
      or null field is None. */
  datatype LoadedStudent = LoadedStudent(
    name: Option<string>,
    email: Option<string>,
    phone: Option<string>,
    address: Option<string>,
    status: string,
    membershipStart: Option<string>,
    membershipEnd: Students.Date,
    membershipEndText: Option<string>,
    shiftTitle: Option<string>,
    shiftDescription: Option<string>,
    seatNumber: Option<string>)

  /** The texts of the details card. */
  datatype Details = Details(name: string, email: string, phone: string, address: string, statusLabel: string,
                             start: string, end: string, shift: string, seat: string)

  /** How `${x}` renders an optional value in a template string. */
  function Interpolated(x: Option<string>): string {
    if x.Some? then x.value else "null"
  }

  function DetailsOf(s: LoadedStudent, now: int, dayText: string -> Option<string>): Details {
    Details(OrElse(s.name, "Unknown"), OrElse(s.email, "Unknown"), OrElse(s.phone, "N/A"),
            OrElse(s.address, "N/A"), StatusLabel(DisplayedStatus(s.membershipEnd, s.status, now)),
            FormatDate(s.membershipStart, dayText), FormatDate(s.membershipEndText, dayText),
            if Truthy(s.shiftTitle) then s.shiftTitle.value + " at " + Interpolated(s.shiftDescription)
            else "No shift assigned",
            OrElse(s.seatNumber, "None"))
  }

  /** Missing values show their fallbacks, and no field of the card is ever
      empty as long as valid dates format to some text. */
  lemma DetailsFallbacks(s: LoadedStudent, now: int, dayText: string -> Option<string>)
    requires forall t :: dayText(t).Some? ==> dayText(t).value != ""
    ensures var d := DetailsOf(s, now, dayText);
      && (!Truthy(s.name) ==> d.name == "Unknown") && (!Truthy(s.email) ==> d.email == "Unknown")
      && (!Truthy(s.phone) ==> d.phone == "N/A") && (!Truthy(s.address) ==> d.address == "N/A")
      && (!Truthy(s.seatNumber) ==> d.seat == "None") && (!Truthy(s.shiftTitle) ==> d.shift == "No shift assigned")
      && d.name != "" && d.email != "" && d.phone != "" && d.address != "" && d.statusLabel != ""
      && d.start != "" && d.end != "" && d.shift != "" && d.seat != ""
  {
  }
}

/**
 * The form rules of the settings page (Frontend/src/pages/Settings.tsx): the
 * new-user form and its role-to-permission defaults, the password form, the
 * profile form, and the reminder settings form. Each state change is a function from the previous form
 * state to the next, as the page's `(prev) => ({ ...prev, ... })` updates are.
 */
module SettingsPage {
  import opened Common
  import Auth

  /** `defaultStaffPermissions`. */
  const DEFAULT_STAFF_PERMISSIONS: seq<string> := ["view_dashboard", "manage_students", "manage_schedules"]

  /** The permissions that go with a role: the defaults for staff, none otherwise. */
  function PermissionsFor(role: string): (r: seq<string>)
    ensures role == Auth.STAFF ==> r == DEFAULT_STAFF_PERMISSIONS
    ensures role != Auth.STAFF ==> r == []
  {
    if role == Auth.STAFF then DEFAULT_STAFF_PERMISSIONS else []
  }

  // ---------------------------------------------------------------------------
  // The new-user form.

  datatype NewUserData = NewUserData(username: string, password: string, role: string, permissions: seq<string>)

  /** The form as the page first shows it and as it resets after a user is
      created. */
  const EMPTY_NEW_USER := NewUserData("", "", Auth.STAFF, [])

  /** The inputs of the new-user form. */
  datatype NewUserInput = UsernameInput | PasswordInput | RoleInput

  /** `handleNewUserChange`: the named input takes the value; choosing a role
      also replaces the permissions. */
  function HandleNewUserChange(prev: NewUserData, input: NewUserInput, value: string): (r: NewUserData)
    ensures input == RoleInput ==> r == prev.(role := value, permissions := PermissionsFor(value))
    ensures input != RoleInput ==> r.permissions == prev.permissions && r.role == prev.role
    ensures input == UsernameInput ==> r == prev.(username := value)
    ensures input == PasswordInput ==> r == prev.(password := value)
  {
    match input
    case UsernameInput => prev.(username := value)
    case PasswordInput => prev.(password := value)
    case RoleInput => prev.(role := value, permissions := PermissionsFor(value))
  }

  /** The permissions match the role. */
  predicate PermissionsMatchRole(d: NewUserData) {
    d.permissions == PermissionsFor(d.role)
  }

  /** Every change keeps permissions and role in step once they are, and
      choosing a role puts them in step; the initial form is not in step
      (staff with no permissions) until a role is chosen. */
  lemma NewUserChangeKeepsPermissions(prev: NewUserData, input: NewUserInput, value: string)
    ensures PermissionsMatchRole(prev) ==> PermissionsMatchRole(HandleNewUserChange(prev, input, value))
    ensures input == RoleInput ==> PermissionsMatchRole(HandleNewUserChange(prev, input, value))
    ensures !PermissionsMatchRole(EMPTY_NEW_USER)
  {
    assert DEFAULT_STAFF_PERMISSIONS != [];
  }

  datatype CreateOutcome = CreateRefused(message: string) | CreateSent(data: NewUserData)

  /** `handleCreateUser`: both username and password are needed, and the
      permissions sent are those of the role, whatever the form holds. */
  function HandleCreateUser(d: NewUserData): (r: CreateOutcome)
    ensures r.CreateRefused? <==> d.username == "" || d.password == ""
    ensures r.CreateRefused? ==> r.message == "Username and password are required"
    ensures r.CreateSent? ==> r.data == d.(permissions := PermissionsFor(d.role))
  {
    if d.username == "" || d.password == "" then CreateRefused("Username and password are required")
    else CreateSent(d.(permissions := PermissionsFor(d.role)))
  }

  /** Two forms that differ only in their permissions send the same user, so
      the permissions sent depend on the role alone; a staff user is always
      created with the default permissions, even from the initial form. */
  lemma CreatedPermissionsFollowRole(d: NewUserData, permissions: seq<string>)
    ensures HandleCreateUser(d) == HandleCreateUser(d.(permissions := permissions))
    ensures HandleCreateUser(d).CreateSent? && d.role == Auth.STAFF ==>
      HandleCreateUser(d).data.permissions == DEFAULT_STAFF_PERMISSIONS
  {
  }

  /** After a user is created the form resets, and submitting it again at once
      is refused. */
  lemma ResetFormRefused()
    ensures HandleCreateUser(EMPTY_NEW_USER) == CreateRefused("Username and password are required")
  {
  }

  // ---------------------------------------------------------------------------
  // The profile and password form.

  datatype FormData = FormData(fullName: string, email: string, oldPassword: string, newPassword: string,
                               confirmPassword: string)

  /** The body of the password change; the old password travels as `currentPassword`. */
  datatype PasswordUpdate = PasswordUpdate(currentPassword: string, newPassword: string)

  datatype PasswordOutcome = PasswordRefused(message: string) | PasswordSent(data: PasswordUpdate)

  /** `handlePasswordUpdate`. */
  function HandlePasswordUpdate(f: FormData): (r: PasswordOutcome)
    ensures r.PasswordSent? <==> f.oldPassword != "" && f.newPassword != "" && f.newPassword == f.confirmPassword
    ensures r.PasswordSent? ==> r.data == PasswordUpdate(f.oldPassword, f.newPassword)
    ensures r.PasswordRefused? ==>
      r.message == (if f.oldPassword == "" || f.newPassword == "" || f.confirmPassword == ""
                    then "Please fill all password fields" else "New passwords do not match")
  {
    if f.oldPassword == "" || f.newPassword == "" || f.confirmPassword == "" then
      PasswordRefused("Please fill all password fields")
    else if f.newPassword != f.confirmPassword then PasswordRefused("New passwords do not match")
    else PasswordSent(PasswordUpdate(f.oldPassword, f.newPassword))
  }

  /** The state after a successful password change. */
  function AfterPasswordChange(f: FormData): (r: FormData)
    ensures r.fullName == f.fullName && r.email == f.email
    ensures r.oldPassword == "" && r.newPassword == "" && r.confirmPassword == ""
  {
    f.(oldPassword := "", newPassword := "", confirmPassword := "")
  }

  /** Clearing the password fields leaves the profile fields alone, and the
      cleared form cannot be sent again until the fields are refilled. */
  lemma PasswordChangeClears(f: FormData)
    ensures HandleProfileUpdate(AfterPasswordChange(f)) == HandleProfileUpdate(f)
    ensures HandlePasswordUpdate(AfterPasswordChange(f)) == PasswordRefused("Please fill all password fields")
  {
  }

  /** The body of the profile update; an empty field is sent as null. */
  datatype ProfileUpdate = ProfileUpdate(fullName: Option<string>, email: Option<string>)

  /** `handleProfileUpdate`. */
  function HandleProfileUpdate(f: FormData): (r: ProfileUpdate)
    ensures r.fullName == (if f.fullName == "" then None else Some(f.fullName))
    ensures r.email == (if f.email == "" then None else Some(f.email))
  {
    ProfileUpdate(OrNull(Some(f.fullName)), OrNull(Some(f.email)))
  }

  /** The form after the profile arrives: missing values show as `''`. */
  function WithProfile(prev: FormData, fullName: Option<string>, email: Option<string>): FormData {
    prev.(fullName := if Truthy(fullName) then fullName.value else "",
          email := if Truthy(email) then email.value else "")
  }

  /** Saving a freshly loaded profile unchanged sends back what was loaded,
      with an empty value sent as null. */
  lemma ProfileRoundTrip(prev: FormData, fullName: Option<string>, email: Option<string>)
    ensures HandleProfileUpdate(WithProfile(prev, fullName, email)) == ProfileUpdate(OrNull(fullName), OrNull(email))
  {
  }

  // ---------------------------------------------------------------------------
  // The reminder settings form.

  datatype SettingsData = SettingsData(brevoTemplateId: string, daysBeforeExpiration: string)

  /** The settings form after the settings arrive: a missing or empty value
      shows as `''`. */
  function WithSettings(templateId: Option<string>, daysBefore: Option<string>): (r: SettingsData)
    ensures Truthy(templateId) ==> r.brevoTemplateId == templateId.value
    ensures !Truthy(templateId) ==> r.brevoTemplateId == ""
    ensures Truthy(daysBefore) ==> r.daysBeforeExpiration == daysBefore.value
    ensures !Truthy(daysBefore) ==> r.daysBeforeExpiration == ""
  {
    SettingsData(if Truthy(templateId) then templateId.value else "",
                 if Truthy(daysBefore) then daysBefore.value else "")
  }

  /** The body of the settings update. The day count is a JSON number, or null
      when `parseInt` gave NaN, which has no JSON form. */
  datatype SettingsUpdate = SettingsUpdate(brevoTemplateId: string, daysBeforeExpiration: Option<int>)

  /** A number as JSON writes it: NaN becomes null. */
  function JsonNumber(x: Number): (r: Option<int>)
    ensures r.None? <==> x.NaN?
    ensures r.Some? ==> x == Num(r.value)
  {
    if x.NaN? then None else Some(x.n)
  }

  /** `handleSettingsUpdate`: the template id as typed, and the day count read
      by `parseInt` with no radix. */
  function HandleSettingsUpdate(f: SettingsData): (r: SettingsUpdate)
    ensures r.brevoTemplateId == f.brevoTemplateId
    ensures r.daysBeforeExpiration.None? <==> ParseInt(f.daysBeforeExpiration, AutoRadix).NaN?
    ensures r.daysBeforeExpiration.Some? ==> ParseInt(f.daysBeforeExpiration, AutoRadix) == Num(r.daysBeforeExpiration.value)
  {
    SettingsUpdate(f.brevoTemplateId, JsonNumber(ParseInt(f.daysBeforeExpiration, AutoRadix)))
  }

  /** Saving freshly loaded settings unchanged sends back a stored day count
      written in decimal as that number, and the template id as loaded. */
  lemma SettingsRoundTrip(templateId: Option<string>, n: int)
    ensures HandleSettingsUpdate(WithSettings(templateId, Some(IntToString(n))))
         == SettingsUpdate(if Truthy(templateId) then templateId.value else "", Some(n))
  {
    var text := IntToString(n);
    assert |text| >= 1 by {
      if n < 0 { assert text == "-" + NatToString(-n); } else { assert text == NatToString(n); }
    }
    ParseIntOfIntToString(n, AutoRadix);
  }

  /** A missing or empty day count is sent as null. */
  lemma UnsetDaysSentAsNull(templateId: Option<string>, daysBefore: Option<string>)
    requires !Truthy(daysBefore)
    ensures HandleSettingsUpdate(WithSettings(templateId, daysBefore)).daysBeforeExpiration == None
  {
    ParseIntOfEmpty(WithSettings(templateId, daysBefore).daysBeforeExpiration, AutoRadix);
  }

  /** Text that does not start with digits is sent as null. */
  lemma WordDaysSentAsNull()
    ensures HandleSettingsUpdate(SettingsData("", "days")).daysBeforeExpiration == None
  {
    var t := "days";
    assert !IsSpace(t[0]);
    TrimStartOfNonSpace(t);
    assert DigitValue(t[0]) >= 10;
    assert DigitRun(t, 10) == 0;
  }

  /** Trailing text after the digits is dropped: "7 days" is sent as 7. */
  lemma TrailingTextDropped()
    ensures HandleSettingsUpdate(SettingsData("", "7 days")).daysBeforeExpiration == Some(7)
  {
    var t := "7 days";
    assert !IsSpace(t[0]);
    TrimStartOfNonSpace(t);
    assert DigitValue(t[1]) >= 10;
    assert DigitRun(t[1..], 10) == 0;
    assert DigitRun(t, 10) == 1;
    assert t[..1] == "7" && DigitsValue("7", 10) == 7 by {
      assert "7"[..0] == [];
    }
    assert ParseMagnitude(t, AutoRadix) == LeadingDigits(t, 10) == Num(7);
  }
}

/**
 * The body of the daily expiration-reminder job (Backend/utils/cronJobs.js):
 * the settings map built from the `settings` rows, the validation of
 * `days_before_expiration` and `brevo_template_id`, the target date, the
 * selection of students and the sequential send loop that stops at the first
 * failed send.
 *
 * Sending an email is an outside call: the model records each attempted send in
 * a log and takes whether a send succeeds as the parameter `delivers`.
 */
module Reminders {
  import opened Common
  import Students

  /** A row of the `settings` table; the value column may be null. */
  datatype SettingRow = SettingRow(key: string, value: Option<string>)

  type Settings = map<string, Option<string>>

  const DAYS_BEFORE_KEY := "days_before_expiration"
  const TEMPLATE_KEY := "brevo_template_id"

  /** The settings object after assigning every row in order. */
  function SettingsOf(rows: seq<SettingRow>): Settings {
    if rows == [] then map[]
    else SettingsOf(rows[..|rows| - 1])[rows[|rows| - 1].key := rows[|rows| - 1].value]
  }

  /** The object has a key exactly when some row carries it. */
  lemma {:induction false} SettingsKeys(rows: seq<SettingRow>, k: string)
    ensures k in SettingsOf(rows) <==> exists i :: 0 <= i < |rows| && rows[i].key == k
  {
    if rows != [] {
      var init := rows[..|rows| - 1];
      SettingsKeys(init, k);
      if exists i :: 0 <= i < |init| && init[i].key == k {
        var i :| 0 <= i < |init| && init[i].key == k;
        assert rows[i].key == k;
      }
      if exists i :: 0 <= i < |rows| && rows[i].key == k {
        var i :| 0 <= i < |rows| && rows[i].key == k;
        if i < |init| {
          assert init[i].key == k;
        }
      }
    }
  }

  /** A key takes the value of the last row that carries it. */
  lemma {:induction false} LaterRowWins(rows: seq<SettingRow>, i: nat)
    requires i < |rows|
    requires forall j :: i < j < |rows| ==> rows[j].key != rows[i].key
    ensures rows[i].key in SettingsOf(rows) && SettingsOf(rows)[rows[i].key] == rows[i].value
  {
    if i < |rows| - 1 {
      LaterRowWins(rows[..|rows| - 1], i);
    }
  }

  /** `settingsResult.rows.forEach(row => { settings[row.key] = row.value; })`. */
  method BuildSettings(rows: seq<SettingRow>) returns (m: Settings)
    ensures m == SettingsOf(rows)
  {
    m := map[];
    for i := 0 to |rows|
      invariant m == SettingsOf(rows[..i])
    {
      assert rows[..i + 1][..i] == rows[..i];
      m := m[rows[i].key := rows[i].value];
    }
    assert rows[..|rows|] == rows;
  }

  /** `settings.key`: undefined when absent. */
  function Setting(m: Settings, key: string): Option<string> {
    if key in m then m[key] else None
  }

  /** `parseInt(settings.days_before_expiration)` when it is neither 0 nor NaN. */
  function DaysBefore(m: Settings): (r: Option<int>)
    ensures r.Some? ==> r.value != 0 && ParseOptionalInt(Setting(m, DAYS_BEFORE_KEY), AutoRadix) == Num(r.value)
    ensures r.None? ==> ParseOptionalInt(Setting(m, DAYS_BEFORE_KEY), AutoRadix) in {NaN, Num(0)}
  {
    var n := ParseOptionalInt(Setting(m, DAYS_BEFORE_KEY), AutoRadix);
    if n.NaN? || n.n == 0 then None else Some(n.n)
  }

  /** The stored decimal text of a non-zero count is accepted as that count,
      negative counts included. */
  lemma DaysBeforeOfDecimal(m: Settings, n: int)
    requires n != 0 && DAYS_BEFORE_KEY in m && m[DAYS_BEFORE_KEY] == Some(IntToString(n))
    ensures DaysBefore(m) == Some(n)
  {
    ParseIntOfIntToString(n, AutoRadix);
  }

  /** A missing, empty or zero setting is rejected. */
  lemma DaysBeforeRejects(m: Settings)
    requires DAYS_BEFORE_KEY !in m || m[DAYS_BEFORE_KEY] == None || m[DAYS_BEFORE_KEY] == Some("")
             || m[DAYS_BEFORE_KEY] == Some("0")
    ensures DaysBefore(m) == None
  {
    var v := Setting(m, DAYS_BEFORE_KEY);
    if v.Some? && v.value == "" {
      ParseIntOfEmpty(v.value, AutoRadix);
    } else if v.Some? && v.value == "0" {
      ParseIntOfZero(v.value, AutoRadix);
    }
  }

  /** The students the job reminds: active, with the membership ending exactly
      on the target date, in query order. */
  function Due(students: seq<Students.Student>, target: Students.Date): (r: seq<Students.Student>)
    ensures forall s :: s in r <==> s in students && s.membershipEnd == target && s.status == Students.ACTIVE
  {
    Filter(students, (s: Students.Student) => s.membershipEnd == target && s.status == Students.ACTIVE)
  }

  datatype Reminder = Reminder(student: Students.Student, templateId: string)

  /** The sends the loop attempts: one per due student in order, up to and
      including the first that fails. */
  function SendLog(due: seq<Students.Student>, templateId: string, delivers: Students.Student -> bool)
    : (log: seq<Reminder>)
    ensures |log| <= |due|
  {
    if due == [] then []
    else if delivers(due[0]) then [Reminder(due[0], templateId)] + SendLog(due[1..], templateId, delivers)
    else [Reminder(due[0], templateId)]
  }

  /** The log holds one reminder per due student, in order; every send but the
      last succeeded; the log stops short only after a failed send; and when
      every send succeeds every due student is reminded. */
  lemma {:induction false} SendLogSpec(due: seq<Students.Student>, templateId: string,
                                       delivers: Students.Student -> bool)
    ensures var log := SendLog(due, templateId, delivers);
      && (forall i :: 0 <= i < |log| ==> log[i] == Reminder(due[i], templateId))
      && (forall i :: 0 <= i < |log| - 1 ==> delivers(due[i]))
      && (|log| < |due| ==> |log| >= 1 && !delivers(due[|log| - 1]))
      && ((forall i :: 0 <= i < |due| ==> delivers(due[i])) ==> |log| == |due|)
  {
    SendLogPrefix(due, templateId, delivers);
    SendLogStops(due, templateId, delivers);
    if forall i :: 0 <= i < |due| ==> delivers(due[i]) {
      SendLogComplete(due, templateId, delivers);
    }
  }

  /** The log reminds the due students in order, and all sends but the last
      succeeded. */
  lemma {:induction false} SendLogPrefix(due: seq<Students.Student>, templateId: string,
                                         delivers: Students.Student -> bool)
    ensures var log := SendLog(due, templateId, delivers);
      && (forall i :: 0 <= i < |log| ==> log[i] == Reminder(due[i], templateId))
      && (forall i :: 0 <= i < |log| - 1 ==> delivers(due[i]))
  {
    if due != [] && delivers(due[0]) {
      SendLogPrefix(due[1..], templateId, delivers);
      var log := SendLog(due, templateId, delivers);
      var rest := SendLog(due[1..], templateId, delivers);
      assert log == [Reminder(due[0], templateId)] + rest;
      forall i | 1 <= i < |log|
        ensures log[i] == Reminder(due[i], templateId)
      {
        assert log[i] == rest[i - 1] && due[i] == due[1..][i - 1];
      }
      forall i | 1 <= i < |log| - 1
        ensures delivers(due[i])
      {
        assert due[i] == due[1..][i - 1];
      }
    }
  }

  /** The log stops short only after a failed send. */
  lemma {:induction false} SendLogStops(due: seq<Students.Student>, templateId: string,
                                        delivers: Students.Student -> bool)
    ensures var log := SendLog(due, templateId, delivers);
      |log| < |due| ==> |log| >= 1 && !delivers(due[|log| - 1])
  {
    if due != [] && delivers(due[0]) {
      SendLogStops(due[1..], templateId, delivers);
      var rest := SendLog(due[1..], templateId, delivers);
      assert |SendLog(due, templateId, delivers)| == 1 + |rest|;
      if |rest| < |due[1..]| {
        assert due[1 + |rest| - 1] == due[1..][|rest| - 1];
      }
    }
  }

  /** When every send succeeds, every due student is reminded. */
  lemma {:induction false} SendLogComplete(due: seq<Students.Student>, templateId: string,
                                           delivers: Students.Student -> bool)
    requires forall i :: 0 <= i < |due| ==> delivers(due[i])
    ensures |SendLog(due, templateId, delivers)| == |due|
  {
    if due != [] {
      assert delivers(due[0]);
      forall i | 0 <= i < |due[1..]|
        ensures delivers(due[1..][i])
      {
        assert due[1..][i] == due[i + 1];
      }
      SendLogComplete(due[1..], templateId, delivers);
    }
  }

  datatype JobOutcome =
    | InvalidDays
    | MissingTemplate
    | NoneDue(target: Students.Date)
    | Sending(target: Students.Date, templateId: string)

  /** What the callback decides before sending, given the checked day count
      (None when it is 0 or NaN), the template setting, the student table and
      today's day number. */
  function Decide(days: Option<int>, template: Option<string>, students: seq<Students.Student>,
                  today: Students.Date): JobOutcome {
    if days.None? then InvalidDays
    else if !Truthy(template) then MissingTemplate
    else if Due(students, today + days.value) == [] then NoneDue(today + days.value)
    else Sending(today + days.value, template.value)
  }

  /** The job stops on an invalid day count, then on a missing template;
      otherwise the target is today plus the day count, and it sends exactly
      when some student is due, with the configured template. */
  lemma DecideSpec(days: Option<int>, template: Option<string>, students: seq<Students.Student>,
                   today: Students.Date)
    ensures var r := Decide(days, template, students, today);
      && (r == InvalidDays <==> days.None?)
      && (r == MissingTemplate <==> days.Some? && !Truthy(template))
      && (r.NoneDue? || r.Sending? ==> days.Some? && r.target == today + days.value)
      && (r.NoneDue? <==> !r.InvalidDays? && !r.MissingTemplate? && Due(students, r.target) == [])
      && (r.Sending? ==> template == Some(r.templateId) && r.templateId != "")
  {
  }

  /** What one run of the job decides, from the rows of the `settings` table. */
  function JobOutcomeOf(rows: seq<SettingRow>, students: seq<Students.Student>, today: Students.Date)
    : JobOutcome
  {
    var m := SettingsOf(rows);
    Decide(DaysBefore(m), Setting(m, TEMPLATE_KEY), students, today)
  }

  /** One run of the daily callback: returns its outcome and the log of
      attempted sends. Nothing is sent unless both settings are valid and some
      student is due. */
  method RunReminderJob(rows: seq<SettingRow>, students: seq<Students.Student>, today: Students.Date,
                        delivers: Students.Student -> bool)
    returns (outcome: JobOutcome, log: seq<Reminder>)
    ensures outcome == JobOutcomeOf(rows, students, today)
    ensures outcome.Sending? ==> log == SendLog(Due(students, outcome.target), outcome.templateId, delivers)
    ensures !outcome.Sending? ==> log == []
  {
    var due;
    outcome, due := DecideJob(rows, students, today);
    log := [];
    if outcome.Sending? {
      log := SendReminders(due, outcome.templateId, delivers);
    }
  }

  /** The callback up to the send loop: reads the settings, checks them, and
      selects the due students; the early returns leave `due` empty. */
  method DecideJob(rows: seq<SettingRow>, students: seq<Students.Student>, today: Students.Date)
    returns (outcome: JobOutcome, due: seq<Students.Student>)
    ensures outcome == JobOutcomeOf(rows, students, today)
    ensures outcome.Sending? ==> due == Due(students, outcome.target)
  {
    due := [];
    var settings := BuildSettings(rows);
    var days := DaysBefore(settings);
    if days.None? {
      return InvalidDays, due;
    }
    var templateId := Setting(settings, TEMPLATE_KEY);
    if !Truthy(templateId) {
      return MissingTemplate, due;
    }
    var target := today + days.value;
    due := Due(students, target);
    if due == [] {
      return NoneDue(target), due;
    }
    outcome := Sending(target, templateId.value);
  }

  /** `for (const student of students) await sendExpirationReminder(student, id)`:
      a failing send throws out of the loop, so later students get nothing. */
  method SendReminders(due: seq<Students.Student>, templateId: string, delivers: Students.Student -> bool)
    returns (log: seq<Reminder>)
    ensures log == SendLog(due, templateId, delivers)
  {
    log := [];
    var i := 0;
    while i < |due|
      invariant 0 <= i <= |due|
      invariant log + SendLog(due[i..], templateId, delivers) == SendLog(due, templateId, delivers)
    {
      var reminder := Reminder(due[i], templateId);
      log := log + [reminder];
      if !delivers(due[i]) {
        assert SendLog(due[i..], templateId, delivers) == [reminder];
        break;
      }
      assert due[i..][1..] == due[i + 1..];
      i := i + 1;
    }
  }
}

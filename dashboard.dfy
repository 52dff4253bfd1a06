/**
 * The counts the dashboard page derives from the student list
 * (Frontend/src/pages/Dashboard.tsx, `fetchStats`) and its
 * `canManageStudents` flag.
 *
 * The page compares `new Date(membershipEnd)` with `new Date()`: the end date
 * is read as midnight (UTC) at the start of that day, and now is an instant.
 * The model keeps that: a date is a day number, an instant is a count of
 * milliseconds, and day `d` starts at instant `d * MS_PER_DAY`.
 */
module Dashboard {
  import opened Common
  import Students
  import Auth

  const MS_PER_DAY: int := 86400000

  /** The instant `new Date(date)` denotes for a date without a time. */
  function StartOf(day: Students.Date): int {
    day * MS_PER_DAY
  }

  /** `new Date(membershipEnd) < new Date()`. */
  predicate Ended(membershipEnd: Students.Date, now: int) {
    StartOf(membershipEnd) < now
  }

  /** A membership counts as ended from the first millisecond of its last day. */
  lemma EndedOnLastDay(end: Students.Date, now: int)
    requires StartOf(end) < now < StartOf(end + 1)
    ensures Ended(end, now)
    ensures !Ended(end + 1, now)
  {
  }

  predicate CountedActive(s: Students.Student, now: int) {
    !Ended(s.membershipEnd, now) && s.status == Students.ACTIVE
  }

  predicate CountedExpired(s: Students.Student, now: int) {
    Ended(s.membershipEnd, now)
  }

  /** `fetchStats`: the number of students, those still running with status
      `'active'`, and those whose end has passed whatever their status. */
  function FetchStats(students: seq<Students.Student>, now: int): (r: Students.Stats)
    ensures r.totalStudents == |students|
    ensures r.activeStudents + r.expiredMemberships <= r.totalStudents
    ensures r.activeStudents + r.expiredMemberships == r.totalStudents <==>
      forall k :: 0 <= k < |students| ==> CountedExpired(students[k], now) || students[k].status == Students.ACTIVE
  {
    var active := (s: Students.Student) => CountedActive(s, now);
    var expired := (s: Students.Student) => CountedExpired(s, now);
    FilterDisjointCounts(students, active, expired);
    Students.Stats(|students|, |Filter(students, active)|, |Filter(students, expired)|)
  }

  /** The active count is the number of list positions whose student is still
      running and stored `'active'`; the expired count the number of positions
      whose end has passed. */
  lemma FetchStatsCounts(students: seq<Students.Student>, now: int)
    ensures FetchStats(students, now).activeStudents
            == |set k | 0 <= k < |students| && CountedActive(students[k], now)|
    ensures FetchStats(students, now).expiredMemberships
            == |set k | 0 <= k < |students| && CountedExpired(students[k], now)|
  {
    var active := (s: Students.Student) => CountedActive(s, now);
    var expired := (s: Students.Student) => CountedExpired(s, now);
    FilterSize(students, active);
    FilterSize(students, expired);
    assert IndicesWhere(students, active) == set k | 0 <= k < |students| && CountedActive(students[k], now);
    assert IndicesWhere(students, expired) == set k | 0 <= k < |students| && CountedExpired(students[k], now);
  }

  /** The page and GET `/stats/dashboard` can disagree: a student whose end
      has passed but whom no job has marked is expired on the page and active
      for the server. */
  lemma PageAndServerDisagree(s: Students.Student, now: int)
    requires s.status == Students.ACTIVE && Ended(s.membershipEnd, now)
    ensures FetchStats([s], now) == Students.Stats(1, 0, 1)
    ensures Students.DashboardStats([s]) == Students.Stats(1, 1, 0)
  {
  }

  /** `canManageStudents`. */
  function CanManageStudents(user: Option<Auth.SessionUser>): (r: bool)
    ensures r <==> user.Some? && (user.value.role == Auth.ADMIN || user.value.role == Auth.STAFF)
  {
    user.Some? && (user.value.role == "admin" || user.value.role == "staff")
  }

  /** The page shows the student controls to exactly the users the server's
      `checkAdminOrStaff` guard admits. */
  lemma ManageMatchesGuard(user: Option<Auth.SessionUser>)
    ensures CanManageStudents(user) <==> Auth.CheckAdminOrStaff(user) == Auth.Allow
  {
  }
}

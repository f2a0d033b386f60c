/**
 * The administration dashboard (dashboard.js): the statistics `loadStats` aggregates from
 * three query results and stores on the dashboard, and the pure helpers that label a
 * status, pick an activity icon and phrase how long ago something happened.
 *
 * The database is not part of the model: each query's outcome is an input.
 */
module Dashboard {
  import opened Wrappers
  import opened Text
  import JsLookup
  import Notifications

  // ================================================================ counting

  /** `rows.filter(keep)`: the rows `keep` accepts, in their original order. */
  function Filter<T(!new)>(rows: seq<T>, keep: T -> bool): (r: seq<T>)
    ensures |r| <= |rows|
    ensures forall k | 0 <= k < |r| :: keep(r[k])
    ensures forall x :: multiset(r)[x] == if keep(x) then multiset(rows)[x] else 0
  {
    if rows == [] then []
    else
      var init, last := rows[..|rows| - 1], rows[|rows| - 1];
      assert rows == init + [last];
      Filter(init, keep) + (if keep(last) then [last] else [])
  }

  /** The positions of the rows `keep` accepts. */
  ghost function MatchingPositions<T>(rows: seq<T>, keep: T -> bool): set<int> {
    set k | 0 <= k < |rows| && keep(rows[k])
  }

  /** Accepting one more row adds its position, which was not among the earlier ones. */
  lemma MatchingPositionsSnoc<T>(init: seq<T>, last: T, keep: T -> bool)
    ensures |init| !in MatchingPositions(init, keep)
    ensures MatchingPositions(init + [last], keep)
            == MatchingPositions(init, keep) + (if keep(last) then {|init|} else {})
  {
    var rows := init + [last];
    forall k
      ensures k in MatchingPositions(rows, keep)
              <==> k in MatchingPositions(init, keep) + (if keep(last) then {|init|} else {})
    {
      if 0 <= k < |init| {
        assert rows[k] == init[k];
      }
    }
  }

  /** The filtered length counts exactly the positions whose row is accepted. */
  lemma {:induction false} FilterCountsPositions<T(!new)>(rows: seq<T>, keep: T -> bool)
    ensures |Filter(rows, keep)| == |MatchingPositions(rows, keep)|
  {
    if rows != [] {
      var init, last := rows[..|rows| - 1], rows[|rows| - 1];
      assert rows == init + [last];
      FilterCountsPositions(init, keep);
      MatchingPositionsSnoc(init, last, keep);
      assert Filter(rows, keep) == Filter(init, keep) + (if keep(last) then [last] else []);
    }
  }

  /** `rows?.length || 0`. */
  function Total<T>(rows: Option<seq<T>>): (n: nat)
    ensures rows.None? ==> n == 0
  {
    if rows.Some? then |rows.value| else 0
  }

  /** `rows?.filter(keep).length || 0`: never more than the total, and 0 for a missing result. */
  function Matching<T(!new)>(rows: Option<seq<T>>, keep: T -> bool): (n: nat)
    ensures n <= Total(rows)
    ensures rows.None? ==> n == 0
  {
    if rows.Some? then |Filter(rows.value, keep)| else 0
  }

  // ================================================================ statistics

  /** The columns `loadStats` selects; a `null` column is `None`. */
  datatype Project = Project(id: string, status: Option<string>)
  datatype Profile = Profile(id: string, role: Option<string>)
  datatype Task = Task(id: string, status: Option<string>)

  /** A query's `{ data, error }`: rows (possibly `null`) or a truthy error. */
  datatype Query<T> = Fetched(data: Option<seq<T>>) | Failed(error: string)

  datatype Stats = Stats(
    totalProjects: nat, activeProjects: nat,
    totalUsers: nat, adminUsers: nat,
    totalTasks: nat, completedTasks: nat)

  predicate IsActive(p: Project) { p.status == Some("active") }
  predicate IsAdmin(u: Profile) { u.role == Some("admin") }
  predicate IsCompleted(t: Task) { t.status == Some("completed") }

  /** The object `loadStats` assigns once all three queries have returned rows. */
  function ComputeStats(projects: Option<seq<Project>>, users: Option<seq<Profile>>, tasks: Option<seq<Task>>): (s: Stats)
    ensures s.activeProjects <= s.totalProjects
    ensures s.adminUsers <= s.totalUsers
    ensures s.completedTasks <= s.totalTasks
    ensures projects.None? ==> s.totalProjects == 0 && s.activeProjects == 0
    ensures users.None? ==> s.totalUsers == 0 && s.adminUsers == 0
    ensures tasks.None? ==> s.totalTasks == 0 && s.completedTasks == 0
  {
    Stats(Total(projects), Matching(projects, IsActive),
          Total(users), Matching(users, IsAdmin),
          Total(tasks), Matching(tasks, IsCompleted))
  }

  /** Every filtered figure is the number of rows carrying the matching field value. */
  lemma StatsCountRecords(projects: seq<Project>, users: seq<Profile>, tasks: seq<Task>)
    ensures var s := ComputeStats(Some(projects), Some(users), Some(tasks));
            && s.totalProjects == |projects| && s.totalUsers == |users| && s.totalTasks == |tasks|
            && s.activeProjects == |set k | 0 <= k < |projects| && projects[k].status == Some("active")|
            && s.adminUsers == |set k | 0 <= k < |users| && users[k].role == Some("admin")|
            && s.completedTasks == |set k | 0 <= k < |tasks| && tasks[k].status == Some("completed")|
  {
    ActiveProjectsCounted(projects);
    AdminUsersCounted(users);
    CompletedTasksCounted(tasks);
  }

  lemma ActiveProjectsCounted(projects: seq<Project>)
    ensures Matching(Some(projects), IsActive) == |set k | 0 <= k < |projects| && projects[k].status == Some("active")|
  {
    FilterCountsPositions(projects, IsActive);
    assert MatchingPositions(projects, IsActive) == set k | 0 <= k < |projects| && projects[k].status == Some("active");
  }

  lemma AdminUsersCounted(users: seq<Profile>)
    ensures Matching(Some(users), IsAdmin) == |set k | 0 <= k < |users| && users[k].role == Some("admin")|
  {
    FilterCountsPositions(users, IsAdmin);
    assert MatchingPositions(users, IsAdmin) == set k | 0 <= k < |users| && users[k].role == Some("admin");
  }

  lemma CompletedTasksCounted(tasks: seq<Task>)
    ensures Matching(Some(tasks), IsCompleted) == |set k | 0 <= k < |tasks| && tasks[k].status == Some("completed")|
  {
    FilterCountsPositions(tasks, IsCompleted);
    assert MatchingPositions(tasks, IsCompleted) == set k | 0 <= k < |tasks| && tasks[k].status == Some("completed");
  }

  /**
   * The three queries in order: the first one that reports an error is thrown, so no
   * statistics are produced; otherwise the statistics of the rows returned.
   */
  function AggregateStats(projects: Query<Project>, users: Query<Profile>, tasks: Query<Task>): (r: Option<Stats>)
    ensures r.Some? <==> projects.Fetched? && users.Fetched? && tasks.Fetched?
    ensures r.Some? ==> r.value == ComputeStats(projects.data, users.data, tasks.data)
  {
    if projects.Failed? || users.Failed? || tasks.Failed? then None
    else Some(ComputeStats(projects.data, users.data, tasks.data))
  }

  /** The error notification `loadStats` raises from its `catch`. */
  const LoadStatsFailedMessage: string := "فشل تحميل الإحصائيات"

  class Dashboard {
    /** `this.stats`: `None` is the initial empty object, which has none of the figures. */
    var stats: Option<Stats>

    constructor ()
      ensures stats == None
    {
      stats := None;
    }

    /**
     * `loadStats`. When all three queries return rows the statistics are assigned, and then
     * written into the page; `pageHasStatElements` says whether the three elements
     * `updateStatsUI` writes into exist. A query error, or a missing element (which throws
     * after the assignment), lands in the `catch`: the error notification is shown and the
     * result is `null`.
     */
    method LoadStats(projects: Query<Project>, users: Query<Profile>, tasks: Query<Task>,
                     pageHasStatElements: bool, notes: Notifications.NotificationSystem)
      returns (r: Option<Stats>)
      requires notes.Valid()
      modifies this, notes
      ensures notes.Valid()
      ensures var computed := AggregateStats(projects, users, tasks);
              && stats == (if computed.Some? then computed else old(stats))
              && r == (if pageHasStatElements then computed else None)
      ensures r.Some? ==> r == stats
      ensures r.Some? ==> notes.alerts == old(notes.alerts) && notes.pending == old(notes.pending)
                          && notes.nextId == old(notes.nextId)
      ensures r.None? ==>
                var id := old(notes.nextId);
                && notes.nextId == id + 1
                && notes.alerts == old(notes.alerts)
                                   + [Notifications.Alert(id, "error", Notifications.GetIcon("error"), "خطأ",
                                                          Some(LoadStatsFailedMessage), Notifications.CloseButton,
                                                          false, notes.now, Notifications.DefaultDurationMs)]
                && notes.pending == old(notes.pending) + Notifications.ShowTimers(id, notes.now, Notifications.DefaultDurationMs)
      ensures notes.now == old(notes.now) && notes.answers == old(notes.answers)
    {
      var computed := AggregateStats(projects, users, tasks);
      if computed.Some? {
        stats := computed;
        if pageHasStatElements {
          return computed;
        }
      }
      assert Notifications.NotificationTitle("error", None) == "خطأ";
      var _ := notes.ShowNotification(LoadStatsFailedMessage, Some("error"), None);
      r := None;
    }
  }

  // ================================================================ labels and icons

  const StatusLabels: map<string, string> := map[
    "active" := "نشط",
    "completed" := "مكتمل",
    "pending" := "معلق",
    "cancelled" := "ملغي"
  ]

  /** `getStatusText` exactly as written: `statusMap[status] || status`. */
  function GetStatusTextAsWritten(status: string): (v: JsLookup.JsValue)
    ensures v.InheritedMember? <==> status in JsLookup.ObjectPrototypeKeys
  {
    JsLookup.PropertyOr(StatusLabels, status, status)
  }

  /** For the status "constructor" the lookup as written yields an inherited function, not the status itself. */
  lemma GetStatusTextAsWrittenOnInheritedName()
    ensures GetStatusTextAsWritten("constructor") == JsLookup.InheritedMember("constructor")
    ensures GetStatusTextAsWritten("constructor") != JsLookup.Str(GetStatusText("constructor"))
  {
  }

  /** `getStatusText` as evidently intended: the Arabic label of a known status, any other status unchanged. */
  function GetStatusText(status: string): (text: string)
    ensures status in StatusLabels ==> text == StatusLabels[status]
    ensures status !in StatusLabels ==> text == status
  {
    JsLookup.LookupOr(StatusLabels, status, status)
  }

  /** The four labels, and an unknown status passes through. */
  lemma GetStatusTextCases(status: string)
    ensures GetStatusText("active") == "نشط"
    ensures GetStatusText("completed") == "مكتمل"
    ensures GetStatusText("pending") == "معلق"
    ensures GetStatusText("cancelled") == "ملغي"
    ensures status !in {"active", "completed", "pending", "cancelled"} ==> GetStatusText(status) == status
  {
  }

  const ActivityIcons: map<string, string> := map[
    "project" := "fas fa-project-diagram",
    "user" := "fas fa-user",
    "settings" := "fas fa-cog",
    "report" := "fas fa-chart-bar",
    "task" := "fas fa-tasks",
    "file" := "fas fa-file"
  ]
  const FallbackActivityIcon: string := "fas fa-history"

  /** `getActivityIcon` exactly as written: `iconMap[type] || 'fas fa-history'`. */
  function GetActivityIconAsWritten(kind: string): (v: JsLookup.JsValue)
    ensures v.InheritedMember? <==> kind in JsLookup.ObjectPrototypeKeys
  {
    JsLookup.PropertyOr(ActivityIcons, kind, FallbackActivityIcon)
  }

  /** For the activity type "constructor" the lookup as written yields an inherited function, not an icon class. */
  lemma GetActivityIconAsWrittenOnInheritedName()
    ensures GetActivityIconAsWritten("constructor") == JsLookup.InheritedMember("constructor")
    ensures GetActivityIconAsWritten("constructor") != JsLookup.Str(GetActivityIcon("constructor"))
  {
  }

  /** `getActivityIcon` as evidently intended: the type's icon class, the history icon for any other type. */
  function GetActivityIcon(kind: string): (icon: string)
    ensures icon == FallbackActivityIcon <==> kind !in ActivityIcons
    ensures kind in ActivityIcons ==> icon == ActivityIcons[kind]
  {
    JsLookup.LookupOr(ActivityIcons, kind, FallbackActivityIcon)
  }

  /** The six known types, and the history icon for anything else. */
  lemma GetActivityIconCases(kind: string)
    ensures GetActivityIcon("project") == "fas fa-project-diagram"
    ensures GetActivityIcon("user") == "fas fa-user"
    ensures GetActivityIcon("settings") == "fas fa-cog"
    ensures GetActivityIcon("report") == "fas fa-chart-bar"
    ensures GetActivityIcon("task") == "fas fa-tasks"
    ensures GetActivityIcon("file") == "fas fa-file"
    ensures kind !in {"project", "user", "settings", "report", "task", "file"} ==> GetActivityIcon(kind) == "fas fa-history"
  {
  }

  // ================================================================ relative time

  const MinuteMs: int := 60000
  const HourMs: int := 3600000
  const DayMs: int := 86400000
  const WeekMs: int := 604800000

  /** Which phrase `getTimeAgo` chooses, with the number it shows. */
  datatype TimeAgo = JustNow | MinutesAgo(minutes: int) | HoursAgo(hours: int) | DaysAgo(days: int) | FormattedDate

  /**
   * `getTimeAgo`'s choice for a difference of `diff` milliseconds between now and the given
   * date; `None` is the `NaN` an unparseable date gives, for which every comparison is false.
   * `Math.floor` of a quotient by a positive constant is Dafny's `/`.
   */
  function GetTimeAgo(diff: Option<int>): (t: TimeAgo)
    ensures diff.None? ==> t == FormattedDate
  {
    match diff
    case None => FormattedDate
    case Some(d) =>
      var minutes := d / 60000;
      var hours := minutes / 60;
      var days := hours / 24;
      if minutes < 1 then JustNow
      else if minutes < 60 then MinutesAgo(minutes)
      else if hours < 24 then HoursAgo(hours)
      else if days < 7 then DaysAgo(days)
      else FormattedDate
  }

  /**
   * The phrase each difference gets, by milliseconds: below one minute (a future date
   * included) "now"; then whole minutes 1-59, whole hours 1-23, whole days 1-6; from
   * seven days on the formatted date. The nested floors equal a single floor by the unit.
   */
  lemma GetTimeAgoBuckets(d: int)
    ensures GetTimeAgo(Some(d)) == JustNow <==> d < MinuteMs
    ensures GetTimeAgo(Some(d)).MinutesAgo? <==> MinuteMs <= d < HourMs
    ensures GetTimeAgo(Some(d)).HoursAgo? <==> HourMs <= d < DayMs
    ensures GetTimeAgo(Some(d)).DaysAgo? <==> DayMs <= d < WeekMs
    ensures GetTimeAgo(Some(d)) == FormattedDate <==> WeekMs <= d
    ensures GetTimeAgo(Some(d)).MinutesAgo? ==> GetTimeAgo(Some(d)).minutes == d / MinuteMs && 1 <= d / MinuteMs <= 59
    ensures GetTimeAgo(Some(d)).HoursAgo? ==> GetTimeAgo(Some(d)).hours == d / HourMs && 1 <= d / HourMs <= 23
    ensures GetTimeAgo(Some(d)).DaysAgo? ==> GetTimeAgo(Some(d)).days == d / DayMs && 1 <= d / DayMs <= 6
  {
    var minutes := d / 60000;
    var hours := minutes / 60;
    var days := hours / 24;
    assert hours == d / HourMs;
    assert days == d / DayMs;
  }

  /** The text `getTimeAgo` returns; `formattedDate` stands for `toLocaleDateString('ar-SA')`. */
  function TimeAgoText(t: TimeAgo, formattedDate: string): (text: string)
    ensures t == JustNow ==> text == "الآن"
    ensures t == FormattedDate ==> text == formattedDate
    ensures t.MinutesAgo? ==> |text| > 10 && text[..4] == "منذ " && AllDigits(text[4..|text| - 6]) && text[|text| - 6..] == " دقيقة"
    ensures t.HoursAgo? ==> |text| > 9 && text[..4] == "منذ " && AllDigits(text[4..|text| - 5]) && text[|text| - 5..] == " ساعة"
    ensures t.DaysAgo? ==> |text| > 8 && text[..4] == "منذ " && AllDigits(text[4..|text| - 4]) && text[|text| - 4..] == " يوم"
  {
    match t
    case JustNow => "الآن"
    case MinutesAgo(n) => "منذ " + DecimalString(if n < 0 then 0 else n) + " دقيقة"
    case HoursAgo(n) => "منذ " + DecimalString(if n < 0 then 0 else n) + " ساعة"
    case DaysAgo(n) => "منذ " + DecimalString(if n < 0 then 0 else n) + " يوم"
    case FormattedDate => formattedDate
  }

  /** The number inside a relative phrase reads back as the count of whole units elapsed. */
  lemma TimeAgoTextShowsCount(d: int, formattedDate: string)
    requires MinuteMs <= d < WeekMs
    ensures var text := TimeAgoText(GetTimeAgo(Some(d)), formattedDate);
            var unit := if d < HourMs then MinuteMs else if d < DayMs then HourMs else DayMs;
            exists digits: string, word: string ::
              && text == "منذ " + digits + word
              && AllDigits(digits)
              && DecimalValue(digits) == d / unit
  {
    GetTimeAgoBuckets(d);
    var t := GetTimeAgo(Some(d));
    var n := if t.MinutesAgo? then t.minutes else if t.HoursAgo? then t.hours else t.days;
    DecimalRoundTrip(n);
    var word := if t.MinutesAgo? then " دقيقة" else if t.HoursAgo? then " ساعة" else " يوم";
    assert TimeAgoText(t, formattedDate) == "منذ " + DecimalString(n) + word;
  }
}

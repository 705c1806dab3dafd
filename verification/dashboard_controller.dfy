/** The dashboard controller: `getDashboard` hands its filter to the service
    untouched, and `getTeacherSalaryBreakdown` turns its two optional date
    texts into the breakdown's window. Date-text parsing (`new Date(text)`)
    is the `parse` parameter. */
module DashboardController {
  import opened Wrappers
  import opened Calendar
  import opened TransactionsEntity
  import opened TransactionFilterDto
  import opened SessionsEntity
  import opened TeachersEntity
  import DashboardService

  /** `text ? new Date(text) : undefined`: an absent or empty text is no bound. */
  function BreakdownBound(text: Option<string>, parse: string -> Instant): (r: Option<Instant>)
    ensures r.None? <==> text.None? || text.value == ""
    ensures r.Some? ==> r.value == parse(text.value)
  {
    if text.Some? && text.value != "" then Some(parse(text.value)) else None
  }

  /** The window the salary breakdown is computed over. */
  function BreakdownWindow(startDate: Option<string>, endDate: Option<string>, parse: string -> Instant): (w: Window)
    ensures w.from == BreakdownBound(startDate, parse) && w.to == BreakdownBound(endDate, parse)
  {
    Window(BreakdownBound(startDate, parse), BreakdownBound(endDate, parse))
  }

  /** `GET /dashboard/teacher-salaries`. */
  function GetTeacherSalaryBreakdown(startDate: Option<string>, endDate: Option<string>, parse: string -> Instant,
                                     ss: seq<Session>, teachers: seq<Teacher>): seq<DashboardService.PayrollEntry> {
    DashboardService.GetTeacherSalaryBreakdown(ss, teachers, BreakdownWindow(startDate, endDate, parse))
  }

  /** `GET /dashboard`: the query object goes to the service as it is. */
  function GetDashboard(now: Instant, filters: FilterSpec, txs: seq<Transaction>, ss: seq<Session>,
                        teachers: seq<Teacher>): DashboardService.DashboardReport {
    DashboardService.GetDashboard(now, filters, txs, ss, teachers)
  }

  /** With no dates, every confirmed session counts, whatever its date: the
      breakdown is all-time, and empty texts behave like missing ones. */
  lemma NoDatesMeansAllTime(parse: string -> Instant, ss: seq<Session>, teachers: seq<Teacher>, s: Session)
    ensures s in DashboardService.ConfirmedIn(ss, BreakdownWindow(None, None, parse)) <==> s in ss && s.isConfirmed
    ensures GetTeacherSalaryBreakdown(Some(""), Some(""), parse, ss, teachers)
            == GetTeacherSalaryBreakdown(None, None, parse, ss, teachers)
  {
  }

  /** A start date alone bounds the window from below only, and an end date
      alone bounds it from above only. */
  lemma OneBoundLeavesTheOtherOpen(parse: string -> Instant, text: string, t: Instant)
    requires text != ""
    ensures BreakdownWindow(Some(text), None, parse).Contains(t) <==> parse(text) <= t
    ensures BreakdownWindow(None, Some(text), parse).Contains(t) <==> t <= parse(text)
  {
  }

  /** Supplied texts reach the service as their parsed dates, and a session
      counts exactly when it is confirmed and dated between them, both inclusive. */
  lemma SuppliedDatesArePassedOn(parse: string -> Instant, start: string, end: string, ss: seq<Session>, s: Session)
    requires start != "" && end != ""
    ensures BreakdownWindow(Some(start), Some(end), parse) == Window(Some(parse(start)), Some(parse(end)))
    ensures s in DashboardService.ConfirmedIn(ss, BreakdownWindow(Some(start), Some(end), parse))
            <==> s in ss && s.isConfirmed && parse(start) <= s.sessionDate <= parse(end)
  {
  }

  /** The two policies differ: without dates a confirmed session from another
      month is in the salary breakdown's window but outside the dashboard's
      default period. */
  lemma BreakdownAndDashboardPoliciesDiffer(now: Instant, parse: string -> Instant, ss: seq<Session>, s: Session)
    requires !(0 <= CivilOf(now).year <= 99)
    requires s in ss && s.isConfirmed
    requires CivilOf(s.sessionDate).year != CivilOf(now).year || CivilOf(s.sessionDate).month != CivilOf(now).month
    ensures s in DashboardService.ConfirmedIn(ss, BreakdownWindow(None, None, parse))
    ensures s !in DashboardService.ConfirmedIn(ss, DashboardService.AsWindow(DashboardService.ResolvePeriod(now, NoFilter())))
  {
    DashboardService.DefaultPeriodIsCurrentMonth(now, NoFilter(), s.sessionDate);
  }
}

/** The dashboard: the reporting period, the two package-activity counts, the
    transaction summary for the period, the payroll total and the per-teacher
    payroll breakdown, and the net profit that combines them. The clock is the
    `now` parameter; the populated teacher of a session is looked up in a
    sequence of teachers, and a lookup that finds nothing stands for a
    reference that does not populate. */
module DashboardService {
  import opened Wrappers
  import opened Calendar
  import opened TransactionsEntity
  import opened TransactionFilterDto
  import opened SessionsEntity
  import opened TeachersEntity
  import TransactionsService
  import TransactionSummary

  // ---------------------------------------------------------------------------
  // The reporting period

  /** Both bounds are inclusive and always present once resolved. */
  datatype Period = Period(start: Instant, end: Instant)

  function AsWindow(p: Period): Window {
    Window(Some(p.start), Some(p.end))
  }

  /** A supplied bound is used as given; a missing start becomes the first
      instant of `now`'s calendar month and a missing end its last instant. */
  function ResolvePeriod(now: Instant, f: FilterSpec): (p: Period)
    ensures f.startDate.Some? ==> p.start == f.startDate.value
    ensures f.endDate.Some? ==> p.end == f.endDate.value
  {
    var c := CivilOf(now);
    Period(f.startDate.GetOr(MonthFirstInstant(c.year, c.month)),
           f.endDate.GetOr(MonthLastInstant(c.year, c.month)))
  }

  /** The defaults are midnight of the month's first day and the last
      millisecond of its last day. */
  lemma DefaultBoundsAreMonthEdges(now: Instant, f: FilterSpec)
    requires !(0 <= CivilOf(now).year <= 99)
    ensures var c := CivilOf(now);
            f.startDate.None? ==> ResolvePeriod(now, f).start == DayStart(DayNumber(CivilDate(c.year, c.month, 1)))
    ensures var c := CivilOf(now);
            f.endDate.None? ==>
              ResolvePeriod(now, f).end
              == DayStart(DayNumber(CivilDate(c.year, c.month, DaysInMonth(c.year, c.month)))) + 86_399_999
  {
    var c := CivilOf(now);
    MonthWindowBounds(c.year, c.month);
    DaysBeforeMonthStep(c.year, c.month);
  }

  /** With no bounds supplied, the period is exactly `now`'s calendar month,
      and it contains `now`. */
  lemma DefaultPeriodIsCurrentMonth(now: Instant, f: FilterSpec, t: Instant)
    requires f.startDate.None? && f.endDate.None?
    requires !(0 <= CivilOf(now).year <= 99)
    ensures var p := ResolvePeriod(now, f);
            p.start <= t <= p.end <==> CivilOf(t).year == CivilOf(now).year && CivilOf(t).month == CivilOf(now).month
    ensures ResolvePeriod(now, f).start <= now <= ResolvePeriod(now, f).end
  {
    var c := CivilOf(now);
    MonthWindowIsCalendarMonth(c.year, c.month, t);
    MonthWindowIsCalendarMonth(c.year, c.month, now);
  }

  // ---------------------------------------------------------------------------
  // Confirmed sessions in a window

  /** `find({ sessionDate: { $gte, $lte }, isConfirmed: true })`, in collection order. */
  function ConfirmedIn(ss: seq<Session>, w: Window): (r: seq<Session>)
    ensures |r| <= |ss|
    ensures forall s :: s in r <==> s in ss && s.isConfirmed && w.Contains(s.sessionDate)
    decreases |ss|
  {
    if ss == [] then []
    else (if ss[0].isConfirmed && w.Contains(ss[0].sessionDate) then [ss[0]] else []) + ConfirmedIn(ss[1..], w)
  }

  lemma {:induction false} ConfirmedInAppend(a: seq<Session>, b: seq<Session>, w: Window)
    ensures ConfirmedIn(a + b, w) == ConfirmedIn(a, w) + ConfirmedIn(b, w)
    decreases |a|
  {
    if a == [] {
      assert a + b == b;
    } else {
      var h := if a[0].isConfirmed && w.Contains(a[0].sessionDate) then [a[0]] else [];
      assert (a + b)[0] == a[0] && (a + b)[1..] == a[1..] + b;
      ConfirmedInAppend(a[1..], b, w);
      calc {
        ConfirmedIn(a + b, w);
        h + ConfirmedIn(a[1..] + b, w);
        h + (ConfirmedIn(a[1..], w) + ConfirmedIn(b, w));
        (h + ConfirmedIn(a[1..], w)) + ConfirmedIn(b, w);
      }
    }
  }

  lemma ConfirmedInOne(s: Session, w: Window)
    ensures ConfirmedIn([s], w) == if s.isConfirmed && w.Contains(s.sessionDate) then [s] else []
  {
    assert [s][1..] == [];
  }

  // ---------------------------------------------------------------------------
  // activeSessionPackages

  function PackageIds(ss: seq<Session>): set<string> {
    set s | s in ss :: s.packageId
  }

  lemma {:induction false} PackageIdsBound(ss: seq<Session>)
    ensures |PackageIds(ss)| <= |ss|
    decreases |ss|
  {
    if ss != [] {
      PackageIdsBound(ss[1..]);
      assert PackageIds(ss) == PackageIds(ss[1..]) + {ss[0].packageId} by {
        forall id | id in PackageIds(ss)
          ensures id in PackageIds(ss[1..]) + {ss[0].packageId}
        {
          var s :| s in ss && s.packageId == id;
          if s != ss[0] {
            var i :| 0 <= i < |ss| && ss[i] == s;
            assert ss[1..][i - 1] == s;
          }
        }
      }
    }
  }

  /** `distinct('packageId', …)`.length: the number of different packages
      with a confirmed session in the period. */
  function ActiveSessionPackages(ss: seq<Session>, p: Period): (n: nat)
    ensures n <= |ConfirmedIn(ss, AsWindow(p))|
    ensures n == 0 <==> ConfirmedIn(ss, AsWindow(p)) == []
  {
    var c := ConfirmedIn(ss, AsWindow(p));
    PackageIdsBound(c);
    assert c != [] ==> c[0].packageId in PackageIds(c);
    |PackageIds(c)|
  }

  /** A package is counted exactly when one of its sessions is confirmed and dated in the period. */
  lemma CountedPackageIff(ss: seq<Session>, p: Period, id: string)
    ensures id in PackageIds(ConfirmedIn(ss, AsWindow(p)))
            <==> exists i :: 0 <= i < |ss| && ss[i].isConfirmed && p.start <= ss[i].sessionDate <= p.end
                             && ss[i].packageId == id
  {
    var c := ConfirmedIn(ss, AsWindow(p));
    if id in PackageIds(c) {
      var s :| s in c && s.packageId == id;
      assert s in ss && s.isConfirmed && AsWindow(p).Contains(s.sessionDate);
      var i :| 0 <= i < |ss| && ss[i] == s;
      assert ss[i].isConfirmed && p.start <= ss[i].sessionDate <= p.end && ss[i].packageId == id;
    }
    if i :| 0 <= i < |ss| && ss[i].isConfirmed && p.start <= ss[i].sessionDate <= p.end && ss[i].packageId == id {
      assert AsWindow(p).Contains(ss[i].sessionDate);
      assert ss[i] in c;
      assert ss[i].packageId in PackageIds(c);
    }
  }

  /** One more session raises the count by one exactly when it is confirmed,
      in the period and for a package not yet counted; unconfirmed or
      out-of-period sessions never change it. */
  lemma ActiveSessionPackagesStep(ss: seq<Session>, p: Period, s: Session)
    ensures var eligible := s.isConfirmed && p.start <= s.sessionDate <= p.end;
            var unseen := s.packageId !in PackageIds(ConfirmedIn(ss, AsWindow(p)));
            ActiveSessionPackages(ss + [s], p)
            == ActiveSessionPackages(ss, p) + (if eligible && unseen then 1 else 0)
  {
    var w := AsWindow(p);
    ConfirmedInAppend(ss, [s], w);
    ConfirmedInOne(s, w);
    var c := ConfirmedIn(ss, w);
    if s.isConfirmed && w.Contains(s.sessionDate) {
      PackageIdsSnoc(c, s);
    } else {
      assert c + [] == c;
    }
  }

  lemma PackageIdsSnoc(c: seq<Session>, s: Session)
    ensures PackageIds(c + [s]) == PackageIds(c) + {s.packageId}
  {
    forall id | id in PackageIds(c + [s])
      ensures id in PackageIds(c) + {s.packageId}
    {
      var x :| x in c + [s] && x.packageId == id;
      if x != s {
        assert x in c;
      }
    }
    assert s in c + [s];
  }

  // ---------------------------------------------------------------------------
  // activeSubscriptionPackages

  function SubscriptionQuery(p: Period): TransactionsService.Query {
    TransactionsService.Query(Some(Income), Some(["subscription", "subscription-package"]), Some(Active),
                              AsWindow(p), None)
  }

  /** `countDocuments` of active income in the period tagged as a subscription. */
  function ActiveSubscriptionPackages(txs: seq<Transaction>, p: Period): (n: nat)
    ensures n <= |txs|
  {
    |TransactionsService.Select(txs, SubscriptionQuery(p))|
  }

  predicate IsSubscriptionIncome(t: Transaction, p: Period) {
    && t.kind == Income
    && t.status == Active
    && p.start <= t.transactionDate <= p.end
    && ("subscription" in t.tags || "subscription-package" in t.tags)
  }

  lemma SubscriptionQueryIff(t: Transaction, p: Period)
    ensures TransactionsService.Matches(SubscriptionQuery(p), t) <==> IsSubscriptionIncome(t, p)
  {
    var wanted := ["subscription", "subscription-package"];
    TransactionsService.HasAnyTagIff(t.tags, wanted);
    if "subscription" in t.tags {
      var i :| 0 <= i < |t.tags| && t.tags[i] == "subscription";
      assert t.tags[i] == wanted[0];
    }
    if "subscription-package" in t.tags {
      var i :| 0 <= i < |t.tags| && t.tags[i] == "subscription-package";
      assert t.tags[i] == wanted[1];
    }
  }

  /** Every qualifying transaction adds one, so two subscription payments
      for the same package count twice; other transactions add nothing. */
  lemma SubscriptionCountStep(txs: seq<Transaction>, p: Period, t: Transaction)
    ensures ActiveSubscriptionPackages(txs + [t], p)
            == ActiveSubscriptionPackages(txs, p) + (if IsSubscriptionIncome(t, p) then 1 else 0)
  {
    var q := SubscriptionQuery(p);
    TransactionsService.SelectAppend(txs, [t], q);
    assert [t][1..] == [];
    SubscriptionQueryIff(t, p);
  }

  // ---------------------------------------------------------------------------
  // The transaction summary of the period

  function PeriodSummaryQuery(p: Period, f: FilterSpec): TransactionsService.Query {
    TransactionsService.Query(f.kind,
                              if f.tags.Some? && |f.tags.value| > 0 then f.tags else None,
                              Some(Active),
                              AsWindow(p),
                              None)
  }

  /** `getTransactionSummary`: active transactions of the period, optionally
      narrowed by type and by any-of tags, folded as in `getSummary`. */
  function TransactionSummaryFor(txs: seq<Transaction>, p: Period, f: FilterSpec): (r: TransactionSummary.Summary)
    ensures r.grossProfit == r.totalIncome - r.totalExpenses
  {
    TransactionSummary.Summarize(TransactionsService.Select(txs, PeriodSummaryQuery(p, f)))
  }

  /** The dashboard's summary is `getSummary` with the period as its date range. */
  lemma PeriodSummaryIsGetSummary(txs: seq<Transaction>, p: Period, f: FilterSpec)
    ensures TransactionSummaryFor(txs, p, f)
            == TransactionsService.GetSummary(txs, f.(startDate := Some(p.start), endDate := Some(p.end)))
  {
    assert PeriodSummaryQuery(p, f)
           == TransactionsService.SummaryQuery(f.(startDate := Some(p.start), endDate := Some(p.end)));
  }

  // ---------------------------------------------------------------------------
  // Teacher payroll

  /** `populate('teacherId')`: the first teacher with that id, if any. */
  function FindTeacher(teachers: seq<Teacher>, id: string): (r: Option<Teacher>)
    ensures r.None? <==> forall i :: 0 <= i < |teachers| ==> teachers[i].id != id
    ensures r.Some? ==> r.value in teachers && r.value.id == id
    decreases |teachers|
  {
    if teachers == [] then None
    else if teachers[0].id == id then Some(teachers[0])
    else FindTeacher(teachers[1..], id)
  }

  /** `hourlyRate * duration`, or nothing when the teacher does not resolve. */
  function SessionPay(s: Session, teachers: seq<Teacher>): real {
    match FindTeacher(teachers, s.teacherId)
    case None => 0.0
    case Some(t) => t.hourlyRate * s.duration
  }

  /** The salary loop over sessions, in order. */
  function PayTotal(ss: seq<Session>, teachers: seq<Teacher>): real
    decreases |ss|
  {
    if ss == [] then 0.0 else PayTotal(ss[..|ss| - 1], teachers) + SessionPay(ss[|ss| - 1], teachers)
  }

  lemma {:induction false} PayTotalAppend(a: seq<Session>, b: seq<Session>, teachers: seq<Teacher>)
    ensures PayTotal(a + b, teachers) == PayTotal(a, teachers) + PayTotal(b, teachers)
    decreases |b|
  {
    if b == [] {
      assert a + b == a;
    } else {
      var n := |b| - 1;
      assert (a + b)[..|a + b| - 1] == a + b[..n];
      assert (a + b)[|a + b| - 1] == b[n];
      PayTotalAppend(a, b[..n], teachers);
    }
  }

  /** `calculateTeacherSalaries`. */
  function CalculateTeacherSalaries(ss: seq<Session>, teachers: seq<Teacher>, p: Period): real {
    PayTotal(ConfirmedIn(ss, AsWindow(p)), teachers)
  }

  /** One more session adds its pay when it is confirmed in the period and its
      teacher resolves, and nothing otherwise. */
  lemma SalariesStep(ss: seq<Session>, teachers: seq<Teacher>, p: Period, s: Session)
    ensures CalculateTeacherSalaries(ss + [s], teachers, p)
            == CalculateTeacherSalaries(ss, teachers, p)
               + (if s.isConfirmed && p.start <= s.sessionDate <= p.end then SessionPay(s, teachers) else 0.0)
  {
    var w := AsWindow(p);
    var c := ConfirmedIn(ss, w);
    var extra := ConfirmedIn([s], w);
    ConfirmedInAppend(ss, [s], w);
    PayTotalAppend(c, extra, teachers);
    ConfirmedInOne(s, w);
    if s.isConfirmed && w.Contains(s.sessionDate) {
      PayTotalOne(s, teachers);
    }
  }

  lemma PayTotalOne(s: Session, teachers: seq<Teacher>)
    ensures PayTotal([s], teachers) == SessionPay(s, teachers)
  {
    assert [s][..0] == [];
  }

  /** Two confirmed in-period sessions, 2 hours at 50 and 3 hours at 60, cost 280. */
  lemma SalariesExample(s1: Session, s2: Session, t1: Teacher, t2: Teacher, p: Period)
    requires t1.id == "teacher1" && t1.hourlyRate == 50.0 && t2.id == "teacher2" && t2.hourlyRate == 60.0
    requires s1.teacherId == "teacher1" && s1.duration == 2.0 && s2.teacherId == "teacher2" && s2.duration == 3.0
    requires s1.isConfirmed && s2.isConfirmed
    requires p.start <= s1.sessionDate <= p.end && p.start <= s2.sessionDate <= p.end
    ensures CalculateTeacherSalaries([s1, s2], [t1, t2], p) == 280.0
  {
    var teachers := [t1, t2];
    assert FindTeacher(teachers, "teacher1") == Some(t1);
    assert teachers[1..] == [t2];
    assert FindTeacher(teachers, "teacher2") == Some(t2);
    SalariesStep([], teachers, p, s1);
    assert [] + [s1] == [s1];
    SalariesStep([s1], teachers, p, s2);
    assert [s1] + [s2] == [s1, s2];
  }

  // ---------------------------------------------------------------------------
  // The per-teacher breakdown

  datatype PayrollEntry = PayrollEntry(teacherId: string, teacherName: string, totalHours: real, totalPay: real)

  /** Position of the entry for a teacher id, if one exists yet. */
  function EntryIndex(es: seq<PayrollEntry>, id: string): (r: Option<nat>)
    ensures r.None? <==> forall i :: 0 <= i < |es| ==> es[i].teacherId != id
    ensures r.Some? ==> r.value < |es| && es[r.value].teacherId == id
    decreases |es|
  {
    if es == [] then None
    else if es[0].teacherId == id then Some(0)
    else
      match EntryIndex(es[1..], id)
      case None => None
      case Some(i) => Some(i + 1)
  }

  /** One loop iteration: a session whose teacher resolves adds its hours and
      pay to that teacher's entry, creating the entry on first sight. */
  function Credit(es: seq<PayrollEntry>, s: Session, teachers: seq<Teacher>): seq<PayrollEntry> {
    var t := FindTeacher(teachers, s.teacherId);
    if t.None? then es
    else
      var i := EntryIndex(es, t.value.id);
      if i.Some? then es[i.value := AddSession(es[i.value], s, t.value)]
      else es + [NewEntry(s, t.value)]
  }

  /** `entry.totalHours += duration; entry.totalPay += hourlyRate * duration`. */
  function AddSession(e: PayrollEntry, s: Session, t: Teacher): PayrollEntry {
    e.(totalHours := e.totalHours + s.duration, totalPay := e.totalPay + t.hourlyRate * s.duration)
  }

  /** A new entry starts at zero and receives its first session (`0 + x` is `x`). */
  function NewEntry(s: Session, t: Teacher): PayrollEntry {
    PayrollEntry(t.id, t.name, s.duration, t.hourlyRate * s.duration)
  }

  /** The loop over sessions, in order; `Object.values` keeps first-insertion order. */
  function BreakdownOf(ss: seq<Session>, teachers: seq<Teacher>): seq<PayrollEntry>
    decreases |ss|
  {
    if ss == [] then [] else Credit(BreakdownOf(ss[..|ss| - 1], teachers), ss[|ss| - 1], teachers)
  }

  /** `getTeacherSalaryBreakdown` over the sessions confirmed in the window. */
  function GetTeacherSalaryBreakdown(ss: seq<Session>, teachers: seq<Teacher>, w: Window): seq<PayrollEntry> {
    BreakdownOf(ConfirmedIn(ss, w), teachers)
  }

  // Reference definitions

  /** The teacher ids of the sessions whose teacher resolves, in session order. */
  function ResolvedIds(ss: seq<Session>, teachers: seq<Teacher>): seq<string>
    decreases |ss|
  {
    if ss == [] then []
    else
      var last := ss[|ss| - 1];
      ResolvedIds(ss[..|ss| - 1], teachers)
      + (if FindTeacher(teachers, last.teacherId).Some? then [last.teacherId] else [])
  }

  /** Each value once, at the position of its first occurrence. */
  function FirstSeen(xs: seq<string>): seq<string>
    decreases |xs|
  {
    if xs == [] then []
    else
      var d := FirstSeen(xs[..|xs| - 1]);
      if xs[|xs| - 1] in d then d else d + [xs[|xs| - 1]]
  }

  predicate NoDuplicates(xs: seq<string>) {
    forall i, j :: 0 <= i < j < |xs| ==> xs[i] != xs[j]
  }

  lemma {:induction false} FirstSeenSpec(xs: seq<string>)
    ensures NoDuplicates(FirstSeen(xs))
    ensures forall x :: x in FirstSeen(xs) <==> x in xs
    decreases |xs|
  {
    if xs != [] {
      var init := xs[..|xs| - 1];
      FirstSeenSpec(init);
      assert xs == init + [xs[|xs| - 1]];
    }
  }

  function HoursFor(ss: seq<Session>, teachers: seq<Teacher>, id: string): real
    decreases |ss|
  {
    if ss == [] then 0.0
    else
      var last := ss[|ss| - 1];
      HoursFor(ss[..|ss| - 1], teachers, id)
      + (if last.teacherId == id && FindTeacher(teachers, id).Some? then last.duration else 0.0)
  }

  function PayFor(ss: seq<Session>, teachers: seq<Teacher>, id: string): real
    decreases |ss|
  {
    if ss == [] then 0.0
    else
      var last := ss[|ss| - 1];
      PayFor(ss[..|ss| - 1], teachers, id) + (if last.teacherId == id then SessionPay(last, teachers) else 0.0)
  }

  function Ids(es: seq<PayrollEntry>): (r: seq<string>)
    ensures |r| == |es| && forall i :: 0 <= i < |es| ==> r[i] == es[i].teacherId
  {
    seq(|es|, i requires 0 <= i < |es| => es[i].teacherId)
  }

  /** An id no resolved session carries has accumulated nothing. */
  lemma {:induction false} UnseenIdHasNothing(ss: seq<Session>, teachers: seq<Teacher>, id: string)
    requires id !in ResolvedIds(ss, teachers)
    ensures HoursFor(ss, teachers, id) == 0.0 && PayFor(ss, teachers, id) == 0.0
    decreases |ss|
  {
    if ss != [] {
      var init := ss[..|ss| - 1];
      assert ResolvedIds(ss, teachers) == ResolvedIds(init, teachers)
             + (if FindTeacher(teachers, ss[|ss| - 1].teacherId).Some? then [ss[|ss| - 1].teacherId] else []);
      UnseenIdHasNothing(init, teachers, id);
    }
  }

  /** The breakdown agrees with its reference: one entry per resolved teacher
      in first-seen order, each carrying that teacher's name and the sums of
      hours and pay over that teacher's sessions. */
  predicate MatchesReference(es: seq<PayrollEntry>, ss: seq<Session>, teachers: seq<Teacher>) {
    && Ids(es) == FirstSeen(ResolvedIds(ss, teachers))
    && forall i :: 0 <= i < |es| ==> EntryMatches(es[i], ss, teachers)
  }

  /** One entry names a resolved teacher and carries that teacher's sums. */
  predicate EntryMatches(e: PayrollEntry, ss: seq<Session>, teachers: seq<Teacher>) {
    && FindTeacher(teachers, e.teacherId).Some?
    && e.teacherName == FindTeacher(teachers, e.teacherId).value.name
    && e.totalHours == HoursFor(ss, teachers, e.teacherId)
    && e.totalPay == PayFor(ss, teachers, e.teacherId)
  }

  lemma {:induction false} BreakdownMatchesReference(ss: seq<Session>, teachers: seq<Teacher>)
    ensures MatchesReference(BreakdownOf(ss, teachers), ss, teachers)
    decreases |ss|
  {
    if ss != [] {
      var init := ss[..|ss| - 1];
      var s := ss[|ss| - 1];
      var b0 := BreakdownOf(init, teachers);
      var r0 := ResolvedIds(init, teachers);
      BreakdownMatchesReference(init, teachers);
      FirstSeenSpec(r0);
      CreditKeepsReference(b0, init, s, teachers);
      assert init + [s] == ss;
    }
  }

  /** The inductive step: crediting one more session keeps the agreement. */
  lemma CreditKeepsReference(b0: seq<PayrollEntry>, init: seq<Session>, s: Session, teachers: seq<Teacher>)
    requires MatchesReference(b0, init, teachers)
    requires NoDuplicates(FirstSeen(ResolvedIds(init, teachers)))
    requires forall x :: x in FirstSeen(ResolvedIds(init, teachers)) <==> x in ResolvedIds(init, teachers)
    ensures MatchesReference(Credit(b0, s, teachers), init + [s], teachers)
  {
    var ss := init + [s];
    assert ss[..|ss| - 1] == init && ss[|ss| - 1] == s;
    var r0 := ResolvedIds(init, teachers);
    var b := Credit(b0, s, teachers);
    var t := FindTeacher(teachers, s.teacherId);
    var id := s.teacherId;
    if t.None? {
      assert ResolvedIds(ss, teachers) == r0 + [] == r0;
      assert b == b0;
    } else {
      assert ResolvedIds(ss, teachers) == r0 + [id];
      assert (r0 + [id])[..|r0 + [id]| - 1] == r0;
      var i := EntryIndex(b0, id);
      if i.Some? {
        CreditExisting(b0, init, s, teachers, i.value);
      } else {
        assert id !in r0 by {
          assert id !in Ids(b0);
        }
        CreditNew(b0, init, s, teachers);
      }
    }
  }

  /** The first session of a teacher appends a matching entry at the end. */
  lemma CreditNew(b0: seq<PayrollEntry>, init: seq<Session>, s: Session, teachers: seq<Teacher>)
    requires MatchesReference(b0, init, teachers)
    requires FindTeacher(teachers, s.teacherId).Some?
    requires s.teacherId !in ResolvedIds(init, teachers)
    ensures MatchesReference(Credit(b0, s, teachers), init + [s], teachers)
  {
    var id := s.teacherId;
    var e := NewEntry(s, FindTeacher(teachers, id).value);
    assert id !in Ids(b0) by {
      FirstSeenSpec(ResolvedIds(init, teachers));
    }
    assert Credit(b0, s, teachers) == b0 + [e];
    NewEntryIds(b0, init, s, teachers);
    NewEntryKeepsEntries(b0, init, s, teachers);
  }

  /** Appending a new teacher's entry extends the first-seen id list by that id. */
  lemma NewEntryIds(b0: seq<PayrollEntry>, init: seq<Session>, s: Session, teachers: seq<Teacher>)
    requires Ids(b0) == FirstSeen(ResolvedIds(init, teachers))
    requires FindTeacher(teachers, s.teacherId).Some?
    requires s.teacherId !in ResolvedIds(init, teachers)
    ensures Ids(b0 + [NewEntry(s, FindTeacher(teachers, s.teacherId).value)])
            == FirstSeen(ResolvedIds(init + [s], teachers))
  {
    var ss := init + [s];
    var id := s.teacherId;
    var r0 := ResolvedIds(init, teachers);
    var b := b0 + [NewEntry(s, FindTeacher(teachers, id).value)];
    assert ss[..|ss| - 1] == init && ss[|ss| - 1] == s;
    assert ResolvedIds(ss, teachers) == r0 + [id];
    assert (r0 + [id])[..|r0 + [id]| - 1] == r0;
    assert id !in FirstSeen(r0) by {
      FirstSeenSpec(r0);
    }
    assert FirstSeen(r0 + [id]) == FirstSeen(r0) + [id];
    assert Ids(b) == Ids(b0) + [id];
  }

  /** After a new teacher's first session, the old entries and the new one
      all agree with the reference. */
  lemma NewEntryKeepsEntries(b0: seq<PayrollEntry>, init: seq<Session>, s: Session, teachers: seq<Teacher>)
    requires forall i :: 0 <= i < |b0| ==> EntryMatches(b0[i], init, teachers)
    requires FindTeacher(teachers, s.teacherId).Some?
    requires s.teacherId !in ResolvedIds(init, teachers)
    requires s.teacherId !in Ids(b0)
    ensures var b := b0 + [NewEntry(s, FindTeacher(teachers, s.teacherId).value)];
            forall j :: 0 <= j < |b| ==> EntryMatches(b[j], init + [s], teachers)
  {
    var id := s.teacherId;
    var e := NewEntry(s, FindTeacher(teachers, id).value);
    var b := b0 + [e];
    UnseenIdHasNothing(init, teachers, id);
    forall j | 0 <= j < |b|
      ensures EntryMatches(b[j], init + [s], teachers)
    {
      if j < |b0| {
        assert b[j] == b0[j] && Ids(b0)[j] != id;
        EntryStep(b0[j], init, s, teachers);
      } else {
        assert b[j] == e;
        NewEntryMatches(init, s, teachers);
      }
    }
  }

  /** A teacher's first session: the new entry carries exactly that session. */
  lemma NewEntryMatches(init: seq<Session>, s: Session, teachers: seq<Teacher>)
    requires FindTeacher(teachers, s.teacherId).Some?
    requires HoursFor(init, teachers, s.teacherId) == 0.0 && PayFor(init, teachers, s.teacherId) == 0.0
    ensures EntryMatches(NewEntry(s, FindTeacher(teachers, s.teacherId).value), init + [s], teachers)
  {
    ForIdStep(init, s, teachers, s.teacherId);
  }

  /** Adding one session to a credited teacher's entry keeps the agreement. */
  lemma CreditExisting(b0: seq<PayrollEntry>, init: seq<Session>, s: Session, teachers: seq<Teacher>, i: nat)
    requires MatchesReference(b0, init, teachers)
    requires NoDuplicates(FirstSeen(ResolvedIds(init, teachers)))
    requires FindTeacher(teachers, s.teacherId).Some?
    requires EntryIndex(b0, s.teacherId) == Some(i)
    ensures MatchesReference(Credit(b0, s, teachers), init + [s], teachers)
  {
    var ss := init + [s];
    var id := s.teacherId;
    var r0 := ResolvedIds(init, teachers);
    var b := b0[i := AddSession(b0[i], s, FindTeacher(teachers, id).value)];
    assert Credit(b0, s, teachers) == b;
    assert Ids(b) == FirstSeen(ResolvedIds(ss, teachers)) by {
      assert ss[..|ss| - 1] == init && ss[|ss| - 1] == s;
      assert ResolvedIds(ss, teachers) == r0 + [id];
      assert (r0 + [id])[..|r0 + [id]| - 1] == r0;
      assert id == Ids(b0)[i];
      assert FirstSeen(r0 + [id]) == FirstSeen(r0);
      assert Ids(b) == Ids(b0);
    }
    forall j | 0 <= j < |b|
      ensures EntryMatches(b[j], ss, teachers)
    {
      if j != i {
        assert Ids(b0)[j] != Ids(b0)[i];
        EntryStep(b0[j], init, s, teachers);
      } else {
        EntryStep(b0[i], init, s, teachers);
      }
    }
  }

  /** An entry that matches before a session still matches after it: unchanged
      for another teacher's session, with the session added for its own. */
  lemma EntryStep(e: PayrollEntry, init: seq<Session>, s: Session, teachers: seq<Teacher>)
    requires EntryMatches(e, init, teachers)
    ensures s.teacherId != e.teacherId ==> EntryMatches(e, init + [s], teachers)
    ensures s.teacherId == e.teacherId ==>
              EntryMatches(AddSession(e, s, FindTeacher(teachers, e.teacherId).value), init + [s], teachers)
  {
    ForIdStep(init, s, teachers, e.teacherId);
  }

  /** The references' last step, for one id. */
  lemma ForIdStep(init: seq<Session>, s: Session, teachers: seq<Teacher>, id: string)
    ensures HoursFor(init + [s], teachers, id)
            == HoursFor(init, teachers, id) + (if s.teacherId == id && FindTeacher(teachers, id).Some? then s.duration else 0.0)
    ensures PayFor(init + [s], teachers, id)
            == PayFor(init, teachers, id) + (if s.teacherId == id then SessionPay(s, teachers) else 0.0)
  {
    var ss := init + [s];
    assert ss[..|ss| - 1] == init && ss[|ss| - 1] == s;
  }

  /** The breakdown has no two entries for the same teacher. */
  lemma BreakdownIdsDistinct(ss: seq<Session>, teachers: seq<Teacher>)
    ensures NoDuplicates(Ids(BreakdownOf(ss, teachers)))
    ensures forall id :: id in Ids(BreakdownOf(ss, teachers)) <==> id in ResolvedIds(ss, teachers)
  {
    BreakdownMatchesReference(ss, teachers);
    FirstSeenSpec(ResolvedIds(ss, teachers));
  }

  function SumPay(es: seq<PayrollEntry>): real
    decreases |es|
  {
    if es == [] then 0.0 else SumPay(es[..|es| - 1]) + es[|es| - 1].totalPay
  }

  lemma {:induction false} SumPayUpdate(es: seq<PayrollEntry>, i: nat, e: PayrollEntry)
    requires i < |es|
    ensures SumPay(es[i := e]) == SumPay(es) - es[i].totalPay + e.totalPay
    decreases |es|
  {
    var n := |es| - 1;
    if i == n {
      assert es[i := e][..n] == es[..n];
    } else {
      assert es[i := e][..n] == es[..n][i := e];
      SumPayUpdate(es[..n], i, e);
    }
  }

  lemma {:induction false} BreakdownSumsToPayTotal(ss: seq<Session>, teachers: seq<Teacher>)
    ensures SumPay(BreakdownOf(ss, teachers)) == PayTotal(ss, teachers)
    decreases |ss|
  {
    if ss != [] {
      var init := ss[..|ss| - 1];
      var s := ss[|ss| - 1];
      var b0 := BreakdownOf(init, teachers);
      BreakdownSumsToPayTotal(init, teachers);
      assert PayTotal(ss, teachers) == PayTotal(init, teachers) + SessionPay(s, teachers);
      assert BreakdownOf(ss, teachers) == Credit(b0, s, teachers);
      CreditAddsSessionPay(b0, s, teachers);
    }
  }

  lemma CreditAddsSessionPay(es: seq<PayrollEntry>, s: Session, teachers: seq<Teacher>)
    ensures SumPay(Credit(es, s, teachers)) == SumPay(es) + SessionPay(s, teachers)
  {
    var t := FindTeacher(teachers, s.teacherId);
    if t.Some? {
      var pay := t.value.hourlyRate * s.duration;
      assert SessionPay(s, teachers) == pay;
      var i := EntryIndex(es, t.value.id);
      if i.Some? {
        var e := AddSession(es[i.value], s, t.value);
        assert e.totalPay == es[i.value].totalPay + pay;
        SumPayUpdate(es, i.value, e);
      } else {
        var b := es + [NewEntry(s, t.value)];
        assert b[..|b| - 1] == es;
        assert b[|b| - 1].totalPay == pay;
      }
    }
  }

  /** For the same sessions and period, the breakdown's pay adds up to the payroll total. */
  lemma BreakdownAgreesWithSalaries(ss: seq<Session>, teachers: seq<Teacher>, p: Period)
    ensures SumPay(GetTeacherSalaryBreakdown(ss, teachers, AsWindow(p)))
            == CalculateTeacherSalaries(ss, teachers, p)
  {
    BreakdownSumsToPayTotal(ConfirmedIn(ss, AsWindow(p)), teachers);
  }

  /** No sessions, no entries. */
  lemma BreakdownOfNothing(teachers: seq<Teacher>, w: Window)
    ensures GetTeacherSalaryBreakdown([], teachers, w) == []
  {
  }

  /** Sessions of 5 and 3 hours for teacher1 at 50 and one of 4 hours for
      teacher2 at 60 give teacher1 8 hours and 400, then teacher2 4 hours and 240. */
  lemma BreakdownExample(s1: Session, s2: Session, s3: Session, t1: Teacher, t2: Teacher)
    requires t1 == Teacher("teacher1", "John Doe", t1.email, 50.0, t1.isActive)
    requires t2 == Teacher("teacher2", "Jane Smith", t2.email, 60.0, t2.isActive)
    requires s1.teacherId == "teacher1" && s1.duration == 5.0
    requires s2.teacherId == "teacher1" && s2.duration == 3.0
    requires s3.teacherId == "teacher2" && s3.duration == 4.0
    ensures BreakdownOf([s1, s2, s3], [t1, t2])
            == [PayrollEntry("teacher1", "John Doe", 8.0, 400.0), PayrollEntry("teacher2", "Jane Smith", 4.0, 240.0)]
  {
    var teachers := [t1, t2];
    assert FindTeacher(teachers, "teacher1") == Some(t1);
    assert teachers[1..] == [t2];
    assert FindTeacher(teachers, "teacher2") == Some(t2);
    var ss := [s1, s2, s3];
    assert ss[..2] == [s1, s2] && [s1, s2][..1] == [s1] && [s1][..0] == [];
    var b1 := BreakdownOf([s1], teachers);
    assert BreakdownOf([], teachers) == [];
    assert b1 == Credit([], s1, teachers);
    assert b1 == [PayrollEntry("teacher1", "John Doe", 5.0, 250.0)];
    var b2 := BreakdownOf([s1, s2], teachers);
    assert EntryIndex(b1, "teacher1") == Some(0);
    assert b2 == [PayrollEntry("teacher1", "John Doe", 8.0, 400.0)];
    assert EntryIndex(b2, "teacher2") == None;
  }

  // ---------------------------------------------------------------------------
  // getDashboard

  datatype DashboardReport = DashboardReport(
    activeSessionPackages: nat,
    activeSubscriptionPackages: nat,
    totalIncome: real,
    totalExpenses: real,
    grossProfit: real,
    totalTeacherSalaries: real,
    netProfit: real,
    totalTax: real,
    expensesByCategory: map<string, real>,
    incomeByCategory: map<string, real>,
    periodStart: Instant,
    periodEnd: Instant)

  function GetDashboard(now: Instant, f: FilterSpec, txs: seq<Transaction>, ss: seq<Session>,
                        teachers: seq<Teacher>): (r: DashboardReport)
    ensures r.netProfit == r.totalIncome - r.totalExpenses - r.totalTeacherSalaries
    ensures r.grossProfit == r.totalIncome - r.totalExpenses
    ensures Period(r.periodStart, r.periodEnd) == ResolvePeriod(now, f)
  {
    var p := ResolvePeriod(now, f);
    var summary := TransactionSummaryFor(txs, p, f);
    var salaries := CalculateTeacherSalaries(ss, teachers, p);
    DashboardReport(
      ActiveSessionPackages(ss, p),
      ActiveSubscriptionPackages(txs, p),
      summary.totalIncome,
      summary.totalExpenses,
      summary.grossProfit,
      salaries,
      summary.grossProfit - salaries,
      summary.totalTax,
      summary.expensesByCategory,
      summary.incomeByCategory,
      p.start,
      p.end)
  }

  /** The money fields are `getSummary` over the resolved period, unchanged,
      and the payroll total is the breakdown's total pay. */
  lemma DashboardFiguresAreTheirSources(now: Instant, f: FilterSpec, txs: seq<Transaction>, ss: seq<Session>,
                                        teachers: seq<Teacher>)
    ensures var r := GetDashboard(now, f, txs, ss, teachers);
            var p := ResolvePeriod(now, f);
            var s := TransactionsService.GetSummary(txs, f.(startDate := Some(p.start), endDate := Some(p.end)));
            && r.totalIncome == s.totalIncome && r.totalExpenses == s.totalExpenses && r.totalTax == s.totalTax
            && r.expensesByCategory == s.expensesByCategory && r.incomeByCategory == s.incomeByCategory
            && r.totalTeacherSalaries == SumPay(GetTeacherSalaryBreakdown(ss, teachers, AsWindow(p)))
            && r.activeSessionPackages == ActiveSessionPackages(ss, p)
            && r.activeSubscriptionPackages == ActiveSubscriptionPackages(txs, p)
  {
    var p := ResolvePeriod(now, f);
    PeriodSummaryIsGetSummary(txs, p, f);
    BreakdownAgreesWithSalaries(ss, teachers, p);
  }

  /** Two active incomes netting 5000 and 3000 (tax 500 and 300), a 2000
      expense, and 2 hours at 50 plus 3 hours at 60, all inside the requested
      period: gross profit 6000, salaries 280, net profit 5720, tax 800. */
  lemma NetProfitExample(now: Instant, start: Instant, end: Instant, a: Transaction, b: Transaction, c: Transaction,
                         s1: Session, s2: Session, t1: Teacher, t2: Teacher)
    requires a.kind == Income && a.netAmount == 5000.0 && a.taxAmount == 500.0
    requires b.kind == Income && b.netAmount == 3000.0 && b.taxAmount == 300.0
    requires c.kind == Expense && c.amount == 2000.0
    requires a.status == Active && b.status == Active && c.status == Active
    requires start <= a.transactionDate <= end && start <= b.transactionDate <= end
    requires start <= c.transactionDate <= end
    requires t1.id == "teacher1" && t1.hourlyRate == 50.0 && t2.id == "teacher2" && t2.hourlyRate == 60.0
    requires s1.teacherId == "teacher1" && s1.duration == 2.0 && s2.teacherId == "teacher2" && s2.duration == 3.0
    requires s1.isConfirmed && s2.isConfirmed
    requires start <= s1.sessionDate <= end && start <= s2.sessionDate <= end
    ensures var r := GetDashboard(now, NoFilter().(startDate := Some(start), endDate := Some(end)),
                                  [a, b, c], [s1, s2], [t1, t2]);
            && r.totalIncome == 8000.0 && r.totalExpenses == 2000.0 && r.totalTax == 800.0
            && r.grossProfit == 6000.0 && r.totalTeacherSalaries == 280.0 && r.netProfit == 5720.0
  {
    var f := NoFilter().(startDate := Some(start), endDate := Some(end));
    var p := ResolvePeriod(now, f);
    assert p == Period(start, end);
    PeriodSelectsAll(a, b, c, p, f);
    TransactionsService.SummaryExample(a, b, c);
    SalariesExample(s1, s2, t1, t2, p);
  }

  /** Active transactions dated inside the period all reach the summary when
      the filter names no type and no tags. */
  lemma PeriodSelectsAll(a: Transaction, b: Transaction, c: Transaction, p: Period, f: FilterSpec)
    requires f.kind.None? && f.tags.None?
    requires a.status == Active && b.status == Active && c.status == Active
    requires p.start <= a.transactionDate <= p.end && p.start <= b.transactionDate <= p.end
    requires p.start <= c.transactionDate <= p.end
    ensures TransactionsService.Select([a, b, c], PeriodSummaryQuery(p, f)) == [a, b, c]
  {
    var q := PeriodSummaryQuery(p, f);
    assert [a, b, c][1..] == [b, c] && [b, c][1..] == [c] && [c][1..] == [];
    assert TransactionsService.Matches(q, a) && TransactionsService.Matches(q, b) && TransactionsService.Matches(q, c);
    assert TransactionsService.Select([c], q) == [c];
    assert TransactionsService.Select([b, c], q) == [b, c];
  }
}

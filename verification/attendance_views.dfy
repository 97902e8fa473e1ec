/** The read-only attendance routes: `/today` flags, the `/live-status`
    partition of today's records, a user's own history (`/my`) and the
    management list (`/`). */
module AttendanceViews {
  import opened Common
  import opened TimeMath
  import opened AttendanceModel
  import Pagination
  import Scope

  /** The `/today` response. */
  datatype TodayView = TodayView(
    attendance: Option<Attendance>,
    isCheckedIn: bool,
    isCheckedOut: bool,
    isOnBreak: bool,
    currentBreak: Option<Break>)

  /** GET /today over the record found for the caller's day bucket. */
  function Today(rec: Option<Attendance>): (v: TodayView)
    ensures v.attendance == rec
    ensures v.isCheckedIn <==> rec.Some? && rec.value.checkIn.Some?
    ensures v.isCheckedOut <==> rec.Some? && rec.value.checkOut.Some?
    ensures v.isOnBreak <==> rec.Some? && HasOpenBreak(rec.value.breaks)
    ensures v.currentBreak.Some? <==> v.isOnBreak
    ensures v.currentBreak.Some? ==>
      exists k :: 0 <= k < |rec.value.breaks| && rec.value.breaks[k] == v.currentBreak.value
        && IsOpen(rec.value.breaks[k]) && forall j :: 0 <= j < k ==> !IsOpen(rec.value.breaks[j])
  {
    match rec
    case None => TodayView(None, false, false, false, None)
    case Some(a) =>
      var current := match FirstOpen(a.breaks) case Some(k) => Some(a.breaks[k]) case None => None;
      TodayView(rec, a.checkIn.Some?, a.checkOut.Some?, AnyOpen(a.breaks), current)
  }

  /** With no record today every flag is false and there is no current break. */
  lemma TodayWithoutRecord()
    ensures Today(None) == TodayView(None, false, false, false, None)
  {
  }

  /** On a well-formed record the flags determine the day's phase, and the
      flag combinations the state machine cannot reach do not occur. */
  lemma TodayAgreesWithPhase(rec: Option<Attendance>)
    requires RecordWellFormed(rec)
    ensures var v := Today(rec);
      && (v.isCheckedOut ==> v.isCheckedIn && !v.isOnBreak)
      && (v.isOnBreak ==> v.isCheckedIn)
      && PhaseOf(rec) == (if !v.isCheckedIn then NotStarted
                          else if v.isCheckedOut then CheckedOut
                          else if v.isOnBreak then OnBreak
                          else Working)
  {
  }

  /** The three `/live-status` lists. */
  datatype Bucket = WorkingBucket | OnBreakBucket | CheckedOutBucket

  /** The list a record goes to: checked out first, then on a break, then
      working if checked in; otherwise none. */
  function Classify(a: Attendance): Option<Bucket> {
    if a.checkOut.Some? then Some(CheckedOutBucket)
    else if AnyOpen(a.breaks) then Some(OnBreakBucket)
    else if a.checkIn.Some? then Some(WorkingBucket)
    else None
  }

  /** The `status` the live view writes over a listed record. */
  function Label(b: Bucket): string {
    match b
    case WorkingBucket => "working"
    case OnBreakBucket => "on-break"
    case CheckedOutBucket => "checked-out"
  }

  /** `{ ...att, status: label }`. */
  function Tagged(a: Attendance, b: Bucket): Attendance {
    a.(status := Label(b))
  }

  /** Reference definition of one list: the records classified into `b`, in
      the order fetched, relabelled. */
  function BucketOf(rs: seq<Attendance>, b: Bucket): seq<Attendance> {
    if |rs| == 0 then []
    else
      var last := rs[|rs| - 1];
      BucketOf(rs[..|rs| - 1], b) + (if Classify(last) == Some(b) then [Tagged(last, b)] else [])
  }

  /** The number of records that go to no list. */
  function Unlisted(rs: seq<Attendance>): nat {
    if |rs| == 0 then 0
    else Unlisted(rs[..|rs| - 1]) + (if Classify(rs[|rs| - 1]).None? then 1 else 0)
  }

  datatype Summary = Summary(working: nat, onBreak: nat, checkedOut: nat)

  /** The `/live-status` response. */
  datatype LiveStatus = LiveStatus(
    working: seq<Attendance>,
    onBreak: seq<Attendance>,
    checkedOut: seq<Attendance>,
    totalPresent: nat,
    summary: Summary)

  /** GET /live-status over the records fetched for today's bucket. */
  method GetLiveStatus(rs: seq<Attendance>) returns (v: LiveStatus)
    ensures v.working == BucketOf(rs, WorkingBucket)
    ensures v.onBreak == BucketOf(rs, OnBreakBucket)
    ensures v.checkedOut == BucketOf(rs, CheckedOutBucket)
    ensures v.totalPresent == |rs|
    ensures v.summary == Summary(|v.working|, |v.onBreak|, |v.checkedOut|)
    ensures v.summary.working + v.summary.onBreak + v.summary.checkedOut <= v.totalPresent
  {
    var working: seq<Attendance> := [];
    var onBreak: seq<Attendance> := [];
    var checkedOut: seq<Attendance> := [];
    var i := 0;
    while i < |rs|
      invariant 0 <= i <= |rs|
      invariant working == BucketOf(rs[..i], WorkingBucket)
      invariant onBreak == BucketOf(rs[..i], OnBreakBucket)
      invariant checkedOut == BucketOf(rs[..i], CheckedOutBucket)
    {
      var att := rs[i];
      var hasActiveBreak := AnyOpen(att.breaks);
      if att.checkOut.Some? {
        checkedOut := checkedOut + [Tagged(att, CheckedOutBucket)];
      } else if hasActiveBreak {
        onBreak := onBreak + [Tagged(att, OnBreakBucket)];
      } else if att.checkIn.Some? {
        working := working + [Tagged(att, WorkingBucket)];
      }
      assert rs[..i + 1][..i] == rs[..i];
      i := i + 1;
    }
    assert rs[..|rs|] == rs;
    BucketCounts(rs);
    v := LiveStatus(working, onBreak, checkedOut, |rs|,
                    Summary(|working|, |onBreak|, |checkedOut|));
  }

  /** A record appears in list `b` exactly when it is classified into `b`. */
  lemma {:induction false} BucketMembership(rs: seq<Attendance>, b: Bucket, x: Attendance)
    ensures x in BucketOf(rs, b) <==> exists a :: a in rs && Classify(a) == Some(b) && x == Tagged(a, b)
  {
    if |rs| > 0 {
      var init := rs[..|rs| - 1];
      var last := rs[|rs| - 1];
      BucketMembership(init, b, x);
      assert rs == init + [last];
      if x in BucketOf(rs, b) && !(x in BucketOf(init, b)) {
        assert x == Tagged(last, b) && last in rs;
      }
      if exists a :: a in rs && Classify(a) == Some(b) && x == Tagged(a, b) {
        var a :| a in rs && Classify(a) == Some(b) && x == Tagged(a, b);
        if a != last {
          assert a in init;
        }
      }
    }
  }

  /** Every fetched record goes to exactly one list or to none, so the three
      counts plus the unlisted records make up `totalPresent`. */
  lemma {:induction false} BucketCounts(rs: seq<Attendance>)
    ensures |BucketOf(rs, WorkingBucket)| + |BucketOf(rs, OnBreakBucket)| + |BucketOf(rs, CheckedOutBucket)| + Unlisted(rs) == |rs|
  {
    if |rs| > 0 {
      BucketCounts(rs[..|rs| - 1]);
    }
  }

  /** On a well-formed record the live view's list is the day's phase:
      unlisted before check-in, then working, on a break or checked out. */
  lemma ClassifyAgreesWithPhase(a: Attendance)
    requires WellFormed(a)
    ensures Classify(a).None? <==> PhaseOf(Some(a)) == NotStarted
    ensures Classify(a) == Some(WorkingBucket) <==> PhaseOf(Some(a)) == Working
    ensures Classify(a) == Some(OnBreakBucket) <==> PhaseOf(Some(a)) == OnBreak
    ensures Classify(a) == Some(CheckedOutBucket) <==> PhaseOf(Some(a)) == CheckedOut
  {
  }

  /** Checked out wins over an open break, even on a record where both hold. */
  lemma CheckedOutTakesPrecedence(a: Attendance)
    requires a.checkOut.Some? && HasOpenBreak(a.breaks)
    ensures Classify(a) == Some(CheckedOutBucket)
  {
  }

  /** `/my` returns at most this many records. */
  const HistoryLimit: nat := 30

  /** The 500 responses of the two list routes: Prisma refuses a `where` on
      an invalid date (`new Date` of a string it cannot parse). */
  datatype ViewError = FetchFailed | FetchRecordsFailed {
    function Status(): int {
      500
    }

    function Message(): string {
      match this
      case FetchFailed => "Failed to fetch attendance"
      case FetchRecordsFailed => "Failed to fetch attendance records"
    }
  }

  /** Records ordered most recent day first. */
  predicate DateDescending(s: seq<Attendance>) {
    forall i, j :: 0 <= i < j < |s| ==> s[i].date >= s[j].date
  }

  /** The date range `/my` applies: every day, or the parsed bounds, inclusive. */
  datatype DateRange = AllDates | Between(from: int, to: int)

  /** The `/my` filter: the caller's own records within the range. */
  function MyFilter(user: UserId, range: DateRange): Attendance -> bool {
    (a: Attendance) => a.userId == user && (range.Between? ==> range.from <= a.date <= range.to)
  }

  /** The caller's history over the store listed most recent day first
      (`orderBy: { date: 'desc' }`, `take: 30`). */
  function History(ordered: seq<Attendance>, user: UserId, range: DateRange): (r: seq<Attendance>)
    ensures |r| <= HistoryLimit
    ensures forall x :: x in r ==> x.userId == user
    ensures range.Between? ==> forall x :: x in r ==> range.from <= x.date <= range.to
    ensures r <= Filter(ordered, MyFilter(user, range))
    ensures |r| < HistoryLimit ==> r == Filter(ordered, MyFilter(user, range))
  {
    Take(Filter(ordered, MyFilter(user, range)), HistoryLimit)
  }

  /** GET /my. The range applies only when both `startDate` and `endDate` are
      given; `parseDate` is `new Date(...)`, absent for an invalid date, which
      the database refuses with a 500. */
  function MyAttendance(ordered: seq<Attendance>, user: UserId, startDate: Option<string>, endDate: Option<string>,
                        parseDate: string -> Option<int>): (r: Result<seq<Attendance>, ViewError>)
    ensures r.Failure? <==>
      Truthy(startDate) && Truthy(endDate) && (parseDate(startDate.value).None? || parseDate(endDate.value).None?)
    ensures r.Failure? ==> r.error == FetchFailed
    ensures !(Truthy(startDate) && Truthy(endDate)) ==> r == Success(History(ordered, user, AllDates))
    ensures r.Success? && Truthy(startDate) && Truthy(endDate) ==>
      r == Success(History(ordered, user, Between(parseDate(startDate.value).value, parseDate(endDate.value).value)))
    ensures r.Success? ==> |r.value| <= HistoryLimit && forall x :: x in r.value ==> x.userId == user
    ensures r.Success? && Truthy(startDate) && Truthy(endDate) ==>
      forall x :: x in r.value ==> parseDate(startDate.value).value <= x.date <= parseDate(endDate.value).value
  {
    if Truthy(startDate) && Truthy(endDate) then
      match (parseDate(startDate.value), parseDate(endDate.value))
      case (Some(from), Some(to)) => Success(History(ordered, user, Between(from, to)))
      case _ => Failure(FetchFailed)
    else Success(History(ordered, user, AllDates))
  }

  /** Filtering keeps the most-recent-first order. */
  lemma FilterKeepsDescending(s: seq<Attendance>, p: Attendance -> bool)
    requires DateDescending(s)
    ensures DateDescending(Filter(s, p))
  {
    SubsequenceKeepsOrder(Filter(s, p), s, (x: Attendance, y: Attendance) => x.date >= y.date);
  }

  /** `/my` lists the caller's most recent matching days: newest first, and
      every matching record it leaves out is no more recent than any it lists. */
  lemma MyAttendanceMostRecent(ordered: seq<Attendance>, user: UserId, range: DateRange)
    requires DateDescending(ordered)
    ensures DateDescending(History(ordered, user, range))
    ensures var r := History(ordered, user, range);
      forall x, y :: x in Filter(ordered, MyFilter(user, range)) && x !in r && y in r ==> y.date >= x.date
  {
    var f := Filter(ordered, MyFilter(user, range));
    var r := History(ordered, user, range);
    FilterKeepsDescending(ordered, MyFilter(user, range));
    assert forall k :: 0 <= k < |r| ==> r[k] == f[k];
    forall x, y | x in f && x !in r && y in r
      ensures y.date >= x.date
    {
      var i :| 0 <= i < |f| && f[i] == x;
      var j :| 0 <= j < |r| && r[j] == y;
      assert f[j] == y;
      assert i >= |r|;
    }
  }

  /** The query of the management list. `departmentId` is read from the query
      string but never used; `page` and `limit` are absent when not given. */
  datatype AttendanceQuery = AttendanceQuery(
    date: Option<string>,
    userId: Option<UserId>,
    departmentId: Option<string>,
    page: Option<int>,
    limit: Option<int>)

  /** The management list's `where`: the 24-hour bucket from the parsed `date`
      when given, and the user filter the caller's role allows. */
  function ListFilter(day: Option<int>, scope: Scope.UserFilter): Attendance -> bool {
    (a: Attendance) =>
      (day.Some? ==> InDay(a.date, day.value)) && Scope.Admits(scope, a.userId)
  }

  /** The parsed `date` of the management list, when one is given. */
  function ListDay(q: AttendanceQuery, parseDate: string -> Option<int>): Option<int> {
    if Truthy(q.date) then parseDate(q.date.value) else None
  }

  /** GET / (management) over the store listed most recent day first: the
      requested page of the matching records, 20 to a page by default. An
      invalid `date` makes the database refuse the query with a 500. */
  function ListAttendance(ordered: seq<Attendance>, caller: Caller, q: AttendanceQuery, employeeIds: set<UserId>,
                          parseDate: string -> Option<int>): (r: Result<Pagination.Page<Attendance>, ViewError>)
    requires Pagination.InRange(q.page, q.limit)
    ensures r.Failure? <==> Truthy(q.date) && parseDate(q.date.value).None?
    ensures r.Failure? ==> r.error == FetchRecordsFailed
    ensures r.Success? ==>
      var matching := Filter(ordered, ListFilter(ListDay(q, parseDate), Scope.ListScope(caller, q.userId, employeeIds)));
      var page := Pagination.PageOf(q.page);
      var limit := Pagination.LimitOf(q.limit);
      && r.value.rows == Pagination.PageRows(matching, page, limit)
      && r.value.info == Pagination.PageInfo(page, limit, |matching|, Pagination.PageCount(|matching|, limit))
    ensures r.Success? ==> |r.value.rows| <= Pagination.LimitOf(q.limit)
    ensures r.Success? && q.limit.None? ==> |r.value.rows| <= Pagination.DefaultLimit
    ensures r.Success? ==> forall x :: x in r.value.rows ==>
      && x in ordered
      && (Truthy(q.date) ==> InDay(x.date, parseDate(q.date.value).value))
    ensures r.Success? && caller.role == "manager" ==> forall x :: x in r.value.rows ==> x.userId in employeeIds
    ensures r.Success? && caller.role != "manager" && Truthy(q.userId) ==>
      forall x :: x in r.value.rows ==> x.userId == q.userId.value
  {
    if Truthy(q.date) && parseDate(q.date.value).None? then Failure(FetchRecordsFailed)
    else
      var scope := Scope.ListScope(caller, q.userId, employeeIds);
      Success(Pagination.PaginateQuery(Filter(ordered, ListFilter(ListDay(q, parseDate), scope)), q.page, q.limit))
  }

  /** The `departmentId` parameter has no effect on the list. */
  lemma ListIgnoresDepartment(ordered: seq<Attendance>, caller: Caller, q: AttendanceQuery, employeeIds: set<UserId>,
                              parseDate: string -> Option<int>)
    requires Pagination.InRange(q.page, q.limit)
    ensures ListAttendance(ordered, caller, q, employeeIds, parseDate)
         == ListAttendance(ordered, caller, q.(departmentId := None), employeeIds, parseDate)
  {
  }
}

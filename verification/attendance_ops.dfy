/** The four transitions of an attendance day: check-in, check-out,
    break-start and break-end. Each takes today's record as the route finds
    it (or its absence), the caller and the current instant, checks its
    preconditions in the route's order and either rejects or yields the
    record as the route leaves it, together with the reply's figures. */
module AttendanceOps {
  import opened Common
  import opened TimeMath
  import opened AttendanceModel

  /** The rejections of the four transitions; every one is a 400 response. */
  datatype AttendanceError =
    | AlreadyCheckedIn
    | NotCheckedIn
    | AlreadyCheckedOutToday
    | AlreadyCheckedOut
    | AlreadyOnBreak
    | NoAttendanceToday
    | NotOnBreak
  {
    function Status(): int {
      400
    }

    function Message(): string {
      match this
      case AlreadyCheckedIn => "Already checked in today"
      case NotCheckedIn => "Not checked in today"
      case AlreadyCheckedOutToday => "Already checked out today"
      case AlreadyCheckedOut => "Already checked out"
      case AlreadyOnBreak => "Already on break"
      case NoAttendanceToday => "No attendance record for today"
      case NotOnBreak => "Not on break"
    }
  }

  /** A successful transition: the record as it is afterwards plus the
      figures the route puts in its reply. */
  datatype Reply =
    | CheckInReply(record: Attendance, checkInTime: int)
    | CheckOutReply(record: Attendance, checkOutTime: int, totalWorkTime: int, totalBreakTime: int)
    | BreakStartReply(record: Attendance, brk: Break, startTime: int)
    | BreakEndReply(record: Attendance, brk: Break, duration: int, totalBreakTime: int)

  /** The record check-in creates when the day has none. Break and work
      totals start at zero. */
  function NewRecord(user: UserId, today: int, now: int): Attendance {
    Attendance(user, today, Some(now), None, Present, 0, 0, [])
  }

  /** POST /check-in. */
  function CheckIn(rec: Option<Attendance>, user: UserId, today: int, now: int): (r: Result<Reply, AttendanceError>)
    ensures r.Failure? <==> rec.Some? && rec.value.checkIn.Some?
    ensures r.Failure? ==> r.error == AlreadyCheckedIn
    ensures r.Success? ==> r.value.CheckInReply? && r.value.checkInTime == now
    ensures r.Success? ==> r.value.record.checkIn == Some(now) && r.value.record.status == Present
    ensures r.Success? && rec.Some? ==> r.value.record == rec.value.(checkIn := Some(now), status := Present)
    ensures r.Success? && rec.None? ==>
      && r.value.record.userId == user && r.value.record.date == today
      && r.value.record.checkOut.None? && r.value.record.breaks == []
  {
    match rec
    case Some(a) =>
      if a.checkIn.Some? then Failure(AlreadyCheckedIn)
      else
        var updated := a.(checkIn := Some(now), status := Present);
        Success(CheckInReply(updated, now))
    case None =>
      Success(CheckInReply(NewRecord(user, today, now), now))
  }

  /** The record with check-out's break handling applied: the first break in
      progress, if any, is ended at `now`. */
  function CloseActiveBreak(bs: seq<Break>, now: int): (r: seq<Break>)
    ensures |r| == |bs|
    ensures FirstOpen(bs).None? ==> r == bs
    ensures FirstOpen(bs).Some? ==> r == bs[FirstOpen(bs).value := CloseBreak(bs[FirstOpen(bs).value], now)]
  {
    match FirstOpen(bs)
    case None => bs
    case Some(k) => bs[k := CloseBreak(bs[k], now)]
  }

  /** POST /check-out, as the route is written: the break total is summed over
      the breaks as they were loaded, before the active break was ended, so a
      break ended here contributes nothing to either total. */
  function CheckOut(rec: Option<Attendance>, now: int): (r: Result<Reply, AttendanceError>)
    ensures rec.None? || rec.value.checkIn.None? ==> r == Failure(NotCheckedIn)
    ensures rec.Some? && rec.value.checkIn.Some? && rec.value.checkOut.Some? ==> r == Failure(AlreadyCheckedOutToday)
    ensures r.Success? <==> rec.Some? && rec.value.checkIn.Some? && rec.value.checkOut.None?
    ensures r.Success? ==>
      var a := rec.value;
      var b := r.value.record;
      && r.value.CheckOutReply? && r.value.checkOutTime == now
      && b == a.(checkOut := Some(now), totalBreakTime := b.totalBreakTime,
                 totalWorkTime := b.totalWorkTime, breaks := b.breaks)
      && b.breaks == CloseActiveBreak(a.breaks, now)
      && b.totalBreakTime == SumDurations(a.breaks) == r.value.totalBreakTime
      && b.totalWorkTime == RoundMinutes(now - a.checkIn.value) - SumDurations(a.breaks) == r.value.totalWorkTime
  {
    if rec.None? || rec.value.checkIn.None? then Failure(NotCheckedIn)
    else if rec.value.checkOut.Some? then Failure(AlreadyCheckedOutToday)
    else
      var a := rec.value;
      var totalBreakTime := SumDurations(a.breaks);
      var totalMinutes := RoundMinutes(now - a.checkIn.value);
      var totalWorkTime := totalMinutes - totalBreakTime;
      var updated := a.(checkOut := Some(now), totalBreakTime := totalBreakTime,
                        totalWorkTime := totalWorkTime, breaks := CloseActiveBreak(a.breaks, now));
      Success(CheckOutReply(updated, now, totalWorkTime, totalBreakTime))
  }

  /** Check-out as evidently intended: the break total includes the break that
      check-out itself ends. Identical to `CheckOut` in every other respect. */
  function CheckOutCorrected(rec: Option<Attendance>, now: int): (r: Result<Reply, AttendanceError>)
    ensures r.Failure? ==> r == CheckOut(rec, now)
    ensures r.Success? <==> CheckOut(rec, now).Success?
    ensures r.Success? ==>
      var a := rec.value;
      var b := r.value.record;
      && r.value.CheckOutReply? && r.value.checkOutTime == now
      && b.breaks == CheckOut(rec, now).value.record.breaks
      && b.totalBreakTime == SumDurations(b.breaks) == r.value.totalBreakTime
      && b.totalWorkTime == RoundMinutes(now - a.checkIn.value) - SumDurations(b.breaks) == r.value.totalWorkTime
      && b == CheckOut(rec, now).value.record.(totalBreakTime := b.totalBreakTime, totalWorkTime := b.totalWorkTime)
  {
    if rec.None? || rec.value.checkIn.None? then Failure(NotCheckedIn)
    else if rec.value.checkOut.Some? then Failure(AlreadyCheckedOutToday)
    else
      var a := rec.value;
      var closed := CloseActiveBreak(a.breaks, now);
      var totalBreakTime := SumDurations(closed);
      var totalWorkTime := RoundMinutes(now - a.checkIn.value) - totalBreakTime;
      var updated := a.(checkOut := Some(now), totalBreakTime := totalBreakTime,
                        totalWorkTime := totalWorkTime, breaks := closed);
      Success(CheckOutReply(updated, now, totalWorkTime, totalBreakTime))
  }

  /** POST /break-start. */
  function BreakStart(rec: Option<Attendance>, now: int): (r: Result<Reply, AttendanceError>)
    ensures rec.None? || rec.value.checkIn.None? ==> r == Failure(NotCheckedIn)
    ensures rec.Some? && rec.value.checkIn.Some? && rec.value.checkOut.Some? ==> r == Failure(AlreadyCheckedOut)
    ensures rec.Some? && rec.value.checkIn.Some? && rec.value.checkOut.None? && HasOpenBreak(rec.value.breaks) ==>
      r == Failure(AlreadyOnBreak)
    ensures r.Success? <==> PhaseOf(rec) == Working
    ensures r.Success? ==>
      && r.value.BreakStartReply? && r.value.startTime == now
      && r.value.brk == Break(now, None, None)
      && r.value.record == rec.value.(breaks := rec.value.breaks + [Break(now, None, None)])
  {
    if rec.None? || rec.value.checkIn.None? then Failure(NotCheckedIn)
    else if rec.value.checkOut.Some? then Failure(AlreadyCheckedOut)
    else if FirstOpen(rec.value.breaks).Some? then Failure(AlreadyOnBreak)
    else
      var a := rec.value;
      var started := Break(now, None, None);
      Success(BreakStartReply(a.(breaks := a.breaks + [started]), started, now))
  }

  /** POST /break-end. Needs a record and a break in progress; check-in and
      check-out are not consulted. The new break total is the reduce over the
      loaded breaks with the new duration substituted for the ended break. */
  function BreakEnd(rec: Option<Attendance>, now: int): (r: Result<Reply, AttendanceError>)
    ensures rec.None? ==> r == Failure(NoAttendanceToday)
    ensures rec.Some? && !HasOpenBreak(rec.value.breaks) ==> r == Failure(NotOnBreak)
    ensures r.Success? <==> rec.Some? && HasOpenBreak(rec.value.breaks)
    ensures r.Success? ==>
      var a := rec.value;
      var k := FirstOpen(a.breaks).value;
      var b := r.value.record;
      && r.value.BreakEndReply?
      && b.breaks == a.breaks[k := CloseBreak(a.breaks[k], now)]
      && r.value.brk == b.breaks[k]
      && r.value.duration == RoundMinutes(now - a.breaks[k].startTime)
      && b.totalBreakTime == SumDurations(b.breaks) == r.value.totalBreakTime
      && b == a.(breaks := b.breaks, totalBreakTime := b.totalBreakTime)
  {
    match rec
    case None => Failure(NoAttendanceToday)
    case Some(a) =>
      match FirstOpen(a.breaks)
      case None => Failure(NotOnBreak)
      case Some(k) =>
        var duration := RoundMinutes(now - a.breaks[k].startTime);
        var ended := a.breaks[k].(endTime := Some(now), duration := Some(duration));
        var totalBreakTime := SumSubstituting(a.breaks, k, duration);
        SumSubstitutingIsSwap(a.breaks, k, duration);
        SumDurationsUpdate(a.breaks, k, ended);
        var updated := a.(breaks := a.breaks[k := ended], totalBreakTime := totalBreakTime);
        Success(BreakEndReply(updated, ended, duration, totalBreakTime))
  }

  /** The four transitions as one type of request. */
  datatype Op = CheckInOp | CheckOutOp | BreakStartOp | BreakEndOp

  /** The route an `Op` names, applied to today's record at `now`. */
  function Apply(rec: Option<Attendance>, user: UserId, today: int, op: Op, now: int): Result<Reply, AttendanceError> {
    match op
    case CheckInOp => CheckIn(rec, user, today, now)
    case CheckOutOp => CheckOut(rec, now)
    case BreakStartOp => BreakStart(rec, now)
    case BreakEndOp => BreakEnd(rec, now)
  }
}

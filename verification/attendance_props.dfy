/** Properties of the attendance transitions: the record invariants they
    preserve, agreement with the day's state machine, rejection after the
    terminal check-out, replay of whole days, and worked examples. */
module AttendanceProperties {
  import opened Common
  import opened TimeMath
  import opened AttendanceModel
  import opened AttendanceOps

  /** The day's state machine: not started, then working, on a break and back
      any number of times, then checked out. `None` means the request is
      refused in that phase. */
  function Expected(p: Phase, op: Op): Option<Phase> {
    match (p, op)
    case (NotStarted, CheckInOp) => Some(Working)
    case (Working, BreakStartOp) => Some(OnBreak)
    case (OnBreak, BreakEndOp) => Some(Working)
    case (Working, CheckOutOp) => Some(CheckedOut)
    case (OnBreak, CheckOutOp) => Some(CheckedOut)
    case _ => None
  }

  /** The record a request leaves behind: the new one on success, the old one
      on a rejection (a rejected request writes nothing). */
  function After(rec: Option<Attendance>, user: UserId, today: int, op: Op, now: int): Option<Attendance> {
    var r := Apply(rec, user, today, op, now);
    if r.Success? then Some(r.value.record) else rec
  }

  /** Ending the first break in progress, when it is the only one, leaves none. */
  lemma CloseOnlyOpenBreak(bs: seq<Break>, now: int)
    requires AtMostOneOpen(bs)
    ensures !HasOpenBreak(CloseActiveBreak(bs, now))
    ensures AtMostOneOpen(CloseActiveBreak(bs, now))
  {
    var c := CloseActiveBreak(bs, now);
    if FirstOpen(bs).Some? {
      var k := FirstOpen(bs).value;
      forall i | 0 <= i < |c|
        ensures !IsOpen(c[i])
      {
        if i != k {
          assert !IsOpen(bs[i]);
        }
      }
    }
  }

  /** Breaks whose ended members are consistent keep that property when one
      is ended at `now`. */
  lemma CloseKeepsConsistency(bs: seq<Break>, now: int)
    requires forall i :: 0 <= i < |bs| ==> BreakConsistent(bs[i])
    ensures forall i :: 0 <= i < |CloseActiveBreak(bs, now)| ==> BreakConsistent(CloseActiveBreak(bs, now)[i])
  {
  }

  /** Every accepted transition keeps a well-formed record well-formed. */
  lemma StepPreservesWellFormed(rec: Option<Attendance>, user: UserId, today: int, op: Op, now: int)
    requires RecordWellFormed(rec)
    ensures RecordWellFormed(After(rec, user, today, op, now))
  {
    var r := Apply(rec, user, today, op, now);
    if r.Success? && op == CheckInOp {
      if rec.Some? {
        assert rec.value.breaks == [];
      }
    } else if r.Success? {
      var a := rec.value;
      var b := r.value.record;
      match op
      case CheckOutOp =>
        CloseOnlyOpenBreak(a.breaks, now);
        CloseKeepsConsistency(a.breaks, now);
      case BreakStartOp =>
        SumDurationsAppend(a.breaks, Break(now, None, None));
        assert forall i :: 0 <= i < |a.breaks| ==> !IsOpen(a.breaks[i]);
      case BreakEndOp =>
        assert a.checkOut.None?;
        CloseOnlyOpenBreak(a.breaks, now);
        assert b.breaks == CloseActiveBreak(a.breaks, now);
    }
  }

  /** With a clock that does not run backwards, every accepted transition keeps
      the record's instants ordered and its break total non-negative. */
  lemma StepPreservesTimely(rec: Option<Attendance>, user: UserId, today: int, op: Op, earlier: int, now: int)
    requires RecordWellFormed(rec) && RecordTimely(rec, earlier) && earlier <= now
    ensures RecordTimely(After(rec, user, today, op, now), now)
  {
    var r := Apply(rec, user, today, op, now);
    if r.Success? {
      var b := r.value.record;
      StepPreservesWellFormed(rec, user, today, op, now);
      if rec.Some? {
        var a := rec.value;
        assert forall i :: 0 <= i < |a.breaks| ==> BreakTimely(a.breaks[i], a.checkIn, now);
        match op
        case CheckInOp =>
          assert a.breaks == [];
        case CheckOutOp =>
          TimelyDurationsNonNegative(a.breaks, a.checkIn, earlier);
        case BreakStartOp =>
        case BreakEndOp =>
          TimelyDurationsNonNegative(b.breaks, b.checkIn, now);
      }
    }
  }

  /** The transitions implement the day's state machine: on a well-formed
      record a request is accepted exactly when the machine allows it in the
      current phase, and the record is then in the phase the machine names. */
  lemma StepFollowsStateMachine(rec: Option<Attendance>, user: UserId, today: int, op: Op, now: int)
    requires RecordWellFormed(rec)
    ensures Apply(rec, user, today, op, now).Success? <==> Expected(PhaseOf(rec), op).Some?
    ensures Apply(rec, user, today, op, now).Success? ==>
      PhaseOf(Some(Apply(rec, user, today, op, now).value.record)) == Expected(PhaseOf(rec), op).value
  {
    var r := Apply(rec, user, today, op, now);
    match op
    case CheckInOp =>
      if r.Success? && rec.Some? {
        assert rec.value.breaks == [];
        assert !HasOpenBreak(r.value.record.breaks);
      }
    case CheckOutOp =>
    case BreakStartOp =>
      if r.Success? {
        var b := r.value.record;
        assert IsOpen(b.breaks[|b.breaks| - 1]);
      }
    case BreakEndOp =>
      if rec.Some? && HasOpenBreak(rec.value.breaks) {
        assert |rec.value.breaks| > 0;
        CloseOnlyOpenBreak(rec.value.breaks, now);
      }
  }

  /** Check-out is terminal for the day: afterwards every request is refused,
      each with its own message. */
  lemma CheckOutIsTerminal(rec: Option<Attendance>, user: UserId, today: int, now: int, later: int)
    requires RecordWellFormed(rec)
    requires CheckOut(rec, now).Success?
    ensures var done := Some(CheckOut(rec, now).value.record);
      && CheckIn(done, user, today, later) == Failure(AlreadyCheckedIn)
      && CheckOut(done, later) == Failure(AlreadyCheckedOutToday)
      && BreakStart(done, later) == Failure(AlreadyCheckedOut)
      && BreakEnd(done, later) == Failure(NotOnBreak)
  {
    CloseOnlyOpenBreak(rec.value.breaks, now);
  }

  /** A second check-in the same day is refused, and a second break-start
      before the break ends is refused. */
  lemma RepeatedRequestsRefused(rec: Option<Attendance>, user: UserId, today: int, now: int, later: int)
    ensures CheckIn(rec, user, today, now).Success? ==>
      CheckIn(Some(CheckIn(rec, user, today, now).value.record), user, today, later) == Failure(AlreadyCheckedIn)
    ensures BreakStart(rec, now).Success? ==>
      BreakStart(Some(BreakStart(rec, now).value.record), later) == Failure(AlreadyOnBreak)
  {
    if BreakStart(rec, now).Success? {
      var b := BreakStart(rec, now).value.record;
      assert IsOpen(b.breaks[|b.breaks| - 1]);
    }
  }

  /** A timed request. */
  datatype Event = Event(op: Op, at: int)

  /** A day's requests applied in order; refused ones leave the record as it was. */
  function Replay(rec: Option<Attendance>, user: UserId, today: int, events: seq<Event>): Option<Attendance>
    decreases |events|
  {
    if |events| == 0 then rec
    else Replay(After(rec, user, today, events[0].op, events[0].at), user, today, events[1..])
  }

  /** Request instants in non-decreasing order, none before `from`. */
  predicate Chronological(events: seq<Event>, from: int) {
    forall i :: 0 <= i < |events| ==> from <= events[i].at && (i + 1 < |events| ==> events[i].at <= events[i + 1].at)
  }

  /** Whatever sequence of requests a day sees, its record stays well-formed;
      with a clock that does not run backwards it also stays timely. In
      particular at most one break is ever in progress and the break total
      never goes negative. */
  lemma {:induction false} ReplayKeepsInvariants(rec: Option<Attendance>, user: UserId, today: int, events: seq<Event>, from: int)
    requires RecordWellFormed(rec)
    ensures RecordWellFormed(Replay(rec, user, today, events))
    ensures RecordTimely(rec, from) && Chronological(events, from) ==>
      RecordTimely(Replay(rec, user, today, events), if |events| == 0 then from else events[|events| - 1].at)
    decreases |events|
  {
    if |events| > 0 {
      var e := events[0];
      var next := After(rec, user, today, e.op, e.at);
      StepPreservesWellFormed(rec, user, today, e.op, e.at);
      if RecordTimely(rec, from) && Chronological(events, from) {
        StepPreservesTimely(rec, user, today, e.op, from, e.at);
        assert Chronological(events[1..], e.at) by {
          forall i | 0 <= i < |events[1..]|
            ensures e.at <= events[1..][i].at
          {
            ChronologicalMonotone(events, from, 0, i + 1);
          }
        }
      }
      ReplayKeepsInvariants(next, user, today, events[1..], e.at);
      if |events| > 1 {
        assert events[1..][|events[1..]| - 1] == events[|events| - 1];
      }
    }
  }

  /** Later requests are no earlier. */
  lemma {:induction false} ChronologicalMonotone(events: seq<Event>, from: int, i: nat, j: nat)
    requires Chronological(events, from) && i <= j < |events|
    ensures events[i].at <= events[j].at
    decreases j - i
  {
    if i < j {
      ChronologicalMonotone(events, from, i + 1, j);
    }
  }

  /** A day with one five-minute break: check-in at t0, break from t0+10m to
      t0+15m, check-out at t0+60m gives a five-minute break, five minutes of
      break time and fifty-five minutes of work. */
  lemma FullDayExample(user: UserId, today: int, t0: int)
    ensures var s1 := CheckIn(None, user, today, t0);
      && s1.Success?
      && var s2 := BreakStart(Some(s1.value.record), t0 + 600000);
      && s2.Success?
      && var s3 := BreakEnd(Some(s2.value.record), t0 + 900000);
      && s3.Success? && s3.value.duration == 5 && s3.value.totalBreakTime == 5
      && var s4 := CheckOut(Some(s3.value.record), t0 + 3600000);
      && s4.Success? && s4.value.totalBreakTime == 5 && s4.value.totalWorkTime == 55
  {
    var s1 := CheckIn(None, user, today, t0);
    var s2 := BreakStart(Some(s1.value.record), t0 + 600000);
    var s3 := BreakEnd(Some(s2.value.record), t0 + 900000);
    assert s3.value.record.breaks == [Break(t0 + 600000, Some(t0 + 900000), Some(5))];
    var s4 := CheckOut(Some(s3.value.record), t0 + 3600000);
    assert SumDurations(s3.value.record.breaks) == 5;
  }

  /** Check-out during a break, as written: check-in at t0, break from t0+10m,
      check-out at t0+20m ends the break with a ten-minute duration, yet
      reports no break time and twenty minutes of work. */
  lemma CheckOutDropsAutoClosedBreak(user: UserId, today: int, t0: int)
    ensures var s1 := CheckIn(None, user, today, t0);
      && s1.Success?
      && var s2 := BreakStart(Some(s1.value.record), t0 + 600000);
      && s2.Success?
      && var s3 := CheckOut(Some(s2.value.record), t0 + 1200000);
      && s3.Success?
      && s3.value.record.breaks == [Break(t0 + 600000, Some(t0 + 1200000), Some(10))]
      && s3.value.totalBreakTime == 0 && s3.value.totalWorkTime == 20
      && s3.value.totalBreakTime != SumDurations(s3.value.record.breaks)
  {
    var s1 := CheckIn(None, user, today, t0);
    var s2 := BreakStart(Some(s1.value.record), t0 + 600000);
    assert s2.value.record.breaks == [Break(t0 + 600000, None, None)];
    assert SumDurations(s2.value.record.breaks) == 0;
    var s3 := CheckOut(Some(s2.value.record), t0 + 1200000);
    assert SumDurations(s3.value.record.breaks) == 10;
  }

  /** The same day with the corrected check-out: ten minutes of break, ten of work. */
  lemma CheckOutCorrectedExample(user: UserId, today: int, t0: int)
    ensures var s1 := CheckIn(None, user, today, t0);
      && s1.Success?
      && var s2 := BreakStart(Some(s1.value.record), t0 + 600000);
      && s2.Success?
      && var s3 := CheckOutCorrected(Some(s2.value.record), t0 + 1200000);
      && s3.Success? && s3.value.totalBreakTime == 10 && s3.value.totalWorkTime == 10
  {
    var s1 := CheckIn(None, user, today, t0);
    var s2 := BreakStart(Some(s1.value.record), t0 + 600000);
    var s3 := CheckOutCorrected(Some(s2.value.record), t0 + 1200000);
    assert s3.value.record.breaks == [Break(t0 + 600000, Some(t0 + 1200000), Some(10))];
    assert SumDurations(s3.value.record.breaks) == 10;
  }

  /** As written, check-out's break total falls short of the recorded
      durations by exactly the rounded length of the break it ends. */
  lemma CheckOutBreakShortfall(rec: Option<Attendance>, now: int)
    requires RecordWellFormed(rec) && CheckOut(rec, now).Success?
    ensures var a := rec.value;
      var b := CheckOut(rec, now).value.record;
      && (FirstOpen(a.breaks).None? ==> b.totalBreakTime == SumDurations(b.breaks))
      && (FirstOpen(a.breaks).Some? ==>
            b.totalBreakTime == SumDurations(b.breaks) - RoundMinutes(now - a.breaks[FirstOpen(a.breaks).value].startTime))
  {
    var a := rec.value;
    if FirstOpen(a.breaks).Some? {
      var k := FirstOpen(a.breaks).value;
      SumDurationsUpdate(a.breaks, k, CloseBreak(a.breaks[k], now));
    }
  }

  /** With the corrected check-out the stored break total always equals the
      sum of the recorded break durations, on every reachable record. */
  predicate BreakTotalExact(a: Attendance) {
    a.totalBreakTime == SumDurations(a.breaks)
  }

  lemma CheckOutCorrectedKeepsBreakTotal(rec: Option<Attendance>, now: int)
    requires RecordWellFormed(rec) && CheckOutCorrected(rec, now).Success?
    ensures WellFormed(CheckOutCorrected(rec, now).value.record)
    ensures BreakTotalExact(CheckOutCorrected(rec, now).value.record)
  {
    var a := rec.value;
    CloseOnlyOpenBreak(a.breaks, now);
    CloseKeepsConsistency(a.breaks, now);
  }

  /** Rounding each break and the whole span separately can make the work
      total negative: two back-to-back half-minute breaks from check-in to
      check-out one minute later round to two minutes of break in one
      minute of elapsed time. */
  lemma WorkTimeCanBeNegative(user: UserId, today: int, t0: int)
    ensures var s1 := CheckIn(None, user, today, t0);
      && s1.Success?
      && var s2 := BreakStart(Some(s1.value.record), t0);
      && s2.Success?
      && var s3 := BreakEnd(Some(s2.value.record), t0 + 30000);
      && s3.Success?
      && var s4 := BreakStart(Some(s3.value.record), t0 + 30000);
      && s4.Success?
      && var s5 := BreakEnd(Some(s4.value.record), t0 + 60000);
      && s5.Success?
      && var s6 := CheckOut(Some(s5.value.record), t0 + 60000);
      && s6.Success? && s6.value.totalBreakTime == 2 && s6.value.totalWorkTime == -1
  {
    var s1 := CheckIn(None, user, today, t0);
    var s2 := BreakStart(Some(s1.value.record), t0);
    var s3 := BreakEnd(Some(s2.value.record), t0 + 30000);
    assert s3.value.record.breaks == [Break(t0, Some(t0 + 30000), Some(1))];
    var s4 := BreakStart(Some(s3.value.record), t0 + 30000);
    assert s4.value.record.breaks == [Break(t0, Some(t0 + 30000), Some(1)), Break(t0 + 30000, None, None)];
    assert FirstOpen(s4.value.record.breaks) == Some(1);
    var s5 := BreakEnd(Some(s4.value.record), t0 + 60000);
    assert s5.value.record.breaks == [Break(t0, Some(t0 + 30000), Some(1)), Break(t0 + 30000, Some(t0 + 60000), Some(1))];
    var bs := s5.value.record.breaks;
    assert bs[..1] == [bs[0]];
    assert SumDurations(bs[..1]) == 1;
  }
}

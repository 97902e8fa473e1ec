/** The per-user, per-day attendance record and its breaks, the predicates
    the attendance routes evaluate on them, and the invariants the four
    transitions keep. Instants are integer milliseconds; totals are minutes. */
module AttendanceModel {
  import opened Common
  import opened TimeMath

  /** A break: when it started, and once it is over, when it ended and how many
      whole minutes it lasted. */
  datatype Break = Break(startTime: int, endTime: Option<int>, duration: Option<int>)

  /** One user's attendance for one day bucket; `breaks` in creation order. */
  datatype Attendance = Attendance(
    userId: UserId,
    date: int,
    checkIn: Option<int>,
    checkOut: Option<int>,
    status: string,
    totalBreakTime: int,
    totalWorkTime: int,
    breaks: seq<Break>)

  /** The only status value the attendance routes write. */
  const Present: string := "present"

  /** A break still in progress: `!b.endTime`. A break's `startTime` is always
      set, so the `/today` test `b.startTime && !b.endTime` is the same test. */
  predicate IsOpen(b: Break) {
    b.endTime.None?
  }

  /** Reference definition: some break is in progress. */
  predicate HasOpenBreak(bs: seq<Break>) {
    exists i :: 0 <= i < |bs| && IsOpen(bs[i])
  }

  /** `breaks.some(b => !b.endTime)`, scanned front to back. */
  function AnyOpen(bs: seq<Break>): (r: bool)
    ensures r <==> HasOpenBreak(bs)
  {
    if |bs| == 0 then false
    else if IsOpen(bs[0]) then true
    else
      var rest := AnyOpen(bs[1..]);
      assert HasOpenBreak(bs[1..]) ==> HasOpenBreak(bs) by {
        if HasOpenBreak(bs[1..]) {
          var i :| 0 <= i < |bs| - 1 && IsOpen(bs[1..][i]);
          assert IsOpen(bs[i + 1]);
        }
      }
      assert HasOpenBreak(bs) ==> HasOpenBreak(bs[1..]) by {
        if HasOpenBreak(bs) {
          var i :| 0 <= i < |bs| && IsOpen(bs[i]);
          assert i != 0;
          assert IsOpen(bs[1..][i - 1]);
        }
      }
      rest
  }

  /** `breaks.find(b => !b.endTime)`, as the position of the break found:
      the first break in progress, if any. */
  function FirstOpen(bs: seq<Break>): (r: Option<nat>)
    ensures r.Some? <==> HasOpenBreak(bs)
    ensures r.Some? ==> r.value < |bs| && IsOpen(bs[r.value])
    ensures r.Some? ==> forall j :: 0 <= j < r.value ==> !IsOpen(bs[j])
  {
    if |bs| == 0 then None
    else if IsOpen(bs[0]) then Some(0)
    else
      match FirstOpen(bs[1..])
      case None => None
      case Some(i) =>
        assert IsOpen(bs[i + 1]);
        assert forall j :: 1 <= j < i + 1 ==> bs[j] == bs[1..][j - 1];
        Some(i + 1)
  }

  /** `b.duration || 0`: a break without a duration contributes nothing. */
  function DurationOrZero(b: Break): int {
    b.duration.GetOr(0)
  }

  /** `breaks.reduce((sum, b) => sum + (b.duration || 0), 0)`. */
  function SumDurations(bs: seq<Break>): int {
    if |bs| == 0 then 0
    else SumDurations(bs[..|bs| - 1]) + DurationOrZero(bs[|bs| - 1])
  }

  /** The break-end reduce: the break at position `k` contributes `d`,
      every other break `duration || 0`. */
  function SumSubstituting(bs: seq<Break>, k: nat, d: int): int {
    if |bs| == 0 then 0
    else SumSubstituting(bs[..|bs| - 1], k, d) + (if |bs| - 1 == k then d else DurationOrZero(bs[|bs| - 1]))
  }

  /** Ends a break at `now`: `{ endTime: now, duration: Math.round((now - startTime) / 60000) }`. */
  function CloseBreak(b: Break, now: int): (c: Break)
    ensures c.startTime == b.startTime && !IsOpen(c)
    ensures c.endTime == Some(now)
    ensures c.duration == Some(RoundMinutes(now - b.startTime))
  {
    b.(endTime := Some(now), duration := Some(RoundMinutes(now - b.startTime)))
  }

  /** Replacing one break changes the sum by the difference of the two contributions. */
  lemma {:induction false} SumDurationsUpdate(bs: seq<Break>, k: nat, b: Break)
    requires k < |bs|
    ensures SumDurations(bs[k := b]) == SumDurations(bs) - DurationOrZero(bs[k]) + DurationOrZero(b)
  {
    var n := |bs|;
    if k == n - 1 {
      assert bs[k := b][..n - 1] == bs[..n - 1];
    } else {
      assert bs[k := b][..n - 1] == bs[..n - 1][k := b];
      SumDurationsUpdate(bs[..n - 1], k, b);
    }
  }

  /** Appending a break adds its contribution. */
  lemma SumDurationsAppend(bs: seq<Break>, b: Break)
    ensures SumDurations(bs + [b]) == SumDurations(bs) + DurationOrZero(b)
  {
    assert (bs + [b])[..|bs|] == bs;
  }

  /** The substituting reduce is the plain sum with one contribution swapped. */
  lemma {:induction false} SumSubstitutingIsSwap(bs: seq<Break>, k: nat, d: int)
    requires k < |bs|
    ensures SumSubstituting(bs, k, d) == SumDurations(bs) - DurationOrZero(bs[k]) + d
  {
    var n := |bs|;
    if k < n - 1 {
      SumSubstitutingIsSwap(bs[..n - 1], k, d);
    } else {
      SumSubstitutingSkips(bs[..n - 1], k, d);
    }
  }

  /** A substitution position past the end changes nothing. */
  lemma {:induction false} SumSubstitutingSkips(bs: seq<Break>, k: nat, d: int)
    requires k >= |bs|
    ensures SumSubstituting(bs, k, d) == SumDurations(bs)
  {
    if |bs| > 0 {
      SumSubstitutingSkips(bs[..|bs| - 1], k, d);
    }
  }

  /** Breaks with non-negative contributions sum to a non-negative total. */
  lemma {:induction false} SumDurationsNonNegative(bs: seq<Break>)
    requires forall i :: 0 <= i < |bs| ==> DurationOrZero(bs[i]) >= 0
    ensures SumDurations(bs) >= 0
  {
    if |bs| > 0 {
      SumDurationsNonNegative(bs[..|bs| - 1]);
    }
  }

  /** At most one break is in progress. */
  predicate AtMostOneOpen(bs: seq<Break>) {
    forall i, j :: 0 <= i < |bs| && 0 <= j < |bs| && i != j && IsOpen(bs[i]) ==> !IsOpen(bs[j])
  }

  /** A break has a duration exactly when it has ended, and that duration is
      its rounded length. */
  predicate BreakConsistent(b: Break) {
    && (b.endTime.None? <==> b.duration.None?)
    && (b.endTime.Some? ==> b.duration == Some(RoundMinutes(b.endTime.value - b.startTime)))
  }

  /** The structural invariant of a record reachable through the four
      transitions: check-out only after check-in, breaks only after check-in,
      at most one break in progress and none after check-out, ended breaks
      carry their rounded duration, the break total is current until
      check-out, and at check-out work time is elapsed minutes less break time. */
  predicate WellFormed(a: Attendance) {
    && (a.checkOut.Some? ==> a.checkIn.Some?)
    && (|a.breaks| > 0 ==> a.checkIn.Some?)
    && (a.checkIn.Some? ==> a.status == Present)
    && AtMostOneOpen(a.breaks)
    && (a.checkOut.Some? ==> !HasOpenBreak(a.breaks))
    && (forall i :: 0 <= i < |a.breaks| ==> BreakConsistent(a.breaks[i]))
    && (a.checkOut.None? ==> a.totalBreakTime == SumDurations(a.breaks))
    && (a.checkOut.Some? ==> a.totalWorkTime == RoundMinutes(a.checkOut.value - a.checkIn.value) - a.totalBreakTime)
  }

  /** A break lies after check-in and, as far as it has happened, before `now`. */
  predicate BreakTimely(b: Break, checkIn: Option<int>, now: int) {
    && (checkIn.Some? ==> checkIn.value <= b.startTime)
    && b.startTime <= now
    && (b.endTime.Some? ==> b.startTime <= b.endTime.value <= now)
  }

  /** Every recorded instant of the record is in order and no later than `now`;
      the break total is not negative. */
  predicate Timely(a: Attendance, now: int) {
    && (a.checkIn.Some? ==> a.checkIn.value <= now)
    && (a.checkOut.Some? ==> a.checkIn.Some? && a.checkIn.value <= a.checkOut.value <= now)
    && (forall i :: 0 <= i < |a.breaks| ==> BreakTimely(a.breaks[i], a.checkIn, now))
    && a.totalBreakTime >= 0
  }

  /** Optional form of the invariants: an absent record satisfies them. */
  predicate RecordWellFormed(rec: Option<Attendance>) {
    rec.Some? ==> WellFormed(rec.value)
  }

  predicate RecordTimely(rec: Option<Attendance>, now: int) {
    rec.Some? ==> Timely(rec.value, now)
  }

  /** The day's state as a state machine: not started, working, on a break,
      or checked out (terminal for the day). */
  datatype Phase = NotStarted | Working | OnBreak | CheckedOut

  function PhaseOf(rec: Option<Attendance>): Phase {
    if rec.None? || rec.value.checkIn.None? then NotStarted
    else if rec.value.checkOut.Some? then CheckedOut
    else if HasOpenBreak(rec.value.breaks) then OnBreak
    else Working
  }

  /** A break list whose breaks are consistent and lie after check-in and
      before `now` has non-negative durations only, so their sum is not
      negative. */
  lemma TimelyDurationsNonNegative(bs: seq<Break>, checkIn: Option<int>, now: int)
    requires forall i :: 0 <= i < |bs| ==> BreakConsistent(bs[i]) && BreakTimely(bs[i], checkIn, now)
    ensures forall i :: 0 <= i < |bs| ==> DurationOrZero(bs[i]) >= 0
    ensures SumDurations(bs) >= 0
  {
    forall i | 0 <= i < |bs|
      ensures DurationOrZero(bs[i]) >= 0
    {
      assert BreakConsistent(bs[i]) && BreakTimely(bs[i], checkIn, now);
    }
    SumDurationsNonNegative(bs);
  }
}

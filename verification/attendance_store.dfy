/** The attendance routes against the whole store of attendance records:
    each request finds the caller's record for today's bucket, runs its
    transition and writes the result back (or creates the record). */
module AttendanceStore {
  import opened Common
  import opened TimeMath
  import opened AttendanceModel
  import opened AttendanceOps

  /** Whether `a` is `user`'s record for the bucket starting at `today`. */
  predicate BelongsToday(a: Attendance, user: UserId, today: int) {
    a.userId == user && InDay(a.date, today)
  }

  /** `findFirst` with `userId` and the `[today, today + 24h)` date window:
      the position of the first matching record at or after `from`. */
  function FindFrom(store: seq<Attendance>, user: UserId, today: int, from: nat): (r: Option<nat>)
    requires from <= |store|
    ensures r.Some? ==> from <= r.value < |store| && BelongsToday(store[r.value], user, today)
    ensures r.Some? ==> forall j :: from <= j < r.value ==> !BelongsToday(store[j], user, today)
    ensures r.None? ==> forall j :: from <= j < |store| ==> !BelongsToday(store[j], user, today)
    decreases |store| - from
  {
    if from == |store| then None
    else if BelongsToday(store[from], user, today) then Some(from)
    else FindFrom(store, user, today, from + 1)
  }

  function FindToday(store: seq<Attendance>, user: UserId, today: int): (r: Option<nat>)
    ensures r.Some? ==> r.value < |store| && BelongsToday(store[r.value], user, today)
    ensures r.Some? ==> forall j :: 0 <= j < r.value ==> !BelongsToday(store[j], user, today)
    ensures r.None? ==> forall j :: 0 <= j < |store| ==> !BelongsToday(store[j], user, today)
  {
    FindFrom(store, user, today, 0)
  }

  /** The record a route loads for the caller's day, if any. */
  function TodayRecord(store: seq<Attendance>, user: UserId, today: int): Option<Attendance> {
    match FindToday(store, user, today)
    case Some(i) => Some(store[i])
    case None => None
  }

  /** At most one record per user falls in the bucket starting at `today`. */
  predicate OnePerUserDay(store: seq<Attendance>, today: int) {
    forall i, j ::
      (0 <= i < |store| && 0 <= j < |store| && i != j && store[i].userId == store[j].userId && InDay(store[i].date, today))
      ==> !InDay(store[j].date, today)
  }

  /** A handled request: the store afterwards and the route's reply. */
  datatype Handled = Handled(store: seq<Attendance>, reply: Reply)

  /** A transition never moves a record to another user or another day. */
  lemma ApplyKeepsOwner(rec: Option<Attendance>, user: UserId, today: int, op: Op, now: int)
    requires Apply(rec, user, today, op, now).Success?
    ensures var b := Apply(rec, user, today, op, now).value.record;
      if rec.Some? then b.userId == rec.value.userId && b.date == rec.value.date
      else b.userId == user && b.date == today
  {
  }

  /** One request by `user` at `now`, with `today` its day bucket. */
  function Handle(store: seq<Attendance>, user: UserId, today: int, op: Op, now: int): (r: Result<Handled, AttendanceError>)
    ensures var t := Apply(TodayRecord(store, user, today), user, today, op, now);
      && (r.Failure? <==> t.Failure?)
      && (r.Failure? ==> r.error == t.error)
      && (r.Success? ==> r.value.reply == t.value)
    ensures r.Success? ==> |r.value.store| == |store| || r.value.store == store + [r.value.reply.record]
    ensures r.Success? ==> forall i :: 0 <= i < |store| && !BelongsToday(store[i], user, today) ==> r.value.store[i] == store[i]
  {
    var found := FindToday(store, user, today);
    var rec := TodayRecord(store, user, today);
    match Apply(rec, user, today, op, now)
    case Failure(e) => Failure(e)
    case Success(reply) =>
      var updated := if found.Some? then store[found.value := reply.record] else store + [reply.record];
      Success(Handled(updated, reply))
  }

  /** After a request the caller's record for today is the one the request wrote. */
  lemma HandleWritesTodayRecord(store: seq<Attendance>, user: UserId, today: int, op: Op, now: int)
    requires Handle(store, user, today, op, now).Success?
    ensures var h := Handle(store, user, today, op, now).value;
      TodayRecord(h.store, user, today) == Some(h.reply.record)
  {
    var h := Handle(store, user, today, op, now).value;
    var found := FindToday(store, user, today);
    ApplyKeepsOwner(TodayRecord(store, user, today), user, today, op, now);
    var k := if found.Some? then found.value else |store|;
    assert BelongsToday(h.store[k], user, today);
    assert forall j :: 0 <= j < k ==> h.store[j] == store[j];
    var again := FindToday(h.store, user, today);
    assert again.Some?;
    assert again.value == k;
  }

  /** Requests by one user never change what another user's requests find. */
  lemma HandleIsolatesUsers(store: seq<Attendance>, user: UserId, other: UserId, today: int, op: Op, now: int)
    requires other != user
    requires Handle(store, user, today, op, now).Success?
    ensures TodayRecord(Handle(store, user, today, op, now).value.store, other, today) == TodayRecord(store, other, today)
  {
    var h := Handle(store, user, today, op, now).value;
    var found := FindToday(store, user, today);
    ApplyKeepsOwner(TodayRecord(store, user, today), user, today, op, now);
    var k := if found.Some? then found.value else |store|;
    assert !BelongsToday(h.store[k], other, today);
    assert forall j :: 0 <= j < |store| && j != k ==> h.store[j] == store[j];
    var before := FindToday(store, other, today);
    var after := FindToday(h.store, other, today);
    if before.Some? {
      assert after.Some? && after.value == before.value;
    } else {
      assert after.None?;
    }
  }

  /** No request creates a second record for a user's day. */
  lemma HandleKeepsOnePerUserDay(store: seq<Attendance>, user: UserId, today: int, op: Op, now: int)
    requires OnePerUserDay(store, today)
    requires Handle(store, user, today, op, now).Success?
    ensures OnePerUserDay(Handle(store, user, today, op, now).value.store, today)
  {
    var h := Handle(store, user, today, op, now).value;
    var found := FindToday(store, user, today);
    var rec := TodayRecord(store, user, today);
    ApplyKeepsOwner(rec, user, today, op, now);
    if found.None? {
      var b := h.reply.record;
      assert h.store == store + [b];
      assert BelongsToday(b, user, today);
      forall i, j | 0 <= i < |h.store| && 0 <= j < |h.store| && i != j
          && h.store[i].userId == h.store[j].userId && InDay(h.store[i].date, today)
        ensures !InDay(h.store[j].date, today)
      {
        if i == |store| {
          assert !BelongsToday(store[j], user, today);
        } else if j < |store| {
          assert h.store[i] == store[i] && h.store[j] == store[j];
        }
      }
    } else {
      var k := found.value;
      forall i, j | 0 <= i < |h.store| && 0 <= j < |h.store| && i != j
          && h.store[i].userId == h.store[j].userId && InDay(h.store[i].date, today)
        ensures !InDay(h.store[j].date, today)
      {
        assert h.store[i].userId == store[i].userId && h.store[i].date == store[i].date;
        assert h.store[j].userId == store[j].userId && h.store[j].date == store[j].date;
      }
    }
  }

  /** Two check-ins by one user in one bucket: whatever the store held, at most
      the first succeeds, the second is refused with "Already checked in today",
      and the store still holds one record for that user's day. */
  lemma SecondCheckInRefused(store: seq<Attendance>, user: UserId, today: int, now: int, later: int)
    requires OnePerUserDay(store, today)
    requires Handle(store, user, today, CheckInOp, now).Success?
    ensures var s1 := Handle(store, user, today, CheckInOp, now).value.store;
      && Handle(s1, user, today, CheckInOp, later) == Failure(AlreadyCheckedIn)
      && OnePerUserDay(s1, today)
  {
    HandleWritesTodayRecord(store, user, today, CheckInOp, now);
    HandleKeepsOnePerUserDay(store, user, today, CheckInOp, now);
  }
}

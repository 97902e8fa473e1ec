/** Time arithmetic of the attendance routes. Instants are integer
    milliseconds since the epoch, as `Date.getTime()` returns them. */
module TimeMath {

  const MsPerMinute: int := 60000
  const HalfMinute: int := 30000
  /** `24 * 60 * 60 * 1000`, the width of one day bucket. */
  const MsPerDay: int := 24 * 60 * 60 * 1000

  /** `Math.round(ms / 60000)`: the whole number of minutes nearest to `ms`,
      a half minute rounding up (towards positive infinity, as `Math.round` does
      for negative spans too). Floor division reproduces it on integers. */
  function RoundMinutes(ms: int): (m: int)
    ensures MsPerMinute * m - HalfMinute <= ms < MsPerMinute * m + HalfMinute
    ensures ms >= 0 ==> m >= 0
  {
    (ms + HalfMinute) / MsPerMinute
  }

  /** The rounding is the only integer within half a minute (half-open on the
      upper side), so `RoundMinutes` is exactly round-half-up. */
  lemma RoundMinutesUnique(ms: int, m: int)
    requires MsPerMinute * m - HalfMinute <= ms < MsPerMinute * m + HalfMinute
    ensures m == RoundMinutes(ms)
  {
  }

  /** Longer spans never round to fewer minutes. */
  lemma RoundMinutesMonotone(a: int, b: int)
    requires a <= b
    ensures RoundMinutes(a) <= RoundMinutes(b)
  {
  }

  /** A span of exactly one and a half minutes and a few hundred milliseconds,
      90500 ms, counts as two minutes. */
  lemma RoundMinutesExample()
    ensures RoundMinutes(90500) == 2
    ensures RoundMinutes(89999) == 1
    ensures RoundMinutes(90000) == 2
    ensures RoundMinutes(-30000) == 0
  {
  }

  /** The half-open bucket `[today, today + 24h)` used by every day-scoped lookup. */
  predicate InDay(t: int, today: int) {
    today <= t < today + MsPerDay
  }

  /** `getTodayDate()`: local midnight of `now`, where local time is `now + offset`
      for a fixed zone offset. The bucket that starts there contains `now`. */
  function StartOfDay(now: int, offset: int): (today: int)
    ensures InDay(now, today)
    ensures (today + offset) % MsPerDay == 0
  {
    now - (now + offset) % MsPerDay
  }

  /** Local midnight is the only zone-aligned instant whose bucket holds `now`. */
  lemma StartOfDayUnique(now: int, offset: int, d: int)
    requires InDay(now, d)
    requires (d + offset) % MsPerDay == 0
    ensures d == StartOfDay(now, offset)
  {
  }

  /** Two instants share a day bucket exactly when they have the same local midnight. */
  lemma SameBucketIffSameMidnight(t: int, now: int, offset: int)
    ensures InDay(t, StartOfDay(now, offset)) <==> StartOfDay(t, offset) == StartOfDay(now, offset)
  {
    var d := StartOfDay(now, offset);
    if InDay(t, d) {
      StartOfDayUnique(t, offset, d);
    }
  }
}

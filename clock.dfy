/**
 * Local wall-clock arithmetic behind the schedule's `Date` calls.
 *
 * An instant is an integer count of milliseconds since the local epoch,
 * 1970-01-01 00:00 local time, which was a Thursday. Time zones and
 * daylight-saving transitions are abstracted away: a local day is always
 * 86 400 000 ms long, so `setDate(getDate() + n)` adds `n` whole days.
 */
module Clock {

  const MinuteMs: int := 60_000
  const HourMs: int := 3_600_000
  const DayMs: int := 86_400_000
  const WeekMs: int := 7 * DayMs

  /** Number of the local calendar day holding `t` (day 0 is 1970-01-01). */
  function DayNumber(t: int): int
  {
    t / DayMs
  }

  /** Milliseconds elapsed since local midnight. */
  function TimeOfDay(t: int): (r: int)
    ensures 0 <= r < DayMs
    ensures t == DayNumber(t) * DayMs + r
  {
    t % DayMs
  }

  /** `Date.prototype.getDay`: 0 = Sunday .. 6 = Saturday. */
  function DayOfWeek(t: int): (r: int)
    ensures 0 <= r < 7
  {
    (DayNumber(t) + 4) % 7
  }

  /** `Date.prototype.getHours`. */
  function Hours(t: int): (r: int)
    ensures 0 <= r < 24
  {
    TimeOfDay(t) / HourMs
  }

  /** `Date.prototype.getMinutes`. */
  function Minutes(t: int): (r: int)
    ensures 0 <= r < 60
  {
    TimeOfDay(t) / MinuteMs % 60
  }

  /** `getHours() * 60 + getMinutes()`: whole minutes since local midnight. */
  function MinuteOfDay(t: int): (r: int)
    ensures 0 <= r < 24 * 60
    ensures r * MinuteMs <= TimeOfDay(t) < (r + 1) * MinuteMs
  {
    Hours(t) * 60 + Minutes(t)
  }

  /** `setDate(getDate() + n)`: the same clock time `n` days later. */
  function AddDays(t: int, n: int): (r: int)
    ensures DayNumber(r) == DayNumber(t) + n
    ensures TimeOfDay(r) == TimeOfDay(t) && MinuteOfDay(r) == MinuteOfDay(t)
  {
    DivUnique(t + n * DayMs, DayNumber(t) + n, TimeOfDay(t));
    t + n * DayMs
  }

  /** `setHours(0, 0, 0, 0)`: the local midnight that starts the day of `t`. */
  function Midnight(t: int): (r: int)
    ensures TimeOfDay(r) == 0 && DayNumber(r) == DayNumber(t)
    ensures r <= t < r + DayMs
  {
    DivUnique(t - TimeOfDay(t), DayNumber(t), 0);
    t - TimeOfDay(t)
  }

  /**
   * The start of the displayed week: midnight of the Sunday at or before `t`,
   * reached by truncating to midnight and then stepping back `getDay()` days.
   */
  function WeekStart(t: int): (r: int)
    ensures DayOfWeek(r) == 0 && TimeOfDay(r) == 0
    ensures r <= t < r + WeekMs
  {
    var m := Midnight(t);
    var back := DayOfWeek(m);
    DivUnique(AddDays(m, -back), DayNumber(m) - back, 0);
    AddDays(m, -back)
  }

  /**
   * The half-open week window `[ws, ws + 7 days)`. For a Sunday midnight `ws`
   * it holds `t` exactly when `ws` is the week start computed for `t`.
   */
  function InWeekWindow(t: int, ws: int): (r: bool)
    ensures DayOfWeek(ws) == 0 && TimeOfDay(ws) == 0 ==> (r <==> ws == WeekStart(t))
  {
    ws <= t < ws + WeekMs
  }

  /** Euclidean division by a day is determined by quotient and remainder. */
  lemma DivUnique(t: int, q: int, r: int)
    requires 0 <= r < DayMs && t == q * DayMs + r
    ensures DayNumber(t) == q && TimeOfDay(t) == r
  {
  }

  /** Moving by whole weeks keeps the day of the week. */
  lemma AddWeeksDayOfWeek(t: int, k: int)
    ensures DayOfWeek(AddDays(t, 7 * k)) == DayOfWeek(t)
  {
    var d := DayNumber(t);
    assert DayNumber(AddDays(t, 7 * k)) + 4 == (d + 4) + 7 * k;
    assert ((d + 4) + 7 * k) % 7 == (d + 4) % 7;
  }

  /**
   * `WeekStart` is the only Sunday midnight whose window holds `t`: any other
   * characterisation of "the displayed week" agrees with it.
   */
  lemma WeekStartUnique(t: int, w: int)
    requires DayOfWeek(w) == 0 && TimeOfDay(w) == 0 && InWeekWindow(t, w)
    ensures w == WeekStart(t)
  {
    var ws := WeekStart(t);
    var dw, dv := DayNumber(w), DayNumber(ws);
    assert w == dw * DayMs && ws == dv * DayMs;
    assert -7 * DayMs < (dw - dv) * DayMs < 7 * DayMs;
    assert -7 < dw - dv < 7;
    assert (dw + 4) % 7 == (dv + 4) % 7 == 0;
    assert dw == dv;
  }

  /** Shifting the reference date by `k` weeks shifts the window by `k` weeks. */
  lemma WeekStartShift(t: int, k: int)
    ensures WeekStart(AddDays(t, 7 * k)) == AddDays(WeekStart(t), 7 * k)
  {
    var ws := WeekStart(t);
    AddWeeksDayOfWeek(ws, k);
    WeekStartUnique(AddDays(t, 7 * k), AddDays(ws, 7 * k));
  }

  /**
   * The week windows partition the timeline: an instant lies in the window
   * of the week displayed for `t` exactly when it has the same week start.
   */
  lemma WindowPartition(x: int, t: int)
    ensures InWeekWindow(x, WeekStart(t)) <==> WeekStart(x) == WeekStart(t)
  {
    if InWeekWindow(x, WeekStart(t)) {
      WeekStartUnique(x, WeekStart(t));
    }
  }

  /** Inside a window, the day of the week counts whole days from its Sunday. */
  lemma DayOfWeekInWindow(t: int, ws: int)
    requires DayOfWeek(ws) == 0 && TimeOfDay(ws) == 0 && InWeekWindow(t, ws)
    ensures DayOfWeek(t) == (t - ws) / DayMs
    ensures AddDays(ws, DayOfWeek(t)) <= t < AddDays(ws, DayOfWeek(t) + 1)
  {
    var i := DayNumber(t) - DayNumber(ws);
    assert ws == DayNumber(ws) * DayMs;
    assert t - ws == i * DayMs + TimeOfDay(t);
    assert 0 <= i < 7;
    assert (t - ws) / DayMs == i;
    assert (DayNumber(ws) + 4) % 7 == 0;
    assert DayNumber(t) + 4 == (DayNumber(ws) + 4) + i;
  }

  /** The `i`-th day of a window (`setDate(getDate() + i)`) has day-of-week `i`. */
  lemma DayOfWeekOfRow(ws: int, i: int)
    requires DayOfWeek(ws) == 0 && TimeOfDay(ws) == 0 && 0 <= i < 7
    ensures DayOfWeek(AddDays(ws, i)) == i && TimeOfDay(AddDays(ws, i)) == 0
  {
    DayOfWeekInWindow(AddDays(ws, i), ws);
  }
}

/**
 * The per-event part of `renderSchedule`: the week filter, the visible-hours
 * filter, the pixel geometry and the on-air flag of one event, and the list
 * of blocks the `forEach` over all events produces.
 *
 * An event's timestamps are already-decoded `Date` values. A string that
 * `new Date` cannot read yields an Invalid Date, whose time value and every
 * getter are NaN; the code never checks for it, so the model carries NaN
 * through the same comparisons and arithmetic the code performs.
 */
module Layout {
  import opened Wrappers
  import opened Clock

  const HoursStart: int := 5
  const HoursEnd: int := 22  // inclusive
  const LabelWidth: int := 150
  const RowHeight: int := 50

  /** First and one-past-last visible minute of the day, and their distance. */
  const FirstMinute: int := HoursStart * 60
  const EndMinute: int := (HoursEnd + 1) * 60
  const TotalMinutes: int := (HoursEnd + 1 - HoursStart) * 60

  /** A `Date`: a local instant in milliseconds, or an Invalid Date. */
  datatype Stamp = InvalidDate | At(ms: int)

  /** An entry of the events document. A missing or null `link` is `None`. */
  datatype Event = Event(start: Stamp, end: Stamp, title: string, link: Option<string>)

  /** The JavaScript numbers this code computes: a real value or NaN. */
  datatype Num = NaN | Num(v: real)

  /** A positioned event block: its text, target, style geometry and highlight. */
  datatype Block = Block(title: string, href: string, top: Num, left: Num, width: Num,
                         height: real, onAir: bool)

  function Lit(x: int): Num
  {
    Num(x as real)
  }

  /** JavaScript arithmetic: NaN in, NaN out; otherwise the exact real result. */
  function Add(a: Num, b: Num): (r: Num)
    ensures r.NaN? <==> a.NaN? || b.NaN?
  {
    if a.NaN? || b.NaN? then NaN else Num(a.v + b.v)
  }

  function Sub(a: Num, b: Num): (r: Num)
    ensures r.NaN? <==> a.NaN? || b.NaN?
  {
    if a.NaN? || b.NaN? then NaN else Num(a.v - b.v)
  }

  function Mul(a: Num, b: Num): (r: Num)
    ensures r.NaN? <==> a.NaN? || b.NaN?
  {
    if a.NaN? || b.NaN? then NaN else Num(a.v * b.v)
  }

  /** Division by one of the code's non-zero integer constants. */
  function Div(a: Num, d: int): (r: Num)
    requires d != 0
    ensures r.NaN? <==> a.NaN?
  {
    if a.NaN? then NaN else Num(a.v / d as real)
  }

  /**
   * Relational operators: every comparison with NaN is false, so `<` is the
   * negation of the swapped `<=` only between numbers.
   */
  function Lt(a: Num, b: Num): (r: bool)
    ensures a.NaN? || b.NaN? ==> !r
    ensures a.Num? && b.Num? ==> (r <==> !(b.v <= a.v))
  {
    a.Num? && b.Num? && a.v < b.v
  }

  function Le(a: Num, b: Num): (r: bool)
    ensures a.NaN? || b.NaN? ==> !r
    ensures a.Num? && b.Num? ==> (r <==> !(b.v < a.v))
  {
    a.Num? && b.Num? && a.v <= b.v
  }

  /** `getTime()`: NaN exactly for an Invalid Date, else the instant. */
  function Time(s: Stamp): (r: Num)
    ensures r.NaN? <==> s.InvalidDate?
    ensures r.Num? ==> r.v == s.ms as real
  {
    if s.At? then Lit(s.ms) else NaN
  }

  /** `getDay()`: NaN for an Invalid Date, else a weekday 0..6. */
  function GetDay(s: Stamp): (r: Num)
    ensures r.NaN? <==> s.InvalidDate?
    ensures r.Num? ==> 0.0 <= r.v < 7.0 && r.v == DayOfWeek(s.ms) as real
  {
    if s.At? then Lit(DayOfWeek(s.ms)) else NaN
  }

  /** `getHours()`: NaN for an Invalid Date, else an hour 0..23. */
  function GetHours(s: Stamp): (r: Num)
    ensures r.NaN? <==> s.InvalidDate?
    ensures r.Num? ==> 0.0 <= r.v < 24.0 && r.v == Hours(s.ms) as real
  {
    if s.At? then Lit(Hours(s.ms)) else NaN
  }

  /** `getMinutes()`: NaN for an Invalid Date, else a minute 0..59. */
  function GetMinutes(s: Stamp): (r: Num)
    ensures r.NaN? <==> s.InvalidDate?
    ensures r.Num? ==> 0.0 <= r.v < 60.0 && r.v == Minutes(s.ms) as real
  {
    if s.At? then Lit(Minutes(s.ms)) else NaN
  }

  /** `ev.link || '#'`: an absent or empty link becomes the placeholder "#". */
  function Href(link: Option<string>): (h: string)
    ensures h != ""
    ensures link.Some? && link.value != "" ==> h == link.value
    ensures link.None? || link.value == "" ==> h == "#"
  {
    if link.None? || link.value == "" then "#" else link.value
  }

  /**
   * `containerWidth - LABEL_WIDTH`, where a zero `clientWidth` falls back to
   * `innerWidth`. It is negative for a container narrower than the labels.
   */
  function HoursWidth(clientWidth: nat, innerWidth: nat): (w: int)
    ensures w + LabelWidth == (if clientWidth != 0 then clientWidth else innerWidth)
    ensures -LabelWidth <= w
  {
    (if clientWidth != 0 then clientWidth else innerWidth) - LabelWidth
  }

  /**
   * `getHours() * 60 + getMinutes()` of a valid date: `MinuteOfDay` read
   * through a `Stamp`, so that the contracts about events can name an
   * event's start or end minutes without unwrapping the instant.
   */
  function ClockMinutes(s: Stamp): int
    requires s.At?
  {
    MinuteOfDay(s.ms)
  }

  /**
   * The body of the `forEach` callback for one event, given the displayed
   * week's start, the pixel width of the hours area and the current instant.
   * `None` is an early `return`; `Some` is the block appended to the grid.
   *
   * An event is kept exactly when its start is not known to lie outside the
   * week window, its start is not known to lie before the visible hours and
   * its end is not known to lie after them: for valid dates these are the
   * half-open week test and the test on minutes `[300, 1380]`, while an
   * invalid date fails no comparison and so never causes a drop.
   */
  function Place(ev: Event, weekStart: int, hoursWidth: int, now: int): (r: Option<Block>)
    ensures r.Some? <==>
      && (ev.start.At? ==> InWeekWindow(ev.start.ms, weekStart) && ClockMinutes(ev.start) >= FirstMinute)
      && (ev.end.At? ==> ClockMinutes(ev.end) <= EndMinute)
    ensures r.Some? ==> r.value.title == ev.title && r.value.href == Href(ev.link)
    ensures r.Some? ==> r.value.height == RowHeight as real
    ensures r.Some? ==> (r.value.onAir <==> ev.start.At? && ev.end.At? && ev.start.ms <= now <= ev.end.ms)
    ensures r.Some? ==> (r.value.top.NaN? <==> ev.start.InvalidDate?)
    ensures r.Some? ==> (r.value.left.NaN? <==> ev.start.InvalidDate?)
    ensures r.Some? ==> (r.value.width.NaN? <==> ev.start.InvalidDate? || ev.end.InvalidDate?)
  {
    var start, end := Time(ev.start), Time(ev.end);
    var weekEnd := Lit(weekStart + 7 * 24 * 60 * 60 * 1000);
    if Lt(start, Lit(weekStart)) || Le(weekEnd, start) then None
    else
      var dayIndex := GetDay(ev.start);
      var startMinutes := Add(Mul(GetHours(ev.start), Lit(60)), GetMinutes(ev.start));
      var endMinutes := Add(Mul(GetHours(ev.end), Lit(60)), GetMinutes(ev.end));
      if Lt(startMinutes, Lit(HoursStart * 60)) || Lt(Lit((HoursEnd + 1) * 60), endMinutes) then None
      else
        var totalMinutesDisplayed := (HoursEnd + 1 - HoursStart) * 60;
        var leftRatio := Div(Sub(startMinutes, Lit(HoursStart * 60)), totalMinutesDisplayed);
        var widthRatio := Div(Sub(endMinutes, startMinutes), totalMinutesDisplayed);
        var leftPx := Add(Lit(LabelWidth), Mul(leftRatio, Lit(hoursWidth)));
        var widthPx := Mul(widthRatio, Lit(hoursWidth));
        var topPx := Add(Mul(Lit(1), Lit(RowHeight)), Mul(dayIndex, Lit(RowHeight)));
        var onAir := Le(start, Lit(now)) && Le(Lit(now), end);
        Some(Block(ev.title, Href(ev.link), topPx, leftPx, widthPx, RowHeight as real, onAir))
  }

  /** The blocks the `forEach` appends, in the order of the events. */
  function Blocks(evs: seq<Event>, weekStart: int, hoursWidth: int, now: int): (bs: seq<Block>)
    ensures |bs| <= |evs|
  {
    if evs == [] then []
    else
      var rest := Blocks(evs[..|evs| - 1], weekStart, hoursWidth, now);
      match Place(evs[|evs| - 1], weekStart, hoursWidth, now)
      case None => rest
      case Some(b) => rest + [b]
  }

  /** A block is shown exactly when some event of the list is placed as that block. */
  lemma {:induction false} BlocksMembership(evs: seq<Event>, weekStart: int, hoursWidth: int, now: int, b: Block)
    ensures b in Blocks(evs, weekStart, hoursWidth, now) <==>
      exists i :: 0 <= i < |evs| && Place(evs[i], weekStart, hoursWidth, now) == Some(b)
  {
    if evs != [] {
      var init := evs[..|evs| - 1];
      BlocksMembership(init, weekStart, hoursWidth, now, b);
      if exists i :: 0 <= i < |init| && Place(init[i], weekStart, hoursWidth, now) == Some(b) {
        var i :| 0 <= i < |init| && Place(init[i], weekStart, hoursWidth, now) == Some(b);
        assert evs[i] == init[i];
      }
      if exists i :: 0 <= i < |evs| && Place(evs[i], weekStart, hoursWidth, now) == Some(b) {
        var i :| 0 <= i < |evs| && Place(evs[i], weekStart, hoursWidth, now) == Some(b);
        if i < |init| {
          assert init[i] == evs[i];
        }
      }
    }
  }

  /**
   * The positions of the events the filters keep, in increasing order: an
   * index is listed exactly when its event is placed.
   */
  function KeptIndices(evs: seq<Event>, weekStart: int, hoursWidth: int, now: int): (ks: seq<int>)
    ensures forall j :: 0 <= j < |ks| ==> 0 <= ks[j] < |evs|
    ensures forall j, k :: 0 <= j < k < |ks| ==> ks[j] < ks[k]
    ensures forall i :: 0 <= i < |evs| ==> (i in ks <==> Place(evs[i], weekStart, hoursWidth, now).Some?)
  {
    if evs == [] then []
    else
      var init := evs[..|evs| - 1];
      assert forall i :: 0 <= i < |init| ==> init[i] == evs[i];
      var rest := KeptIndices(init, weekStart, hoursWidth, now);
      if Place(evs[|evs| - 1], weekStart, hoursWidth, now).Some? then rest + [|evs| - 1] else rest
  }

  /**
   * The loop appends exactly one block per kept event, in event order: the
   * `j`-th block is the placement of the `j`-th kept event, so the number of
   * blocks is the number of kept events.
   */
  lemma {:induction false} BlocksAreKeptEvents(evs: seq<Event>, weekStart: int, hoursWidth: int, now: int)
    ensures var bs, ks := Blocks(evs, weekStart, hoursWidth, now), KeptIndices(evs, weekStart, hoursWidth, now);
      && |bs| == |ks|
      && forall j :: 0 <= j < |ks| ==> Place(evs[ks[j]], weekStart, hoursWidth, now) == Some(bs[j])
  {
    if evs != [] {
      var init := evs[..|evs| - 1];
      BlocksAreKeptEvents(init, weekStart, hoursWidth, now);
      var ks := KeptIndices(init, weekStart, hoursWidth, now);
      forall j | 0 <= j < |ks| ensures init[ks[j]] == evs[ks[j]] {
      }
    }
  }

  /** When every event is kept, one block is shown per event, in the same order. */
  lemma {:induction false} BlocksAllKept(evs: seq<Event>, weekStart: int, hoursWidth: int, now: int)
    requires forall i :: 0 <= i < |evs| ==> Place(evs[i], weekStart, hoursWidth, now).Some?
    ensures var bs := Blocks(evs, weekStart, hoursWidth, now);
      |bs| == |evs| && forall i :: 0 <= i < |evs| ==> Place(evs[i], weekStart, hoursWidth, now) == Some(bs[i])
  {
    if evs != [] {
      var init := evs[..|evs| - 1];
      forall i | 0 <= i < |init| ensures Place(init[i], weekStart, hoursWidth, now).Some? {
        assert init[i] == evs[i];
      }
      BlocksAllKept(init, weekStart, hoursWidth, now);
    }
  }

  /** The pixels that `minutes` of the 1080 visible minutes take in an area `hoursWidth` wide. */
  function Scaled(minutes: int, hoursWidth: int): real
  {
    minutes as real * hoursWidth as real / TotalMinutes as real
  }

  /**
   * Row and left edge of a kept event with a valid start, whatever its end:
   * the row is one below the header per day of the week, and the left edge is
   * the start offset as a fraction of the 1080 visible minutes of the area.
   */
  lemma PlaceStartGeometry(ev: Event, weekStart: int, hoursWidth: int, now: int)
    requires ev.start.At?
    requires Place(ev, weekStart, hoursWidth, now).Some?
    ensures var b := Place(ev, weekStart, hoursWidth, now).value;
      && b.top == Lit(RowHeight * (1 + DayOfWeek(ev.start.ms)))
      && b.left == Num(LabelWidth as real + Scaled(ClockMinutes(ev.start) - FirstMinute, hoursWidth))
  {
    var sm := ClockMinutes(ev.start);
    var startMinutes := Add(Mul(GetHours(ev.start), Lit(60)), GetMinutes(ev.start));
    assert startMinutes == Lit(sm);
    assert Sub(startMinutes, Lit(HoursStart * 60)) == Lit(sm - FirstMinute);
    ScaledIsRatio(sm - FirstMinute, hoursWidth);
  }

  /**
   * Width of a kept event with valid dates: the clock-time span from start to
   * end as a fraction of the 1080 visible minutes of the area.
   */
  lemma PlaceWidth(ev: Event, weekStart: int, hoursWidth: int, now: int)
    requires ev.start.At? && ev.end.At?
    requires Place(ev, weekStart, hoursWidth, now).Some?
    ensures Place(ev, weekStart, hoursWidth, now).value.width
      == Num(Scaled(ClockMinutes(ev.end) - ClockMinutes(ev.start), hoursWidth))
  {
    var sm, em := ClockMinutes(ev.start), ClockMinutes(ev.end);
    var startMinutes := Add(Mul(GetHours(ev.start), Lit(60)), GetMinutes(ev.start));
    var endMinutes := Add(Mul(GetHours(ev.end), Lit(60)), GetMinutes(ev.end));
    assert startMinutes == Lit(sm) && endMinutes == Lit(em);
    assert Sub(endMinutes, startMinutes) == Lit(em - sm);
    ScaledIsRatio(em - sm, hoursWidth);
  }

  /** `Scaled` is the code's `ratio * hoursWidth`, with `ratio = minutes / 1080`. */
  lemma ScaledIsRatio(minutes: int, hoursWidth: int)
    ensures Mul(Div(Lit(minutes), TotalMinutes), Lit(hoursWidth)) == Num(Scaled(minutes, hoursWidth))
  {
    var r := minutes as real / TotalMinutes as real;
    assert Div(Lit(minutes), TotalMinutes) == Num(r);
    assert r * hoursWidth as real == Scaled(minutes, hoursWidth);
  }

  /**
   * A kept event with valid dates whose end clock time is not before its start
   * is drawn inside the hours area when that area has non-negative width:
   * `LabelWidth <= left`, `width >= 0`, `left + width <= LabelWidth + hoursWidth`,
   * and its row lies among the seven day rows below the header.
   */
  lemma PlaceWithinGrid(ev: Event, weekStart: int, hoursWidth: int, now: int)
    requires ev.start.At? && ev.end.At? && ClockMinutes(ev.start) <= ClockMinutes(ev.end)
    requires hoursWidth >= 0
    requires Place(ev, weekStart, hoursWidth, now).Some?
    ensures var b := Place(ev, weekStart, hoursWidth, now).value;
      && b.left.Num? && b.width.Num? && b.top.Num?
      && LabelWidth as real <= b.left.v
      && 0.0 <= b.width.v
      && b.left.v + b.width.v <= (LabelWidth + hoursWidth) as real
      && RowHeight as real <= b.top.v <= (7 * RowHeight) as real
  {
    PlaceStartGeometry(ev, weekStart, hoursWidth, now);
    PlaceWidth(ev, weekStart, hoursWidth, now);
    var sm, em := ClockMinutes(ev.start), ClockMinutes(ev.end);
    SpanBounds(sm - FirstMinute, em - FirstMinute, hoursWidth);
    assert em - FirstMinute - (sm - FirstMinute) == em - sm;
  }

  /**
   * Offsets `a <= b` within the 1080 visible minutes scale to a left edge and
   * a width that stay inside an area of non-negative width.
   */
  lemma SpanBounds(a: int, b: int, hoursWidth: int)
    requires 0 <= a <= b <= TotalMinutes && 0 <= hoursWidth
    ensures 0.0 <= Scaled(a, hoursWidth) && 0.0 <= Scaled(b - a, hoursWidth)
    ensures Scaled(a, hoursWidth) + Scaled(b - a, hoursWidth) <= hoursWidth as real
  {
    var hw := hoursWidth as real;
    assert 0.0 <= a as real * hw;
    assert 0.0 <= (b - a) as real * hw;
    assert a as real * hw + (b - a) as real * hw == b as real * hw;
    assert b as real * hw <= 1080.0 * hw;
  }

  /**
   * For a non-negative area width, a later clock start is never drawn further
   * left, and for a positive width it is drawn strictly further right.
   */
  lemma PlaceLeftMonotone(e1: Event, e2: Event, weekStart: int, hoursWidth: int, now: int)
    requires e1.start.At? && e2.start.At?
    requires Place(e1, weekStart, hoursWidth, now).Some? && Place(e2, weekStart, hoursWidth, now).Some?
    requires ClockMinutes(e1.start) <= ClockMinutes(e2.start) && hoursWidth >= 0
    ensures Place(e1, weekStart, hoursWidth, now).value.left.v <= Place(e2, weekStart, hoursWidth, now).value.left.v
    ensures ClockMinutes(e1.start) < ClockMinutes(e2.start) && hoursWidth > 0 ==>
      Place(e1, weekStart, hoursWidth, now).value.left.v < Place(e2, weekStart, hoursWidth, now).value.left.v
  {
    PlaceStartGeometry(e1, weekStart, hoursWidth, now);
    PlaceStartGeometry(e2, weekStart, hoursWidth, now);
    ScaleMonotone(ClockMinutes(e1.start) - FirstMinute, ClockMinutes(e2.start) - FirstMinute, hoursWidth);
  }

  lemma ScaleMonotone(a: int, b: int, hoursWidth: int)
    requires a <= b && 0 <= hoursWidth
    ensures Scaled(a, hoursWidth) <= Scaled(b, hoursWidth)
    ensures a < b && 0 < hoursWidth ==> Scaled(a, hoursWidth) < Scaled(b, hoursWidth)
  {
    assert a as real * hoursWidth as real <= b as real * hoursWidth as real;
    if a < b && 0 < hoursWidth {
      var x, y := a as real * hoursWidth as real, b as real * hoursWidth as real;
      assert 0.0 < (b - a) as real * hoursWidth as real;
      assert x < y;
      assert x / TotalMinutes as real < y / TotalMinutes as real;
    }
  }

  /**
   * The block of a kept event with a valid start lies in the row of its own
   * day: that row's day begins `DayOfWeek(start)` days after the week start,
   * and the event starts within it.
   */
  lemma PlaceRowIsStartDay(ev: Event, t: int, hoursWidth: int, now: int)
    requires ev.start.At?
    requires Place(ev, WeekStart(t), hoursWidth, now).Some?
    ensures var b := Place(ev, WeekStart(t), hoursWidth, now).value;
      var i := (ev.start.ms - WeekStart(t)) / DayMs;
      && 0 <= i < 7
      && AddDays(WeekStart(t), i) <= ev.start.ms < AddDays(WeekStart(t), i + 1)
      && b.top == Lit(RowHeight * (1 + i))
  {
    DayOfWeekInWindow(ev.start.ms, WeekStart(t));
    PlaceStartGeometry(ev, WeekStart(t), hoursWidth, now);
  }

  /** An event whose valid start is before 05:00 is never shown, in any week (e.g. 02:00-03:00). */
  lemma EarlyEventDropped(ev: Event, weekStart: int, hoursWidth: int, now: int)
    requires ev.start.At? && Hours(ev.start.ms) < HoursStart
    ensures Place(ev, weekStart, hoursWidth, now) == None
  {
  }

  /**
   * The upper end of the week window is exclusive: an event starting at the
   * next Sunday 00:00 is outside the displayed week's window and inside the
   * window of the week after it, the one `changeWeek(1)` displays.
   */
  lemma NextSundayBoundary(t: int, ev: Event, hoursWidth: int, now: int)
    requires ev.start == At(WeekStart(t) + WeekMs)
    ensures Place(ev, WeekStart(t), hoursWidth, now) == None
    ensures WeekStart(AddDays(t, 7)) == ev.start.ms
    ensures InWeekWindow(ev.start.ms, WeekStart(AddDays(t, 7)))
  {
    WeekStartShift(t, 1);
  }

  /** The on-air flag holds exactly when `start <= now <= end`, both ends included. */
  lemma OnAirInclusive(ev: Event, weekStart: int, hoursWidth: int, now: int)
    requires ev.start.At? && ev.end.At?
    requires Place(ev, weekStart, hoursWidth, now).Some?
    ensures var b := Place(ev, weekStart, hoursWidth, now).value;
      && (now == ev.start.ms && ev.start.ms <= ev.end.ms ==> b.onAir)
      && (now == ev.end.ms && ev.start.ms <= ev.end.ms ==> b.onAir)
      && (now < ev.start.ms || now > ev.end.ms ==> !b.onAir)
  {
  }

  /**
   * An event whose start is an Invalid Date is not excluded by the week
   * filter, although that filter's comment says it skips events outside the
   * week: both comparisons with NaN are false, so with a valid in-hours end
   * it is drawn with NaN geometry and never highlighted.
   */
  lemma InvalidStartShown(weekStart: int, hoursWidth: int, now: int)
    ensures var ev := Event(InvalidDate, At(10 * HourMs), "e", None);
      var r := Place(ev, weekStart, hoursWidth, now);
      r.Some? && r.value.top.NaN? && r.value.left.NaN? && !r.value.onAir
  {
    assert ClockMinutes(At(10 * HourMs)) == 600 by {
      DivUnique(10 * HourMs, 0, 10 * HourMs);
    }
  }

  /**
   * The end is not checked against the start: an event from 20:00 to 06:00
   * the next day passes both filters and gets a negative width.
   */
  lemma OvernightEventNegativeWidth(hoursWidth: int, now: int)
    requires hoursWidth > 0
    ensures var ev := Event(At(3 * DayMs + 20 * HourMs), At(4 * DayMs + 6 * HourMs), "e", None);
      var r := Place(ev, 3 * DayMs, hoursWidth, now);
      r.Some? && r.value.width.Num? && r.value.width.v < 0.0
  {
    var ev := Event(At(3 * DayMs + 20 * HourMs), At(4 * DayMs + 6 * HourMs), "e", None);
    DivUnique(3 * DayMs + 20 * HourMs, 3, 20 * HourMs);
    DivUnique(4 * DayMs + 6 * HourMs, 4, 6 * HourMs);
    PlaceWidth(ev, 3 * DayMs, hoursWidth, now);
    assert Scaled(360 - 1200, hoursWidth) < 0.0;
  }

  /**
   * The worked example: a 1150 px container, and an event from 09:00 to 10:00
   * on the Monday of the week starting Sunday 1970-01-04. It is placed in row 2
   * (`top` 100), `left` = 150 + 240/1080 * 1000 and `width` = 60/1080 * 1000.
   */
  lemma WorkedExample(now: int)
    ensures var ev := Event(At(4 * DayMs + 9 * HourMs), At(4 * DayMs + 10 * HourMs), "e", Some("u"));
      Place(ev, 3 * DayMs, HoursWidth(1150, 0), now)
        == Some(Block("e", "u", Lit(100), Num(150.0 + 2000.0 / 9.0), Num(500.0 / 9.0), 50.0,
                      4 * DayMs + 9 * HourMs <= now <= 4 * DayMs + 10 * HourMs))
  {
    var ev := Event(At(4 * DayMs + 9 * HourMs), At(4 * DayMs + 10 * HourMs), "e", Some("u"));
    DivUnique(4 * DayMs + 9 * HourMs, 4, 9 * HourMs);
    DivUnique(4 * DayMs + 10 * HourMs, 4, 10 * HourMs);
    assert ClockMinutes(ev.start) == 540 && ClockMinutes(ev.end) == 600;
    assert Place(ev, 3 * DayMs, 1000, now).Some?;
    PlaceStartGeometry(ev, 3 * DayMs, 1000, now);
    PlaceWidth(ev, 3 * DayMs, 1000, now);
    assert Scaled(240, 1000) == 2000.0 / 9.0 && Scaled(60, 1000) == 500.0 / 9.0;
  }
}

/**
 * The page's mutable state and `renderSchedule` without the DOM: the
 * reference date that week navigation moves, the loaded events, and a
 * render pass that returns what the grid shows instead of building elements.
 */
module Schedule {
  import opened Wrappers
  import opened Clock
  import opened HourLabel
  import opened Layout

  const DayNames: seq<string> :=
    ["Sunday", "Monday", "Tuesday", "Wednesday", "Thursday", "Friday", "Saturday"]

  /** A day row: its weekday name and the local midnight that begins its date. */
  datatype DayRow = DayRow(name: string, date: int)

  /**
   * What one render pass puts on screen: the hour header, the week start,
   * the seven day rows, the event blocks, and the first and last day that
   * the week-range label names.
   */
  datatype RenderPlan = RenderPlan(
    hourLabels: seq<string>,
    weekStart: int,
    dayRows: seq<DayRow>,
    blocks: seq<Block>,
    labelFirstDay: int,
    labelLastDay: int)

  class Calendar {
    /** The reference date of the displayed week (`currentDate`). */
    var currentDate: int
    /** The events from the events document (`allEvents`). */
    var allEvents: seq<Event>

    /** Page start: the reference date is the current instant and no events are loaded. */
    constructor (now: int)
      ensures currentDate == now && allEvents == []
    {
      currentDate := now;
      allEvents := [];
    }

    /** A successful load replaces the event list wholesale. */
    method LoadEvents(data: seq<Event>)
      modifies this`allEvents
      ensures allEvents == data
    {
      allEvents := data;
    }

    /**
     * `changeWeek(offset)`: move the reference date by `offset * 7` days. The
     * clock time and the day of the week stay, and the displayed week moves
     * by exactly `offset` weeks.
     */
    method ChangeWeek(offset: int)
      modifies this`currentDate
      ensures currentDate == AddDays(old(currentDate), offset * 7)
      ensures DayOfWeek(currentDate) == DayOfWeek(old(currentDate))
      ensures MinuteOfDay(currentDate) == MinuteOfDay(old(currentDate))
      ensures WeekStart(currentDate) == AddDays(WeekStart(old(currentDate)), offset * 7)
    {
      AddWeeksDayOfWeek(currentDate, offset);
      WeekStartShift(currentDate, offset);
      currentDate := AddDays(currentDate, offset * 7);
    }

    /**
     * One pass of `renderSchedule` with the current instant and the widths
     * the page reports: 18 hour labels for hours 5..22 in order, the Sunday
     * midnight starting the displayed week, one row per weekday whose date
     * has that weekday, and the blocks of the events that the filters keep.
     */
    method Render(now: int, clientWidth: nat, innerWidth: nat) returns (plan: RenderPlan)
      ensures |plan.hourLabels| == HoursEnd - HoursStart + 1
      ensures forall i :: 0 <= i < |plan.hourLabels| ==>
        plan.hourLabels[i] == FormatHourLabel(HoursStart + i)
        && ParseHourLabel(plan.hourLabels[i]) == Some(HoursStart + i)
      ensures plan.weekStart == WeekStart(currentDate)
      ensures |plan.dayRows| == |DayNames|
      ensures forall i :: 0 <= i < |plan.dayRows| ==>
        && plan.dayRows[i].name == DayNames[i]
        && plan.dayRows[i].date == AddDays(plan.weekStart, i)
        && DayOfWeek(plan.dayRows[i].date) == i
        && TimeOfDay(plan.dayRows[i].date) == 0
      ensures plan.blocks == Blocks(allEvents, plan.weekStart, HoursWidth(clientWidth, innerWidth), now)
      ensures plan.labelFirstDay == plan.weekStart && plan.labelLastDay == AddDays(plan.weekStart, 6)
    {
      var hourLabels := HourHeader();

      // The week start: truncate to midnight, then step back to Sunday.
      var weekStart := currentDate;
      weekStart := weekStart - TimeOfDay(weekStart);
      weekStart := AddDays(weekStart, -DayOfWeek(weekStart));

      var dayRows := DayRows(weekStart);

      var hoursWidth := HoursWidth(clientWidth, innerWidth);
      var blocks: seq<Block> := [];
      for k := 0 to |allEvents|
        invariant blocks == Blocks(allEvents[..k], weekStart, hoursWidth, now)
      {
        assert allEvents[..k + 1][..k] == allEvents[..k];
        var placed := Place(allEvents[k], weekStart, hoursWidth, now);
        if placed.Some? {
          blocks := blocks + [placed.value];
        }
      }
      assert allEvents[..|allEvents|] == allEvents;

      plan := RenderPlan(hourLabels, weekStart, dayRows, blocks, weekStart, AddDays(weekStart, 6));
    }
  }

  /** The header loop: one label per visible hour, in increasing order. */
  method HourHeader() returns (hourLabels: seq<string>)
    ensures |hourLabels| == HoursEnd - HoursStart + 1
    ensures forall i :: 0 <= i < |hourLabels| ==>
      hourLabels[i] == FormatHourLabel(HoursStart + i)
      && ParseHourLabel(hourLabels[i]) == Some(HoursStart + i)
  {
    hourLabels := [];
    for h := HoursStart to HoursEnd + 1
      invariant |hourLabels| == h - HoursStart
      invariant forall i :: 0 <= i < |hourLabels| ==>
        hourLabels[i] == FormatHourLabel(HoursStart + i)
        && ParseHourLabel(hourLabels[i]) == Some(HoursStart + i)
    {
      HourLabelRoundTrip(h);
      hourLabels := hourLabels + [FormatHourLabel(h)];
    }
  }

  /** The day-row loop: row `i` is named after weekday `i` and dated `i` days after the week start. */
  method DayRows(weekStart: int) returns (dayRows: seq<DayRow>)
    requires DayOfWeek(weekStart) == 0 && TimeOfDay(weekStart) == 0
    ensures |dayRows| == |DayNames|
    ensures forall i :: 0 <= i < |dayRows| ==>
      && dayRows[i].name == DayNames[i]
      && dayRows[i].date == AddDays(weekStart, i)
      && DayOfWeek(dayRows[i].date) == i
      && TimeOfDay(dayRows[i].date) == 0
  {
    dayRows := [];
    for i := 0 to |DayNames|
      invariant |dayRows| == i
      invariant forall j :: 0 <= j < i ==>
        && dayRows[j].name == DayNames[j]
        && dayRows[j].date == AddDays(weekStart, j)
        && DayOfWeek(dayRows[j].date) == j
        && TimeOfDay(dayRows[j].date) == 0
    {
      DayOfWeekOfRow(weekStart, i);
      dayRows := dayRows + [DayRow(DayNames[i], AddDays(weekStart, i))];
    }
  }

  /** Navigating `k` weeks away and `k` weeks back restores the reference date. */
  method ChangeWeekThereAndBack(c: Calendar, k: int)
    modifies c
    ensures c.currentDate == old(c.currentDate) && c.allEvents == old(c.allEvents)
  {
    c.ChangeWeek(k);
    c.ChangeWeek(-k);
  }

  /**
   * In a rendered week, every block comes from a loaded event that the
   * filters keep, and a kept event with a valid start is drawn in the row whose
   * date is the day it starts on.
   */
  lemma RenderedBlockOrigin(evs: seq<Event>, t: int, hoursWidth: int, now: int, b: Block)
    requires b in Blocks(evs, WeekStart(t), hoursWidth, now)
    ensures exists i :: 0 <= i < |evs| && Place(evs[i], WeekStart(t), hoursWidth, now) == Some(b)
    ensures forall i ::
      (0 <= i < |evs| && evs[i].start.At?
       && Place(evs[i], WeekStart(t), hoursWidth, now) == Some(b)) ==>
        var day := (evs[i].start.ms - WeekStart(t)) / DayMs;
        && 0 <= day < 7
        && AddDays(WeekStart(t), day) <= evs[i].start.ms < AddDays(WeekStart(t), day + 1)
        && b.top == Lit(RowHeight * (1 + day))
  {
    BlocksMembership(evs, WeekStart(t), hoursWidth, now, b);
    forall i | 0 <= i < |evs| && evs[i].start.At?
      && Place(evs[i], WeekStart(t), hoursWidth, now) == Some(b)
      ensures
        var day := (evs[i].start.ms - WeekStart(t)) / DayMs;
        && 0 <= day < 7
        && AddDays(WeekStart(t), day) <= evs[i].start.ms < AddDays(WeekStart(t), day + 1)
        && b.top == Lit(RowHeight * (1 + day))
    {
      PlaceRowIsStartDay(evs[i], t, hoursWidth, now);
    }
  }

  /**
   * On a page whose container is at least as wide as the label column, every
   * shown block of an event with valid dates whose end clock time is not
   * before its start lies inside the container: its left edge is at or right
   * of the labels and its right edge is at or left of the container's width.
   */
  lemma PageBlocksWithinContainer(evs: seq<Event>, t: int, clientWidth: nat, innerWidth: nat, now: int, i: int)
    requires 0 <= i < |evs|
    requires evs[i].start.At? && evs[i].end.At? && ClockMinutes(evs[i].start) <= ClockMinutes(evs[i].end)
    requires (if clientWidth != 0 then clientWidth else innerWidth) >= LabelWidth
    requires Place(evs[i], WeekStart(t), HoursWidth(clientWidth, innerWidth), now).Some?
    ensures var hw := HoursWidth(clientWidth, innerWidth);
      var b := Place(evs[i], WeekStart(t), hw, now).value;
      && hw >= 0
      && b in Blocks(evs, WeekStart(t), hw, now)
      && b.left.Num? && b.width.Num?
      && LabelWidth as real <= b.left.v
      && b.left.v + b.width.v <= (if clientWidth != 0 then clientWidth else innerWidth) as real
  {
    var hw := HoursWidth(clientWidth, innerWidth);
    var b := Place(evs[i], WeekStart(t), hw, now).value;
    BlocksMembership(evs, WeekStart(t), hw, now, b);
    PlaceWithinGrid(evs[i], WeekStart(t), hw, now);
  }
}

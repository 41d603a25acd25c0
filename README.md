# Weekly schedule layout — a Dafny model

This project models the layout core of a browser page that shows a weekly
calendar grid (`script.js`). The page keeps a reference date and a list of
events. On every render it does four things:

- It writes a header of hour labels for the visible hours 05:00–22:00.
- It finds the displayed week: the reference date truncated to local midnight
  and moved back to Sunday.
- It writes one row per weekday.
- It keeps the events that start inside the half-open week
  `[weekStart, weekStart + 7 days)` and whose clock minutes lie within
  `[300, 1380]`. Each kept event becomes a block with `top`/`left`/`width`
  pixel geometry and an inclusive "on air" flag.

`changeWeek(offset)` moves the reference date by `offset * 7` days.

The model is in five modules:

- `Wrappers` (`wrappers.dfy`): `Option`.
- `Clock` (`clock.dfy`): the `Date` arithmetic the page uses. An instant is an
  integer number of milliseconds since 1970-01-01 00:00 local time, which was
  a Thursday. Functions cover `getDay`, `getHours`, `getMinutes`,
  `setHours(0,0,0,0)`, `setDate(getDate() + n)` and the week start.
- `HourLabel` (`hour_label.dfy`): `formatHourLabel`, JavaScript's truncating
  `%`, and decimal printing. Its partner is a parser that reads a label back.
- `Layout` (`layout.dfy`): the body of the per-event callback as the function
  `Place`, and the list of blocks the loop produces as `Blocks`. JavaScript's
  Invalid Date and NaN arithmetic are modelled: a `Date` is `Stamp`
  (`InvalidDate | At(ms)`) and a computed number is `Num` (`NaN | Num(real)`).
  Every comparison involving NaN is false, as in the code.
- `Schedule` (`schedule.dfy`): the class `Calendar`. It holds `currentDate` and
  `allEvents`. `ChangeWeek` and `LoadEvents` update them in place. `Render` is
  a method whose loops build the hour labels, the day rows and the event
  blocks. It returns them as a `RenderPlan` instead of DOM elements.

Inputs the page reads from its environment are parameters: the current instant
(`new Date()`), `clientWidth` and `innerWidth`.

Three behaviours of the code are easy to miss, and the model keeps them as
written:

- The comment on the week filter (`script.js:83`) says only events of the
  current week are shown. An event whose start is an Invalid Date still passes
  that filter, because both comparisons with NaN are false. If its end is valid
  and not after 23:00, it is appended with NaN geometry
  (`Layout.InvalidStartShown`).
- An event starting exactly at the next Sunday 00:00 falls in the following
  week's window (`Layout.NextSundayBoundary`). It is still never drawn, because
  00:00 is before the visible hours that the filter at `script.js:92-93` keeps
  (`Layout.EarlyEventDropped`).
- Nothing checks that an event ends after it starts. An event whose end clock
  time is earlier than its start clock time (for example one that runs past
  midnight) is kept with a negative width
  (`Layout.OvernightEventNegativeWidth`).

## Model

| member | source | states |
|---|---|---|
| `Clock.DayOfWeek` | script.js:86 | `getDay` gives a weekday index in 0..6 (0 is Sunday) |
| `Clock.Hours` | script.js:89-90 | `getHours` is in 0..23 |
| `Clock.Minutes` | script.js:89-90 | `getMinutes` is in 0..59 |
| `Clock.MinuteOfDay` | script.js:89-90 | `getHours()*60 + getMinutes()` is in 0..1439 and is the number of whole minutes elapsed since local midnight |
| `Clock.TimeOfDay` | script.js:51 | time since midnight is in `[0, 1 day)` and splits the instant into whole days plus that remainder |
| `Clock.Midnight` | script.js:51 | `setHours(0,0,0,0)` gives a time of day of 00:00 on the same calendar day, no later than the input and less than a day before it |
| `Clock.WeekStart` | script.js:50-52 | the week start is a Sunday at 00:00, no later than the reference date and less than 7 days before it |
| `Clock.DivUnique` | script.js:51-52 | an instant's day number and time of day are determined by any whole-day decomposition of it |
| `Clock.AddDays` | script.js:10 | `setDate(getDate()+n)` moves the day number by exactly `n` and keeps the clock time and minute of day |
| `Clock.InWeekWindow` | script.js:83-84 | for a Sunday-midnight `ws`, an instant is in `[ws, ws + 7 days)` exactly when `ws` is that instant's week start |
| `Clock.AddWeeksDayOfWeek` | script.js:10 | moving by whole weeks keeps the day of the week |
| `Clock.WeekStartUnique` | script.js:50-52 | any Sunday midnight whose 7-day window holds the date is the computed week start |
| `Clock.WeekStartShift` | script.js:9-12 | moving the reference date by `k` weeks moves the week start by exactly `k` weeks |
| `Clock.WindowPartition` | script.js:84 | an instant is in the window of the displayed week iff its own week start is the same, so the windows partition time |
| `Clock.DayOfWeekInWindow` | script.js:84-86 | inside a week window, `getDay` counts whole days from the Sunday, and the instant lies within that day |
| `Clock.DayOfWeekOfRow` | script.js:55-57 | the date of day row `i` (week start plus `i` days) is a midnight whose weekday is `i` |
| `HourLabel.DecimalString` | script.js:17 | a printed natural is a non-empty string of decimal digits without padding: it starts with '0' exactly when it is zero, and zero prints as "0" |
| `HourLabel.DecimalStringCanonical` | script.js:17 | a digit string with no leading zero that reads as `n` is exactly the printed form of `n` |
| `HourLabel.ParseDecimal` | script.js:17 | a successful read consumed a non-empty string of digits |
| `HourLabel.ParseDecimalRoundTrip` | script.js:17 | reading the printed form of `n` gives back `n` |
| `HourLabel.DigitChar` | script.js:17 | a digit is printed as the character whose offset from '0' is its value |
| `HourLabel.IntString` | script.js:17 | the printed integer reads back to its value, after a leading "-" when negative, and its digits never start with '0' except for zero itself |
| `HourLabel.JsRem` | script.js:16 | JavaScript's `%` differs from `a` by a multiple of `b`, lies strictly between `-b` and `b`, and takes the sign of `a`; these fix its value |
| `HourLabel.ParseHourLabel` | script.js:14-18 | a readable hour label yields a 24-hour value in 0..23 |
| `HourLabel.FormatHourLabel` | script.js:14-18 | the label is a number, then `:00 `, then `AM` exactly when the hour is before 12 and `PM` otherwise; for a non-negative hour the number is unpadded, is in 1..12 and equals the hour modulo 12, with 0 and 12 both shown as 12; a negative hour that is not a multiple of 12 is printed with a minus sign and `12 - hour mod 12` |
| `HourLabel.HourLabelRoundTrip` | script.js:14-18 | each hour 0..23 is recovered from its label |
| `HourLabel.HourLabelInjective` | script.js:14-18 | distinct hours 0..23 get distinct labels |
| `HourLabel.HourLabelExamples` | script.js:14-18 | 0 gives "12:00 AM", 12 gives "12:00 PM", 17 gives "5:00 PM" |
| `HourLabel.HourLabelOutOfRange` | script.js:14-18 | outside 0..23 the code still answers: 25 gives "1:00 PM", -1 gives "-1:00 AM" |
| `Layout.Add` | script.js:89-103 | a sum is NaN exactly when an operand is NaN |
| `Layout.Sub` | script.js:97-98 | a difference is NaN exactly when an operand is NaN |
| `Layout.Mul` | script.js:89-103 | a product is NaN exactly when an operand is NaN |
| `Layout.Div` | script.js:97-98 | a quotient by a non-zero constant is NaN exactly when the dividend is NaN |
| `Layout.Lt` | script.js:84 | `<` is false when either side is NaN, and between numbers it is the negation of the swapped `<=` |
| `Layout.Le` | script.js:120 | `<=` is false when either side is NaN, and between numbers it is the negation of the swapped `<` |
| `Layout.Time` | script.js:80-81 | a date's time value is NaN exactly for an Invalid Date, and otherwise its instant |
| `Layout.GetDay` | script.js:86 | `getDay` is NaN exactly for an Invalid Date, and otherwise the weekday in 0..6 |
| `Layout.GetHours` | script.js:89-90 | `getHours` is NaN exactly for an Invalid Date, and otherwise the hour in 0..23 |
| `Layout.GetMinutes` | script.js:89-90 | `getMinutes` is NaN exactly for an Invalid Date, and otherwise the minute in 0..59 |
| `Layout.Href` | script.js:108 | an absent or empty link becomes "#", and any other link is kept |
| `Layout.HoursWidth` | script.js:75-77 | the hours area is the container width minus the 150 px label column, where a zero `clientWidth` falls back to `innerWidth`; it is never below -150 |
| `Layout.Place` | script.js:79-122 | an event is kept iff a valid start lies in `[weekStart, weekStart+7d)` with clock minutes >= 300, and a valid end has clock minutes <= 1380; invalid dates never cause a drop. The block carries the title, the link (or "#"), a height of 50 and on-air iff `start <= now <= end`; NaN geometry arises exactly from invalid dates |
| `Layout.Blocks` | script.js:79-125 | the loop emits at most one block per event |
| `Layout.KeptIndices` | script.js:79-93 | the positions of the kept events are listed in increasing order, and a position is listed exactly when its event passes both filters |
| `Layout.BlocksAreKeptEvents` | script.js:79-125 | there is exactly one block per kept event, in event order: block `j` is the placement of the `j`-th kept event |
| `Layout.BlocksMembership` | script.js:79-125 | a block is emitted iff some event of the list is placed as that block |
| `Layout.BlocksAllKept` | script.js:79-125 | when every event is kept, there is one block per event, in event order |
| `Layout.ScaledIsRatio` | script.js:96-101 | the code's `(minutes / 1080) * hoursWidth` equals the scaled span used by the geometry lemmas |
| `Layout.PlaceStartGeometry` | script.js:86-103 | for a valid start, whatever the end, `top = 50*(1+getDay(start))` and `left = 150 + (startMin-300)/1080*hoursWidth` |
| `Layout.PlaceWidth` | script.js:89-101 | for valid dates, `width = (endMin-startMin)/1080*hoursWidth` |
| `Layout.SpanBounds` | script.js:96-101 | offsets `0 <= a <= b <= 1080` scale to non-negative pixel amounts whose sum is at most the hours width |
| `Layout.PlaceWithinGrid` | script.js:93-103 | a kept event with `startMin <= endMin` and a non-negative hours width has `150 <= left`, `width >= 0`, `left + width <= 150 + hoursWidth`, and `50 <= top <= 350`, so the header row is never used |
| `Layout.ScaleMonotone` | script.js:97-100 | scaling by a non-negative width preserves order, and by a positive width preserves strict order |
| `Layout.PlaceLeftMonotone` | script.js:97-100 | with a valid start, an event that starts later in the day is never drawn further left, and strictly further right when the hours width is positive |
| `Layout.PlaceRowIsStartDay` | script.js:84-86 | a kept event with a valid start, whatever its end, is drawn in row `1 + i`, where `i` is the number of whole days from the week start to its start, and it starts within that day |
| `Layout.EarlyEventDropped` | script.js:93 | an event whose valid start is before 05:00 (e.g. 02:00–03:00) is never drawn |
| `Layout.NextSundayBoundary` | script.js:84 | an event starting at the next Sunday 00:00 is not drawn in the displayed week, and it lies in the window of the week that `changeWeek(1)` shows |
| `Layout.OnAirInclusive` | script.js:120 | the on-air flag is set at both `now == start` and `now == end`, and not before the start or after the end |
| `Layout.InvalidStartShown` | script.js:80-93 | an event with an Invalid Date start and a valid 10:00 end is kept with NaN `top`/`left` and no on-air flag |
| `Layout.OvernightEventNegativeWidth` | script.js:89-101 | an event from 20:00 to 06:00 the next day is kept with a negative width |
| `Layout.WorkedExample` | script.js:75-103 | in a 1150 px container, Monday 09:00–10:00 gives top 100, left 150 + 2000/9 (about 372.2) and width 500/9 (about 55.6) |
| `Schedule.Calendar.constructor` | script.js:6-7 | at start the reference date is the current instant and the event list is empty |
| `Schedule.Calendar.LoadEvents` | script.js:23-24 | a successful load replaces the event list with the loaded data |
| `Schedule.Calendar.ChangeWeek` | script.js:9-12 | the reference date moves by `offset*7` days, and its weekday and clock minute are unchanged; the week start moves by exactly `offset` weeks |
| `Schedule.Calendar.Render` | script.js:32-131 | there are 18 hour labels, for hours 5..22 in increasing order, each reading back to its hour; the week start is `WeekStart(currentDate)`; there are 7 rows named Sunday..Saturday whose dates are midnights with weekdays 0..6; the blocks are exactly `Blocks` of the loaded events; the week label spans the week start to 6 days later |
| `Schedule.HourHeader` | script.js:42-47 | the header loop emits `HoursEnd - HoursStart + 1` = 18 labels, label `i` being `formatHourLabel(5 + i)` and reading back to hour `5 + i`, so the hours increase |
| `Schedule.DayRows` | script.js:55-58 | for a Sunday-midnight week start there are 7 rows; row `i` is named after weekday `i`, and its date is `i` days later, a midnight whose weekday is `i` |
| `Schedule.ChangeWeekThereAndBack` | script.js:9-12 | `changeWeek(k)` followed by `changeWeek(-k)` restores the reference date and leaves the events unchanged |
| `Schedule.RenderedBlockOrigin` | script.js:79-125 | every rendered block comes from a loaded event that the filters keep; with a valid start it sits in the row of the day its event starts on |
| `Schedule.PageBlocksWithinContainer` | script.js:75-101 | on a page whose container is at least 150 px wide, the block of a kept event with valid dates and `startMin <= endMin` is among the rendered blocks and lies inside the container: `150 <= left` and `left + width <=` the container width |

## Left out

- DOM construction is not modelled. That covers clearing the container, the empty header cell, the 18 empty cells per day row, class names, the `<a>` element's `target`/`rel`, the `px` style strings and `position`. These are presentation only; `Render` returns the values they are built from.
- `loadEvents` is not modelled beyond its state update. The `fetch`, the JSON parsing and the error logging are network I/O. `LoadEvents` models only the assignment of the loaded data.
- The `resize` and `onload` listeners are not modelled; they are event wiring. `changeWeek` also calls `renderSchedule` right away. In the model, `ChangeWeek` only updates the state and the caller runs `Render`.
- Parsing ISO-8601 strings with `new Date(...)` is not modelled. Events arrive as decoded `Stamp`s, and a failed parse is `InvalidDate`.
- Time zones and daylight-saving transitions are not modelled. Local time is a uniform count of 86 400 000 ms per day.
- JavaScript's `Date` range limit (±8.64e15 ms) is not modelled. Past it, `setDate` would give an Invalid Date; in the model instants are unbounded integers.
- `changeWeek` with a non-integer offset is not modelled; the offset is an integer.
- The week-range label text (`toLocaleDateString`) and the time-zone disclosure text (`Intl`) are not modelled. They are locale-dependent library formatting. `Render` returns the first and last day the label names.
- The `M/D` date text in day labels is not modelled. It needs Gregorian month/day conversion. Each row instead carries the midnight timestamp of its date.
- IEEE-754 rounding is not modelled. Pixel values are exact rationals (`real`).
- JavaScript division by zero is not modelled. The code only divides by the constant 1080.
- `Layout.PlaceWithinGrid`: geometry bounds are stated only for valid dates with `startMin <= endMin` and a non-negative hours width. Outside those conditions the code gives NaN, a negative width or positions left of the label column. Those cases are shown by the lemmas above, not bounded.

# fuzzy-web schedule planner: the logic of its components, in Dafny

fuzzy-web is a browser prototype of a weekly schedule planner. This project
models the logic inside four of its components and proves properties of it.

- **TimeGrid**: the time column of the week grid. A block-size setting ("30
  minutes", "1 hour", "2 hours", default 60 minutes) and a start-time
  setting such as "8:00 AM" (default 8:00 AM when empty) are turned into one
  label per block for the next 24 hours. The labels wrap past midnight and use
  12-hour clock text such as "12:30 PM".
- **FuzzinessSlider**: a range input whose value is read with
  `parseInt(…, 10) || 0` and capped at 25% of the block length. Going over
  the cap passes the cap on and raises a warning dialog, which a click closes.
- **ActivityTypeManager**: a form that edits a `{name, color}` item. Save
  appends it to a list and resets the form to "Work"/"red". Delete removes a
  saved entry by position (`filter` on the index).
- **BlockTypeManager**: the same kind of form with a free-text name. Save
  refuses a blank name, and otherwise appends the item and resets the form to
  ""/"red".

Files:

- `wrappers.dfy`: `Option`.
- `text.dfy`: the JavaScript string built-ins the components use, on
  `seq<char>`: `trim` with the ECMAScript whitespace set, `parseInt` with and
  without a radix, `toString` of a non-negative integer, `padStart`,
  `split(':')[0]` and `[1]`, and `includes`.
- `block_sizes.dfy`: the block-size lookup both components use.
- `time_grid.dfy`:
  - `GetStartMinutes`, a function;
  - `GenerateTimeSlots`, a method with the source's loop, proved equal to
    the function `SlotLabels`;
  - `ReadLabel`, an independent reader of labels, which the round-trip
    lemmas use as a reference.
- `fuzziness_slider.dfy`: the cap, the reading of the input, and a `Slider`
  class holding the `showWarning` state.
- `items.dfy`: the shared item record and the `{ ...item, [name]: value }`
  update.
- `activity_type_manager.dfy` and `block_type_manager.dfy`: one class per
  manager. Each has `tempItem` and `items` fields, and one method per handler.

Behaviour of the code worth noting:

- Only an empty or missing start time falls back to 8:00 AM (`if (!timeStr)`).
  The model's start time is a string, so it has no missing case and only the
  empty string takes this branch. A non-empty string without ':' makes
  `getStartMinutes` throw, because `period` is `undefined`; that case is
  outside `IsStartTimeText`.
- The start is always a whole hour, since the minutes after ':' are never
  read. It can lie past midnight: "13:00 PM" gives minute 1500, which the
  slot loop wraps.
- For 30-minute blocks the cap is 7.5 minutes, not a whole number. The
  warning text shows `Math.floor` of it, 7.

## Model

| member | source | states |
|---|---|---|
| BlockSizes.BlockSizeInMinutes | src/TimeGrid.jsx:6-10 | the lookup gives 30, 60 or 120, each of which divides a day; any string other than the three options gives the 1-hour default |
| BlockSizes.BlockSizeLookupRoundTrip | src/FuzzinessSlider.jsx:8-12 | the lookup is a bijection between the three option strings and the three lengths |
| Text.TrimStart | src/BlockTypeManager.jsx:17 | leading whitespace is dropped: the result is a suffix not starting with whitespace and everything dropped was whitespace |
| Text.TrimEnd | src/BlockTypeManager.jsx:17 | trailing whitespace is dropped, symmetrically |
| Text.Trim | src/BlockTypeManager.jsx:17 | `trim()` leaves no whitespace at either end and never lengthens the string |
| Text.TrimEmptyIffBlank | src/BlockTypeManager.jsx:17 | a name trims to "" exactly when every character of it is whitespace |
| Text.DecimalString | src/TimeGrid.jsx:35 | `toString()` of a number below 10 is its single digit; larger numbers have at least two digits |
| Text.DecimalStringDenotes | src/TimeGrid.jsx:35 | `toString()` writes a canonical numeral (digits only, no leading zero) that denotes the number, two digits long exactly for 10 to 99 |
| Text.PadStart | src/TimeGrid.jsx:35 | `padStart(2, '0')` keeps a string that is long enough and otherwise left-fills with the pad character up to the width, keeping the string as the suffix |
| Text.ParseInt | src/TimeGrid.jsx:16 | a blank string is NaN; the lemmas below state how any other string is read: after whitespace and at most one sign, a decimal run, a hex numeral, "0x" with no hex digit, or no digit at all |
| Text.ParseIntOfSigned | src/TimeGrid.jsx:16 | after leading whitespace, `parseInt` takes one '+' or '-' and negates what follows exactly after '-' |
| Text.UnsignedOfDigits | src/TimeGrid.jsx:16 | decimal digits up to the first non-digit are read in base 10; without a radix the only exception is "0x"/"0X" |
| Text.UnsignedOfHex | src/TimeGrid.jsx:16 | without a radix, "0x" or "0X" and the hex digits up to the first non-hex character are read in base 16 |
| Text.ParseIntOfDigits | src/TimeGrid.jsx:16 | whitespace, an optional sign and decimal digits up to a non-digit read as the digits' value, negated after '-', with or without a radix (the slider's call at src/FuzzinessSlider.jsx:18 passes radix 10) |
| Text.ParseIntOfHex | src/TimeGrid.jsx:16 | whitespace, an optional sign, "0x" and hex digits up to a non-hex character read as the base-16 value, negated after '-', when no radix is given |
| Text.ParseIntWithoutDigits | src/TimeGrid.jsx:16 | `parseInt` is NaN when no digit follows the whitespace and the sign, including whitespace or a second sign right after a sign ("- 5", "+-5") |
| Text.ParseIntOfEmptyHex | src/TimeGrid.jsx:16 | without a radix, "0x" or "0X" followed by no hex digit ("0x", "-0xg") is NaN |
| Text.ParseIntOfNumeral | src/TimeGrid.jsx:16 | `parseInt` of a canonical decimal numeral, with or without a radix, is the number it denotes |
| Text.ParseIntOfDecimalString | src/TimeGrid.jsx:16 | `parseInt` reads back what `toString` writes |
| Text.FieldBefore | src/TimeGrid.jsx:15 | `split(':')[0]` is the longest prefix without ':' and is followed by ':' or the end |
| Text.SecondField | src/TimeGrid.jsx:15 | `split(':')[1]` is `undefined` exactly when there is no ':' |
| Text.Includes | src/TimeGrid.jsx:17-18 | `includes` finds only occurrences that fit, and a non-empty text only where its first character occurs |
| Text.IncludesAt | src/TimeGrid.jsx:17-18 | an occurrence at any position is found by `includes` |
| TimeGrid.PeriodAdjustedHour | src/TimeGrid.jsx:17-18 | the period rule only keeps the hour, adds 12, or turns 12 (or 0) into 0 |
| TimeGrid.GetStartMinutes | src/TimeGrid.jsx:13-20 | an empty start time gives 8:00 AM (480), and every start is a whole hour |
| TimeGrid.StartOfWellFormedTime | src/TimeGrid.jsx:13-20 | for "H:MM AM"/"H:MM PM" with H in 1..12, the start is the 24-hour clock hour in minutes: 12 AM is midnight, 12 PM is noon, and other PM hours add 12, whatever MM is |
| TimeGrid.PeriodOfWellFormedTime | src/TimeGrid.jsx:17-18 | in "MM AM" only "AM" occurs and in "MM PM" only "PM", so the two `includes` tests apply exactly the 12-hour clock rule |
| TimeGrid.PeriodsInTimeText | src/TimeGrid.jsx:17-18 | the text after the ':' of "H:MM AM" includes "AM" and not "PM", and symmetrically for "PM" |
| TimeGrid.EightAmStart | src/TimeGrid.jsx:13-20 | the start time "8:00 AM" gives minute 480 |
| TimeGrid.ClockHour | src/TimeGrid.jsx:17-18 | the 12-hour reading maps to an hour below 24 with the same hour on the 12-hour dial, in the afternoon exactly for PM |
| TimeGrid.ClockMinute | src/TimeGrid.jsx:29-31 | the minute of the day of a reading has that clock hour and those minutes |
| TimeGrid.DisplayHour | src/TimeGrid.jsx:33 | `hours % 12 \|\| 12` lies in 1..12 |
| TimeGrid.Label | src/TimeGrid.jsx:29-35 | a label has at least the seven characters of "H:MM AM"; what it denotes is stated by `LabelRoundTrip` |
| TimeGrid.DisplayHourRoundTrip | src/TimeGrid.jsx:32-33 | the display hour is in 1..12, and with the period it gives back the hour of the day |
| TimeGrid.ReadLabel | src/TimeGrid.jsx:34-36 | a label reads back only as a minute of the day |
| TimeGrid.LabelRoundTrip | src/TimeGrid.jsx:29-36 | every label reads back as the minute it was made from, so different minutes never share a label |
| TimeGrid.HourLabel | src/TimeGrid.jsx:29-36 | a whole hour from 1 to 9 o'clock is labelled as that digit, ":00" and the period |
| TimeGrid.EightAndSevenLabels | src/TimeGrid.jsx:29-36 | minutes 480 and 420 are labelled "8:00 AM" and "7:00 AM" |
| TimeGrid.SlotMinute | src/TimeGrid.jsx:28-29 | the minute slot `i` stands for, `i` blocks after the start wrapped at midnight, is a minute of the day |
| TimeGrid.FirstSlotLabels | src/TimeGrid.jsx:28-36 | the first `k` passes of the loop produce `k` labels |
| TimeGrid.FirstSlotLabelsAt | src/TimeGrid.jsx:28-36 | slot `i` carries the label of the minute `i` blocks after the start, wrapped at midnight |
| TimeGrid.SlotLabels | src/TimeGrid.jsx:26-28 | the column has one label per block of a whole day |
| TimeGrid.SlotLabelsDenote | src/TimeGrid.jsx:28-36 | slot `i` reads back as `(start + i * block) % 1440` |
| TimeGrid.FirstSlotIsStart | src/TimeGrid.jsx:25-29 | the first slot is the label of the start minute itself |
| TimeGrid.SlotStep | src/TimeGrid.jsx:28-29 | consecutive slots are one block apart, wrapping at midnight |
| TimeGrid.SlotCounts | src/TimeGrid.jsx:6-10 | the column has 48, 24 or 12 rows for 30-minute, 1-hour and 2-hour blocks, and 24 for an unknown setting |
| TimeGrid.SlotMinutesDistinct | src/TimeGrid.jsx:26-29 | within one day no two slots denote the same minute |
| TimeGrid.SlotLabelsDistinct | src/TimeGrid.jsx:28-36 | no two rows of the column carry the same label |
| TimeGrid.HourlyFromEightExample | src/TimeGrid.jsx:23-38 | 1-hour blocks from 8 AM give 24 rows from "8:00 AM" to "7:00 AM" |
| TimeGrid.BlocksInDay | src/TimeGrid.jsx:28 | `k` blocks stay within the day exactly when `k` is below the number of blocks in a day |
| TimeGrid.NextSlot | src/TimeGrid.jsx:28-36 | one pass of the loop appends the label of the next slot |
| TimeGrid.ElapsedBlocks | src/TimeGrid.jsx:28 | the minutes the loop adds up after `k` passes are `k` block lengths |
| TimeGrid.LastSlot | src/TimeGrid.jsx:28 | when the loop condition fails, every block of the day has its label |
| TimeGrid.GenerateTimeSlots | src/TimeGrid.jsx:23-38 | the loop returns exactly `SlotLabels` of the parsed start and block length, so every property above holds of its result |
| FuzzinessSlider.MaxFuzziness | src/FuzzinessSlider.jsx:14-15 | the cap is a quarter of the block length: 7.5, 15 or 30 minutes |
| FuzzinessSlider.ReadFuzziness | src/FuzzinessSlider.jsx:18 | `parseInt(…, 10) \|\| 0`: NaN reads as 0, a parsed number (negative ones included) is passed through unchanged, and any non-zero result is the parsed number |
| FuzzinessSlider.ReadFuzzinessOfPosition | src/FuzzinessSlider.jsx:18 | a slider position, written as a decimal numeral, reads back as that position |
| FuzzinessSlider.ReadFuzzinessOfBlank | src/FuzzinessSlider.jsx:18 | a blank input is NaN to `parseInt` and reads as 0 |
| FuzzinessSlider.Capped | src/FuzzinessSlider.jsx:19-25 | the value passed on is the smaller of the value read and the cap |
| FuzzinessSlider.SliderMax | src/FuzzinessSlider.jsx:33 | the slider's maximum is always 60, since no cap exceeds 30 |
| FuzzinessSlider.WarningMinutes | src/FuzzinessSlider.jsx:45 | the warning names a quarter of the block length rounded down, which is the cap's floor |
| FuzzinessSlider.Slider.constructor | src/FuzzinessSlider.jsx:5 | a new slider shows no warning |
| FuzzinessSlider.Slider.HandleChange | src/FuzzinessSlider.jsx:17-26 | the warning is raised exactly when the value read exceeds the cap, and the capped value is passed on |
| FuzzinessSlider.Slider.Dismiss | src/FuzzinessSlider.jsx:49 | closing the dialog hides the warning |
| FuzzinessSlider.HourBlockExample | src/App.test.jsx:21-30 | with 1-hour blocks the maximum is 60 and the cap 15: 10 passes unchanged without a warning, while 20 warns and passes 15 |
| Items.WithField | src/ActivityTypeManager.jsx:21-24 | the changed field takes the new value and the other field keeps its value |
| Items.WithFieldLaws | src/BlockTypeManager.jsx:11-14 | re-setting a field's own value changes nothing, and the last of two changes to a field wins |
| ActivityTypes.FilterByIndex | src/ActivityTypeManager.jsx:31-33 | filtering by an index removes one element when the index is in range and none otherwise |
| ActivityTypes.FilterByIndexRemoves | src/ActivityTypeManager.jsx:31-33 | an index in range removes exactly that element, keeping the order of the rest; any other index leaves the list unchanged |
| ActivityTypes.DeleteLastUndoesSave | src/ActivityTypeManager.jsx:26-33 | deleting the entry just saved restores the list as it was before the save |
| ActivityTypes.ResetColorNotOffered | src/ActivityTypeManager.jsx:12-19 | the colour "red" that a save resets to is not one of the colour options, and differs from the initial "" |
| ActivityTypes.FormNamesOffered | src/ActivityTypeManager.jsx:4-11 | the initial name and the name a save resets to are both offered by the name drop-down |
| ActivityTypes.ActivityTypeManager.constructor | src/ActivityTypeManager.jsx:4-9 | the form starts as "Work" with no colour, and nothing is saved |
| ActivityTypes.ActivityTypeManager.HandleChange | src/ActivityTypeManager.jsx:21-24 | only the changed field of the form item changes; the saved list is untouched |
| ActivityTypes.ActivityTypeManager.HandleSave | src/ActivityTypeManager.jsx:26-29 | the item is appended unchecked and the form resets to "Work"/"red" |
| ActivityTypes.ActivityTypeManager.HandleDelete | src/ActivityTypeManager.jsx:31-33 | the list loses the entry at the index, and the form is untouched |
| BlockTypes.IsRejected | src/BlockTypeManager.jsx:17 | `!tempItem.name.trim()` holds exactly when the name is empty or only whitespace |
| BlockTypes.BlankItemRejected | src/BlockTypeManager.jsx:4-20 | the initial form item would be refused |
| BlockTypes.BlockTypeManager.constructor | src/BlockTypeManager.jsx:4-9 | the form starts as ""/"red", nothing is saved, and the invariant holds |
| BlockTypes.BlockTypeManager.HandleChange | src/BlockTypeManager.jsx:11-14 | only the changed field changes, and the invariant (every saved name is non-blank) is kept |
| BlockTypes.BlockTypeManager.HandleSave | src/BlockTypeManager.jsx:16-24 | a blank name is refused with no change of state; otherwise the untrimmed item is appended and the form reset to ""/"red"; the invariant is kept either way |

## Left out

- Rendering is not modelled: JSX, CSS, the grid body (days × slots) and the option lists' markup. The components themselves render nothing that the model needs.
- The `alert` of BlockTypeManager is modelled as the `rejected` result of `HandleSave`.
- The `onChange` callback of FuzzinessSlider is modelled as the value `HandleChange` returns.
- React state updates are modelled as taking effect at once. Each handler acts on one event, which sees the state of the render it belongs to.
- The `blockSize` and `startTime` properties are parameters of each handler, as for a re-render. The slider's `value` property only sets the position of the rendered range (src/FuzzinessSlider.jsx:34) and is not modelled; `Slider.HandleChange` reads the input's own text.
- TimeGrid.GetStartMinutes: its precondition excludes a non-empty start time without ':'. That case throws a TypeError in the source (`period` is undefined).
- TimeGrid.GetStartMinutes: its precondition also excludes an hour field that `parseInt` reads as NaN, which gives a NaN start, or as a negative number, because the model's hour is a `nat`. A negative hour need not give a negative start: "-1:00 PM" reads as -1, becomes 11 and gives 660. No start-time option produces either case.
- BlockSizes.BlockSizeInMinutes: a `blockSize` naming an `Object.prototype` property (such as "constructor") yields a function from the JavaScript lookup instead of the default. That case is not modelled.
- Numbers are exact: `int` and `real`. `parseInt` of numerals beyond 2^53 would round in JavaScript; the `-0` that `parseInt("-0")` gives is 0 here (both are falsy, so the slider reads 0 either way).
- The computed-key update `[name]: value` is modelled for the two input names the forms have, `name` and `color`. Other keys are not modelled.
- The handlers accept any string, not only the values the drop-downs offer.
- The grid body of TimeGrid renders one empty cell per day and slot (src/TimeGrid.jsx:55-67); it holds no logic and is not modelled. The page composition (App, ScheduleSetup, the dropdown components) is not part of this model either.

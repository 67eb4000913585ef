/**
  The time column of the weekly grid: the start-time setting is read as a
  minute of the day, and one label per block is produced for the 24 hours
  that follow, wrapping past midnight. Labels are 12-hour clock times such as
  "8:00 AM" or "12:30 PM".
 */
module TimeGrid {
  import opened Wrappers
  import opened Text
  import opened BlockSizes

  const MinutesPerDay: nat := 24 * 60

  /** The start used when no start time is given: 8:00 AM. */
  const DefaultStartMinutes: nat := 8 * 60

  /** The start-time strings the parser handles without throwing and without
      producing NaN or a negative hour: empty, or a string containing ':' whose
      text before the first ':' parses (as `parseInt` without a radix does) to
      a non-negative integer. Every option of the start-time drop-down is one. */
  predicate IsStartTimeText(timeStr: string) {
    || timeStr == ""
    || (':' in timeStr
        && var hour := ParseInt(FieldBefore(timeStr, ':'), Unspecified);
           hour.Some? && hour.value >= 0)
  }

  /** The period rule of `getStartMinutes`: a "PM" anywhere in the period
      text moves every hour other than 12 into the afternoon; after that, an
      "AM" anywhere in it turns hour 12 into 0. */
  function PeriodAdjustedHour(parsed: nat, period: string): (hour: nat)
    ensures hour == parsed || hour == parsed + 12 || (hour == 0 && parsed in {0, 12})
  {
    var hour := if Includes(period, "PM") && parsed != 12 then parsed + 12 else parsed;
    if Includes(period, "AM") && hour == 12 then 0 else hour
  }

  /** `getStartMinutes`: the hour before the first ':', adjusted for the
      period written after it, in minutes since midnight. The minutes written
      after the ':' are not read, so the start is always a whole hour. */
  function GetStartMinutes(timeStr: string): (start: nat)
    requires IsStartTimeText(timeStr)
    ensures timeStr == "" ==> start == DefaultStartMinutes
    ensures start % 60 == 0
  {
    if timeStr == "" then DefaultStartMinutes
    else
      var parsed := ParseInt(FieldBefore(timeStr, ':'), Unspecified).value;
      var hour := PeriodAdjustedHour(parsed as nat, SecondField(timeStr, ':').value);
      hour * 60
  }

  /** The hour on a 24-hour clock that the 12-hour reading `hour`/`period` denotes. */
  function ClockHour(hour: nat, period: string): (h: nat)
    requires 1 <= hour <= 12 && (period == "AM" || period == "PM")
    ensures h < 24 && h % 12 == hour % 12 && (h >= 12 <==> period == "PM")
  {
    if period == "AM" then hour % 12 else hour % 12 + 12
  }

  /** The minute of the day that the 12-hour reading `hour`:`mins` `period` denotes. */
  function ClockMinute(hour: nat, mins: nat, period: string): (m: nat)
    requires 1 <= hour <= 12 && mins < 60 && (period == "AM" || period == "PM")
    ensures m < MinutesPerDay && m / 60 == ClockHour(hour, period) && m % 60 == mins
  {
    ClockHour(hour, period) * 60 + mins
  }

  /** For a well-formed "H:MM AM" or "H:MM PM" the start is the hour that the
      12-hour reading denotes, whatever MM is: 12 AM is midnight, a PM hour
      other than 12 adds twelve hours, and 12 PM is noon. */
  lemma StartOfWellFormedTime(hour: nat, minutes: string, period: string)
    requires 1 <= hour <= 12 && IsDecimal(minutes) && (period == "AM" || period == "PM")
    ensures var timeStr := DecimalString(hour) + ":" + minutes + " " + period;
            IsStartTimeText(timeStr) && GetStartMinutes(timeStr) == ClockHour(hour, period) * 60
  {
    var h := DecimalString(hour);
    var rest := minutes + " " + period;
    var timeStr := h + ":" + minutes + " " + period;
    FieldsOfWellFormedTime(hour, minutes, period);
    ParseIntOfDecimalString(hour, Unspecified);
    StartFromFields(timeStr, h, rest, hour);
    PeriodOfWellFormedTime(hour, minutes, period);
  }

  /** A well-formed time splits at its ':' into the hour numeral and the
      minutes with the period. */
  lemma FieldsOfWellFormedTime(hour: nat, minutes: string, period: string)
    requires IsDecimal(minutes) && (period == "AM" || period == "PM")
    ensures var timeStr := DecimalString(hour) + ":" + minutes + " " + period;
            && FieldBefore(timeStr, ':') == DecimalString(hour)
            && SecondField(timeStr, ':') == Some(minutes + " " + period)
  {
    var h := DecimalString(hour);
    var rest := minutes + " " + period;
    assert h + ":" + minutes + " " + period == h + [':'] + rest;
    assert ':' !in rest by {
      forall k | 0 <= k < |rest| ensures rest[k] != ':' {
        if k < |minutes| {
          assert rest[k] == minutes[k];
        }
      }
    }
    DecimalStringDenotes(hour);
    SplitAtColon(h, rest);
  }

  /** The start of a time string, given the two fields around its first ':'
      and the value of the first. */
  lemma StartFromFields(timeStr: string, h: string, rest: string, hour: nat)
    requires FieldBefore(timeStr, ':') == h && SecondField(timeStr, ':') == Some(rest)
    requires ParseInt(h, Unspecified) == Some(hour)
    ensures IsStartTimeText(timeStr) && GetStartMinutes(timeStr) == PeriodAdjustedHour(hour, rest) * 60
  {
    assert ':' in timeStr;
  }

  /** A string made of a decimal hour, ':' and a text without ':' splits into those two fields. */
  lemma SplitAtColon(h: string, rest: string)
    requires IsDecimal(h) && ':' !in rest
    ensures FieldBefore(h + [':'] + rest, ':') == h
    ensures SecondField(h + [':'] + rest, ':') == Some(rest)
  {
    assert ':' !in h by {
      forall i | 0 <= i < |h| ensures h[i] != ':' { assert '0' <= h[i] <= '9'; }
    }
    FieldBeforeSeparator(h, ':', rest);
    assert (h + [':'] + rest)[|h| + 1..] == rest;
    FieldBeforeTail(rest, ':');
  }

  /** In "MM AM" only "AM" occurs, and in "MM PM" only "PM", so the period
      rule gives the 24-hour clock hour. */
  lemma PeriodOfWellFormedTime(hour: nat, minutes: string, period: string)
    requires 1 <= hour <= 12 && IsDecimal(minutes) && (period == "AM" || period == "PM")
    ensures PeriodAdjustedHour(hour, minutes + " " + period) == ClockHour(hour, period)
  {
    PeriodsInTimeText(minutes, period);
  }

  /** The text after the ':' of "H:MM AM" includes "AM" and not "PM", and
      symmetrically for "PM". */
  lemma PeriodsInTimeText(minutes: string, period: string)
    requires IsDecimal(minutes) && (period == "AM" || period == "PM")
    ensures Includes(minutes + " " + period, period)
    ensures !Includes(minutes + " " + period, if period == "AM" then "PM" else "AM")
  {
    var rest := minutes + " " + period;
    var n := |minutes|;
    assert rest[n + 1..n + 3] == period;
    IncludesAt(rest, period, n + 1);
    var other := if period == "AM" then "PM" else "AM";
    assert other[0] !in rest by {
      forall k | 0 <= k < |rest| ensures rest[k] != other[0] {
        if k < n {
          assert rest[k] == minutes[k];
        }
      }
    }
  }

  /** Splitting a string with no separator in it gives the whole string. */
  lemma {:induction false} FieldBeforeTail(s: string, sep: char)
    requires sep !in s
    ensures FieldBefore(s, sep) == s
  {
    if |s| > 0 {
      FieldBeforeTail(s[1..], sep);
      assert [s[0]] + s[1..] == s;
    }
  }

  /** The hour shown on a 12-hour clock: `hours % 12`, or 12 when that is 0. */
  function DisplayHour(hours: nat): (d: nat)
    ensures 1 <= d <= 12
  {
    if hours % 12 == 0 then 12 else hours % 12
  }

  /** The label of a minute of the day: the display hour, ':', the minutes
      padded to two digits, a space and "AM" or "PM". */
  function Label(minuteOfDay: nat): (text: string)
    requires minuteOfDay < MinutesPerDay
    ensures |text| >= 7
  {
    var hours := minuteOfDay / 60;
    var mins := minuteOfDay % 60;
    var period := if hours >= 12 then "PM" else "AM";
    DecimalString(DisplayHour(hours)) + ":" + PadStart(DecimalString(mins), 2, '0') + " " + period
  }

  /** Reads a label back to the minute of the day it denotes; `None` for text
      that is not "H:MM AM" or "H:MM PM" with H in 1..12 and MM in 00..59. */
  function ReadLabel(text: string): (minute: Option<nat>)
    ensures minute.Some? ==> minute.value < MinutesPerDay
  {
    var h := FieldBefore(text, ':');
    if |text| != |h| + 6 || h == [] || !IsDecimal(h) then None
    else
      var rest := text[|h| + 1..];
      var mm := rest[..2];
      var period := rest[3..];
      if !IsDecimal(mm) || rest[2] != ' ' || !(period == "AM" || period == "PM") then None
      else
        var hour := DigitsValue(h, 10);
        var mins := DigitsValue(mm, 10);
        if 1 <= hour <= 12 && mins < 60 then Some(ClockMinute(hour, mins, period)) else None
  }

  /** Text shaped like a label reads as the minute its parts denote. */
  lemma ReadLabelOfParts(h: string, mm: string, period: string)
    requires 1 <= |h| && IsDecimal(h) && 1 <= DigitsValue(h, 10) <= 12
    requires |mm| == 2 && IsDecimal(mm) && DigitsValue(mm, 10) < 60
    requires period == "AM" || period == "PM"
    ensures ReadLabel(h + ":" + mm + " " + period)
         == Some(ClockMinute(DigitsValue(h, 10), DigitsValue(mm, 10), period))
  {
    var rest := mm + " " + period;
    var text := h + ":" + mm + " " + period;
    assert text == h + [':'] + rest;
    assert ':' !in h by {
      forall i | 0 <= i < |h| ensures h[i] != ':' { assert '0' <= h[i] <= '9'; }
    }
    FieldBeforeSeparator(h, ':', rest);
    assert text[|h| + 1..] == rest;
    assert rest[..2] == mm && rest[2] == ' ' && rest[3..] == period;
  }

  /** The minutes of a label: two decimal digits that denote them. */
  lemma PaddedMinutes(mins: nat)
    requires mins < 60
    ensures var mm := PadStart(DecimalString(mins), 2, '0');
            |mm| == 2 && IsDecimal(mm) && DigitsValue(mm, 10) == mins
  {
    var s := DecimalString(mins);
    var mm := PadStart(s, 2, '0');
    DecimalStringDenotes(mins);
    if |s| == 1 {
      assert mm == ['0'] + s;
      assert mm[..1] == ['0'] && mm[1] == s[0];
      assert DigitsValue(['0'], 10) == 0 by { assert ['0'][..0] == []; }
      assert DigitsValue(s, 10) == CharDigit(s[0]) by { assert s[..0] == []; }
    } else {
      assert mm == s;
    }
  }

  /** The hour shown on a label, with its period, gives back the hour of the day. */
  lemma DisplayHourRoundTrip(hours: nat)
    requires hours < 24
    ensures 1 <= DisplayHour(hours) <= 12
    ensures ClockHour(DisplayHour(hours), if hours >= 12 then "PM" else "AM") == hours
  {
  }

  /** Every label reads back as the minute it was made from, so two different
      minutes never share a label. */
  lemma LabelRoundTrip(minuteOfDay: nat)
    requires minuteOfDay < MinutesPerDay
    ensures ReadLabel(Label(minuteOfDay)) == Some(minuteOfDay)
  {
    var hours := minuteOfDay / 60;
    var mins := minuteOfDay % 60;
    var period := if hours >= 12 then "PM" else "AM";
    var h := DecimalString(DisplayHour(hours));
    var mm := PadStart(DecimalString(mins), 2, '0');
    PaddedMinutes(mins);
    DecimalStringDenotes(DisplayHour(hours));
    ReadLabelOfParts(h, mm, period);
    DisplayHourRoundTrip(hours);
    var m := ClockMinute(DisplayHour(hours), mins, period);
    assert m == minuteOfDay;
    assert Label(minuteOfDay) == h + ":" + mm + " " + period;
  }

  /** The minute of the day slot `i` denotes: `i` blocks after the start,
      wrapped at midnight. */
  function SlotMinute(start: nat, blockMinutes: nat, i: nat): (minute: nat)
    ensures minute < MinutesPerDay
  {
    (start + i * blockMinutes) % MinutesPerDay
  }

  /** The labels of the first `count` slots, in order. */
  function FirstSlotLabels(start: nat, blockMinutes: nat, count: nat): (labels: seq<string>)
    ensures |labels| == count
  {
    seq(count, i requires 0 <= i < count => Label(SlotMinute(start, blockMinutes, i)))
  }

  /** Slot `i` carries the label of the minute `i` blocks after the start. */
  lemma FirstSlotLabelsAt(start: nat, blockMinutes: nat, count: nat, i: nat)
    requires i < count
    ensures FirstSlotLabels(start, blockMinutes, count)[i] == Label(SlotMinute(start, blockMinutes, i))
  {
  }

  /** The labels of the time column: one per block of a whole day. */
  function SlotLabels(start: nat, blockMinutes: nat): (labels: seq<string>)
    requires IsBlockLength(blockMinutes)
    ensures |labels| == MinutesPerDay / blockMinutes
  {
    FirstSlotLabels(start, blockMinutes, MinutesPerDay / blockMinutes)
  }

  /** Slot `i` reads back as the minute `i` blocks after the start, wrapped at
      midnight. */
  lemma SlotLabelsDenote(start: nat, blockMinutes: nat, i: nat)
    requires IsBlockLength(blockMinutes) && i < MinutesPerDay / blockMinutes
    ensures ReadLabel(SlotLabels(start, blockMinutes)[i]) == Some((start + i * blockMinutes) % MinutesPerDay)
  {
    var m := SlotMinute(start, blockMinutes, i);
    FirstSlotLabelsAt(start, blockMinutes, MinutesPerDay / blockMinutes, i);
    LabelRoundTrip(m);
  }

  /** The first slot is labelled with the start minute itself. */
  lemma FirstSlotIsStart(start: nat, blockMinutes: nat)
    requires IsBlockLength(blockMinutes) && start < MinutesPerDay
    ensures SlotLabels(start, blockMinutes)[0] == Label(start)
  {
    assert SlotMinute(start, blockMinutes, 0) == start;
    FirstSlotLabelsAt(start, blockMinutes, MinutesPerDay / blockMinutes, 0);
  }

  /** The time column has 48, 24 or 12 rows for 30-minute, 1-hour and 2-hour
      blocks, and 24 for any other setting. */
  lemma SlotCounts(start: nat, blockSize: string)
    ensures var n := |SlotLabels(start, BlockSizeInMinutes(blockSize))|;
            n == (if blockSize == "30 minutes" then 48 else if blockSize == "2 hours" then 12 else 24)
  {
  }

  /** Two numbers less than `n` apart that leave the same remainder modulo `n` are equal. */
  lemma SameRemainder(a: nat, b: nat)
    requires a <= b < a + MinutesPerDay && a % MinutesPerDay == b % MinutesPerDay
    ensures a == b
  {
    var qa, qb := a / MinutesPerDay, b / MinutesPerDay;
    assert b - a == MinutesPerDay * (qb - qa);
  }

  /** Consecutive slots are one block apart, wrapping at midnight. */
  lemma SlotStep(start: nat, blockMinutes: nat, i: nat)
    ensures SlotMinute(start, blockMinutes, i + 1) == (SlotMinute(start, blockMinutes, i) + blockMinutes) % MinutesPerDay
  {
    var a := start + i * blockMinutes;
    assert start + (i + 1) * blockMinutes == a + blockMinutes;
    assert a == MinutesPerDay * (a / MinutesPerDay) + a % MinutesPerDay;
    assert (a + blockMinutes) % MinutesPerDay == (a % MinutesPerDay + blockMinutes) % MinutesPerDay;
  }

  /** Within one day no two slots denote the same minute. */
  lemma SlotMinutesDistinct(start: nat, blockMinutes: nat, i: nat, j: nat)
    requires IsBlockLength(blockMinutes) && i < j < MinutesPerDay / blockMinutes
    ensures SlotMinute(start, blockMinutes, i) != SlotMinute(start, blockMinutes, j)
  {
    var a := start + i * blockMinutes;
    var b := start + j * blockMinutes;
    BlocksInDay(blockMinutes, j);
    assert b - a == (j - i) * blockMinutes <= j * blockMinutes;
    if a % MinutesPerDay == b % MinutesPerDay {
      SameRemainder(a, b);
    }
  }

  /** No two rows of the time column carry the same label. */
  lemma SlotLabelsDistinct(start: nat, blockMinutes: nat, i: nat, j: nat)
    requires IsBlockLength(blockMinutes) && i < MinutesPerDay / blockMinutes && j < MinutesPerDay / blockMinutes
    requires i != j
    ensures SlotLabels(start, blockMinutes)[i] != SlotLabels(start, blockMinutes)[j]
  {
    SlotLabelsDenote(start, blockMinutes, i);
    SlotLabelsDenote(start, blockMinutes, j);
    if i < j {
      SlotMinutesDistinct(start, blockMinutes, i, j);
    } else {
      SlotMinutesDistinct(start, blockMinutes, j, i);
    }
  }

  /** With 1-hour blocks from minute 480 (8 AM) the column runs from "8:00 AM"
      to "7:00 AM" of the next morning in 24 rows. The start and block length
      are parameters fixed by the precondition rather than literals in the
      conclusion, which keeps the solver from unfolding every label. */
  lemma HourlyFromEightExample(start: nat, blockMinutes: nat)
    requires start == 480 && blockMinutes == 60
    ensures var labels := SlotLabels(start, blockMinutes);
            |labels| == 24 && labels[0] == "8:00 AM" && labels[23] == "7:00 AM"
  {
    var count := MinutesPerDay / blockMinutes;
    assert count == 24;
    assert SlotMinute(start, blockMinutes, 0) == 480;
    assert SlotMinute(start, blockMinutes, count - 1) == 420;
    FirstSlotLabelsAt(start, blockMinutes, count, 0);
    FirstSlotLabelsAt(start, blockMinutes, count, count - 1);
    EightAndSevenLabels();
  }

  /** The labels of 8 AM and 7 AM. */
  lemma EightAndSevenLabels()
    ensures Label(480) == "8:00 AM" && Label(420) == "7:00 AM"
  {
    HourLabel(8, "AM");
    HourLabel(7, "AM");
    assert [DigitChar(8)] + ":00 " + "AM" == "8:00 AM";
    assert [DigitChar(7)] + ":00 " + "AM" == "7:00 AM";
  }

  /** "8:00 AM" is read as minute 480. The text is a parameter fixed by the
      precondition, which keeps the solver from unfolding `parseInt` on a
      constant string. */
  lemma EightAmStart(startTime: string)
    requires startTime == "8:00 AM"
    ensures IsStartTimeText(startTime) && GetStartMinutes(startTime) == 480
  {
    assert DecimalString(8) == "8";
    assert startTime == DecimalString(8) + ":" + "00" + " " + "AM";
    StartOfWellFormedTime(8, "00", "AM");
  }

  /** The label of a whole hour between 1 and 9 o'clock. */
  lemma HourLabel(hour: nat, period: string)
    requires 1 <= hour <= 9 && (period == "AM" || period == "PM")
    ensures Label(ClockHour(hour, period) * 60) == [DigitChar(hour)] + ":00 " + period
  {
    var m := ClockHour(hour, period) * 60;
    assert m / 60 == ClockHour(hour, period) && m % 60 == 0;
    assert DisplayHour(m / 60) == hour;
    assert DecimalString(hour) == [DigitChar(hour)];
    assert DecimalString(0) == "0";
    assert PadStart("0", 2, '0') == "00";
  }

  /** `k` whole blocks fit strictly inside a day exactly when `k` is below the
      number of blocks in a day. */
  lemma BlocksInDay(blockMinutes: nat, k: nat)
    requires IsBlockLength(blockMinutes)
    ensures k * blockMinutes < MinutesPerDay <==> k < MinutesPerDay / blockMinutes
  {
  }

  /** The minutes `k` blocks take, as the loop accumulates them. */
  function Elapsed(k: nat, blockMinutes: nat): nat {
    if k == 0 then 0 else Elapsed(k - 1, blockMinutes) + blockMinutes
  }

  /** The accumulated minutes are `k` times the block length. */
  lemma {:induction false} ElapsedBlocks(k: nat, blockMinutes: nat)
    ensures Elapsed(k, blockMinutes) == k * blockMinutes
  {
    if k > 0 {
      ElapsedBlocks(k - 1, blockMinutes);
      assert (k - 1) * blockMinutes + blockMinutes == k * blockMinutes;
    }
  }

  /** One step of the slot loop: while `minutes`, `k` blocks after the
      start, is still within the day, it is slot `k`, and appending its label
      extends the first `k` labels to the first `k + 1`. */
  lemma NextSlot(start: nat, blockMinutes: nat, k: nat, minutes: nat)
    requires IsBlockLength(blockMinutes)
    requires minutes == start + Elapsed(k, blockMinutes) && minutes < start + MinutesPerDay
    ensures k + 1 <= MinutesPerDay / blockMinutes
    ensures minutes + blockMinutes == start + Elapsed(k + 1, blockMinutes)
    ensures FirstSlotLabels(start, blockMinutes, k + 1)
         == FirstSlotLabels(start, blockMinutes, k) + [Label(minutes % MinutesPerDay)]
  {
    ElapsedBlocks(k, blockMinutes);
    BlocksInDay(blockMinutes, k);
    assert minutes % MinutesPerDay == SlotMinute(start, blockMinutes, k);
  }

  /** When the slot loop stops, it has produced a label for every block of the day. */
  lemma LastSlot(start: nat, blockMinutes: nat, k: nat, minutes: nat)
    requires IsBlockLength(blockMinutes) && k <= MinutesPerDay / blockMinutes
    requires minutes == start + Elapsed(k, blockMinutes) && minutes >= start + MinutesPerDay
    ensures k == MinutesPerDay / blockMinutes
  {
    ElapsedBlocks(k, blockMinutes);
    BlocksInDay(blockMinutes, k);
  }

  /** `generateTimeSlots`: walks from the start minute in block-size steps
      until 24 hours have passed, formatting each minute, wrapped at midnight,
      as a label. */
  method GenerateTimeSlots(blockSize: string, startTime: string) returns (slots: seq<string>)
    requires IsStartTimeText(startTime)
    ensures slots == SlotLabels(GetStartMinutes(startTime), BlockSizeInMinutes(blockSize))
  {
    var blockSizeInMinutes := BlockSizeInMinutes(blockSize);
    slots := [];
    var startMinutes := GetStartMinutes(startTime);
    var minutes := startMinutes;
    ghost var k := 0;
    while minutes < startMinutes + MinutesPerDay
      invariant minutes == startMinutes + Elapsed(k, blockSizeInMinutes)
      invariant k <= MinutesPerDay / blockSizeInMinutes
      invariant slots == FirstSlotLabels(startMinutes, blockSizeInMinutes, k)
      decreases startMinutes + MinutesPerDay - minutes
    {
      NextSlot(startMinutes, blockSizeInMinutes, k, minutes);
      var adjustedMinutes := minutes % MinutesPerDay;
      slots := slots + [Label(adjustedMinutes)];
      minutes := minutes + blockSizeInMinutes;
      k := k + 1;
    }
    LastSlot(startMinutes, blockSizeInMinutes, k, minutes);
  }


}

/**
  The fuzziness slider: a range input whose changes are read as whole
  minutes and capped at a quarter of the block length. Exceeding the cap
  raises a warning dialog, which stays up until it is dismissed or a later
  change stays within the cap.
 */
module FuzzinessSlider {
  import opened Wrappers
  import opened Text
  import opened BlockSizes

  /** The most fuzziness a block admits: 25% of its length. */
  function MaxFuzziness(blockSize: string): (cap: real)
    ensures 4.0 * cap == BlockSizeInMinutes(blockSize) as real
    ensures cap == 7.5 || cap == 15.0 || cap == 30.0
  {
    BlockSizeInMinutes(blockSize) as real * 0.25
  }

  /** `parseInt(text, 10) || 0`: the decimal integer `text` starts with, and 0
      when it starts with none (`NaN` is falsy, and so is 0 itself). */
  function ReadFuzziness(text: string): (value: int)
    ensures ParseInt(text, Decimal).None? ==> value == 0
    ensures ParseInt(text, Decimal).Some? ==> value == ParseInt(text, Decimal).value
    ensures value != 0 ==> ParseInt(text, Decimal) == Some(value)
  {
    match ParseInt(text, Decimal)
    case None => 0
    case Some(n) => n
  }

  /** The slider reports its position as a decimal numeral, which reads back as
      that position. */
  lemma ReadFuzzinessOfPosition(position: nat)
    ensures ReadFuzziness(DecimalString(position)) == position
  {
    ParseIntOfDecimalString(position, Decimal);
  }

  /** Text that holds no digit at all before the first non-digit reads as 0:
      here, a blank text. */
  lemma ReadFuzzinessOfBlank(text: string)
    requires IsBlank(text)
    ensures ReadFuzziness(text) == 0
  {
    assert TrimStart(text) == [];
  }

  /** The value handed to `onChange`: the value read, or the cap when the value
      exceeds it. It is the smaller of the two. */
  function Capped(value: int, cap: real): (r: real)
    ensures r <= cap && r <= value as real
    ensures r == cap || r == value as real
  {
    if value as real > cap then cap else value as real
  }

  /** The slider's `max` attribute, `Math.max(60, cap)`: always 60 minutes,
      since no cap exceeds 30. */
  function SliderMax(blockSize: string): (max: real)
    ensures max == 60.0
  {
    var cap := MaxFuzziness(blockSize);
    if 60.0 >= cap then 60.0 else cap
  }

  /** The minutes the warning names, `Math.floor(cap)`: a quarter of the block
      length rounded down, so 7 for 30-minute blocks although the cap is 7.5. */
  function WarningMinutes(blockSize: string): (minutes: int)
    ensures minutes == BlockSizeInMinutes(blockSize) / 4
    ensures minutes as real <= MaxFuzziness(blockSize) < minutes as real + 1.0
  {
    MaxFuzziness(blockSize).Floor
  }

  /** The component's state: whether the warning dialog is showing. The block
      size and the callback are properties, passed to each handler. */
  class Slider {
    var showWarning: bool

    /** A freshly mounted slider shows no warning. */
    constructor ()
      ensures !showWarning
    {
      showWarning := false;
    }

    /** `handleChange`: reads the new position and returns the value passed to
        `onChange`. The warning is raised exactly when the position read exceeds
        the cap, and then the cap is emitted instead. */
    method HandleChange(blockSize: string, text: string) returns (emitted: real)
      modifies this
      ensures showWarning <==> ReadFuzziness(text) as real > MaxFuzziness(blockSize)
      ensures emitted == Capped(ReadFuzziness(text), MaxFuzziness(blockSize))
    {
      var newValue := ReadFuzziness(text);
      var maxFuzziness := MaxFuzziness(blockSize);
      if newValue as real > maxFuzziness {
        showWarning := true;
        emitted := maxFuzziness;
      } else {
        showWarning := false;
        emitted := newValue as real;
      }
    }

    /** A click on the overlay or on "Got it" closes the warning. */
    method Dismiss()
      modifies this
      ensures !showWarning
    {
      showWarning := false;
    }
  }

  /** With 1-hour blocks the cap is 15 minutes: moving the slider to 10 passes
      10 through without a warning, and moving it to 20 warns and passes 15.
      The block size is a parameter fixed by the precondition rather than a
      literal in the conclusions, which keeps the solver from unfolding the
      lookup on a constant string. */
  lemma HourBlockExample(blockSize: string)
    requires blockSize == "1 hour"
    ensures MaxFuzziness(blockSize) == 15.0 && SliderMax(blockSize) == 60.0
    ensures ReadFuzziness(DecimalString(10)) as real <= MaxFuzziness(blockSize)
    ensures Capped(ReadFuzziness(DecimalString(10)), MaxFuzziness(blockSize)) == 10.0
    ensures ReadFuzziness(DecimalString(20)) as real > MaxFuzziness(blockSize)
    ensures Capped(ReadFuzziness(DecimalString(20)), MaxFuzziness(blockSize)) == 15.0
  {
    ReadFuzzinessOfPosition(10);
    ReadFuzzinessOfPosition(20);
  }
}

/**
  The block-size setting: one of three option strings, looked up as a number of
  minutes. Both the time grid and the fuzziness slider use the same table.
 */
module BlockSizes {

  /** The values the block-size drop-down offers. */
  const BlockSizeOptions: seq<string> := ["30 minutes", "1 hour", "2 hours"]

  /** A block length the lookup can produce. */
  predicate IsBlockLength(minutes: nat) {
    minutes == 30 || minutes == 60 || minutes == 120
  }

  /** The lookup table with its 1-hour default: a known option gives its length,
      anything else (an unknown or missing setting) gives 60. Every length it
      returns divides a day evenly. */
  function BlockSizeInMinutes(blockSize: string): (minutes: nat)
    ensures IsBlockLength(minutes) && (24 * 60) % minutes == 0
    ensures blockSize !in BlockSizeOptions ==> minutes == 60
  {
    if blockSize == "30 minutes" then 30
    else if blockSize == "1 hour" then 60
    else if blockSize == "2 hours" then 120
    else 60
  }

  /** The option string that names a block length. */
  function BlockSizeName(minutes: nat): (name: string)
    requires IsBlockLength(minutes)
    ensures name in BlockSizeOptions
  {
    if minutes == 30 then "30 minutes" else if minutes == 60 then "1 hour" else "2 hours"
  }

  /** The table is a bijection between the options and the three lengths:
      looking up an option's name gives its length, and naming a looked-up
      option gives the option back. */
  lemma BlockSizeLookupRoundTrip(minutes: nat, blockSize: string)
    requires IsBlockLength(minutes)
    ensures BlockSizeInMinutes(BlockSizeName(minutes)) == minutes
    ensures blockSize in BlockSizeOptions ==> BlockSizeName(BlockSizeInMinutes(blockSize)) == blockSize
  {
  }
}

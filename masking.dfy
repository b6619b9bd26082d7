/** The log-masking helpers of the API entry point (cmd/api/main.go). Go measures and
    slices strings in bytes; here each character stands for one byte. */
module Masking {

  /** `maskConnectionString`: short strings are hidden entirely; longer ones keep only their
      first and last ten characters. */
  function MaskConnectionString(s: string): (r: string)
    ensures |s| < 20 ==> r == "***"
    ensures |s| >= 20 ==> |r| == 23 && r[..10] == s[..10] && r[10..13] == "..." && r[13..] == s[|s| - 10..]
    ensures |r| <= 23
  {
    if |s| < 20 then "***" else s[..10] + "..." + s[|s| - 10..]
  }

  /** `maskString`: short strings are hidden entirely; longer ones keep only their first
      and last two characters. */
  function MaskString(s: string): (r: string)
    ensures |s| < 8 ==> r == "***"
    ensures |s| >= 8 ==> |r| == 7 && r[..2] == s[..2] && r[2..5] == "..." && r[5..] == s[|s| - 2..]
    ensures |r| <= 7
  {
    if |s| < 8 then "***" else s[..2] + "..." + s[|s| - 2..]
  }

  /** The masked connection string reveals nothing but the two ends: strings that agree on
      their first and last ten characters mask alike, whatever their length or middle. */
  lemma MaskConnectionStringHidesMiddle(a: string, b: string)
    requires |a| >= 20 && |b| >= 20
    requires a[..10] == b[..10] && a[|a| - 10..] == b[|b| - 10..]
    ensures MaskConnectionString(a) == MaskConnectionString(b)
  {
  }

  /** The masked string reveals nothing but the two ends. */
  lemma MaskStringHidesMiddle(a: string, b: string)
    requires |a| >= 8 && |b| >= 8
    requires a[..2] == b[..2] && a[|a| - 2..] == b[|b| - 2..]
    ensures MaskString(a) == MaskString(b)
  {
  }
}

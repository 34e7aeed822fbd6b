/** The fixed tables of the collector: name filters, exchange code prefixes, session times. */
module Const {
  import opened Text

  /** Name fragments marking delisted (退), special-treatment (ST) and newly listed (N) stocks. */
  const BadStockNameContains: seq<string> := ["退", "ST", "N"]

  /** Numeric-code prefixes of the Shanghai exchange. */
  const ShanghaiPrefix: seq<string> := ["600", "601", "603", "605", "688", "900"]

  /** Numeric-code prefixes of the Beijing exchange. */
  const BeijingPrefix: seq<string> := ["8", "43"]

  const MicrosPerSecond: nat := 1_000_000
  const MicrosPerDay: nat := 24 * 60 * 60 * MicrosPerSecond

  /** A wall-clock time of day `h:m`, in microseconds since midnight (what `datetime.time` compares). */
  function ClockTime(h: nat, m: nat, s: nat := 0): nat
  {
    ((h * 60 + m) * 60 + s) * MicrosPerSecond
  }

  const FirstOpeningTime: nat := ClockTime(9, 30)
  const FirstClosingTime: nat := ClockTime(11, 30)
  const SecondOpeningTime: nat := ClockTime(13, 0)
  const SecondClosingTime: nat := ClockTime(15, 0)

  /** No code starts with both a Shanghai and a Beijing prefix, so the order of the two checks is immaterial. */
  lemma PrefixesDisjoint(s: string)
    ensures !(StartsWithAny(s, ShanghaiPrefix) && StartsWithAny(s, BeijingPrefix))
  {
    if StartsWithAny(s, BeijingPrefix) && |s| > 0 {
      assert s[0] == '8' || s[0] == '4';
      forall i | 0 <= i < |ShanghaiPrefix|
        ensures !StartsWith(s, ShanghaiPrefix[i])
      {
        assert ShanghaiPrefix[i][0] == '6' || ShanghaiPrefix[i][0] == '9';
      }
    }
  }

  /** The session boundaries strictly increase, so the morning and afternoon windows are disjoint and ordered. */
  lemma SessionBoundariesIncrease()
    ensures 0 < FirstOpeningTime < FirstClosingTime < SecondOpeningTime < SecondClosingTime < MicrosPerDay
  {
  }

  /**
   * The tables are usable as the filters use them: no name keyword is empty
   * (an empty one would mark every name bad), and every exchange prefix is
   * a non-empty run of digits shorter than a six-digit code.
   */
  lemma TablesWellFormed()
    ensures forall i :: 0 <= i < |BadStockNameContains| ==> |BadStockNameContains[i]| > 0
    ensures forall i :: 0 <= i < |ShanghaiPrefix| ==> 0 < |ShanghaiPrefix[i]| < 6 && AllDigits(ShanghaiPrefix[i])
    ensures forall i :: 0 <= i < |BeijingPrefix| ==> 0 < |BeijingPrefix[i]| < 6 && AllDigits(BeijingPrefix[i])
  {
  }
}

/** The two derived metrics of a row (`computeDerived`) and how they are
    rendered (`fmtPercent`, `fmtNumber`) and read back when sorting
    (`rowSortValue`). "Not available" (NaN) is `None`. */
module Derived {
  import opened Options

  /** Conversion (units per impression) and sessions per unit. */
  datatype Ratios = Ratios(conv: Option<real>, spu: Option<real>)

  /** What a derived cell shows. `toFixed` is kept abstract: a rendered
      number records the value before rounding, the number of decimals
      asked for and whether a `%` sign follows. `Dash` is the "–" shown for
      a value that is not available. */
  datatype Shown = Dash | Fixed(value: real, decimals: nat, percent: bool)

  /** `num / den`, guarded by both being available and `den` being nonzero. */
  function Ratio(num: Option<real>, den: Option<real>): (r: Option<real>)
    ensures r.Some? <==> num.Some? && den.Some? && den.value != 0.0
    ensures r.Some? ==> r.value * den.value == num.value
  {
    if num.Some? && den.Some? && den.value != 0.0 then Some(num.value / den.value) else None
  }

  /** Conversion is defined exactly when units and impressions are available
      and impressions are nonzero, and is then the quotient of the two;
      likewise sessions per unit, with units as the denominator. */
  function ComputeDerived(impressions: Option<real>, units: Option<real>, sessions: Option<real>): (d: Ratios)
    ensures d.conv.Some? <==> impressions.Some? && units.Some? && impressions.value != 0.0
    ensures d.conv.Some? ==> d.conv.value * impressions.value == units.value
    ensures d.spu.Some? <==> units.Some? && sessions.Some? && units.value != 0.0
    ensures d.spu.Some? ==> d.spu.value * units.value == sessions.value
  {
    Ratios(Ratio(units, impressions), Ratio(sessions, units))
  }

  function Abs(x: real): real {
    if x < 0.0 then -x else x
  }

  /** The precision tier of `fmtNumber`: four decimals below 0.1 in
      magnitude, three below 1, two otherwise. */
  function Decimals(x: real): (d: nat)
    ensures 2 <= d <= 4
    ensures d == 4 <==> Abs(x) < 0.1
    ensures d == 2 <==> Abs(x) >= 1.0
  {
    var a := Abs(x);
    if a < 0.1 then 4 else if a < 1.0 then 3 else 2
  }

  /** A conversion rate is shown as a percentage with two decimals. */
  function FmtPercent(x: Option<real>): (s: Shown)
    ensures s == Dash <==> x.None?
    ensures x.Some? ==> s.Fixed? && s.value == 100.0 * x.value && s.decimals == 2 && s.percent
  {
    match x
    case None => Dash
    case Some(v) => Fixed(v * 100.0, 2, true)
  }

  /** Sessions per unit are shown plainly with the tiered precision. */
  function FmtNumber(x: Option<real>): (s: Shown)
    ensures s == Dash <==> x.None?
    ensures x.Some? ==> s.Fixed? && s.value == x.value && s.decimals == Decimals(x.value) && !s.percent
  {
    match x
    case None => Dash
    case Some(v) => Fixed(v, Decimals(v), false)
  }

  /** The number `rowSortValue` reads back from a derived cell's text: for
      the conversion key the text without `%`, divided by 100; for any
      other key the text itself, which is not a number when it carries a
      `%`. The dash is never a number. */
  function ReadBack(s: Shown, key: string): Option<real> {
    match s
    case Dash => None
    case Fixed(v, _, percent) =>
      if key == "conv" then Some(v / 100.0)
      else if percent then None
      else Some(v)
  }

  // ---------------------------------------------------------------------
  // Properties

  /** Reading a rendered conversion back gives the conversion itself
      (rounding by `toFixed` aside), the dash giving "not available". */
  lemma PercentReadsBack(x: Option<real>)
    ensures ReadBack(FmtPercent(x), "conv") == x
  {
  }

  /** Likewise for sessions per unit under its own key. */
  lemma NumberReadsBack(x: Option<real>)
    ensures ReadBack(FmtNumber(x), "spu") == x
  {
  }

  /** A percentage is never taken for sessions per unit. */
  lemma PercentNotANumber(x: Option<real>)
    ensures ReadBack(FmtPercent(x), "spu") == None
  {
  }

  /** Smaller magnitudes never get fewer decimals. */
  lemma DecimalsMonotone(x: real, y: real)
    requires Abs(x) <= Abs(y)
    ensures Decimals(y) <= Decimals(x)
  {
  }

  /** The tier depends on the magnitude only. */
  lemma DecimalsSymmetric(x: real)
    ensures Decimals(-x) == Decimals(x)
  {
  }

  /** 50 units from 1000 impressions is a five percent conversion; zero
      impressions leave it undefined. */
  lemma ExampleConversion()
    ensures ComputeDerived(Some(1000.0), Some(50.0), Some(75.0)) == Ratios(Some(0.05), Some(1.5))
    ensures FmtPercent(Some(0.05)) == Fixed(5.0, 2, true)
    ensures FmtNumber(Some(1.5)) == Fixed(1.5, 2, false)
    ensures ComputeDerived(Some(0.0), Some(50.0), None) == Ratios(None, None)
  {
  }
}

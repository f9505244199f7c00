/**
  The savings tag of `updateResultsUI` (script.js lines 249-262): the sign
  of `original - final` picks a green "AHORRO" tag with a minus sign or a
  red "PESO" tag with a plus sign. The percentage is kept as an exact
  rational; its one-decimal text is not modelled.
 */
module Savings {
  import opened Wrappers

  /** `(original - final) / original * 100`, or `None` when the division
      by a zero original yields a non-finite number (`NaN` or `-Infinity`). */
  function Percent(original: nat, final: nat): (p: Option<real>)
    ensures p.Some? <==> original > 0
    ensures p.Some? ==> p.value * original as real == (original - final) as real * 100.0
  {
    if original == 0 then None
    else Some((original - final) as real / original as real * 100.0)
  }

  /** The tag: which word it shows and the magnitude that follows its sign
      (`pct` for a saving, `Math.abs(pct)` for growth). */
  datatype Tag = Ahorro(saved: real) | Peso(grown: Option<real>)

  function SavingsTag(original: nat, final: nat): (t: Tag)
    ensures t.Ahorro? <==> final < original
    ensures t.Ahorro? ==> Percent(original, final) == Some(t.saved)
    ensures t.Ahorro? ==> 0.0 < t.saved <= 100.0
    ensures t.Peso? ==> (t.grown.Some? <==> original > 0)
    ensures t.Peso? && t.grown.Some? ==>
      t.grown.value * original as real == (final - original) as real * 100.0
  {
    var diff := original - final;
    match Percent(original, final)
    case None => Peso(None)
    case Some(pct) =>
      if diff > 0 then
        SavingBounded(diff as real, original as real, pct);
        Ahorro(pct)
      else Peso(Some(if pct < 0.0 then -pct else pct))
  }

  /** A saving of `d` out of `o`, with `0 < d <= o`, is a percentage in
      (0, 100]. */
  lemma SavingBounded(d: real, o: real, p: real)
    requires 0.0 < d <= o
    requires p * o == d * 100.0
    ensures 0.0 < p <= 100.0
  {
    assert (100.0 - p) * o == (o - d) * 100.0;
  }

  /** The sign shown before the magnitude. */
  function Sign(t: Tag): (s: string)
    ensures s == "-" <==> t.Ahorro?
    ensures t.Peso? ==> s == "+"
  {
    if t.Ahorro? then "-" else "+"
  }

  /** The word shown after the magnitude. */
  function Word(t: Tag): (w: string)
    ensures w == "AHORRO" <==> t.Ahorro?
    ensures w == "PESO" <==> t.Peso?
  {
    if t.Ahorro? then "AHORRO" else "PESO"
  }

  /** Equal sizes count as growth: a "+0% PESO" tag. */
  lemma NoChangeIsPeso(size: nat)
    requires size > 0
    ensures SavingsTag(size, size) == Peso(Some(0.0))
    ensures Sign(SavingsTag(size, size)) == "+" && Word(SavingsTag(size, size)) == "PESO"
  {
  }

  /** Examples: 1000 to 400 saves 60%, 400 to 1000 grows by 150%. */
  lemma SavingsExamples()
    ensures SavingsTag(1000, 400) == Ahorro(60.0)
    ensures SavingsTag(400, 1000) == Peso(Some(150.0))
  {
  }
}

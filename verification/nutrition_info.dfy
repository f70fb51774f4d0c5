/** The nutrition information panel: a percentage of an optional daily
    target, a three-band colour, and the row that combines them. */
module NutritionInfoPanel {
  import opened Wrappers
  import opened Rounding
  import Comparison = NutritionComparisonCard

  const Green: string := "#28a745"
  const Yellow: string := "#ffc107"
  const Red: string := "#dc3545"
  /** The colour of a row that shows no percentage. */
  const Neutral: string := "#333"

  const BandColors: seq<string> := [Green, Yellow, Red]

  /** A target is usable when present and non-zero (JavaScript truthiness). */
  predicate HasTarget(target: Option<int>) {
    target.Some? && target.value != 0
  }

  /** `calculatePercentage` with an optional target: 0 when the target is
      missing or zero, otherwise the rounded percentage. It always agrees
      with the comparison card's percentage. */
  function CalculatePercentage(value: int, target: Option<int>): (p: int)
    ensures !HasTarget(target) ==> p == 0
    ensures target.Some? ==> p == Comparison.Percentage(value, target.value)
    ensures HasTarget(target) && target.value > 0 ==>
              target.value * (2 * p - 1) <= 200 * value < target.value * (2 * p + 1)
  {
    match target
    case None => 0
    case Some(t) =>
      if t == 0 then 0
      else if t > 0 then RoundDiv(100 * value, t)
      else RoundDiv(-100 * value, -t)
  }

  /** Which of the three bands a percentage falls in: how many of the
      thresholds 25 and 50 it exceeds. */
  function BandIndex(p: int): (b: nat)
    ensures b < 3
  {
    (if p > 25 then 1 else 0) + (if p > 50 then 1 else 0)
  }

  /** `getNutrientColor`: at most 25 green, at most 50 yellow, above red. */
  function NutrientColor(p: int): (c: string)
    ensures c == BandColors[BandIndex(p)]
  {
    if p <= 25 then Green
    else if p <= 50 then Yellow
    else Red
  }

  /** The three-band colour agrees with the comparison card's four-band
      colour up to 50 percent and above 75; in between this panel shows red
      where the card shows orange. */
  lemma AgreesWithComparison(p: int)
    ensures p <= 50 ==> NutrientColor(p) == Comparison.NutrientColor(p)
    ensures p > 75 ==> NutrientColor(p) == Comparison.NutrientColor(p)
    ensures 50 < p <= 75 ==> NutrientColor(p) == Red && Comparison.NutrientColor(p) == Comparison.Orange
  {
  }

  /** What the two guarded children `showPercentage && target && <Text>`
      evaluate to: `false` or `undefined` draw nothing, a zero target makes
      the expression the number `0`, which ends up as a bare child of a
      `View`, and any other target draws the percentage and target texts. */
  datatype TargetTexts = NotDrawn | StrayZero | Drawn

  /** What one nutrient row shows. */
  datatype NutrientRow = NutrientRow(percentage: int, color: string, targetTexts: TargetTexts)

  /** `renderNutrientRow`: the percentage (0 without a usable target), the
      colour (neutral when percentages are hidden), and what the two guarded
      children evaluate to. */
  function RenderNutrientRow(value: int, target: Option<int>, showPercentage: bool): (row: NutrientRow)
    ensures !HasTarget(target) ==> row.percentage == 0
    ensures HasTarget(target) ==> row.percentage == Comparison.Percentage(value, target.value)
    ensures !showPercentage ==> row.color == Neutral
    ensures showPercentage ==> row.color == BandColors[BandIndex(row.percentage)]
    ensures showPercentage && !HasTarget(target) ==> row.color == Green
    ensures row.targetTexts == NotDrawn <==> !showPercentage || target.None?
    ensures row.targetTexts == StrayZero <==> showPercentage && target == Some(0)
    ensures row.targetTexts == Drawn <==> showPercentage && HasTarget(target)
  {
    var p := if HasTarget(target) then CalculatePercentage(value, target) else 0;
    var color := if showPercentage then NutrientColor(p) else Neutral;
    var texts :=
      if !showPercentage || target.None? then NotDrawn
      else if target.value == 0 then StrayZero
      else Drawn;
    NutrientRow(p, color, texts)
  }

  /** With a positive target and percentages shown, a row of this panel shows
      the same percentage as the comparison card's row for that nutrient,
      and the same colour whenever the percentage is at most 50 or above 75. */
  lemma RowAgreesWithComparisonRow(value: int, target: int)
    requires target > 0
    ensures var row, card := RenderNutrientRow(value, Some(target), true),
                             Comparison.RenderComparison(value, target);
            && row.percentage == card.percentage
            && row.targetTexts == Drawn
            && (row.percentage <= 50 || row.percentage > 75 ==> row.color == card.color)
  {
    var p := Comparison.Percentage(value, target);
    AgreesWithComparison(p);
  }
}

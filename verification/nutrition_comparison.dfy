/** The nutrient comparison card: a nutrient value as a rounded percentage of
    the daily target, the four colour/status bands it falls into, the
    progress-bar width and the calorie "balance" label. */
module NutritionComparisonCard {
  import opened Rounding

  const Green: string := "#28a745"
  const Yellow: string := "#ffc107"
  const Orange: string := "#fd7e14"
  const Red: string := "#dc3545"

  /** Band colours and labels, lowest band first. */
  const BandColors: seq<string> := [Green, Yellow, Orange, Red]
  const BandStatuses: seq<string> := ["Tốt", "Vừa phải", "Cao", "Rất cao"]

  /** `calculatePercentage`: 0 for a zero target, otherwise
      `Math.round(value / target * 100)` taken exactly. The contract says the
      result is within one half of `100 * value / target`. */
  function Percentage(value: int, target: int): (p: int)
    ensures target == 0 ==> p == 0
    ensures target > 0 ==> target * (2 * p - 1) <= 200 * value < target * (2 * p + 1)
    ensures target < 0 ==> -target * (2 * p - 1) <= -200 * value < -target * (2 * p + 1)
  {
    if target == 0 then 0
    else if target > 0 then RoundDiv(100 * value, target)
    else RoundDiv(-100 * value, -target)
  }

  /** A value between zero and its target is between 0 and 100 percent. */
  lemma PercentageWithinTarget(value: int, target: int)
    requires 0 <= value <= target
    ensures 0 <= Percentage(value, target) <= 100
  {
    if target > 0 {
      RoundDivMonotone(0, 100 * value, target);
      RoundDivMonotone(100 * value, 100 * target, target);
      RoundDivUnique(0, target, 0);
      RoundDivUnique(100 * target, target, 100);
    }
  }

  /** For a fixed positive target, more of a nutrient never shows a smaller
      percentage. */
  lemma PercentageMonotone(v1: int, v2: int, target: int)
    requires target > 0 && v1 <= v2
    ensures Percentage(v1, target) <= Percentage(v2, target)
  {
    RoundDivMonotone(100 * v1, 100 * v2, target);
  }

  /** Which of the four bands a percentage falls in: the number of the
      thresholds 25, 50 and 75 it exceeds. */
  function BandIndex(p: int): (b: nat)
    ensures b < 4
  {
    (if p > 25 then 1 else 0) + (if p > 50 then 1 else 0) + (if p > 75 then 1 else 0)
  }

  /** A larger percentage never falls in an earlier band. */
  lemma BandMonotone(p: int, q: int)
    requires p <= q
    ensures BandIndex(p) <= BandIndex(q)
  {
  }

  /** `getNutrientColor`: at most 25 green, at most 50 yellow, at most 75
      orange, above that red. */
  function NutrientColor(p: int): (c: string)
    ensures c == BandColors[BandIndex(p)]
  {
    if p <= 25 then Green
    else if p <= 50 then Yellow
    else if p <= 75 then Orange
    else Red
  }

  /** `getNutrientStatus`: the label of the same four bands. */
  function NutrientStatus(p: int): (s: string)
    ensures s == BandStatuses[BandIndex(p)]
  {
    if p <= 25 then "Tốt"
    else if p <= 50 then "Vừa phải"
    else if p <= 75 then "Cao"
    else "Rất cao"
  }

  /** Colour and status always name the same band: two percentages share a
      colour exactly when they share a status. */
  lemma StatusMatchesColor(p: int, q: int)
    ensures NutrientColor(p) == NutrientColor(q) <==> NutrientStatus(p) == NutrientStatus(q)
    ensures NutrientColor(p) == NutrientColor(q) <==> BandIndex(p) == BandIndex(q)
  {
  }

  /** The band edges: each threshold belongs to the lower band. */
  lemma BandEdges()
    ensures NutrientColor(25) == Green && NutrientColor(26) == Yellow
    ensures NutrientColor(50) == Yellow && NutrientColor(51) == Orange
    ensures NutrientColor(75) == Orange && NutrientColor(76) == Red
  {
  }

  /** The progress-bar fill: `Math.min(percentage, 100)` percent. */
  function ProgressWidth(p: int): (w: int)
    ensures w <= 100 && w <= p
    ensures w == p || w == 100
  {
    if p <= 100 then p else 100
  }

  /** The calorie "balance" label: good while the meal is at most 30 percent
      of the daily calories. */
  function BalanceLabel(calories: int, target: int): (shown: string)
    ensures shown == "Tốt" || shown == "Cần chú ý"
    ensures shown == "Tốt" <==> Percentage(calories, target) <= 30
  {
    if Percentage(calories, target) <= 30 then "Tốt" else "Cần chú ý"
  }

  /** In terms of the inputs: with a positive target, the label is good
      exactly when calories are below 30.5 percent of the target; with no
      target it is always good. */
  lemma BalanceThreshold(calories: int, target: int)
    requires target >= 0
    ensures target > 0 ==> (BalanceLabel(calories, target) == "Tốt" <==> 200 * calories < 61 * target)
    ensures target == 0 ==> BalanceLabel(calories, target) == "Tốt"
  {
    if target > 0 {
      var p := Percentage(calories, target);
      if p <= 30 {
        MulMonotone(target, 2 * p + 1, 61);
      } else {
        MulMonotone(target, 61, 2 * p - 1);
      }
    }
  }

  /** What one row of the card shows. */
  datatype ComparisonRow = ComparisonRow(percentage: int, color: string, status: string, width: int)

  /** `renderNutrientComparison`: the percentage, its colour and status, and
      the bar width. */
  function RenderComparison(value: int, target: int): (row: ComparisonRow)
    ensures row.percentage == Percentage(value, target)
    ensures row.color == BandColors[BandIndex(row.percentage)]
    ensures row.status == BandStatuses[BandIndex(row.percentage)]
    ensures 0 <= value <= target ==> 0 <= row.width <= 100 && row.width == row.percentage
    ensures row.width <= 100
  {
    var p := Percentage(value, target);
    assert 0 <= value <= target ==> 0 <= p <= 100 by {
      if 0 <= value <= target {
        PercentageWithinTarget(value, target);
      }
    }
    ComparisonRow(p, NutrientColor(p), NutrientStatus(p), ProgressWidth(p))
  }
}

/** The recommendation card: the colour of the recommendation text and the
    colour and wording of the health score. */
module FoodRecommendationCard {
  import opened Text

  const Green: string := "#28a745"
  const Yellow: string := "#ffc107"
  const Red: string := "#dc3545"
  /** The colour of a recommendation with none of the known markers. */
  const Grey: string := "#6c757d"

  const EatMarker: string := "NÊN ĂN"
  const ModerateMarker: string := "ĂN VỪA PHẢI"
  const LimitMarker: string := "HẠN CHẾ"

  /** `getRecommendationColor`: the markers are tried in order and the first
      one found decides. */
  function RecommendationColor(rec: string): (c: string)
    ensures Contains(rec, EatMarker) ==> c == Green
    ensures !Contains(rec, EatMarker) && Contains(rec, ModerateMarker) ==> c == Yellow
    ensures (!Contains(rec, EatMarker) && !Contains(rec, ModerateMarker) && Contains(rec, LimitMarker))
              ==> c == Red
    ensures c == Grey <==>
              !Contains(rec, EatMarker) && !Contains(rec, ModerateMarker) && !Contains(rec, LimitMarker)
  {
    if Contains(rec, EatMarker) then Green
    else if Contains(rec, ModerateMarker) then Yellow
    else if Contains(rec, LimitMarker) then Red
    else Grey
  }

  /** A recommendation carrying several markers takes the colour of the
      earliest rule, not of the marker that comes first in the text. */
  lemma FirstRuleWins()
    ensures RecommendationColor("HẠN CHẾ, NÊN ĂN ÍT") == Green
  {
    var s := "HẠN CHẾ, NÊN ĂN ÍT";
    assert OccursAt(s, EatMarker, 9);
    ContainsAt(s, EatMarker);
  }

  /** The health-score tier: how many of the thresholds 60 and 80 the score
      reaches (0 is the lowest tier). */
  function ScoreTier(score: int): (t: nat)
    ensures t < 3
  {
    (if score >= 60 then 1 else 0) + (if score >= 80 then 1 else 0)
  }

  const ScoreColors: seq<string> := [Red, Yellow, Green]
  const ScoreTexts: seq<string> := ["Cần cải thiện", "Tốt", "Tuyệt vời"]

  /** `getHealthScoreColor`: at least 80 green, at least 60 yellow, else red. */
  function HealthScoreColor(score: int): (c: string)
    ensures c == ScoreColors[ScoreTier(score)]
  {
    if score >= 80 then Green
    else if score >= 60 then Yellow
    else Red
  }

  /** `getHealthScoreText`: the wording of the same three tiers. */
  function HealthScoreText(score: int): (s: string)
    ensures s == ScoreTexts[ScoreTier(score)]
  {
    if score >= 80 then "Tuyệt vời"
    else if score >= 60 then "Tốt"
    else "Cần cải thiện"
  }

  /** Text and colour always describe the same tier. */
  lemma TextMatchesColor(a: int, b: int)
    ensures HealthScoreColor(a) == HealthScoreColor(b) <==> HealthScoreText(a) == HealthScoreText(b)
  {
  }

  /** The tier edges: 80 is in the top tier, 60 in the middle one and 59 in
      the bottom one. */
  lemma ScoreEdges()
    ensures HealthScoreColor(80) == Green && HealthScoreText(80) == "Tuyệt vời"
    ensures HealthScoreColor(79) == Yellow && HealthScoreColor(60) == Yellow && HealthScoreText(60) == "Tốt"
    ensures HealthScoreColor(59) == Red && HealthScoreText(59) == "Cần cải thiện"
  {
  }
}

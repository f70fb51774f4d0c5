/** The history list card: health-score and recommendation colours and the
    displayed recognition confidence. */
module HistoryItemCard {
  import opened Text
  import opened Rounding
  import Card = FoodRecommendationCard

  const Green: string := "#2E7D32"
  const Orange: string := "#FF9800"
  const Red: string := "#F44336"

  const ScoreColors: seq<string> := [Red, Orange, Green]

  /** `getHealthScoreColor`: at least 80 green, at least 60 orange, else red.
      Its tiers are the recommendation card's tiers. */
  function HealthScoreColor(score: int): (c: string)
    ensures c == ScoreColors[Card.ScoreTier(score)]
  {
    if score >= 80 then Green
    else if score >= 60 then Orange
    else Red
  }

  /** Both cards put every score in the same tier. */
  lemma SameTiersAsRecommendationCard(a: int, b: int)
    ensures HealthScoreColor(a) == HealthScoreColor(b) <==>
            Card.HealthScoreColor(a) == Card.HealthScoreColor(b)
  {
  }

  const EatMarker: string := "NÊN"
  const ModerateMarker: string := "VỪA PHẢI"

  /** `getRecommendationColor`: any text containing "NÊN" is green, then any
      containing "VỪA PHẢI" is orange, and everything else is red; there is
      no neutral colour. */
  function RecommendationColor(rec: string): (c: string)
    ensures Contains(rec, EatMarker) ==> c == Green
    ensures !Contains(rec, EatMarker) && Contains(rec, ModerateMarker) ==> c == Orange
    ensures !Contains(rec, EatMarker) && !Contains(rec, ModerateMarker) ==> c == Red
  {
    if Contains(rec, EatMarker) then Green
    else if Contains(rec, ModerateMarker) then Orange
    else Red
  }

  /** How the two cards colour the same recommendation: what the
      recommendation card shows green this card shows green, what it shows
      yellow this card shows green or orange, and what it shows red this card
      shows red unless the text also contains "NÊN" or "VỪA PHẢI". */
  lemma AgreesWithRecommendationCard(rec: string)
    ensures Card.RecommendationColor(rec) == Card.Green ==> RecommendationColor(rec) == Green
    ensures Card.RecommendationColor(rec) == Card.Yellow ==> RecommendationColor(rec) != Red
    ensures Card.RecommendationColor(rec) == Card.Red ==>
              (RecommendationColor(rec) == Red <==>
                 !Contains(rec, EatMarker) && !Contains(rec, ModerateMarker))
  {
    if Contains(rec, Card.EatMarker) {
      EatMarkerInside();
      ContainsTrans(rec, Card.EatMarker, EatMarker);
    } else if Contains(rec, Card.ModerateMarker) {
      ModerateMarkerInside();
      ContainsTrans(rec, Card.ModerateMarker, ModerateMarker);
    }
  }

  lemma EatMarkerInside()
    ensures Contains(Card.EatMarker, EatMarker)
  {
    assert OccursAt(Card.EatMarker, EatMarker, 0);
    ContainsAt(Card.EatMarker, EatMarker);
  }

  lemma ModerateMarkerInside()
    ensures Contains(Card.ModerateMarker, ModerateMarker)
  {
    assert OccursAt(Card.ModerateMarker, ModerateMarker, 3);
    ContainsAt(Card.ModerateMarker, ModerateMarker);
  }

  /** The bare "NÊN" test also matches negated advice: "KHÔNG NÊN ĂN"
      ("should not eat") is shown green, by this card and by the
      recommendation card alike. */
  lemma NegatedAdviceIsGreen()
    ensures RecommendationColor("KHÔNG NÊN ĂN") == Green
    ensures Card.RecommendationColor("KHÔNG NÊN ĂN") == Card.Green
  {
    var s := "KHÔNG NÊN ĂN";
    assert OccursAt(s, EatMarker, 6);
    ContainsAt(s, EatMarker);
    assert OccursAt(s, Card.EatMarker, 6);
    ContainsAt(s, Card.EatMarker);
  }

  /** `formatConfidence`: `Math.round(confidence * 100)`. */
  function FormatConfidence(confidence: real): (pct: int)
    ensures pct as real - 0.5 <= confidence * 100.0 < pct as real + 0.5
  {
    RoundReal(confidence * 100.0)
  }

  /** A confidence in `[0, 1]` is shown as a whole percentage in `0..100`. */
  lemma ConfidenceInRange(confidence: real)
    requires 0.0 <= confidence <= 1.0
    ensures 0 <= FormatConfidence(confidence) <= 100
  {
  }
}

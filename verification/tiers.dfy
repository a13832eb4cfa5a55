/** Score and confidence tiers: `getScoreColor`, `getScoreLabel` and
    `getConfidenceColor`. A tier is the number of thresholds a value reaches;
    colour and label are both read off that number. */
module Tiers {

  const ScoreThresholds: seq<real> := [3.0, 5.0, 7.0, 9.0]
  const ScoreColors: seq<string> := ["#dc2626", "#ea580c", "#f59e0b", "#84cc16", "#22c55e"]
  const ScoreLabels: seq<string> := ["Poor", "Needs Work", "Fair", "Good", "Excellent"]

  const ConfidenceThresholds: seq<real> := [60.0, 80.0]
  const ConfidenceColors: seq<string> := ["#dc2626", "#f59e0b", "#22c55e"]

  /** How many of the thresholds `x` reaches. */
  function ThresholdsMet(ths: seq<real>, x: real): (n: nat)
    ensures n <= |ths|
  {
    if ths == [] then 0
    else (if x >= ths[0] then 1 else 0) + ThresholdsMet(ths[1..], x)
  }

  /** Reaching thresholds is monotone in the value. */
  lemma {:induction false} ThresholdsMetMonotone(ths: seq<real>, a: real, b: real)
    requires a <= b
    ensures ThresholdsMet(ths, a) <= ThresholdsMet(ths, b)
  {
    if ths != [] {
      ThresholdsMetMonotone(ths[1..], a, b);
    }
  }

  function ScoreTier(score: real): (n: nat)
    ensures n < |ScoreLabels|
  {
    ThresholdsMet(ScoreThresholds, score)
  }

  /** The score tier spelled out threshold by threshold. */
  lemma ScoreTierByThresholds(score: real)
    ensures ScoreTier(score) ==
              if score >= 9.0 then 4 else if score >= 7.0 then 3
              else if score >= 5.0 then 2 else if score >= 3.0 then 1 else 0
  {
    var t4 := ScoreThresholds;
    var t3, t2, t1 := t4[1..], t4[2..], t4[3..];
    assert t3 == [5.0, 7.0, 9.0] && t2 == t3[1..] && t1 == t2[1..] && t1[1..] == [];
    assert ThresholdsMet(t1, score) == if score >= 9.0 then 1 else 0;
    assert ThresholdsMet(t2, score) == (if score >= 7.0 then 1 else 0) + ThresholdsMet(t1, score);
    assert ThresholdsMet(t3, score) == (if score >= 5.0 then 1 else 0) + ThresholdsMet(t2, score);
  }

  /** `getScoreColor`. */
  function ScoreColor(score: real): (c: string)
    ensures c == ScoreColors[ScoreTier(score)]
  {
    ScoreTierByThresholds(score);
    if score >= 9.0 then "#22c55e"
    else if score >= 7.0 then "#84cc16"
    else if score >= 5.0 then "#f59e0b"
    else if score >= 3.0 then "#ea580c"
    else "#dc2626"
  }

  /** `getScoreLabel`. */
  function ScoreLabel(score: real): (l: string)
    ensures l == ScoreLabels[ScoreTier(score)]
  {
    ScoreTierByThresholds(score);
    if score >= 9.0 then "Excellent"
    else if score >= 7.0 then "Good"
    else if score >= 5.0 then "Fair"
    else if score >= 3.0 then "Needs Work"
    else "Poor"
  }

  /** Two scores share a colour exactly when they share a label. */
  lemma ColorAndLabelAgree(a: real, b: real)
    ensures ScoreColor(a) == ScoreColor(b) <==> ScoreLabel(a) == ScoreLabel(b)
  {
    var i, j := ScoreTier(a), ScoreTier(b);
    assert ScoreColors[i] == ScoreColors[j] <==> i == j;
    assert ScoreLabels[i] == ScoreLabels[j] <==> i == j;
  }

  /** A higher score never lands in a lower tier. */
  lemma ScoreTierMonotone(a: real, b: real)
    requires a <= b
    ensures ScoreTier(a) <= ScoreTier(b)
  {
    ThresholdsMetMonotone(ScoreThresholds, a, b);
  }

  /** `getConfidenceColor`. */
  function ConfidenceColor(confidence: real): (c: string)
    ensures c == ConfidenceColors[ThresholdsMet(ConfidenceThresholds, confidence)]
  {
    assert ConfidenceThresholds[1..] == [80.0] && ConfidenceThresholds[1..][1..] == [];
    if confidence >= 80.0 then "#22c55e"
    else if confidence >= 60.0 then "#f59e0b"
    else "#dc2626"
  }

  /** The confidence colour only ever moves towards green as confidence rises. */
  lemma ConfidenceTierMonotone(a: real, b: real)
    requires a <= b
    ensures ThresholdsMet(ConfidenceThresholds, a) <= ThresholdsMet(ConfidenceThresholds, b)
  {
    ThresholdsMetMonotone(ConfidenceThresholds, a, b);
  }
}

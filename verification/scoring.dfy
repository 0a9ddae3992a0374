/**
  Turning a final count of correct answers into a percentage and one of three
  performance tiers, as `PerformanceEvaluator.evaluate_performance` does.
  The percentage is an exact rational here; the application computes it in
  floating point.
 */
module Scoring {

  datatype PerformanceLevel = Excellent | Good | NeedsImprovement

  datatype Evaluation = Evaluation(percentage: real, level: PerformanceLevel, message: string)

  /** Lowest percentage rated excellent. */
  const ExcellentThreshold: int := 70
  /** Lowest percentage rated good. */
  const GoodThreshold: int := 50

  const NoAnswersMessage: string := "Nenhuma questão respondida"
  const ExcellentMessage: string := "🎉 Parabéns! Excelente desempenho!"
  const GoodMessage: string := "👍 Bom trabalho! Continue estudando!"
  const NeedsImprovementMessage: string := "📚 Continue estudando para melhorar!"

  /** The message shown with a tier once at least one question was asked. */
  function TierMessage(level: PerformanceLevel): string {
    match level
    case Excellent => ExcellentMessage
    case Good => GoodMessage
    case NeedsImprovement => NeedsImprovementMessage
  }

  /** Position of a tier, from lowest (0) to highest (2). */
  function Rank(level: PerformanceLevel): nat {
    match level
    case NeedsImprovement => 0
    case Good => 1
    case Excellent => 2
  }

  /** The tier of a percentage, tested from the highest threshold down. */
  function Tier(percentage: real): PerformanceLevel {
    if percentage >= ExcellentThreshold as real then Excellent
    else if percentage >= GoodThreshold as real then Good
    else NeedsImprovement
  }

  /**
    `evaluate_performance(correct, total)`. With no questions the score is 0
    with its own message; otherwise the percentage is the exact ratio and the
    tier follows from integer cross-multiplication.
   */
  function EvaluatePerformance(correct: nat, total: nat): (e: Evaluation)
    ensures total == 0 ==> e == Evaluation(0.0, NeedsImprovement, NoAnswersMessage)
    ensures total > 0 ==> e.percentage * total as real == 100.0 * correct as real
    ensures total > 0 ==> e.message == TierMessage(e.level)
    ensures total > 0 ==> (e.level == Excellent <==> 100 * correct >= 70 * total)
    ensures total > 0 ==> (e.level == Good <==> 50 * total <= 100 * correct < 70 * total)
    ensures total > 0 ==> (e.level == NeedsImprovement <==> 100 * correct < 50 * total)
  {
    if total == 0 then Evaluation(0.0, NeedsImprovement, NoAnswersMessage)
    else
      var percentage := (correct as real / total as real) * 100.0;
      PercentageAtLeast(correct, total, ExcellentThreshold);
      PercentageAtLeast(correct, total, GoodThreshold);
      var level := Tier(percentage);
      Evaluation(percentage, level, TierMessage(level))
  }

  /** The percentage of `correct` over `total` reaches `threshold` exactly when the cross product does. */
  lemma PercentageAtLeast(correct: nat, total: nat, threshold: int)
    requires total > 0
    ensures (correct as real / total as real) * 100.0 >= threshold as real
            <==> 100 * correct >= threshold * total
  {
  }

  /** More correct answers out of the same total never lower the tier. */
  lemma TierMonotone(c1: nat, c2: nat, total: nat)
    requires c1 <= c2
    ensures Rank(EvaluatePerformance(c1, total).level) <= Rank(EvaluatePerformance(c2, total).level)
  {
  }

  /** The boundary cases of the tiers for a quiz of ten questions. */
  lemma TenQuestionBoundaries()
    ensures EvaluatePerformance(7, 10) == Evaluation(70.0, Excellent, ExcellentMessage)
    ensures EvaluatePerformance(5, 10) == Evaluation(50.0, Good, GoodMessage)
    ensures EvaluatePerformance(4, 10) == Evaluation(40.0, NeedsImprovement, NeedsImprovementMessage)
  {
  }
}

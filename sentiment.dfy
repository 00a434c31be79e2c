/**
 * Sentiment levels of comments (src/utils/sentiment.ts): a five-band
 * partition of the score plus `unknown` for comments with no score, and the
 * display table keyed by level.  Scores are reals; NaN is not modelled.
 */
module Sentiment {
  import opened Common

  datatype Level = StrongPositive | WeakPositive | Neutral | WeakNegative | StrongNegative | Unknown

  /** The level's key in the source's string union. */
  function Key(l: Level): string {
    match l
    case StrongPositive => "strong_positive"
    case WeakPositive => "weak_positive"
    case Neutral => "neutral"
    case WeakNegative => "weak_negative"
    case StrongNegative => "strong_negative"
    case Unknown => "unknown"
  }

  /** `getSentimentLevel`: thresholds compared from the top, each bound belonging to the upper band. */
  function GetSentimentLevel(score: Option<real>): (l: Level)
    ensures score.None? <==> l == Unknown
  {
    if score.None? then Unknown
    else if score.value >= 0.7 then StrongPositive
    else if score.value >= 0.3 then WeakPositive
    else if score.value >= -0.3 then Neutral
    else if score.value >= -0.7 then WeakNegative
    else StrongNegative
  }

  /** The half-open interval of scores each non-unknown level stands for. */
  predicate InBand(x: real, l: Level) {
    match l
    case StrongPositive => 0.7 <= x
    case WeakPositive => 0.3 <= x < 0.7
    case Neutral => -0.3 <= x < 0.3
    case WeakNegative => -0.7 <= x < -0.3
    case StrongNegative => x < -0.7
    case Unknown => false
  }

  /** Every score falls in exactly one band, and that band is the level it gets. */
  lemma {:induction false} LevelIsBand(x: real, l: Level)
    ensures GetSentimentLevel(Some(x)) == l <==> InBand(x, l)
  {
  }

  lemma {:induction false} BandsPartition(x: real)
    ensures exists l :: InBand(x, l)
    ensures forall l1, l2 :: InBand(x, l1) && InBand(x, l2) ==> l1 == l2
  {
    LevelIsBand(x, GetSentimentLevel(Some(x)));
  }

  /** Position on the scale from most negative (0) to most positive (4). */
  function Rank(l: Level): nat {
    match l
    case StrongNegative => 0
    case WeakNegative => 1
    case Neutral => 2
    case WeakPositive => 3
    case StrongPositive => 4
    case Unknown => 2
  }

  /** A larger score never gets a more negative level. */
  lemma {:induction false} Monotone(x: real, y: real)
    requires x <= y
    ensures Rank(GetSentimentLevel(Some(x))) <= Rank(GetSentimentLevel(Some(y)))
  {
  }

  /** One row of `SENTIMENT_CONFIG`; the source field `label` is `caption` here (`label` is reserved). */
  datatype Config = Config(caption: string, icon: string, color: string, bg: string, border: string)

  const SentimentConfig: map<Level, Config> := map[
    StrongPositive := Config("強ポジ", "💚💚", "text-green-800", "bg-green-100", "border-green-300"),
    WeakPositive := Config("弱ポジ", "💚", "text-green-700", "bg-green-50", "border-green-200"),
    Neutral := Config("中立", "⚪", "text-gray-700", "bg-gray-100", "border-gray-200"),
    WeakNegative := Config("弱ネガ", "💔", "text-red-700", "bg-red-50", "border-red-200"),
    StrongNegative := Config("強ネガ", "💔💔", "text-red-800", "bg-red-100", "border-red-300"),
    Unknown := Config("未分析", "grey_question", "text-gray-400", "bg-gray-50", "border-gray-200")
  ]

  /** The table has a row for every level, so a lookup by any computed level succeeds. */
  lemma {:induction false} ConfigComplete(score: Option<real>)
    ensures forall l: Level :: l in SentimentConfig
    ensures GetSentimentLevel(score) in SentimentConfig
  {
    forall l: Level ensures l in SentimentConfig {
      match l
      case StrongPositive =>
      case WeakPositive =>
      case Neutral =>
      case WeakNegative =>
      case StrongNegative =>
      case Unknown =>
    }
  }
}

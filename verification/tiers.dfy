/** Difficulty tiers of the puzzle build (tools/build-puzzles.mjs): the
    fixed guardrail bounds, the tier centres, the 30/50/20 quota split and
    the guardrail tagging of `annotateCandidates`. */
module Tiers {
  import opened Results

  datatype Difficulty = Simple | Medium | Hard
  {
    /** The tier's key in the source's records. */
    function Name(): (r: string)
      ensures |r| > 0
    {
      match this
      case Simple => "simple"
      case Medium => "medium"
      case Hard => "hard"
    }
  }

  /** `DIFFICULTY_ORDER`. */
  const DifficultyOrder: seq<Difficulty> := [Simple, Medium, Hard]

  /** The position of a tier in `DIFFICULTY_ORDER`. */
  function Rank(d: Difficulty): (r: nat)
    ensures r < |DifficultyOrder| && DifficultyOrder[r] == d
  {
    match d
    case Simple => 0
    case Medium => 1
    case Hard => 2
  }

  /** A `{ simple, medium, hard }` record. */
  datatype PerTier<T> = PerTier(simple: T, medium: T, hard: T)
  {
    function Get(d: Difficulty): T
    {
      match d
      case Simple => simple
      case Medium => medium
      case Hard => hard
    }

    function Set(d: Difficulty, v: T): (r: PerTier<T>)
      ensures r.Get(d) == v
      ensures forall e :: e != d ==> r.Get(e) == Get(e)
    {
      match d
      case Simple => this.(simple := v)
      case Medium => this.(medium := v)
      case Hard => this.(hard := v)
    }
  }

  /** One entry of `DIFFICULTY_GUARDRAILS`; a zipf bound the table leaves
      out is `None`. */
  datatype Guardrail = Guardrail(
    minWordCount: int,
    maxWordCount: int,
    minMaxScore: int,
    maxMaxScore: int,
    minAverageZipf: Option<real>,
    maxAverageZipf: Option<real>)

  function GuardrailOf(d: Difficulty): Guardrail
  {
    match d
    case Simple => Guardrail(35, 85, 170, 250, Some(4.2), None)
    case Medium => Guardrail(24, 65, 120, 210, Some(3.8), Some(4.4))
    case Hard => Guardrail(16, 45, 90, 170, None, Some(4.0))
  }

  /** `DIFFICULTY_CENTERS`. */
  function Center(d: Difficulty): real
  {
    match d
    case Simple => 0.2
    case Medium => 0.55
    case Hard => 0.85
  }

  /** The metrics of a candidate. `wordCount` and `maxScore` come from the
      candidate; `averageZipf` and `difficultyScore` are computed in
      floating point and are inputs here. */
  datatype Metrics = Metrics(wordCount: int, maxScore: int, averageZipf: real, difficultyScore: real)

  /** `passesGuardrail`: inclusive word-count and max-score bounds, and each
      zipf bound the guardrail has. A guardrail with an empty range admits
      nothing. */
  predicate PassesGuardrail(m: Metrics, g: Guardrail)
    ensures g.maxWordCount < g.minWordCount ==> !PassesGuardrail(m, g)
    ensures g.maxMaxScore < g.minMaxScore ==> !PassesGuardrail(m, g)
    ensures g.minAverageZipf.Some? && g.maxAverageZipf.Some? && g.maxAverageZipf.value < g.minAverageZipf.value
            ==> !PassesGuardrail(m, g)
  {
    && g.minWordCount <= m.wordCount <= g.maxWordCount
    && g.minMaxScore <= m.maxScore <= g.maxMaxScore
    && (g.minAverageZipf.Some? ==> m.averageZipf >= g.minAverageZipf.value)
    && (g.maxAverageZipf.Some? ==> m.averageZipf <= g.maxAverageZipf.value)
  }

  /** The guardrail of each tier, written out as bounds. */
  lemma GuardrailBounds(m: Metrics)
    ensures PassesGuardrail(m, GuardrailOf(Simple)) <==>
      35 <= m.wordCount <= 85 && 170 <= m.maxScore <= 250 && m.averageZipf >= 4.2
    ensures PassesGuardrail(m, GuardrailOf(Medium)) <==>
      24 <= m.wordCount <= 65 && 120 <= m.maxScore <= 210 && 3.8 <= m.averageZipf <= 4.4
    ensures PassesGuardrail(m, GuardrailOf(Hard)) <==>
      16 <= m.wordCount <= 45 && 90 <= m.maxScore <= 170 && m.averageZipf <= 4.0
  {
  }

  /** `guardrailMatches`: the tiers whose guardrail the metrics pass, in
      `DIFFICULTY_ORDER`. */
  function GuardrailMatches(m: Metrics): (r: seq<Difficulty>)
    ensures forall d :: d in r <==> PassesGuardrail(m, GuardrailOf(d))
    ensures forall i, j :: 0 <= i < j < |r| ==> Rank(r[i]) < Rank(r[j])
  {
    (if PassesGuardrail(m, GuardrailOf(Simple)) then [Simple] else [])
    + (if PassesGuardrail(m, GuardrailOf(Medium)) then [Medium] else [])
    + (if PassesGuardrail(m, GuardrailOf(Hard)) then [Hard] else [])
  }

  /** `computeDifficultyTargets`. `Math.round(0.3 * n)` is taken as
      `(3n + 5) / 10` and `Math.round(0.5 * n)` as `(n + 1) / 2`, both
      rounding halves up on the exact product. */
  function ComputeDifficultyTargets(total: int): (r: PerTier<int>)
    ensures r.simple + r.medium + r.hard == total
  {
    var simple := (3 * total + 5) / 10;
    var medium := (total + 1) / 2;
    PerTier(simple, medium, total - simple - medium)
  }

  /** The targets round 30% and 50% of the total to the nearest integer
      (halves up), and none is negative for a non-negative total. */
  lemma TargetsRounding(total: int)
    ensures var r := ComputeDifficultyTargets(total);
      && 10 * r.simple - 5 <= 3 * total < 10 * r.simple + 5
      && 2 * r.medium - 1 <= total < 2 * r.medium + 1
    ensures total >= 0 ==> var r := ComputeDifficultyTargets(total);
      r.simple >= 0 && r.medium >= 0 && r.hard >= 0
  {
  }

  lemma TargetsExample()
    ensures ComputeDifficultyTargets(730) == PerTier(219, 365, 146)
    ensures ComputeDifficultyTargets(20) == PerTier(6, 10, 4)
  {
  }
}

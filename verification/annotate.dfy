/** The guardrail step of `annotateCandidates` (tools/build-puzzles.mjs):
    each candidate gets its metrics and the tiers whose guardrails it
    passes, and candidates that pass none are dropped. */
module Annotation {
  import opened Seqs
  import opened Tiers
  import opened Candidates

  /** The floating-point metrics of a candidate: the average zipf
      frequency of its words and the blended difficulty score. Both depend
      on frequency data and on the whole candidate list, and are inputs. */
  datatype Measures = Measures(averageZipf: real, difficultyScore: real)

  /** A candidate with its metrics and `guardrailMatches`. */
  datatype Annotated = Annotated(candidate: Candidate, metrics: Metrics, guardrailMatches: seq<Difficulty>)
  {
    function Key(): string
    {
      candidate.coreKey
    }

    function Score(): real
    {
      metrics.difficultyScore
    }
  }

  /** The metrics record: word count and maximum score from the candidate,
      the rest from the measures. */
  function MetricsOf(c: Candidate, measure: Candidate -> Measures): Metrics
  {
    Metrics(|c.validWords|, c.maxScore, measure(c).averageZipf, measure(c).difficultyScore)
  }

  /** The candidate passes the guardrail of at least one tier. */
  predicate HasMatch(c: Candidate, measure: Candidate -> Measures)
  {
    |GuardrailMatches(MetricsOf(c, measure))| > 0
  }

  /** An annotated candidate as `annotateCandidates` emits it. */
  ghost predicate Tagged(a: Annotated)
  {
    a.guardrailMatches == GuardrailMatches(a.metrics) && |a.guardrailMatches| > 0
  }

  function Annotate(cs: seq<Candidate>, measure: Candidate -> Measures): (r: seq<Annotated>)
    ensures |r| <= |cs|
    ensures forall a :: a in r ==> Tagged(a) && a.candidate in cs && a.metrics == MetricsOf(a.candidate, measure)
  {
    if |cs| == 0 then []
    else
      var c := cs[0];
      var m := MetricsOf(c, measure);
      var matches := GuardrailMatches(m);
      (if |matches| > 0 then [Annotated(c, m, matches)] else []) + Annotate(cs[1..], measure)
  }

  /** The surviving candidates are exactly those with a match, in input order. */
  lemma {:induction false} AnnotateKeeps(cs: seq<Candidate>, measure: Candidate -> Measures)
    ensures Map(Annotate(cs, measure), (a: Annotated) => a.candidate) == Filter(cs, c => HasMatch(c, measure))
  {
    if |cs| > 0 {
      AnnotateKeeps(cs[1..], measure);
      var head := if HasMatch(cs[0], measure)
        then [Annotated(cs[0], MetricsOf(cs[0], measure), GuardrailMatches(MetricsOf(cs[0], measure)))]
        else [];
      MapConcat(head, Annotate(cs[1..], measure), (a: Annotated) => a.candidate);
    }
  }
}

/** `assignDifficulties` and `chooseNearestDifficulty`
    (tools/build-puzzles.mjs): the annotated candidates are sorted by
    difficulty score and labelled by quantile, within their guardrails. */
module Assign {
  import opened Results
  import opened Seqs
  import opened Orders
  import opened Tiers
  import opened Annotation
  import opened Candidates

  /** A candidate with the tier it is scheduled as. */
  datatype Labelled = Labelled(entry: Annotated, difficulty: Difficulty)
  {
    function Key(): string
    {
      entry.Key()
    }

    function Matches(): seq<Difficulty>
    {
      entry.guardrailMatches
    }
  }

  function EntryOf(l: Labelled): Annotated
  {
    l.entry
  }

  /** The annotated candidates under a list of labelled ones. */
  function Entries(ls: seq<Labelled>): (r: seq<Annotated>)
    ensures |r| == |ls|
    ensures forall i :: 0 <= i < |ls| ==> r[i] == ls[i].entry
  {
    Map(ls, EntryOf)
  }

  /** `Math.abs(score - DIFFICULTY_CENTERS[d])`. */
  function Distance(score: real, d: Difficulty): (r: real)
    ensures r >= 0.0
  {
    var x := score - Center(d);
    if x >= 0.0 then x else -x
  }

  /** The scan of `chooseNearestDifficulty` over a non-empty list: a later
      tier replaces the best so far only when strictly nearer. */
  function NearestScan(score: real, allowed: seq<Difficulty>): (r: Difficulty)
    requires |allowed| > 0
    ensures r in allowed
    ensures forall d :: d in allowed ==> Distance(score, r) <= Distance(score, d)
  {
    if |allowed| == 1 then allowed[0]
    else
      var best := NearestScan(score, allowed[..|allowed| - 1]);
      var d := allowed[|allowed| - 1];
      assert allowed == allowed[..|allowed| - 1] + [d];
      if Distance(score, d) < Distance(score, best) then d else best
  }

  /** The scan keeps the first of the nearest tiers: every tier listed
      before the chosen one is strictly farther. */
  lemma {:induction false} NearestScanFirst(score: real, allowed: seq<Difficulty>)
    requires |allowed| > 0
    ensures exists k ::
      && 0 <= k < |allowed|
      && allowed[k] == NearestScan(score, allowed)
      && (forall i :: 0 <= i < k ==> Distance(score, allowed[i]) > Distance(score, allowed[k]))
  {
    var r := NearestScan(score, allowed);
    if |allowed| > 1 {
      var init := allowed[..|allowed| - 1];
      var d := allowed[|allowed| - 1];
      NearestScanFirst(score, init);
      var best := NearestScan(score, init);
      var k :| 0 <= k < |init| && init[k] == best &&
        (forall i :: 0 <= i < k ==> Distance(score, init[i]) > Distance(score, init[k]));
      if Distance(score, d) < Distance(score, best) {
        forall i | 0 <= i < |allowed| - 1 ensures Distance(score, allowed[i]) > Distance(score, d) {
          assert allowed[i] == init[i] && init[i] in init;
        }
      } else {
        assert allowed[k] == init[k];
        forall i | 0 <= i < k ensures Distance(score, allowed[i]) > Distance(score, allowed[k]) {
          assert allowed[i] == init[i];
        }
      }
    }
  }

  /** `chooseNearestDifficulty`: absent (`undefined`) for an empty list. */
  function ChooseNearest(score: real, allowed: seq<Difficulty>): (r: Option<Difficulty>)
    ensures r.Some? <==> |allowed| > 0
    ensures r.Some? ==> r.value in allowed
    ensures r.Some? ==> forall d :: d in allowed ==> Distance(score, r.value) <= Distance(score, d)
  {
    if |allowed| == 0 then None else Some(NearestScan(score, allowed))
  }

  /** The quantile label of position `idx` among `total`: the cutoffs are
      `floor(0.3 * total)` and `floor(0.8 * total)`, so a position is simple
      when it and all before it fit in the first 30%, and hard when it falls
      beyond the first 80%. */
  function TargetLabel(idx: int, total: int): (r: Difficulty)
    ensures r == Simple <==> 10 * (idx + 1) <= 3 * total
    ensures r == Hard <==> 10 * (idx + 1) > 3 * total && 10 * (idx + 1) > 8 * total
  {
    if idx < 3 * total / 10 then Simple
    else if idx < 8 * total / 10 then Medium
    else Hard
  }

  /** The comparator of `assignDifficulties`: by difficulty score, then by
      core key. */
  predicate ScoreLe(a: Annotated, b: Annotated)
  {
    a.Score() < b.Score() || (a.Score() == b.Score() && StrLe(a.Key(), b.Key()))
  }

  lemma ScoreLeTotal()
    ensures Total(ScoreLe) && Transitive(ScoreLe)
  {
    StrLeTotalOrder();
  }

  /** The label of the candidate at position `idx`: the quantile label
      when the guardrails allow it, else the nearest allowed tier. */
  function Label(a: Annotated, idx: int, total: int): (r: Difficulty)
    requires |a.guardrailMatches| > 0
    ensures r in a.guardrailMatches
    ensures TargetLabel(idx, total) in a.guardrailMatches ==> r == TargetLabel(idx, total)
    ensures TargetLabel(idx, total) !in a.guardrailMatches ==> r == NearestScan(a.Score(), a.guardrailMatches)
  {
    var target := TargetLabel(idx, total);
    if target in a.guardrailMatches then target
    else ChooseNearest(a.Score(), a.guardrailMatches).value
  }

  /** Labels a list already in score order by position. */
  function LabelSorted(sorted: seq<Annotated>): (r: seq<Labelled>)
    requires forall i :: 0 <= i < |sorted| ==> |sorted[i].guardrailMatches| > 0
    ensures Entries(r) == sorted
    ensures forall i :: 0 <= i < |sorted| ==> r[i].difficulty == Label(sorted[i], i, |sorted|)
  {
    var r := seq(|sorted|, i requires 0 <= i < |sorted| => Labelled(sorted[i], Label(sorted[i], i, |sorted|)));
    assert Entries(r) == sorted;
    r
  }

  /** `assignDifficulties`. Every input has a guardrail match, as every
      output of the guardrail step does. */
  function AssignDifficulties(cs: seq<Annotated>): (r: seq<Labelled>)
    requires forall a :: a in cs ==> |a.guardrailMatches| > 0
    ensures |r| == |cs|
    ensures Sorted(ScoreLe, Entries(r))
    ensures multiset(Entries(r)) == multiset(cs)
  {
    ScoreLeTotal();
    var sorted := SortBy(cs, ScoreLe);
    assert forall i :: 0 <= i < |sorted| ==> sorted[i] in multiset(cs);
    LabelSorted(sorted)
  }

  /** Each label is the quantile label of its position when the guardrails
      allow it, else the allowed tier nearest the candidate's score; either
      way a tier the candidate's guardrails allow. */
  lemma AssignLabels(cs: seq<Annotated>)
    requires forall a :: a in cs ==> |a.guardrailMatches| > 0
    ensures var r := AssignDifficulties(cs);
      forall i :: 0 <= i < |r| ==>
        && r[i].difficulty in r[i].Matches()
        && (TargetLabel(i, |r|) in r[i].Matches() ==> r[i].difficulty == TargetLabel(i, |r|))
        && (TargetLabel(i, |r|) !in r[i].Matches() ==>
              forall d :: d in r[i].Matches() ==> Distance(r[i].entry.Score(), r[i].difficulty) <= Distance(r[i].entry.Score(), d))
  {
  }

  /** A candidate that one guardrail admits gets that tier. */
  lemma LabelOnly(a: Annotated, idx: int, total: int, d: Difficulty)
    requires a.guardrailMatches == [d]
    ensures Label(a, idx, total) == d
  {
  }

  /** Of five candidates, the first is in the simple quantile, the next
      three in the medium one and the last in the hard one. */
  lemma QuantilesOfFive()
    ensures TargetLabel(0, 5) == Simple
    ensures TargetLabel(1, 5) == Medium && TargetLabel(2, 5) == Medium && TargetLabel(3, 5) == Medium
    ensures TargetLabel(4, 5) == Hard
  {
    assert 3 * 5 / 10 == 1;
    assert 8 * 5 / 10 == 4;
  }

  /** Candidates already in score order keep their order. */
  lemma AssignSorted(cs: seq<Annotated>)
    requires forall a :: a in cs ==> |a.guardrailMatches| > 0
    requires Sorted(ScoreLe, cs)
    ensures AssignDifficulties(cs) == LabelSorted(cs)
  {
    ScoreLeTotal();
    SortBySorted(cs, ScoreLe);
  }

  /** The candidates of the example below are in score order. */
  lemma ExampleInOrder(cs: seq<Annotated>)
    requires |cs| == 5
    requires cs[0].Score() == 0.1 && cs[1].Score() == 0.2 && cs[2].Score() == 0.6
    requires cs[3].Score() == 0.9 && cs[4].Score() == 0.95
    ensures Sorted(ScoreLe, cs)
  {
  }

  /** Scores 0.1, 0.2, 0.6, 0.9 and 0.95 with matches [simple],
      [simple, medium], [medium], [hard] and [hard] are labelled simple,
      medium, medium, hard, hard: the fourth falls in the medium quantile
      but only the hard guardrail admits it. */
  lemma AssignExample(cs: seq<Annotated>)
    requires |cs| == 5
    requires cs[0].Score() == 0.1 && cs[1].Score() == 0.2 && cs[2].Score() == 0.6
    requires cs[3].Score() == 0.9 && cs[4].Score() == 0.95
    requires cs[0].guardrailMatches == [Simple] && cs[1].guardrailMatches == [Simple, Medium]
    requires cs[2].guardrailMatches == [Medium]
    requires cs[3].guardrailMatches == [Hard] && cs[4].guardrailMatches == [Hard]
    ensures forall a :: a in cs ==> |a.guardrailMatches| > 0
    ensures var r := AssignDifficulties(cs);
      && Entries(r) == cs
      && r[0].difficulty == Simple && r[1].difficulty == Medium && r[2].difficulty == Medium
      && r[3].difficulty == Hard && r[4].difficulty == Hard
  {
    assert forall i :: 0 <= i < 5 ==> |cs[i].guardrailMatches| > 0;
    ExampleInOrder(cs);
    AssignSorted(cs);
    QuantilesOfFive();
    LabelOnly(cs[0], 0, 5, Simple);
    assert Label(cs[1], 1, 5) == Medium;
    LabelOnly(cs[2], 2, 5, Medium);
    LabelOnly(cs[3], 3, 5, Hard);
    LabelOnly(cs[4], 4, 5, Hard);
  }
}

/** Word and puzzle scoring (src/core/scoring.js). */
module Scoring {
  import opened Seqs
  import opened Text

  /** Words shorter than this score nothing. */
  const MinScoredLength := 4
  /** Extra points for a word that uses all seven letters. */
  const PangramBonus := 7

  /** `computeWordScore`: a 4-letter word scores 1, a longer word its length,
      and a pangram 7 more. The length is `word.length`, the number of
      UTF-16 code units. */
  function WordScore(word: string, isPangram: bool): (r: nat)
    ensures r > 0 <==> JsLength(word) >= MinScoredLength
    ensures r <= JsLength(word) + PangramBonus
  {
    var n := JsLength(word);
    if n < MinScoredLength then 0
    else
      var base := if n == MinScoredLength then 1 else n;
      if isPangram then base + PangramBonus else base
  }

  /** The scoring rules as the game states them. A word of lower-case
      letters, or any word in the Basic Multilingual Plane, is measured in
      characters. */
  lemma WordScoreRules(word: string)
    ensures JsLength(word) < 4 ==> WordScore(word, false) == 0 && WordScore(word, true) == 0
    ensures JsLength(word) == 4 ==> WordScore(word, false) == 1
    ensures JsLength(word) > 4 ==> WordScore(word, false) == JsLength(word)
    ensures JsLength(word) >= 4 ==> WordScore(word, true) == WordScore(word, false) + 7
    ensures JsLength(word) >= 4 ==> WordScore(word, false) >= 1
    ensures InBmp(word) ==> (WordScore(word, false) > 0 <==> |word| >= 4)
  {
    JsLengthBmp(word);
  }

  /** A word outside the Basic Multilingual Plane is measured in code
      units: two such characters already make a 4-unit word worth 1. */
  lemma WordScoreCodeUnits()
    ensures WordScore("\U{1D4B6}\U{1D4B7}", false) == 1
  {
  }

  /** The examples the game's tests check. */
  lemma WordScoreExamples()
    ensures WordScore("able", false) == 1
    ensures WordScore("alert", false) == 5
    ensures WordScore("central", true) == 14
  {
    JsLengthBmp("able");
    JsLengthBmp("alert");
    JsLengthBmp("central");
  }

  /** `computeMaxScore`: the sum of the word scores, accumulated from the
      left as `Array.prototype.reduce` does. A word counts as a pangram when
      it is in `pangrams`. */
  function MaxScore(words: seq<string>, pangrams: set<string>): (r: nat)
    ensures r == 0 <==> forall i :: 0 <= i < |words| ==> JsLength(words[i]) < MinScoredLength
  {
    if |words| == 0 then 0
    else
      var last := words[|words| - 1];
      var prefix := MaxScore(words[..|words| - 1], pangrams);
      assert forall i :: 0 <= i < |words| - 1 ==> words[..|words| - 1][i] == words[i];
      prefix + WordScore(last, last in pangrams)
  }
  /** Appending a word adds its score. */
  lemma MaxScoreSnoc(words: seq<string>, w: string, pangrams: set<string>)
    ensures MaxScore(words + [w], pangrams) == MaxScore(words, pangrams) + WordScore(w, w in pangrams)
  {
    assert (words + [w])[..|words|] == words;
  }


  /** The score of a concatenation is the sum of the scores. */
  lemma {:induction false} MaxScoreConcat(a: seq<string>, b: seq<string>, pangrams: set<string>)
    ensures MaxScore(a + b, pangrams) == MaxScore(a, pangrams) + MaxScore(b, pangrams)
  {
    if |b| == 0 {
      assert a + b == a;
    } else {
      assert (a + b)[..|a + b| - 1] == a + b[..|b| - 1];
      MaxScoreConcat(a, b[..|b| - 1], pangrams);
    }
  }

  /** The score of one word against a pangram set. */
  function Scorer(pangrams: set<string>): string -> int
  {
    w => WordScore(w, w in pangrams)
  }

  lemma {:induction false} MaxScoreSum(words: seq<string>, pangrams: set<string>)
    ensures MaxScore(words, pangrams) == Sum(words, Scorer(pangrams))
  {
    if |words| > 0 {
      MaxScoreSum(words[..|words| - 1], pangrams);
    }
  }

  /** The score does not depend on the order of the words. */
  lemma MaxScorePermutation(a: seq<string>, b: seq<string>, pangrams: set<string>)
    requires multiset(a) == multiset(b)
    ensures MaxScore(a, pangrams) == MaxScore(b, pangrams)
  {
    MaxScoreSum(a, pangrams);
    MaxScoreSum(b, pangrams);
    SumPermutation(a, b, Scorer(pangrams));
  }

  /** The example the game's tests check: able, alert and the pangram
      central score 1 + 5 + 14. */
  lemma MaxScoreExample()
    ensures MaxScore(["able", "alert", "central"], {"central"}) == 20
    ensures MaxScore([], {"central"}) == 0
  {
    var ws := ["able", "alert", "central"];
    assert ws[..2] == ["able", "alert"];
    assert ws[..2][..1] == ["able"];
    assert ws[..2][..1][..0] == [];
  }
}

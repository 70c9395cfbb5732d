/** The game's state transitions (src/core/game-engine.js): starting or
    resuming a game, and submitting a word. */
module GameEngine {
  import opened Seqs
  import opened Orders
  import opened Text
  import opened Results
  import opened Scoring
  import opened Validator
  import opened Hints
  import opened Puzzles

  /** `getRank` of src/core/rankings.js, which is not part of this model:
      the rank key for a score under a puzzle's thresholds. */
  type RankFn = (int, seq<Tier>) -> string

  /** A stored session as `createInitialState` reads it; every field may be
      missing. */
  datatype Session = Session(
    sessionId: Option<string>,
    createdAt: Option<string>,
    source: Option<string>,
    seed: Option<string>,
    foundWords: Option<seq<string>>,
    score: Option<int>,
    rankKey: Option<string>)

  /** A session with no fields: what `existingSession?.field` reads when there
      is no session. */
  const NoSession := Session(None, None, None, None, None, None, None)

  datatype State = State(
    puzzle: Puzzle,
    sessionId: string,
    createdAt: string,
    source: string,
    seed: Option<string>,
    foundWords: seq<string>,
    foundWordSet: set<string>,
    score: int,
    rankKey: string,
    feedback: string,
    hints: HintReport)

  /** The hints for a puzzle and a set of found words. */
  function HintsFor(puzzle: Puzzle, found: set<string>): HintReport
  {
    ComputeHints(puzzle.raw.validWords, puzzle.pangramSet, found)
  }

  /** `createInitialState`. The fresh session id (`crypto.randomUUID()`) and
      the current time (`new Date().toISOString()`) are parameters. */
  function CreateInitialState(puzzle: Puzzle, existing: Option<Session>, freshId: string, now: string,
                              getRank: RankFn): (s: State)
    ensures var session := existing.OrElse(NoSession);
      && Sorted(StrLe, s.foundWords)
      && multiset(s.foundWords) == multiset(session.foundWords.OrElse([]))
      && (forall w :: w in s.foundWordSet <==> w in s.foundWords)
      && s.score == session.score.OrElse(0)
      && s.rankKey == session.rankKey.OrElse(getRank(s.score, puzzle.raw.rankThresholds))
      && s.sessionId == session.sessionId.OrElse(freshId)
      && s.createdAt == session.createdAt.OrElse(now)
      && s.source == session.source.OrElse(puzzle.raw.source.OrElse("daily"))
      && s.seed == session.seed
      && s.feedback == ""
      && s.hints == HintsFor(puzzle, s.foundWordSet)
      && s.puzzle == puzzle
  {
    var session := existing.OrElse(NoSession);
    var foundWords := SortStrings(session.foundWords.OrElse([]));
    var foundWordSet := set w | w in foundWords;
    var score := session.score.OrElse(0);
    State(puzzle,
          session.sessionId.OrElse(freshId),
          session.createdAt.OrElse(now),
          session.source.OrElse(puzzle.raw.source.OrElse("daily")),
          session.seed,
          foundWords,
          foundWordSet,
          score,
          session.rankKey.OrElse(getRank(score, puzzle.raw.rankThresholds)),
          "",
          HintsFor(puzzle, foundWordSet))
  }

  /** The validator's verdict on a submission in a state. */
  function Check(state: State, rawWord: string): Validation
  {
    ValidateWord(rawWord, state.puzzle.raw.centerLetter, state.puzzle.raw.outerLetters,
                 state.puzzle.validWordSet, state.foundWordSet)
  }

  /** The message for an accepted word, before it is trimmed. */
  function AcceptedMessage(delta: nat, isPangram: bool): string
  {
    "Accepted +" + NatToString(delta) + "." + (if isPangram then " Pangram!" else "")
  }

  /** The accepted-word message has no white space to trim. */
  lemma AcceptedMessageTrimmed(delta: nat, isPangram: bool)
    ensures Trim(AcceptedMessage(delta, isPangram)) == AcceptedMessage(delta, isPangram)
  {
    var m := AcceptedMessage(delta, isPangram);
    assert m[0] == 'A';
    assert m[|m| - 1] == (if isPangram then '!' else '.');
    TrimUnspaced(m);
  }

  /** `[...state.foundWords, word].sort()`. */
  function AddFound(found: seq<string>, w: string): (r: seq<string>)
    ensures Sorted(StrLe, r)
    ensures multiset(r) == multiset(found) + multiset{w}
    ensures forall x :: x in r <==> x in found || x == w
  {
    var r := SortStrings(found + [w]);
    PermutationMembers(found + [w], r);
    r
  }

  /** The accepted branch of `submitWord` for the normalised word `w`: `w`
      joins the sorted found list, its score is added, the rank and hints are
      recomputed, and nothing else changes. */
  function Accept(state: State, w: string, getRank: RankFn): (s: State)
    ensures Sorted(StrLe, s.foundWords)
    ensures multiset(s.foundWords) == multiset(state.foundWords) + multiset{w}
    ensures forall x :: x in s.foundWordSet <==> x in state.foundWords || x == w
    ensures s.score == state.score + WordScore(w, w in state.puzzle.pangramSet)
    ensures s.rankKey == getRank(s.score, state.puzzle.raw.rankThresholds)
    ensures s.feedback == AcceptedMessage(WordScore(w, w in state.puzzle.pangramSet), w in state.puzzle.pangramSet)
    ensures s.hints == HintsFor(state.puzzle, s.foundWordSet)
    ensures s == state.(foundWords := s.foundWords, foundWordSet := s.foundWordSet, score := s.score,
                        rankKey := s.rankKey, feedback := s.feedback, hints := s.hints)
  {
    var isPangram := w in state.puzzle.pangramSet;
    var delta := WordScore(w, isPangram);
    var nextFoundWords := AddFound(state.foundWords, w);
    var nextFoundSet := set x | x in nextFoundWords;
    var nextScore := state.score + delta;
    AcceptedMessageTrimmed(delta, isPangram);
    state.(foundWords := nextFoundWords,
           foundWordSet := nextFoundSet,
           score := nextScore,
           rankKey := getRank(nextScore, state.puzzle.raw.rankThresholds),
           feedback := Trim(AcceptedMessage(delta, isPangram)),
           hints := HintsFor(state.puzzle, nextFoundSet))
  }

  /** `submitWord`. A rejected word only sets the feedback to the reason; an
      accepted word joins the sorted found list, adds its score, and the rank
      and hints are recomputed. */
  function SubmitWord(state: State, rawWord: string, getRank: RankFn): (s: State)
    ensures var v := Check(state, rawWord);
      v.Rejected? ==> s == state.(feedback := v.reason.Message())
    ensures var v := Check(state, rawWord);
      v.Accepted? ==>
        var isPangram := v.word in state.puzzle.pangramSet;
        && Sorted(StrLe, s.foundWords)
        && multiset(s.foundWords) == multiset(state.foundWords) + multiset{v.word}
        && (forall w :: w in s.foundWordSet <==> w in state.foundWords || w == v.word)
        && s.score == state.score + WordScore(v.word, isPangram)
        && s.rankKey == getRank(s.score, state.puzzle.raw.rankThresholds)
        && s.feedback == "Accepted +" + NatToString(WordScore(v.word, isPangram)) + "."
                         + (if isPangram then " Pangram!" else "")
        && s.hints == HintsFor(state.puzzle, s.foundWordSet)
        && s == state.(foundWords := s.foundWords, foundWordSet := s.foundWordSet, score := s.score,
                       rankKey := s.rankKey, feedback := s.feedback, hints := s.hints)
  {
    var v := Check(state, rawWord);
    if v.Rejected? then state.(feedback := v.reason.Message())
    else Accept(state, v.word, getRank)
  }

  /** What every state the game reaches from a fresh start satisfies: the
      found words are sorted, distinct, puzzle words, mirrored by the found
      set; the score is their total; the hints describe them. */
  ghost predicate Consistent(s: State)
  {
    && Sorted(StrLe, s.foundWords)
    && Distinct(s.foundWords)
    && (forall w :: w in s.foundWordSet <==> w in s.foundWords)
    && (forall i :: 0 <= i < |s.foundWords| ==> s.foundWords[i] in s.puzzle.validWordSet)
    && s.score == MaxScore(s.foundWords, s.puzzle.pangramSet)
    && s.hints == HintsFor(s.puzzle, s.foundWordSet)
  }

  /** A fresh game (no stored session) starts consistent, with nothing found
      and a score of 0. */
  lemma InitialConsistent(puzzle: Puzzle, freshId: string, now: string, getRank: RankFn)
    ensures Consistent(CreateInitialState(puzzle, None, freshId, now, getRank))
    ensures CreateInitialState(puzzle, None, freshId, now, getRank).foundWords == []
    ensures CreateInitialState(puzzle, None, freshId, now, getRank).score == 0
  {
    var s := CreateInitialState(puzzle, None, freshId, now, getRank);
    assert |s.foundWords| == |multiset(s.foundWords)| == 0;
  }

  /** Accepting a new puzzle word keeps a state consistent. */
  lemma AcceptKeepsConsistent(state: State, w: string, getRank: RankFn)
    requires Consistent(state)
    requires w !in state.foundWords && w in state.puzzle.validWordSet
    ensures Consistent(Accept(state, w, getRank))
  {
    var s := Accept(state, w, getRank);
    var grown := state.foundWords + [w];
    assert Distinct(grown) by {
      forall i, j | 0 <= i < j < |grown| ensures grown[i] != grown[j] {
        if j == |grown| - 1 {
          assert grown[i] in state.foundWords;
        }
      }
    }
    assert multiset(s.foundWords) == multiset(grown);
    assert Distinct(s.foundWords) by {
      DistinctPermutation(grown, s.foundWords);
    }
    assert forall x :: x in s.foundWordSet <==> x in s.foundWords by {
      PermutationMembers(grown, s.foundWords);
    }
    assert forall i :: 0 <= i < |s.foundWords| ==> s.foundWords[i] in s.puzzle.validWordSet by {
      PermutationMembers(grown, s.foundWords);
      forall i | 0 <= i < |s.foundWords| ensures s.foundWords[i] in s.puzzle.validWordSet {
        assert s.foundWords[i] in grown;
      }
    }
    assert s.score == MaxScore(s.foundWords, s.puzzle.pangramSet) by {
      MaxScorePermutation(grown, s.foundWords, state.puzzle.pangramSet);
      MaxScoreSnoc(state.foundWords, w, state.puzzle.pangramSet);
    }
  }

  /** Submitting a word keeps a state consistent. */
  lemma SubmitKeepsConsistent(state: State, rawWord: string, getRank: RankFn)
    requires Consistent(state)
    ensures Consistent(SubmitWord(state, rawWord, getRank))
  {
    var v := Check(state, rawWord);
    if v.Accepted? {
      assert v.word !in state.foundWordSet;
      AcceptKeepsConsistent(state, v.word, getRank);
    }
  }

  /** The puzzle of the game-engine tests. */
  const ExampleThresholds := [Tier("beginner", 0), Tier("goodStart", 2), Tier("movingUp", 4), Tier("good", 8),
                              Tier("solid", 12), Tier("nice", 16), Tier("great", 20), Tier("amazing", 24),
                              Tier("genius", 28)]
  const ExamplePuzzle := DecoratePuzzle(RawPuzzle("fixture-1", "", 'a', "celnrt",
    ["acre", "alert", "alter", "central"], ["central"], ExampleThresholds, None))

  lemma ExampleWords()
    ensures "acre" in ExamplePuzzle.validWordSet && "central" in ExamplePuzzle.validWordSet
  {
  }

  lemma AcreVerdict(validWords: set<string>)
    requires "acre" in validWords
    ensures ValidateWord("acre", 'a', "celnrt", validWords, {}) == Accepted("acre")
  {
    AcreLetters();
    PassesChecks("acre", 'a', "celnrt", validWords, {});
  }

  lemma CentralVerdict(validWords: set<string>, found: set<string>)
    requires "central" in validWords && "central" !in found
    ensures ValidateWord("central", 'a', "celnrt", validWords, found) == Accepted("central")
  {
    CentralLetters();
    PassesChecks("central", 'a', "celnrt", validWords, found);
  }

  lemma XxxxVerdict(validWords: set<string>, found: set<string>)
    ensures ValidateWord("xxxx", 'a', "celnrt", validWords, found) == Rejected(MissingCenter, "xxxx")
  {
    assert IsAlphaWord("xxxx");
    LetterWordNormal("xxxx");
    assert 'a' !in "xxxx";
    LacksCenter("xxxx", 'a', "celnrt", validWords, found);
  }

  /** The validator's verdicts the engine tests rely on. */
  lemma ExampleVerdicts(found: set<string>)
    requires found == {} || found == {"acre"}
    ensures ValidateWord("acre", 'a', "celnrt", ExamplePuzzle.validWordSet, {}) == Accepted("acre")
    ensures ValidateWord("central", 'a', "celnrt", ExamplePuzzle.validWordSet, found) == Accepted("central")
    ensures ValidateWord("xxxx", 'a', "celnrt", ExamplePuzzle.validWordSet, found) == Rejected(MissingCenter, "xxxx")
  {
    ExampleWords();
    AcreVerdict(ExamplePuzzle.validWordSet);
    CentralVerdict(ExamplePuzzle.validWordSet, found);
    XxxxVerdict(ExamplePuzzle.validWordSet, found);
  }

  /** With `acre` and `central` found and the other two not, `alert` and
      `alter` remain. */
  lemma UnfoundAfterTwo(f: set<string>)
    requires "acre" in f && "central" in f && "alert" !in f && "alter" !in f
    ensures Unfound(ExamplePuzzle.raw.validWords, f) == ["alert", "alter"]
  {
    var ws := ExamplePuzzle.raw.validWords;
    assert ws[..3] == ["acre", "alert", "alter"];
    assert ws[..3][..2] == ["acre", "alert"];
    assert ws[..3][..2][..1] == ["acre"];
    assert ws[..3][..2][..1][..0] == [];
    assert Unfound(["acre"], f) == [];
    assert Unfound(["acre", "alert"], f) == ["alert"];
    assert Unfound(["acre", "alert", "alter"], f) == ["alert", "alter"];
  }

  /** The unfound words of the test puzzle with nothing found, and with
      `acre` and `central` found. */
  lemma UnfoundExample()
    ensures Unfound(ExamplePuzzle.raw.validWords, {}) == ExamplePuzzle.raw.validWords
    ensures forall f: set<string> :: "acre" in f && "central" in f && "alert" !in f && "alter" !in f ==>
      Unfound(ExamplePuzzle.raw.validWords, f) == ["alert", "alter"]
  {
    UnfoundNone(ExamplePuzzle.raw.validWords, {});
    forall f: set<string> | "acre" in f && "central" in f && "alert" !in f && "alter" !in f
      ensures Unfound(ExamplePuzzle.raw.validWords, f) == ["alert", "alter"]
    {
      UnfoundAfterTwo(f);
    }
  }

  /** A new game on the test puzzle: score 0 and four words to find. */
  lemma InitialExample(freshId: string, now: string, getRank: RankFn)
    ensures CreateInitialState(ExamplePuzzle, None, freshId, now, getRank).score == 0
    ensures CreateInitialState(ExamplePuzzle, None, freshId, now, getRank).foundWordSet == {}
    ensures CreateInitialState(ExamplePuzzle, None, freshId, now, getRank).hints.remainingWordCount == 4
  {
    var s := CreateInitialState(ExamplePuzzle, None, freshId, now, getRank);
    InitialConsistent(ExamplePuzzle, freshId, now, getRank);
    assert s.foundWordSet == {};
    UnfoundExample();
  }

  /** An accepted submission is the accepted branch on the normalised word. */
  lemma SubmitAccepted(state: State, rawWord: string, getRank: RankFn, w: string)
    requires Check(state, rawWord) == Accepted(w)
    ensures SubmitWord(state, rawWord, getRank) == Accept(state, w, getRank)
  {
  }

  /** What accepting a word does to the found set and the score, for a state
      whose found set mirrors its found list. */
  lemma AcceptEffects(state: State, w: string, getRank: RankFn)
    requires forall x :: x in state.foundWordSet <==> x in state.foundWords
    ensures Accept(state, w, getRank).foundWordSet == state.foundWordSet + {w}
    ensures Accept(state, w, getRank).score == state.score + WordScore(w, w in state.puzzle.pangramSet)
    ensures |Accept(state, w, getRank).foundWords| == |state.foundWords| + 1
    ensures Accept(state, w, getRank).puzzle == state.puzzle
    ensures Accept(state, w, getRank).hints == HintsFor(state.puzzle, Accept(state, w, getRank).foundWordSet)
  {
    var s := Accept(state, w, getRank);
    assert |s.foundWords| == |multiset(s.foundWords)|;
  }

  lemma AcreAccepted(s0: State)
    requires s0.puzzle == ExamplePuzzle && s0.foundWordSet == {}
    ensures Check(s0, "acre") == Accepted("acre")
  {
    ExampleVerdicts({});
  }

  lemma CentralAccepted(s1: State)
    requires s1.puzzle == ExamplePuzzle && s1.foundWordSet == {"acre"}
    ensures Check(s1, "central") == Accepted("central")
  {
    ExampleVerdicts({"acre"});
  }

  /** `acre` scores 1 and is the one found word. */
  lemma SubmitAcreExample(freshId: string, now: string, getRank: RankFn)
    ensures var s1 := SubmitWord(CreateInitialState(ExamplePuzzle, None, freshId, now, getRank), "acre", getRank);
      s1.score == 1 && |s1.foundWords| == 1 && s1.foundWordSet == {"acre"}
      && s1.puzzle == ExamplePuzzle
  {
    var s0 := CreateInitialState(ExamplePuzzle, None, freshId, now, getRank);
    InitialExample(freshId, now, getRank);
    InitialConsistent(ExamplePuzzle, freshId, now, getRank);
    AcreAccepted(s0);
    SubmitAccepted(s0, "acre", getRank, "acre");
    AcceptEffects(s0, "acre", getRank);
    AcreNotPangram();
    AddToEmpty("acre");
  }

  lemma AcreNotPangram()
    ensures "acre" !in ExamplePuzzle.pangramSet
    ensures WordScore("acre", false) == 1
  {
    ExampleWordScores();
  }

  /** The scores of the two words the test submits. */
  lemma ExampleWordScores()
    ensures WordScore("acre", false) == 1
    ensures WordScore("central", true) == 14
  {
    JsLengthBmp("acre");
    JsLengthBmp("central");
  }

  lemma AddToEmpty(w: string)
    ensures {} + {w} == {w}
  {
  }

  /** The pangram `central` then brings the score to 15 and leaves two
      words to find. */
  lemma SubmitCentralExample(s1: State, getRank: RankFn)
    requires s1.score == 1 && s1.foundWordSet == {"acre"} && s1.puzzle == ExamplePuzzle
    requires forall x :: x in s1.foundWordSet <==> x in s1.foundWords
    ensures SubmitWord(s1, "central", getRank).score == 15
    ensures SubmitWord(s1, "central", getRank).hints.remainingWordCount == 2
  {
    CentralAccepted(s1);
    SubmitAccepted(s1, "central", getRank, "central");
    AcceptEffects(s1, "central", getRank);
    CentralScore(s1.score, s1.puzzle);
    RemainingExample(s1.foundWordSet + {"central"});
  }

  lemma CentralScore(score: int, puzzle: Puzzle)
    requires score == 1 && puzzle == ExamplePuzzle
    ensures score + WordScore("central", "central" in puzzle.pangramSet) == 15
  {
    assert "central" in ExamplePuzzle.pangramSet;
    ExampleWordScores();
  }

  lemma RemainingExample(f: set<string>)
    requires f == {"acre"} + {"central"}
    ensures HintsFor(ExamplePuzzle, f).remainingWordCount == 2
  {
    assert "acre" in f && "central" in f && "alert" !in f && "alter" !in f;
    UnfoundExample();
  }

  /** `xxxx` is refused for the missing centre letter and the score stays 0. */
  lemma SubmitMissingCenterExample(freshId: string, now: string, getRank: RankFn)
    ensures var bad := SubmitWord(CreateInitialState(ExamplePuzzle, None, freshId, now, getRank), "xxxx", getRank);
      bad.feedback == "Word must include the center letter." && bad.score == 0
  {
    InitialExample(freshId, now, getRank);
    ExampleVerdicts({});
  }

  /** The test's sequence of submissions: `acre` then `central`. */
  lemma SubmitExample(freshId: string, now: string, getRank: RankFn)
    ensures var s1 := SubmitWord(CreateInitialState(ExamplePuzzle, None, freshId, now, getRank), "acre", getRank);
      var s2 := SubmitWord(s1, "central", getRank);
      s1.score == 1 && |s1.foundWords| == 1 && s2.score == 15 && s2.hints.remainingWordCount == 2
  {
    SubmitAcreExample(freshId, now, getRank);
    var s0 := CreateInitialState(ExamplePuzzle, None, freshId, now, getRank);
    var s1 := SubmitWord(s0, "acre", getRank);
    InitialConsistent(ExamplePuzzle, freshId, now, getRank);
    SubmitKeepsConsistent(s0, "acre", getRank);
    SubmitCentralExample(s1, getRank);
  }
}

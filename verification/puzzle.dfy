/** The published puzzle record and the decorated form the game plays
    (`decoratePuzzle` in src/core/game-engine.js). */
module Puzzles {
  import opened Results

  /** One rank tier: its key and the points needed to reach it. */
  datatype Tier = Tier(key: string, points: int)

  /** A puzzle as it is published. `source` is only set on puzzles the app
      creates itself. */
  datatype RawPuzzle = RawPuzzle(
    id: string,
    date: string,
    centerLetter: char,
    outerLetters: seq<char>,
    validWords: seq<string>,
    pangrams: seq<string>,
    rankThresholds: seq<Tier>,
    source: Option<string>)

  /** A puzzle with its word list and pangram list also held as sets. */
  datatype Puzzle = Puzzle(raw: RawPuzzle, validWordSet: set<string>, pangramSet: set<string>)

  /** `decoratePuzzle`: keeps every field and adds the two membership sets. */
  function DecoratePuzzle(raw: RawPuzzle): (p: Puzzle)
    ensures p.raw == raw
    ensures forall w :: w in p.validWordSet <==> w in raw.validWords
    ensures forall w :: w in p.pangramSet <==> w in raw.pangrams
  {
    Puzzle(raw, set w | w in raw.validWords, set w | w in raw.pangrams)
  }
}

/** Picking the puzzle of the day (`getDailyPuzzle` in
    src/puzzles/provider.js). */
module Provider {
  import opened Results
  import opened Puzzles

  /** `Array.prototype.findIndex` on the date: the first position whose
      puzzle has date `day`, or the length when there is none. */
  function FindDate(puzzles: seq<Puzzle>, day: string): (i: nat)
    ensures i <= |puzzles|
    ensures i < |puzzles| ==> puzzles[i].raw.date == day
    ensures forall j :: 0 <= j < i ==> puzzles[j].raw.date != day
  {
    if |puzzles| == 0 then 0
    else if puzzles[0].raw.date == day then 0
    else
      var k := FindDate(puzzles[1..], day);
      assert forall j :: 1 <= j < k + 1 ==> puzzles[j] == puzzles[1..][j - 1];
      k + 1
  }

  /** `getDailyPuzzle`: the first puzzle dated `day`, else the first
      puzzle; nothing for an empty list. `day` is the `YYYY-MM-DD` prefix of
      the date's `toISOString()`. */
  function GetDailyPuzzle(puzzles: seq<Puzzle>, day: string): (r: Option<Puzzle>)
    ensures r.None? <==> |puzzles| == 0
    ensures r.Some? ==> r.value in puzzles
    ensures forall i :: 0 <= i < |puzzles| && puzzles[i].raw.date == day
                        && (forall j :: 0 <= j < i ==> puzzles[j].raw.date != day)
                        ==> r == Some(puzzles[i])
    ensures |puzzles| > 0 && (forall i :: 0 <= i < |puzzles| ==> puzzles[i].raw.date != day)
            ==> r == Some(puzzles[0])
  {
    var i := FindDate(puzzles, day);
    if i < |puzzles| then Some(puzzles[i])
    else if |puzzles| > 0 then Some(puzzles[0])
    else None
  }
}

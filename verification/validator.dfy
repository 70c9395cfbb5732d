/** Checking a submitted word against a puzzle (src/core/validator.js). */
module Validator {
  import opened Text

  const MinWordLength := 4

  /** Why a word is refused, one per check, in the order the checks run. */
  datatype Rejection = NotLetters | TooShort | MissingCenter | OutsideLetters | AlreadyFound | NotInList
  {
    /** The message shown to the player. */
    function Message(): string
    {
      match this
      case NotLetters => "Only letters a-z are allowed."
      case TooShort => "Word is too short."
      case MissingCenter => "Word must include the center letter."
      case OutsideLetters => "Word uses letters outside this puzzle."
      case AlreadyFound => "Word already found."
      case NotInList => "Word is not in this puzzle word list."
    }
  }

  /** The validator's answer; both cases carry the normalised word. */
  datatype Validation = Accepted(word: string) | Rejected(reason: Rejection, word: string)

  /** `normalizeWord`: trims white space, then lower-cases. */
  function NormalizeWord(raw: string): (r: string)
    ensures |r| <= |raw|
    ensures forall i :: 0 <= i < |r| ==> !('A' <= r[i] <= 'Z')
    ensures |r| > 0 ==> !IsJsSpace(r[0]) && !IsJsSpace(r[|r| - 1])
  {
    Lower(Trim(raw))
  }

  /** Normalising twice is normalising once. */
  lemma NormalizeIdempotent(raw: string)
    ensures NormalizeWord(NormalizeWord(raw)) == NormalizeWord(raw)
  {
    var t := Trim(raw);
    var w := Lower(t);
    if |w| > 0 {
      LowerCharSpace(t[0]);
      LowerCharSpace(t[|t| - 1]);
    }
    TrimUnspaced(w);
    LowerIdempotent(t);
  }

  /** Every letter of `word` is the centre letter or an outer letter. */
  predicate UsesOnly(word: string, allowed: set<char>)
  {
    forall i :: 0 <= i < |word| ==> word[i] in allowed
  }

  /** `validateWord`: runs the checks in order and reports the first one
      that fails. `center` and `outer` are the puzzle's letters and
      `validWords` its word list (`validWordSet`). */
  function ValidateWord(rawWord: string, center: char, outer: seq<char>,
                        validWords: set<string>, found: set<string>): (r: Validation)
    ensures r.word == NormalizeWord(rawWord)
    // each reason means: every earlier check passed and this one failed
    ensures r == Rejected(NotLetters, r.word) <==> !IsAlphaWord(r.word)
    ensures r == Rejected(TooShort, r.word) <==> IsAlphaWord(r.word) && |r.word| < MinWordLength
    ensures r == Rejected(MissingCenter, r.word) <==>
      IsAlphaWord(r.word) && |r.word| >= MinWordLength && center !in r.word
    ensures r == Rejected(OutsideLetters, r.word) <==>
      IsAlphaWord(r.word) && |r.word| >= MinWordLength && center in r.word
      && !UsesOnly(r.word, {center} + set c | c in outer)
    ensures r == Rejected(AlreadyFound, r.word) <==>
      IsAlphaWord(r.word) && |r.word| >= MinWordLength && center in r.word
      && UsesOnly(r.word, {center} + set c | c in outer) && r.word in found
    ensures r == Rejected(NotInList, r.word) <==>
      IsAlphaWord(r.word) && |r.word| >= MinWordLength && center in r.word
      && UsesOnly(r.word, {center} + set c | c in outer) && r.word !in found && r.word !in validWords
    // acceptance is exactly "every check passed"
    ensures r.Accepted? <==>
      IsAlphaWord(r.word) && |r.word| >= MinWordLength && center in r.word
      && UsesOnly(r.word, {center} + set c | c in outer) && r.word !in found && r.word in validWords
  {
    var word := NormalizeWord(rawWord);
    var allowed := {center} + set c | c in outer;
    if !IsAlphaWord(word) then Rejected(NotLetters, word)
    else if |word| < MinWordLength then Rejected(TooShort, word)
    else if center !in word then Rejected(MissingCenter, word)
    else if !UsesOnly(word, allowed) then Rejected(OutsideLetters, word)
    else if word in found then Rejected(AlreadyFound, word)
    else if word !in validWords then Rejected(NotInList, word)
    else Accepted(word)
  }

  /** A word of lower-case ASCII letters normalises to itself. */
  lemma LetterWordNormal(w: string)
    requires IsAlphaWord(w)
    ensures NormalizeWord(w) == w
  {
    forall i | 0 <= i < |w| ensures !IsJsSpace(w[i]) && LowerChar(w[i]) == w[i] {
      assert IsLowerLetter(w[i]);
    }
    NormalizeFixed(w);
  }

  /** A word that is already trimmed and lower case normalises to itself. */
  lemma NormalizeFixed(w: string)
    requires forall i :: 0 <= i < |w| ==> !IsJsSpace(w[i]) && LowerChar(w[i]) == w[i]
    ensures NormalizeWord(w) == w
  {
    TrimUnspaced(w);
  }

  /** The puzzle of the validator's tests: centre `a`, outer letters
      c e l n r t, words acre, alert, central, clean. */
  const ExampleWords: set<string> := {"acre", "alert", "central", "clean"}

  /** Non-letters and the empty string fail the first check. */
  lemma ValidateRejectsNonLetters()
    ensures ValidateWord("ab3d", 'a', "celnrt", ExampleWords, {}) == Rejected(NotLetters, "ab3d")
    ensures ValidateWord("", 'a', "celnrt", ExampleWords, {}) == Rejected(NotLetters, "")
    ensures NotLetters.Message() == "Only letters a-z are allowed."
  {
    NormalizeFixed("ab3d");
    assert !IsLowerLetter("ab3d"[2]);
    NormalizeFixed("");
  }

  /** A normalised word of letters, long enough but without the centre
      letter, is refused for the missing centre whatever else holds. */
  lemma LacksCenter(word: string, center: char, outer: seq<char>, validWords: set<string>, found: set<string>)
    requires NormalizeWord(word) == word && IsAlphaWord(word) && |word| >= MinWordLength
    requires center !in word
    ensures ValidateWord(word, center, outer, validWords, found) == Rejected(MissingCenter, word)
  {
  }

  /** A word without the centre letter is refused for that reason. */
  lemma ValidateRequiresCenter()
    ensures ValidateWord("cler", 'a', "celnrt", ExampleWords, {}) == Rejected(MissingCenter, "cler")
  {
    assert IsAlphaWord("cler");
    LetterWordNormal("cler");
    assert 'a' !in "cler";
    LacksCenter("cler", 'a', "celnrt", ExampleWords, {});
  }

  /** A normalised word that passes every check is accepted as it is. */
  lemma PassesChecks(word: string, center: char, outer: seq<char>, validWords: set<string>, found: set<string>)
    requires NormalizeWord(word) == word && IsAlphaWord(word) && |word| >= MinWordLength
    requires center in word && UsesOnly(word, {center} + set c | c in outer)
    requires word !in found && word in validWords
    ensures ValidateWord(word, center, outer, validWords, found) == Accepted(word)
  {
  }

  /** A normalised word that passes the letter checks but was found before
      is refused as a duplicate. */
  lemma FoundBefore(word: string, center: char, outer: seq<char>, validWords: set<string>, found: set<string>)
    requires NormalizeWord(word) == word && IsAlphaWord(word) && |word| >= MinWordLength
    requires center in word && UsesOnly(word, {center} + set c | c in outer)
    requires word in found
    ensures ValidateWord(word, center, outer, validWords, found) == Rejected(AlreadyFound, word)
  {
  }

  /** `acre` is a normalised word over the example letters with the centre. */
  lemma AcreLetters()
    ensures NormalizeWord("acre") == "acre" && IsAlphaWord("acre") && |"acre"| >= MinWordLength
    ensures 'a' in "acre" && UsesOnly("acre", {'a'} + set c | c in "celnrt")
  {
    assert IsAlphaWord("acre");
    LetterWordNormal("acre");
    assert "acre"[0] == 'a';
    var allowed := {'a'} + set c | c in "celnrt";
    assert "celnrt"[0] == 'c' && "celnrt"[1] == 'e' && "celnrt"[4] == 'r';
    assert forall i :: 0 <= i < 4 ==> "acre"[i] in allowed;
  }

  /** `central` is a normalised word over the example letters with the
      centre. */
  lemma CentralLetters()
    ensures NormalizeWord("central") == "central" && IsAlphaWord("central") && |"central"| >= MinWordLength
    ensures 'a' in "central" && UsesOnly("central", {'a'} + set c | c in "celnrt")
  {
    assert IsAlphaWord("central");
    LetterWordNormal("central");
    assert "central"[5] == 'a';
    var allowed := {'a'} + set c | c in "celnrt";
    assert forall c :: c in "celnrt" ==> c in allowed;
    assert forall i :: 0 <= i < 7 ==> "central"[i] in allowed;
  }

  /** A word already found is refused for that reason. */
  lemma ValidateDuplicate()
    ensures ValidateWord("acre", 'a', "celnrt", ExampleWords, {"acre"}) == Rejected(AlreadyFound, "acre")
  {
    AcreLetters();
    FoundBefore("acre", 'a', "celnrt", ExampleWords, {"acre"});
  }

  /** A new word of the puzzle's list is accepted. */
  lemma ValidateValid()
    ensures ValidateWord("central", 'a', "celnrt", ExampleWords, {}) == Accepted("central")
  {
    CentralLetters();
    PassesChecks("central", 'a', "celnrt", ExampleWords, {});
  }

  /** A word already found is refused; a new puzzle word is accepted. */
  lemma ValidateDuplicateAndValid()
    ensures ValidateWord("acre", 'a', "celnrt", ExampleWords, {"acre"}) == Rejected(AlreadyFound, "acre")
    ensures ValidateWord("central", 'a', "celnrt", ExampleWords, {}) == Accepted("central")
  {
    ValidateDuplicate();
    ValidateValid();
  }
}

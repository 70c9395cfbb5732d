/** Enumerating puzzle candidates from the word list (`buildCandidates` in
    tools/build-puzzles.mjs): every set of seven distinct letters that some
    word uses, with every one of its letters as the centre. */
module Candidates {
  import opened Seqs
  import opened Orders
  import opened Text
  import opened Scoring
  import opened Puzzles

  /** `MIN_WORDS` and `MIN_PANGRAMS`. */
  const MinWords := 12
  const MinPangrams := 1
  /** The number of distinct letters of a puzzle. */
  const LetterCount := 7

  /** `isSubsetWord`: every character of the word is an allowed letter. */
  function IsSubsetWord(word: string, allowed: set<char>): (r: bool)
    ensures r <==> LetterSet(word) <= allowed
  {
    if |word| == 0 then true
    else if word[0] !in allowed then false
    else
      assert LetterSet(word) == {word[0]} + LetterSet(word[1..]) by {
        assert word == [word[0]] + word[1..];
      }
      IsSubsetWord(word[1..], allowed)
  }

  /** A subset of the same size is the whole set. */
  lemma SubsetSameSize<T>(a: set<T>, b: set<T>)
    requires a <= b && |a| == |b|
    ensures a == b
  {
    assert |b - a| == |b| - |a|;
  }

  /** `isPangram`: the word has as many distinct letters as the puzzle and
      contains each of them. */
  function IsPangram(word: string, allowed: set<char>): (r: bool)
    ensures r <==> LetterSet(word) == allowed
  {
    var chars := LetterSet(word);
    if |chars| != |allowed| then false
    else if !(forall c | c in allowed :: c in chars) then false
    else
      SubsetSameSize(allowed, chars);
      true
  }

  /** The tiers of `rankThresholds` with their percentages of the maximum
      score, in the source's key order. */
  const RankPercents: seq<(string, int)> := [
    ("beginner", 0), ("goodStart", 2), ("movingUp", 5), ("good", 8), ("solid", 15),
    ("nice", 25), ("great", 40), ("amazing", 50), ("genius", 70), ("queenBee", 100)]

  /** `rankThresholds`: each tier's points are `floor(maxScore * pct)`,
      with the percentage taken as the exact fraction. */
  function RankThresholds(maxScore: int): (r: seq<Tier>)
    ensures |r| == |RankPercents|
    ensures forall i :: 0 <= i < |r| ==> r[i].key == RankPercents[i].0
    ensures forall i :: 0 <= i < |r| ==>
      100 * r[i].points <= maxScore * RankPercents[i].1 < 100 * r[i].points + 100
  {
    seq(|RankPercents|, i requires 0 <= i < |RankPercents| =>
      Tier(RankPercents[i].0, maxScore * RankPercents[i].1 / 100))
  }

  /** The thresholds start at 0 for `beginner`, end at the maximum score
      for `queenBee`, and never decrease from one tier to the next. */
  lemma RankThresholdsShape(maxScore: int)
    requires maxScore >= 0
    ensures var r := RankThresholds(maxScore);
      && r[0] == Tier("beginner", 0)
      && r[|r| - 1] == Tier("queenBee", maxScore)
      && (forall i :: 0 < i < |r| ==> r[i - 1].points <= r[i].points)
      && (forall i :: 0 <= i < |r| ==> 0 <= r[i].points <= maxScore)
  {
    var r := RankThresholds(maxScore);
    forall i | 0 < i < |r| ensures r[i - 1].points <= r[i].points {
      assert RankPercents[i - 1].1 <= RankPercents[i].1;
      assert maxScore * RankPercents[i - 1].1 <= maxScore * RankPercents[i].1;
    }
  }

  /** The words of `words` that contain the centre and use only allowed
      letters, in order (the `validWords` filter). */
  function ValidWords(words: seq<string>, center: char, allowed: set<char>): (r: seq<string>)
    ensures forall w :: w in r <==> w in words && center in w && LetterSet(w) <= allowed
    ensures multiset(r) <= multiset(words)
  {
    if |words| == 0 then []
    else
      assert words == [words[0]] + words[1..];
      var w := words[0];
      (if center in w && IsSubsetWord(w, allowed) then [w] else []) + ValidWords(words[1..], center, allowed)
  }

  /** The pangrams among `words`, in order. */
  function Pangrams(words: seq<string>, allowed: set<char>): (r: seq<string>)
    ensures forall w :: w in r <==> w in words && LetterSet(w) == allowed
    ensures multiset(r) <= multiset(words)
  {
    if |words| == 0 then []
    else
      assert words == [words[0]] + words[1..];
      var w := words[0];
      (if IsPangram(w, allowed) then [w] else []) + Pangrams(words[1..], allowed)
  }

  /** An entry of `sevenLetterSets`: the sorted letters joined into the
      signature, and the letter set in the order of the word that first
      had it. */
  datatype LetterEntry = LetterEntry(signature: string, letters: seq<char>)

  /** `[...chars].sort().join("")`. */
  function Signature(letters: seq<char>): string
  {
    SortChars(letters)
  }

  ghost predicate WellFormedEntry(e: LetterEntry)
  {
    |e.letters| == LetterCount && Distinct(e.letters) && e.signature == Signature(e.letters)
  }

  predicate HasSignature(entries: seq<LetterEntry>, signature: string)
  {
    exists k :: 0 <= k < |entries| && entries[k].signature == signature
  }

  /** A word that can seed a puzzle: at least seven UTF-16 code units (`JsLength`) and
      exactly seven distinct letters. */
  predicate IsSeedWord(w: string)
  {
    JsLength(w) >= LetterCount && |UniqueLetters(w)| == LetterCount
  }

  /** The first loop of `buildCandidates`: one entry per signature, in the
      order the signatures first occur. */
  function SevenLetterSets(words: seq<string>): (r: seq<LetterEntry>)
    ensures forall k :: 0 <= k < |r| ==> WellFormedEntry(r[k])
    ensures forall i, j :: 0 <= i < j < |r| ==> r[i].signature != r[j].signature
  {
    if |words| == 0 then []
    else
      var r := SevenLetterSets(words[..|words| - 1]);
      var w := words[|words| - 1];
      if !IsSeedWord(w) then r
      else
        var chars := UniqueLetters(w);
        var signature := Signature(chars);
        if HasSignature(r, signature) then r else r + [LetterEntry(signature, chars)]
  }

  /** One more word keeps every signature already present and adds its own
      when it is a seed word. */
  lemma SevenLetterSetsStep(init: seq<string>, w: string, sig: string)
    requires HasSignature(SevenLetterSets(init), sig) || (IsSeedWord(w) && sig == Signature(UniqueLetters(w)))
    ensures HasSignature(SevenLetterSets(init + [w]), sig)
  {
    var words := init + [w];
    assert words[..|words| - 1] == init;
    var r := SevenLetterSets(init);
    var r' := SevenLetterSets(words);
    if HasSignature(r, sig) {
      var k :| 0 <= k < |r| && r[k].signature == sig;
      assert r'[k] == r[k];
    } else {
      assert r'[|r|].signature == sig;
    }
  }

  /** Every seed word's signature has an entry. */
  lemma {:induction false} SevenLetterSetsComplete(words: seq<string>)
    ensures forall w :: w in words && IsSeedWord(w) ==> HasSignature(SevenLetterSets(words), Signature(UniqueLetters(w)))
  {
    if |words| > 0 {
      var init := words[..|words| - 1];
      var w := words[|words| - 1];
      assert words == init + [w];
      SevenLetterSetsComplete(init);
      forall v | v in words && IsSeedWord(v) ensures HasSignature(SevenLetterSets(words), Signature(UniqueLetters(v))) {
        assert v in init || v == w;
        SevenLetterSetsStep(init, w, Signature(UniqueLetters(v)));
      }
    }
  }

  /** Every entry's letters are those of some seed word. */
  lemma {:induction false} SevenLetterSetsSound(words: seq<string>)
    ensures forall k :: 0 <= k < |SevenLetterSets(words)| ==>
      exists w :: w in words && IsSeedWord(w) && UniqueLetters(w) == SevenLetterSets(words)[k].letters
  {
    if |words| > 0 {
      var init := words[..|words| - 1];
      var w := words[|words| - 1];
      assert words == init + [w];
      SevenLetterSetsSound(init);
      var r := SevenLetterSets(init);
      var r' := SevenLetterSets(words);
      assert |r| <= |r'|;
      forall k | 0 <= k < |r'| ensures exists v :: v in words && IsSeedWord(v) && UniqueLetters(v) == r'[k].letters {
        if k < |r| {
          assert r'[k] == r[k];
          var v :| v in init && IsSeedWord(v) && UniqueLetters(v) == r[k].letters;
          assert v in words;
        } else {
          assert IsSeedWord(w) && r' == r + [LetterEntry(Signature(UniqueLetters(w)), UniqueLetters(w))];
          assert r'[k].letters == UniqueLetters(w);
          assert w in words;
        }
      }
      assert forall k :: 0 <= k < |r'| ==> exists v :: v in words && IsSeedWord(v) && UniqueLetters(v) == r'[k].letters;
    } else {
      assert SevenLetterSets(words) == [];
    }
  }

  /** A candidate puzzle. */
  datatype Candidate = Candidate(
    signature: string,
    coreKey: string,
    centerLetter: char,
    outerLetters: seq<char>,
    validWords: seq<string>,
    pangrams: seq<string>,
    maxScore: int,
    rankThresholds: seq<Tier>,
    quality: int)

  /** `${signature}:${centerLetter}`. */
  function CoreKey(signature: string, center: char): string
  {
    signature + ":" + [center]
  }

  /** Different (signature, centre) pairs with 7-letter signatures have
      different keys. */
  lemma CoreKeyInjective(s1: string, c1: char, s2: string, c2: char)
    requires |s1| == |s2|
    requires CoreKey(s1, c1) == CoreKey(s2, c2)
    ensures s1 == s2 && c1 == c2
  {
    assert s1 == CoreKey(s1, c1)[..|s1|];
    assert s2 == CoreKey(s2, c2)[..|s2|];
    assert c1 == CoreKey(s1, c1)[|s1| + 1];
  }

  /** The candidate for one entry and centre, if it has enough words and
      pangrams (the body of the inner loop). */
  function TryCandidate(e: LetterEntry, center: char, words: seq<string>): (r: seq<Candidate>)
    ensures |r| <= 1
  {
    var allowed := Elements(e.letters);
    var valid := ValidWords(words, center, allowed);
    var pangrams := Pangrams(valid, allowed);
    if |valid| < MinWords || |pangrams| < MinPangrams then []
    else
      var maxScore := MaxScore(valid, Elements(pangrams));
      [Candidate(
        e.signature,
        CoreKey(e.signature, center),
        center,
        SortChars(Remove(e.letters, center)),
        SortStrings(valid),
        SortStrings(pangrams),
        maxScore,
        RankThresholds(maxScore),
        maxScore + |valid| * 3 + |pangrams| * 10)]
  }

  /** The inner loop over the centre letters of one entry. */
  function EntryCandidates(e: LetterEntry, centers: seq<char>, words: seq<string>): seq<Candidate>
  {
    if |centers| == 0 then []
    else TryCandidate(e, centers[0], words) + EntryCandidates(e, centers[1..], words)
  }

  /** The outer loop over the entries. */
  function Generate(entries: seq<LetterEntry>, words: seq<string>): seq<Candidate>
  {
    if |entries| == 0 then []
    else
      EntryCandidates(entries[0], entries[0].letters, words) + Generate(entries[1..], words)
  }

  /** The comparator `(a, b) => b.quality - a.quality`: higher quality
      first, ties kept in place by the stable sort. */
  predicate QualityGe(a: Candidate, b: Candidate)
  {
    a.quality >= b.quality
  }

  lemma QualityGeTotal()
    ensures Total(QualityGe) && Transitive(QualityGe)
  {
  }

  /** `uniqueByCore`: the first candidate for each core key, in order. */
  function UniqueByCore(cs: seq<Candidate>): (r: seq<Candidate>)
    ensures forall i, j :: 0 <= i < j < |r| ==> r[i].coreKey != r[j].coreKey
    ensures forall c :: c in r ==> c in cs
  {
    if |cs| == 0 then []
    else
      var r := UniqueByCore(cs[..|cs| - 1]);
      var c := cs[|cs| - 1];
      assert cs == cs[..|cs| - 1] + [c];
      if exists k :: 0 <= k < |r| && r[k].coreKey == c.coreKey then r else r + [c]
  }

  /** Every core key of the input survives in the output. */
  lemma {:induction false} UniqueByCoreCovers(cs: seq<Candidate>, c: Candidate)
    requires c in cs
    ensures exists k :: 0 <= k < |UniqueByCore(cs)| && UniqueByCore(cs)[k].coreKey == c.coreKey
  {
    var init := cs[..|cs| - 1];
    var last := cs[|cs| - 1];
    assert cs == init + [last];
    var r := UniqueByCore(init);
    var r' := UniqueByCore(cs);
    assert |r| <= |r'| && forall k :: 0 <= k < |r| ==> r'[k] == r[k];
    if c in init {
      UniqueByCoreCovers(init, c);
      var k :| 0 <= k < |r| && r[k].coreKey == c.coreKey;
      assert r'[k].coreKey == c.coreKey;
    } else {
      assert c == last;
      if !exists k :: 0 <= k < |r| && r[k].coreKey == c.coreKey {
        assert r'[|r|] == c;
      }
    }
  }

  /** `buildCandidates`: no two candidates share a core key. */
  function BuildCandidates(words: seq<string>): (r: seq<Candidate>)
    ensures forall i, j :: 0 <= i < j < |r| ==> r[i].coreKey != r[j].coreKey
  {
    QualityGeTotal();
    UniqueByCore(SortBy(Generate(SevenLetterSets(words), words), QualityGe))
  }

  /** The letters of a candidate: the characters of its signature. */
  function Letters(c: Candidate): set<char>
  {
    LetterSet(c.signature)
  }

  /** The letter fields of an emitted candidate: seven letters, the centre
      among them, the six others sorted as `outerLetters`, and the core key
      built from signature and centre. */
  ghost predicate LettersOk(c: Candidate)
  {
    && |c.signature| == LetterCount
    && |Letters(c)| == LetterCount
    && c.centerLetter in Letters(c)
    && c.coreKey == CoreKey(c.signature, c.centerLetter)
    && Sorted(CharLe, c.outerLetters)
    && |c.outerLetters| == LetterCount - 1
    && (forall ch :: ch in c.outerLetters <==> ch in Letters(c) && ch != c.centerLetter)
  }

  /** The word fields of an emitted candidate: the words of the list that
      contain the centre and use only the seven letters, sorted; the
      pangrams among them, sorted; enough of each. */
  ghost predicate WordsOk(c: Candidate, words: seq<string>)
  {
    && |c.validWords| >= MinWords
    && |c.pangrams| >= MinPangrams
    && Sorted(StrLe, c.validWords)
    && Sorted(StrLe, c.pangrams)
    && (forall w :: w in c.validWords <==> w in words && c.centerLetter in w && LetterSet(w) <= Letters(c))
    && (forall w :: w in c.pangrams <==> w in c.validWords && LetterSet(w) == Letters(c))
  }

  /** The score fields: `maxScore` is the maximum score of the word list
      with its pangrams, the thresholds derive from it, and `quality`
      weighs score, word count and pangram count. */
  ghost predicate ScoreOk(c: Candidate)
  {
    && c.maxScore == MaxScore(c.validWords, Elements(c.pangrams))
    && c.rankThresholds == RankThresholds(c.maxScore)
    && c.quality == c.maxScore + 3 * |c.validWords| + 10 * |c.pangrams|
  }

  ghost predicate WellFormed(c: Candidate, words: seq<string>)
  {
    LettersOk(c) && WordsOk(c, words) && ScoreOk(c)
  }

  /** The signature of a well-formed entry spells its seven letters. */
  lemma EntrySignature(e: LetterEntry)
    requires WellFormedEntry(e)
    ensures |e.signature| == LetterCount
    ensures LetterSet(e.signature) == Elements(e.letters)
    ensures |LetterSet(e.signature)| == LetterCount
  {
    PermutationMembers(e.letters, e.signature);
    DistinctCard(e.letters);
  }

  lemma TryCandidateLetters(e: LetterEntry, center: char, words: seq<string>, c: Candidate)
    requires WellFormedEntry(e) && center in e.letters
    requires c in TryCandidate(e, center, words)
    ensures LettersOk(c) && c.signature == e.signature && c.centerLetter == center
  {
    EntrySignature(e);
    var outer := Remove(e.letters, center);
    assert c.outerLetters == SortChars(outer);
    PermutationMembers(outer, c.outerLetters);
  }

  lemma TryCandidateWords(e: LetterEntry, center: char, words: seq<string>, c: Candidate)
    requires WellFormedEntry(e) && center in e.letters
    requires c in TryCandidate(e, center, words)
    ensures WordsOk(c, words)
  {
    EntrySignature(e);
    var allowed := Elements(e.letters);
    var valid := ValidWords(words, center, allowed);
    var pangrams := Pangrams(valid, allowed);
    assert c.validWords == SortStrings(valid) && c.pangrams == SortStrings(pangrams);
    assert Letters(c) == allowed;
    PermutationMembers(valid, c.validWords);
    PermutationMembers(pangrams, c.pangrams);
  }

  lemma TryCandidateScore(e: LetterEntry, center: char, words: seq<string>, c: Candidate)
    requires WellFormedEntry(e) && center in e.letters
    requires c in TryCandidate(e, center, words)
    ensures ScoreOk(c)
  {
    var allowed := Elements(e.letters);
    var valid := ValidWords(words, center, allowed);
    var pangrams := Pangrams(valid, allowed);
    var ps := Elements(pangrams);
    var m := MaxScore(valid, ps);
    assert c.validWords == SortStrings(valid) && c.pangrams == SortStrings(pangrams);
    assert c.maxScore == m && c.rankThresholds == RankThresholds(m);
    assert c.quality == m + |valid| * 3 + |pangrams| * 10;
    PermutationMembers(pangrams, c.pangrams);
    assert Elements(c.pangrams) == ps;
    MaxScorePermutation(valid, c.validWords, ps);
  }

  lemma TryCandidateWellFormed(e: LetterEntry, center: char, words: seq<string>, c: Candidate)
    requires WellFormedEntry(e) && center in e.letters
    requires c in TryCandidate(e, center, words)
    ensures WellFormed(c, words) && c.signature == e.signature && c.centerLetter == center
  {
    TryCandidateLetters(e, center, words, c);
    TryCandidateWords(e, center, words, c);
    TryCandidateScore(e, center, words, c);
  }

  /** No two candidates share a core key. */
  ghost predicate KeysDistinct(cs: seq<Candidate>)
  {
    forall i, j :: 0 <= i < j < |cs| ==> cs[i].coreKey != cs[j].coreKey
  }

  lemma KeysDistinctConcat(a: seq<Candidate>, b: seq<Candidate>)
    requires KeysDistinct(a) && KeysDistinct(b)
    requires forall x, y :: x in a && y in b ==> x.coreKey != y.coreKey
    ensures KeysDistinct(a + b)
  {
    forall i, j | 0 <= i < j < |a + b| ensures (a + b)[i].coreKey != (a + b)[j].coreKey {
      if j < |a| {
        assert (a + b)[i] == a[i] && (a + b)[j] == a[j];
      } else if i < |a| {
        assert (a + b)[i] in a && (a + b)[j] in b;
      } else {
        assert (a + b)[i] == b[i - |a|] && (a + b)[j] == b[j - |a|];
      }
    }
  }

  /** Reordering keeps the keys distinct. */
  lemma KeysDistinctPermutation(a: seq<Candidate>, b: seq<Candidate>)
    requires KeysDistinct(a) && multiset(a) == multiset(b)
    ensures KeysDistinct(b)
  {
    assert Distinct(a);
    DistinctPermutation(a, b);
    forall i, j | 0 <= i < j < |b| ensures b[i].coreKey != b[j].coreKey {
      assert b[i] in multiset(b) && b[j] in multiset(b);
      var p :| 0 <= p < |a| && a[p] == b[i];
      var q :| 0 <= q < |a| && a[q] == b[j];
      assert p != q;
    }
  }

  /** The candidates of one entry, over distinct centres among its letters:
      all well formed, with the entry's signature, and distinct keys. */
  lemma {:induction false} EntryCandidatesFacts(e: LetterEntry, centers: seq<char>, words: seq<string>)
    requires WellFormedEntry(e) && Distinct(centers)
    requires forall ch :: ch in centers ==> ch in e.letters
    ensures forall c :: c in EntryCandidates(e, centers, words) ==>
      WellFormed(c, words) && c.signature == e.signature && c.centerLetter in centers
    ensures KeysDistinct(EntryCandidates(e, centers, words))
  {
    if |centers| > 0 {
      var head := TryCandidate(e, centers[0], words);
      var rest := EntryCandidates(e, centers[1..], words);
      assert Distinct(centers[1..]) by {
        forall i, j | 0 <= i < j < |centers[1..]| ensures centers[1..][i] != centers[1..][j] {
          assert centers[i + 1] != centers[j + 1];
        }
      }
      assert centers[0] !in centers[1..] by {
        forall k | 0 <= k < |centers[1..]| ensures centers[1..][k] != centers[0] {
          assert centers[k + 1] != centers[0];
        }
      }
      EntryCandidatesFacts(e, centers[1..], words);
      forall c | c in head ensures WellFormed(c, words) && c.signature == e.signature && c.centerLetter == centers[0] {
        TryCandidateWellFormed(e, centers[0], words, c);
      }
      forall x, y | x in head && y in rest ensures x.coreKey != y.coreKey {
        if x.coreKey == y.coreKey {
          CoreKeyInjective(x.signature, x.centerLetter, y.signature, y.centerLetter);
        }
      }
      KeysDistinctConcat(head, rest);
    }
  }

  /** Every candidate of an entry carries the entry's signature, and its
      key is built from it. */
  lemma {:induction false} EntryCandidatesSignature(e: LetterEntry, centers: seq<char>, words: seq<string>)
    ensures forall c :: c in EntryCandidates(e, centers, words) ==>
      c.signature == e.signature && c.coreKey == CoreKey(c.signature, c.centerLetter)
  {
    if |centers| > 0 {
      EntryCandidatesSignature(e, centers[1..], words);
    }
  }

  /** Every generated candidate comes from one of the entries. */
  lemma {:induction false} GenerateFrom(entries: seq<LetterEntry>, words: seq<string>)
    ensures forall c :: c in Generate(entries, words) ==>
      exists k :: 0 <= k < |entries| && c in EntryCandidates(entries[k], entries[k].letters, words)
  {
    if |entries| > 0 {
      var tail := entries[1..];
      assert forall k :: 0 <= k < |tail| ==> tail[k] == entries[k + 1];
      GenerateFrom(tail, words);
      var head := EntryCandidates(entries[0], entries[0].letters, words);
      assert Generate(entries, words) == head + Generate(tail, words);
      forall c | c in Generate(entries, words)
        ensures exists k :: 0 <= k < |entries| && c in EntryCandidates(entries[k], entries[k].letters, words)
      {
        if c !in head {
          var k :| 0 <= k < |tail| && c in EntryCandidates(tail[k], tail[k].letters, words);
          assert tail[k] == entries[k + 1];
        }
      }
    }
  }

  /** Entries with distinct signatures generate candidates with distinct
      keys. */
  lemma {:induction false} GenerateKeysDistinct(entries: seq<LetterEntry>, words: seq<string>)
    requires forall k :: 0 <= k < |entries| ==> WellFormedEntry(entries[k])
    requires forall i, j :: 0 <= i < j < |entries| ==> entries[i].signature != entries[j].signature
    ensures KeysDistinct(Generate(entries, words))
  {
    if |entries| > 0 {
      var e := entries[0];
      var tail := entries[1..];
      assert forall k :: 0 <= k < |tail| ==> tail[k] == entries[k + 1];
      GenerateKeysDistinct(tail, words);
      GenerateFrom(tail, words);
      var head := EntryCandidates(e, e.letters, words);
      var rest := Generate(tail, words);
      assert WellFormedEntry(e);
      assert KeysDistinct(head) by {
        EntryCandidatesFacts(e, e.letters, words);
      }
      EntryCandidatesSignature(e, e.letters, words);
      EntrySignature(e);
      forall x, y | x in head && y in rest ensures x.coreKey != y.coreKey {
        var k :| 0 <= k < |tail| && y in EntryCandidates(tail[k], tail[k].letters, words);
        assert tail[k] == entries[k + 1];
        assert y.coreKey == CoreKey(y.signature, y.centerLetter) && y.signature == entries[k + 1].signature by {
          EntryCandidatesSignature(tail[k], tail[k].letters, words);
        }
        assert |entries[k + 1].signature| == LetterCount by {
          assert WellFormedEntry(entries[k + 1]);
          EntrySignature(entries[k + 1]);
        }
        KeysDiffer(x, y);
      }
      assert Generate(entries, words) == head + rest;
      KeysDistinctConcat(head, rest);
    }
  }

  /** Candidates with different signatures of one length have different
      keys. */
  lemma KeysDiffer(x: Candidate, y: Candidate)
    requires x.coreKey == CoreKey(x.signature, x.centerLetter)
    requires y.coreKey == CoreKey(y.signature, y.centerLetter)
    requires |x.signature| == |y.signature| && x.signature != y.signature
    ensures x.coreKey != y.coreKey
  {
    if x.coreKey == y.coreKey {
      CoreKeyInjective(x.signature, x.centerLetter, y.signature, y.centerLetter);
    }
  }

  /** The candidates of entries with distinct signatures: all well formed,
      each from one of the entries, with distinct keys. */
  lemma GenerateFacts(entries: seq<LetterEntry>, words: seq<string>)
    requires forall k :: 0 <= k < |entries| ==> WellFormedEntry(entries[k])
    requires forall i, j :: 0 <= i < j < |entries| ==> entries[i].signature != entries[j].signature
    ensures forall c :: c in Generate(entries, words) ==>
      WellFormed(c, words) && HasSignature(entries, c.signature)
    ensures KeysDistinct(Generate(entries, words))
  {
    GenerateFrom(entries, words);
    forall c | c in Generate(entries, words) ensures WellFormed(c, words) && HasSignature(entries, c.signature) {
      var k :| 0 <= k < |entries| && c in EntryCandidates(entries[k], entries[k].letters, words);
      assert WellFormedEntry(entries[k]);
      EntryCandidatesFacts(entries[k], entries[k].letters, words);
    }
    GenerateKeysDistinct(entries, words);
  }

  /** With distinct keys already, `uniqueByCore` keeps everything. */
  lemma {:induction false} UniqueByCoreKeepsDistinct(cs: seq<Candidate>)
    requires KeysDistinct(cs)
    ensures UniqueByCore(cs) == cs
  {
    if |cs| > 0 {
      var init := cs[..|cs| - 1];
      var c := cs[|cs| - 1];
      assert KeysDistinct(init) by {
        forall i, j | 0 <= i < j < |init| ensures init[i].coreKey != init[j].coreKey {
          assert init[i] == cs[i] && init[j] == cs[j];
        }
      }
      UniqueByCoreKeepsDistinct(init);
      assert !exists k :: 0 <= k < |init| && init[k].coreKey == c.coreKey by {
        forall k | 0 <= k < |init| ensures init[k].coreKey != c.coreKey {
          assert init[k] == cs[k];
        }
      }
      assert cs == init + [c];
    }
  }

  /** Since generation never repeats a key, `uniqueByCore` drops nothing:
      the output is all generated candidates, sorted by quality. */
  lemma BuildCandidatesSorts(words: seq<string>)
    ensures Total(QualityGe)
    ensures BuildCandidates(words) == SortBy(Generate(SevenLetterSets(words), words), QualityGe)
  {
    var entries := SevenLetterSets(words);
    var g := Generate(entries, words);
    QualityGeTotal();
    var sorted := SortBy(g, QualityGe);
    GenerateFacts(entries, words);
    KeysDistinctPermutation(g, sorted);
    UniqueByCoreKeepsDistinct(sorted);
  }

  /** Every emitted candidate is well formed and comes from a seed word of
      the list, no two share a core key, and the list runs from highest to
      lowest quality. */
  lemma BuildCandidatesFacts(words: seq<string>)
    ensures var r := BuildCandidates(words);
      && (forall c :: c in r ==> WellFormed(c, words))
      && (forall c :: c in r ==> exists w :: w in words && IsSeedWord(w) && c.signature == Signature(UniqueLetters(w)))
      && KeysDistinct(r)
      && Sorted(QualityGe, r)
      && multiset(r) == multiset(Generate(SevenLetterSets(words), words))
  {
    var entries := SevenLetterSets(words);
    var g := Generate(entries, words);
    BuildCandidatesSorts(words);
    var r := BuildCandidates(words);
    GenerateFacts(entries, words);
    KeysDistinctPermutation(g, r);
    SevenLetterSetsSound(words);
    forall c | c in r
      ensures WellFormed(c, words)
      ensures exists w :: w in words && IsSeedWord(w) && c.signature == Signature(UniqueLetters(w))
    {
      assert c in multiset(r);
      assert c in g;
      var k :| 0 <= k < |entries| && entries[k].signature == c.signature;
      var w :| w in words && IsSeedWord(w) && UniqueLetters(w) == entries[k].letters;
    }
  }

  lemma {:induction false} EntryCandidatesContains(e: LetterEntry, centers: seq<char>, words: seq<string>, center: char)
    requires center in centers
    ensures forall c :: c in TryCandidate(e, center, words) ==> c in EntryCandidates(e, centers, words)
  {
    if centers[0] != center {
      EntryCandidatesContains(e, centers[1..], words, center);
    }
  }

  /** Membership in one step of the outer loop. */
  lemma GenerateUnfold(entries: seq<LetterEntry>, words: seq<string>)
    requires |entries| > 0
    ensures forall x :: x in Generate(entries, words) <==>
      x in EntryCandidates(entries[0], entries[0].letters, words) || x in Generate(entries[1..], words)
  {
  }

  lemma {:induction false} GenerateContains(entries: seq<LetterEntry>, words: seq<string>, k: nat, c: Candidate)
    requires k < |entries|
    requires c in EntryCandidates(entries[k], entries[k].letters, words)
    ensures c in Generate(entries, words)
  {
    GenerateUnfold(entries, words);
    if k > 0 {
      var rest := entries[1..];
      assert rest[k - 1] == entries[k];
      assert c in Generate(rest, words) by {
        GenerateContains(rest, words, k - 1, c);
      }
    }
  }

  /** Equal signatures mean equal letter sets. */
  lemma SignatureLetters(a: seq<char>, b: seq<char>)
    requires Signature(a) == Signature(b)
    ensures Elements(a) == Elements(b)
  {
    PermutationMembers(a, Signature(a));
    PermutationMembers(b, Signature(b));
  }

  /** An entry with enough words and a pangram yields its candidate. */
  lemma TryCandidateEmits(e: LetterEntry, center: char, words: seq<string>)
    requires |ValidWords(words, center, Elements(e.letters))| >= MinWords
    requires |Pangrams(ValidWords(words, center, Elements(e.letters)), Elements(e.letters))| >= MinPangrams
    ensures |TryCandidate(e, center, words)| == 1
    ensures TryCandidate(e, center, words)[0].coreKey == CoreKey(e.signature, center)
  {
  }

  /** The entry that a seed word's signature has, with the word's letters. */
  lemma SeedEntry(words: seq<string>, w: string) returns (k: nat)
    requires w in words && IsSeedWord(w)
    ensures k < |SevenLetterSets(words)|
    ensures SevenLetterSets(words)[k].signature == Signature(UniqueLetters(w))
    ensures Elements(SevenLetterSets(words)[k].letters) == LetterSet(w)
  {
    var entries := SevenLetterSets(words);
    SevenLetterSetsComplete(words);
    k :| 0 <= k < |entries| && entries[k].signature == Signature(UniqueLetters(w));
    EntryLetters(entries[k], w);
  }

  /** A well-formed entry with a word's signature holds that word's letters. */
  lemma EntryLetters(e: LetterEntry, w: string)
    requires WellFormedEntry(e) && e.signature == Signature(UniqueLetters(w))
    ensures Elements(e.letters) == LetterSet(w)
  {
    SignatureLetters(e.letters, UniqueLetters(w));
    assert Elements(UniqueLetters(w)) == LetterSet(w);
  }

  /** Conversely, every (seed word, centre) pair with enough words and a
      pangram over the seed's letters yields an emitted candidate. */
  lemma BuildCandidatesComplete(words: seq<string>, w: string, center: char)
    requires w in words && IsSeedWord(w) && center in w
    requires |ValidWords(words, center, LetterSet(w))| >= MinWords
    requires |Pangrams(ValidWords(words, center, LetterSet(w)), LetterSet(w))| >= MinPangrams
    ensures exists c :: c in BuildCandidates(words) && c.coreKey == CoreKey(Signature(UniqueLetters(w)), center)
  {
    var c := GeneratedCandidate(words, w, center);
    BuildCandidatesSorts(words);
    assert c in multiset(Generate(SevenLetterSets(words), words));
    assert c in BuildCandidates(words);
  }

  /** The generation loop emits the seed word's candidate for the centre. */
  lemma GeneratedCandidate(words: seq<string>, w: string, center: char) returns (c: Candidate)
    requires w in words && IsSeedWord(w) && center in w
    requires |ValidWords(words, center, LetterSet(w))| >= MinWords
    requires |Pangrams(ValidWords(words, center, LetterSet(w)), LetterSet(w))| >= MinPangrams
    ensures c in Generate(SevenLetterSets(words), words)
    ensures c.coreKey == CoreKey(Signature(UniqueLetters(w)), center)
  {
    var entries := SevenLetterSets(words);
    var k := SeedEntry(words, w);
    var e := entries[k];
    assert WellFormedEntry(e);
    assert center in e.letters;
    TryCandidateEmits(e, center, words);
    var cs := TryCandidate(e, center, words);
    c := cs[0];
    assert c in cs;
    EntryCandidatesContains(e, e.letters, words, center);
    GenerateContains(entries, words, k, c);
  }

}

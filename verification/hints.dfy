/** Hints for the words still to find (src/core/hints.js): how many remain,
    what they are worth, and a count per two-letter prefix. */
module Hints {
  import opened Seqs
  import opened Orders
  import opened Scoring
  import opened Text

  /** One `byPrefix2` entry: a prefix with its found and total word counts. */
  datatype Bucket = Bucket(prefix: string, found: nat, total: nat)

  /** The result of `computeHints`. */
  datatype HintReport = HintReport(remainingTotalPoints: nat, remainingWordCount: nat, byPrefix2: seq<Bucket>)

  /** `word.slice(0, 2)` when the slice ends between two characters, as
      it does unless the second character lies outside the Basic
      Multilingual Plane. */
  predicate SliceWhole(word: string)
  {
    |word| < 2 || (word[0] as int) >= 0x1_0000 || (word[1] as int) < 0x1_0000
  }

  /** `word.slice(0, 2)`: the first two UTF-16 code units. A leading
      character outside the Basic Multilingual Plane fills both units on its
      own. When the second character lies outside it, the slice ends in half
      a surrogate pair, which a `string` cannot hold; the model keeps the
      first character there. */
  function Prefix2(word: string): (r: string)
    ensures r <= word && |r| <= 2
  {
    word[..PrefixLength(word)]
  }

  /** How many characters the first two code units cover. */
  function PrefixLength(word: string): (k: nat)
    ensures k <= |word| && k <= 2
  {
    if |word| >= 2 && (word[0] as int) < 0x1_0000 && (word[1] as int) < 0x1_0000 then 2
    else if |word| >= 1 then 1 else 0
  }

  /** The prefix is the first two code units of the word, or the whole word
      when it has fewer; only a slice that would split a surrogate pair
      keeps the first character alone. */
  lemma Prefix2Units(word: string)
    ensures CodeUnits(Prefix2(word)) <= CodeUnits(word)
    ensures SliceWhole(word) ==>
      JsLength(Prefix2(word)) == if JsLength(word) < 2 then JsLength(word) else 2
    ensures !SliceWhole(word) ==> Prefix2(word) == word[..1]
  {
    var r := Prefix2(word);
    assert word == r + word[|r|..];
    CodeUnitsConcat(r, word[|r|..]);
    if |r| == 2 {
      JsLengthPair(r);
    } else if |r| == 1 {
      JsLengthOne(r);
    }
  }

  /** The words of `words` that are not in `found`, in order. */
  function Unfound(words: seq<string>, found: set<string>): (r: seq<string>)
    ensures |r| <= |words|
  {
    if |words| == 0 then []
    else
      var last := words[|words| - 1];
      Unfound(words[..|words| - 1], found) + (if last in found then [] else [last])
  }

  /** The unfound words are exactly the words not in `found`. */
  lemma {:induction false} UnfoundMembers(words: seq<string>, found: set<string>)
    ensures forall w :: w in Unfound(words, found) <==> w in words && w !in found
  {
    if |words| > 0 {
      var last := words[|words| - 1];
      assert words == words[..|words| - 1] + [last];
      UnfoundMembers(words[..|words| - 1], found);
    }
  }

  /** With none of the words found, every word is unfound, in order. */
  lemma {:induction false} UnfoundNone(words: seq<string>, found: set<string>)
    requires forall i :: 0 <= i < |words| ==> words[i] !in found
    ensures Unfound(words, found) == words
  {
    if |words| > 0 {
      var init := words[..|words| - 1];
      assert forall i :: 0 <= i < |init| ==> init[i] == words[i];
      UnfoundNone(init, found);
      assert words == init + [words[|words| - 1]];
    }
  }

  /** How many words (with repetitions) have prefix `p`. */
  function CountPrefix(words: seq<string>, p: string): nat
  {
    if |words| == 0 then 0
    else CountPrefix(words[..|words| - 1], p) + (if Prefix2(words[|words| - 1]) == p then 1 else 0)
  }

  /** How many words with prefix `p` are in `found`. */
  function CountFoundPrefix(words: seq<string>, found: set<string>, p: string): nat
  {
    if |words| == 0 then 0
    else
      var last := words[|words| - 1];
      CountFoundPrefix(words[..|words| - 1], found, p) + (if Prefix2(last) == p && last in found then 1 else 0)
  }

  lemma {:induction false} CountFoundAtMostCount(words: seq<string>, found: set<string>, p: string)
    ensures CountFoundPrefix(words, found, p) <= CountPrefix(words, p)
  {
    if |words| > 0 {
      CountFoundAtMostCount(words[..|words| - 1], found, p);
    }
  }

  lemma {:induction false} CountPrefixPositive(words: seq<string>, p: string)
    ensures CountPrefix(words, p) > 0 <==> exists i :: 0 <= i < |words| && Prefix2(words[i]) == p
  {
    if |words| > 0 {
      var init := words[..|words| - 1];
      CountPrefixPositive(init, p);
      if exists i :: 0 <= i < |init| && Prefix2(init[i]) == p {
        var i :| 0 <= i < |init| && Prefix2(init[i]) == p;
        assert words[i] == init[i];
      }
      if exists i :: 0 <= i < |words| && Prefix2(words[i]) == p {
        var i :| 0 <= i < |words| && Prefix2(words[i]) == p;
        if i < |init| {
          assert init[i] == words[i];
        }
      }
    }
  }

  /** The prefixes of a bucket list. */
  function Prefixes(e: seq<Bucket>): set<string>
  {
    set k | 0 <= k < |e| :: e[k].prefix
  }

  /** No prefix has two buckets (the keys of a `Map`). */
  ghost predicate DistinctPrefixes(e: seq<Bucket>)
  {
    forall i, j :: 0 <= i < j < |e| ==> e[i].prefix != e[j].prefix
  }

  /** The words still to find in a bucket. */
  function Remaining(b: Bucket): int
  {
    b.total - b.found
  }

  /** `Map.prototype.get` on the buckets: the position of `p`, or `|e|`. */
  function IndexOf(e: seq<Bucket>, p: string): (i: nat)
    ensures i <= |e|
    ensures i < |e| ==> e[i].prefix == p
    ensures i == |e| ==> p !in Prefixes(e)
  {
    if |e| == 0 then 0
    else if e[0].prefix == p then 0
    else
      var k := IndexOf(e[1..], p);
      assert forall j :: 0 < j < |e| ==> e[j] == e[1..][j - 1];
      k + 1
  }

  /** One iteration of the loop on the buckets: the word's prefix gets one
      more word, and one more found word if the word is found; a new prefix
      is appended with those counts. */
  function Bump(e: seq<Bucket>, p: string, isFound: bool): (r: seq<Bucket>)
  {
    var inc := if isFound then 1 else 0;
    var i := IndexOf(e, p);
    if i < |e| then e[i := Bucket(p, e[i].found + inc, e[i].total + 1)]
    else e + [Bucket(p, inc, 1)]
  }

  /** The loop's running state: the buckets in insertion order, the points
      and the count of the words not found. */
  datatype Tally = Tally(buckets: seq<Bucket>, points: nat, count: nat)

  function Step(t: Tally, word: string, found: set<string>, pangrams: set<string>): Tally
  {
    var isFound := word in found;
    Tally(Bump(t.buckets, Prefix2(word), isFound),
          if isFound then t.points else t.points + WordScore(word, word in pangrams),
          if isFound then t.count else t.count + 1)
  }

  /** The loop of `computeHints` over `validWords`, from the left. */
  function Accumulate(words: seq<string>, found: set<string>, pangrams: set<string>): Tally
  {
    if |words| == 0 then Tally([], 0, 0)
    else Step(Accumulate(words[..|words| - 1], found, pangrams), words[|words| - 1], found, pangrams)
  }

  /** The buckets hold one entry per prefix of `words`, with its counts. */
  ghost predicate BucketsOf(e: seq<Bucket>, words: seq<string>, found: set<string>)
  {
    && DistinctPrefixes(e)
    && (forall p :: p in Prefixes(e) <==> CountPrefix(words, p) > 0)
    && CountsOf(e, words, found)
  }

  ghost predicate CountsOf(e: seq<Bucket>, words: seq<string>, found: set<string>)
  {
    forall k :: 0 <= k < |e| ==>
      e[k].total == CountPrefix(words, e[k].prefix) && e[k].found == CountFoundPrefix(words, found, e[k].prefix)
  }

  /** What the running state means after the loop has seen `words`. */
  ghost predicate TallyOf(t: Tally, words: seq<string>, found: set<string>, pangrams: set<string>)
  {
    && t.count == |Unfound(words, found)|
    && t.points == MaxScore(Unfound(words, found), pangrams)
    && BucketsOf(t.buckets, words, found)
    && Sum(t.buckets, Remaining) == t.count
  }

  /** Replacing a bucket by one with the same prefix keeps the prefixes. */
  lemma PrefixesUpdate(e: seq<Bucket>, i: nat, b: Bucket)
    requires i < |e| && b.prefix == e[i].prefix
    ensures Prefixes(e[i := b]) == Prefixes(e)
  {
    var r := e[i := b];
    forall q | q in Prefixes(r) ensures q in Prefixes(e) {
      var k :| 0 <= k < |r| && r[k].prefix == q;
      assert e[k].prefix == q;
    }
    forall q | q in Prefixes(e) ensures q in Prefixes(r) {
      var k :| 0 <= k < |e| && e[k].prefix == q;
      assert r[k].prefix == q;
    }
  }

  /** Appending a bucket adds its prefix. */
  lemma PrefixesSnoc(e: seq<Bucket>, b: Bucket)
    ensures Prefixes(e + [b]) == Prefixes(e) + {b.prefix}
  {
    var r := e + [b];
    forall q | q in Prefixes(r) ensures q in Prefixes(e) + {b.prefix} {
      var k :| 0 <= k < |r| && r[k].prefix == q;
      if k < |e| {
        assert e[k].prefix == q;
      }
    }
    assert r[|e|].prefix == b.prefix;
    forall q | q in Prefixes(e) ensures q in Prefixes(r) {
      var k :| 0 <= k < |e| && e[k].prefix == q;
      assert r[k].prefix == q;
    }
  }

  /** Bumping a prefix that already has a bucket updates that bucket only. */
  lemma BumpExisting(e: seq<Bucket>, p: string, isFound: bool)
    requires IndexOf(e, p) < |e|
    ensures var i := IndexOf(e, p);
      Bump(e, p, isFound) == e[i := Bucket(p, e[i].found + (if isFound then 1 else 0), e[i].total + 1)]
    ensures Prefixes(Bump(e, p, isFound)) == Prefixes(e)
    ensures Sum(Bump(e, p, isFound), Remaining) == Sum(e, Remaining) + (if isFound then 0 else 1)
  {
    var inc := if isFound then 1 else 0;
    var i := IndexOf(e, p);
    var nb := Bucket(p, e[i].found + inc, e[i].total + 1);
    var r := e[i := nb];
    assert Bump(e, p, isFound) == r;
    assert Remaining(nb) == Remaining(e[i]) + 1 - inc;
    SumUpdate(e, i, nb, Remaining);
    PrefixesUpdate(e, i, nb);
  }

  /** Bumping a new prefix appends a bucket for it. */
  lemma BumpNew(e: seq<Bucket>, p: string, isFound: bool)
    requires DistinctPrefixes(e)
    requires p !in Prefixes(e)
    ensures Bump(e, p, isFound) == e + [Bucket(p, if isFound then 1 else 0, 1)]
    ensures DistinctPrefixes(Bump(e, p, isFound))
    ensures Prefixes(Bump(e, p, isFound)) == Prefixes(e) + {p}
    ensures Sum(Bump(e, p, isFound), Remaining) == Sum(e, Remaining) + (if isFound then 0 else 1)
  {
    var inc := if isFound then 1 else 0;
    var r := e + [Bucket(p, inc, 1)];
    assert IndexOf(e, p) == |e|;
    assert Bump(e, p, isFound) == r;
    SumConcat(e, [Bucket(p, inc, 1)], Remaining);
    assert Sum([Bucket(p, inc, 1)], Remaining) == 1 - inc by {
      assert [Bucket(p, inc, 1)][..0] == [];
    }
    PrefixesSnoc(e, Bucket(p, inc, 1));
    forall a, b | 0 <= a < b < |r| ensures r[a].prefix != r[b].prefix {
      if b == |e| {
        assert e[a].prefix in Prefixes(e);
      }
    }
  }

  /** The counts of a word list extended by one word. */
  lemma CountsSnoc(words: seq<string>, word: string, found: set<string>, q: string)
    ensures CountPrefix(words + [word], q) == CountPrefix(words, q) + (if Prefix2(word) == q then 1 else 0)
    ensures CountFoundPrefix(words + [word], found, q)
      == CountFoundPrefix(words, found, q) + (if Prefix2(word) == q && word in found then 1 else 0)
  {
    assert (words + [word])[..|words|] == words;
  }

  /** One loop iteration keeps the count and the points right. */
  lemma StepTotals(t: Tally, words: seq<string>, word: string, found: set<string>, pangrams: set<string>)
    requires t.count == |Unfound(words, found)|
    requires t.points == MaxScore(Unfound(words, found), pangrams)
    ensures Step(t, word, found, pangrams).count == |Unfound(words + [word], found)|
    ensures Step(t, word, found, pangrams).points == MaxScore(Unfound(words + [word], found), pangrams)
  {
    var ws := words + [word];
    assert ws[..|ws| - 1] == words;
    var u := Unfound(words, found);
    if word !in found {
      assert Unfound(ws, found) == u + [word];
      assert (u + [word])[..|u|] == u;
      assert MaxScore(u + [word], pangrams) == MaxScore(u, pangrams) + WordScore(word, word in pangrams);
    } else {
      assert Unfound(ws, found) == u;
    }
  }

  /** The prefix sets after one more word. */
  lemma PrefixesStep(e: seq<Bucket>, r: seq<Bucket>, words: seq<string>, word: string, found: set<string>)
    requires forall p :: p in Prefixes(e) <==> CountPrefix(words, p) > 0
    requires Prefixes(r) == Prefixes(e) + {Prefix2(word)}
    ensures forall p :: p in Prefixes(r) <==> CountPrefix(words + [word], p) > 0
  {
    forall q ensures q in Prefixes(r) <==> CountPrefix(words + [word], q) > 0 {
      CountsSnoc(words, word, found, q);
    }
  }

  /** The counts after one more word whose prefix has a bucket. */
  lemma CountsStepExisting(e: seq<Bucket>, words: seq<string>, word: string, found: set<string>)
    requires DistinctPrefixes(e)
    requires IndexOf(e, Prefix2(word)) < |e|
    requires CountsOf(e, words, found)
    ensures CountsOf(Bump(e, Prefix2(word), word in found), words + [word], found)
    ensures DistinctPrefixes(Bump(e, Prefix2(word), word in found))
  {
    var p := Prefix2(word);
    forall q
      ensures CountPrefix(words + [word], q) == CountPrefix(words, q) + (if p == q then 1 else 0)
      ensures CountFoundPrefix(words + [word], found, q)
        == CountFoundPrefix(words, found, q) + (if p == q && word in found then 1 else 0)
    {
      CountsSnoc(words, word, found, q);
    }
    CountsBumped(e, words, words + [word], found, p, word in found);
    BumpDistinct(e, p, word in found);
  }

  /** Bumping the bucket of `p` keeps the counts right when the new list
      `ws` has one more word, with prefix `p`. */
  lemma CountsBumped(e: seq<Bucket>, words: seq<string>, ws: seq<string>, found: set<string>, p: string, isFound: bool)
    requires DistinctPrefixes(e)
    requires IndexOf(e, p) < |e|
    requires CountsOf(e, words, found)
    requires forall q :: CountPrefix(ws, q) == CountPrefix(words, q) + (if p == q then 1 else 0)
    requires forall q ::
      CountFoundPrefix(ws, found, q) == CountFoundPrefix(words, found, q) + (if p == q && isFound then 1 else 0)
    ensures CountsOf(Bump(e, p, isFound), ws, found)
  {
    var i := IndexOf(e, p);
    var r := Bump(e, p, isFound);
    BumpAt(e, p, isFound);
    forall k | 0 <= k < |r|
      ensures r[k].total == CountPrefix(ws, r[k].prefix)
      ensures r[k].found == CountFoundPrefix(ws, found, r[k].prefix)
    {
      if k != i {
        assert e[k].prefix != p;
      }
    }
  }

  /** Bumping an existing prefix keeps the prefixes distinct. */
  lemma BumpDistinct(e: seq<Bucket>, p: string, isFound: bool)
    requires DistinctPrefixes(e)
    requires IndexOf(e, p) < |e|
    ensures DistinctPrefixes(Bump(e, p, isFound))
  {
    var r := Bump(e, p, isFound);
    BumpAt(e, p, isFound);
    forall a, b | 0 <= a < b < |r| ensures r[a].prefix != r[b].prefix {
      assert e[a].prefix != e[b].prefix;
    }
  }

  /** Bumping an existing prefix changes its bucket alone. */
  lemma BumpAt(e: seq<Bucket>, p: string, isFound: bool)
    requires IndexOf(e, p) < |e|
    ensures |Bump(e, p, isFound)| == |e|
    ensures forall k :: 0 <= k < |e| && k != IndexOf(e, p) ==> Bump(e, p, isFound)[k] == e[k]
    ensures forall k :: 0 <= k < |e| ==> Bump(e, p, isFound)[k].prefix == e[k].prefix
    ensures var i := IndexOf(e, p);
      Bump(e, p, isFound)[i] == Bucket(p, e[i].found + (if isFound then 1 else 0), e[i].total + 1)
  {
  }

  /** The counts after one more word whose prefix is new. */
  lemma CountsStepNew(e: seq<Bucket>, words: seq<string>, word: string, found: set<string>)
    requires Prefix2(word) !in Prefixes(e)
    requires CountPrefix(words, Prefix2(word)) == 0
    requires CountsOf(e, words, found)
    ensures CountsOf(Bump(e, Prefix2(word), word in found), words + [word], found)
  {
    var p := Prefix2(word);
    assert IndexOf(e, p) == |e|;
    var r := e + [Bucket(p, if word in found then 1 else 0, 1)];
    assert Bump(e, p, word in found) == r;
    forall k | 0 <= k < |r|
      ensures r[k].total == CountPrefix(words + [word], r[k].prefix)
      ensures r[k].found == CountFoundPrefix(words + [word], found, r[k].prefix)
    {
      CountsSnoc(words, word, found, r[k].prefix);
      if k == |e| {
        CountFoundAtMostCount(words, found, p);
      } else {
        assert e[k].prefix in Prefixes(e);
      }
    }
  }

  /** One loop iteration keeps the buckets right. */
  lemma BucketsStep(e: seq<Bucket>, words: seq<string>, word: string, found: set<string>)
    requires BucketsOf(e, words, found)
    ensures BucketsOf(Bump(e, Prefix2(word), word in found), words + [word], found)
    ensures Sum(Bump(e, Prefix2(word), word in found), Remaining) == Sum(e, Remaining) + (if word in found then 0 else 1)
  {
    var p := Prefix2(word);
    var r := Bump(e, p, word in found);
    if IndexOf(e, p) < |e| {
      BumpExisting(e, p, word in found);
      CountsStepExisting(e, words, word, found);
      assert p in Prefixes(e);
      assert Prefixes(r) == Prefixes(e) + {p};
    } else {
      BumpNew(e, p, word in found);
      CountsStepNew(e, words, word, found);
    }
    PrefixesStep(e, r, words, word, found);
  }

  /** One loop iteration keeps the meaning of the running state. */
  lemma StepKeeps(t: Tally, words: seq<string>, word: string, found: set<string>, pangrams: set<string>)
    requires TallyOf(t, words, found, pangrams)
    ensures TallyOf(Step(t, word, found, pangrams), words + [word], found, pangrams)
  {
    StepTotals(t, words, word, found, pangrams);
    BucketsStep(t.buckets, words, word, found);
  }

  lemma {:induction false} AccumulateTally(words: seq<string>, found: set<string>, pangrams: set<string>)
    ensures TallyOf(Accumulate(words, found, pangrams), words, found, pangrams)
  {
    if |words| == 0 {
      assert Prefixes([]) == {};
    } else {
      var init := words[..|words| - 1];
      var last := words[|words| - 1];
      assert words == init + [last];
      AccumulateTally(init, found, pangrams);
      StepKeeps(Accumulate(init, found, pangrams), init, last, found, pangrams);
    }
  }

  /** Buckets are compared by prefix (`a[0].localeCompare(b[0])`). */
  predicate BucketLe(a: Bucket, b: Bucket)
  {
    StrLe(a.prefix, b.prefix)
  }

  lemma BucketLeOrder()
    ensures Total(BucketLe) && Transitive(BucketLe)
  {
    StrLeTotalOrder();
  }

  /** Distinct prefixes survive a reordering of the buckets. */
  lemma DistinctPrefixesPermutation(a: seq<Bucket>, b: seq<Bucket>)
    requires multiset(a) == multiset(b)
    requires DistinctPrefixes(a)
    ensures DistinctPrefixes(b)
  {
    assert Distinct(a);
    DistinctPermutation(a, b);
    forall i, j | 0 <= i < j < |b| ensures b[i].prefix != b[j].prefix {
      assert b[i] in multiset(a) && b[j] in multiset(a);
      var i' :| 0 <= i' < |a| && a[i'] == b[i];
      var j' :| 0 <= j' < |a| && a[j'] == b[j];
      assert i' != j';
    }
  }

  lemma PrefixesPermutation(a: seq<Bucket>, b: seq<Bucket>)
    requires multiset(a) == multiset(b)
    ensures Prefixes(a) == Prefixes(b)
  {
    forall q | q in Prefixes(a) ensures q in Prefixes(b) {
      var k :| 0 <= k < |a| && a[k].prefix == q;
      assert a[k] in multiset(b);
      var k' :| 0 <= k' < |b| && b[k'] == a[k];
    }
    forall q | q in Prefixes(b) ensures q in Prefixes(a) {
      var k :| 0 <= k < |b| && b[k].prefix == q;
      assert b[k] in multiset(a);
      var k' :| 0 <= k' < |a| && a[k'] == b[k];
    }
  }

  /** `computeHints`: the remaining count and points, and one bucket per
      distinct two-letter prefix of `validWords`, sorted by prefix. */
  function ComputeHints(validWords: seq<string>, pangramSet: set<string>, found: set<string>): (h: HintReport)
    ensures h.remainingWordCount == |Unfound(validWords, found)|
    ensures h.remainingTotalPoints == MaxScore(Unfound(validWords, found), pangramSet)
    ensures forall p :: p in Prefixes(h.byPrefix2) <==> exists i :: 0 <= i < |validWords| && Prefix2(validWords[i]) == p
    ensures forall i, j :: 0 <= i < j < |h.byPrefix2| ==> StrLt(h.byPrefix2[i].prefix, h.byPrefix2[j].prefix)
    ensures forall k :: 0 <= k < |h.byPrefix2| ==>
      && h.byPrefix2[k].total == CountPrefix(validWords, h.byPrefix2[k].prefix)
      && h.byPrefix2[k].found == CountFoundPrefix(validWords, found, h.byPrefix2[k].prefix)
      && h.byPrefix2[k].found <= h.byPrefix2[k].total
    ensures Sum(h.byPrefix2, Remaining) == h.remainingWordCount
  {
    AccumulateTally(validWords, found, pangramSet);
    var t := Accumulate(validWords, found, pangramSet);
    BucketLeOrder();
    var sorted := SortBy(t.buckets, BucketLe);
    PrefixesPermutation(t.buckets, sorted);
    DistinctPrefixesPermutation(t.buckets, sorted);
    SumPermutation(t.buckets, sorted, Remaining);
    SortedPairwise(BucketLe, sorted);
    HintsFacts(validWords, found, t.buckets, sorted);
    HintReport(t.points, t.count, sorted)
  }

  /** The per-bucket facts carried across the sort. */
  lemma HintsFacts(words: seq<string>, found: set<string>, e: seq<Bucket>, s: seq<Bucket>)
    requires multiset(e) == multiset(s)
    requires DistinctPrefixes(s)
    requires forall p :: p in Prefixes(e) <==> CountPrefix(words, p) > 0
    requires Prefixes(e) == Prefixes(s)
    requires forall i, j :: 0 <= i < j < |s| ==> BucketLe(s[i], s[j])
    requires forall k :: 0 <= k < |e| ==>
      e[k].total == CountPrefix(words, e[k].prefix) && e[k].found == CountFoundPrefix(words, found, e[k].prefix)
    ensures forall p :: p in Prefixes(s) <==> exists i :: 0 <= i < |words| && Prefix2(words[i]) == p
    ensures forall i, j :: 0 <= i < j < |s| ==> StrLt(s[i].prefix, s[j].prefix)
    ensures forall k :: 0 <= k < |s| ==>
      && s[k].total == CountPrefix(words, s[k].prefix)
      && s[k].found == CountFoundPrefix(words, found, s[k].prefix)
      && s[k].found <= s[k].total
  {
    forall p ensures p in Prefixes(s) <==> exists i :: 0 <= i < |words| && Prefix2(words[i]) == p {
      CountPrefixPositive(words, p);
    }
    forall k | 0 <= k < |s|
      ensures s[k].total == CountPrefix(words, s[k].prefix)
      ensures s[k].found == CountFoundPrefix(words, found, s[k].prefix)
      ensures s[k].found <= s[k].total
    {
      assert s[k] in multiset(e);
      var k' :| 0 <= k' < |e| && e[k'] == s[k];
      CountFoundAtMostCount(words, found, s[k].prefix);
    }
  }

  /** The words and found set of the hints tests. */
  const ExampleWords: seq<string> := ["acre", "alert", "alter", "central"]

  lemma Prefix2Examples()
    ensures Prefix2("acre") == "ac" && Prefix2("alert") == "al" && Prefix2("alter") == "al"
    ensures Prefix2("central") == "ce"
  {
    Prefix2Front("acre");
    Prefix2Front("alert");
    Prefix2Front("alter");
    Prefix2Front("central");
  }

  /** A word whose first two characters are in the Basic Multilingual Plane
      has them as its prefix. */
  lemma Prefix2Front(word: string)
    requires |word| >= 2 && (word[0] as int) < 0x1_0000 && (word[1] as int) < 0x1_0000
    ensures Prefix2(word) == word[..2]
  {
  }

  lemma AccumulateExampleHead()
    ensures Accumulate(ExampleWords[..2], {"acre"}, {"central"}) == Tally([Bucket("ac", 1, 1), Bucket("al", 0, 1)], 5, 1)
  {
    Prefix2Examples();
    ExampleScores();
    var ws := ExampleWords[..2];
    assert ws[..1] == ["acre"];
    assert ws[..1][..0] == [];
    assert Accumulate([], {"acre"}, {"central"}) == Tally([], 0, 0);
    assert Bump([], "ac", true) == [Bucket("ac", 1, 1)];
    var t1 := Accumulate(ws[..1], {"acre"}, {"central"});
    assert t1 == Tally([Bucket("ac", 1, 1)], 0, 0);
  }

  /** The scores of the unfound example words. */
  lemma ExampleScores()
    ensures WordScore("alert", false) == 5 && WordScore("alter", false) == 5
    ensures WordScore("central", true) == 14
  {
    JsLengthBmp("alert");
    JsLengthBmp("alter");
    JsLengthBmp("central");
  }

  lemma AccumulateExample()
    ensures Accumulate(ExampleWords, {"acre"}, {"central"})
      == Tally([Bucket("ac", 1, 1), Bucket("al", 0, 2), Bucket("ce", 0, 1)], 24, 3)
  {
    Prefix2Examples();
    ExampleScores();
    var ws := ExampleWords;
    AccumulateExampleThree();
    var t3 := Accumulate(ws[..3], {"acre"}, {"central"});
    assert IndexOf(t3.buckets, "ce") == 2;
  }

  lemma AccumulateExampleThree()
    ensures Accumulate(ExampleWords[..3], {"acre"}, {"central"}) == Tally([Bucket("ac", 1, 1), Bucket("al", 0, 2)], 10, 2)
  {
    Prefix2Examples();
    ExampleScores();
    var ws := ExampleWords;
    assert ws[..3][..2] == ws[..2];
    AccumulateExampleHead();
    var t2 := Accumulate(ws[..2], {"acre"}, {"central"});
    assert IndexOf(t2.buckets, "al") == 1;
  }

  lemma SortExample()
    ensures Total(BucketLe)
      && SortBy([Bucket("ac", 1, 1), Bucket("al", 0, 2), Bucket("ce", 0, 1)], BucketLe)
      == [Bucket("ac", 1, 1), Bucket("al", 0, 2), Bucket("ce", 0, 1)]
  {
    BucketLeOrder();
    var e := [Bucket("ac", 1, 1), Bucket("al", 0, 2), Bucket("ce", 0, 1)];
    assert StrLe("ac", "al") && StrLe("al", "ce");
    assert Sorted(BucketLe, e);
    SortBySorted(e, BucketLe);
  }

  /** The example of the hints tests: with `acre` found, three words worth
      24 points remain, in buckets ac 1/1, al 0/2 and ce 0/1. */
  lemma ComputeHintsExample()
    ensures ComputeHints(ExampleWords, {"central"}, {"acre"})
      == HintReport(24, 3, [Bucket("ac", 1, 1), Bucket("al", 0, 2), Bucket("ce", 0, 1)])
  {
    AccumulateExample();
    SortExample();
  }
}

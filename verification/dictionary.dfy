/** The word-list build (`main` in tools/build-dictionary.mjs): per-word
    filters with a removal counter for each reason, then the allowlist
    union, the blocklist difference and the sort. Unicode NFKC
    normalisation and the `RegExp` test of the blocked patterns are
    parameters. */
module Dictionary {
  import opened Seqs
  import opened Orders
  import opened Text
  import opened Results

  /** `policy.json`; a missing list reads as empty. */
  datatype Policy = Policy(
    version: Option<string>,
    minimumLength: Option<int>,
    blockedPatterns: seq<string>,
    excludeProfanity: bool,
    excludeGeoTerms: bool,
    excludeDemonyms: bool,
    excludeRare: bool,
    profanity: seq<string>,
    geoTerms: seq<string>,
    demonyms: seq<string>,
    rareTerms: seq<string>)

  /** The counts written to the metadata file. */
  datatype Counters = Counters(
    inputTotal: nat,
    normalizedTotal: nat,
    removedProfanity: nat,
    removedProperNouns: nat,
    removedGeoTerms: nat,
    removedDemonyms: nat,
    removedAbbreviations: nat,
    removedRare: nat,
    allowlistAdded: nat,
    blocklistRemoved: nat)

  /** The output: the sorted words, the counters and the policy version. */
  datatype Build = Build(words: seq<string>, counters: Counters, policyVersion: string, finalTotal: nat)

  /** What the filter chain decides for one word. */
  datatype Verdict = Keep | Abbreviation | Profanity | GeoTerm | Demonym | Rare

  /** `new RegExp(pattern, "u").test(word)`. */
  type PatternTest = (string, string) -> bool

  /** `policy.minimumLength ?? 4`. */
  const DefaultMinimumLength := 4

  /** `toSet`: the lower-cased values, for membership tests. */
  function TermSet(values: seq<string>): set<string>
  {
    set v | v in values :: Lower(v)
  }

  /** `parseWordLines` on the lines of a file: trimmed, lower-cased, blank
      lines dropped. */
  function CleanLine(line: string): string
  {
    Lower(Trim(line))
  }

  predicate NonEmpty(s: string)
  {
    |s| > 0
  }

  function ParseWordLines(lines: seq<string>): (r: seq<string>)
    ensures forall w :: w in r <==> |w| > 0 && w in Map(lines, CleanLine)
  {
    Filter(Map(lines, CleanLine), NonEmpty)
  }

  predicate MatchesBlockedPattern(word: string, patterns: seq<string>, test: PatternTest)
  {
    exists k :: 0 <= k < |patterns| && test(patterns[k], word)
  }

  /** The filter chain for one lower-cased word: the first check that fails
      names the counter to bump. */
  function Classify(word: string, policy: Policy, test: PatternTest): (v: Verdict)
    ensures v == Keep <==>
      && IsAlphaWord(word)
      && |word| >= policy.minimumLength.OrElse(DefaultMinimumLength)
      && !MatchesBlockedPattern(word, policy.blockedPatterns, test)
      && (policy.excludeProfanity ==> word !in TermSet(policy.profanity))
      && (policy.excludeGeoTerms ==> word !in TermSet(policy.geoTerms))
      && (policy.excludeDemonyms ==> word !in TermSet(policy.demonyms))
      && (policy.excludeRare ==> word !in TermSet(policy.rareTerms))
    ensures v == Profanity ==> policy.excludeProfanity && word in TermSet(policy.profanity)
    ensures v == GeoTerm ==> policy.excludeGeoTerms && word in TermSet(policy.geoTerms)
    ensures v == Demonym ==> policy.excludeDemonyms && word in TermSet(policy.demonyms)
    ensures v == Rare ==> policy.excludeRare && word in TermSet(policy.rareTerms)
    ensures !IsAlphaWord(word) ==> v == Abbreviation
  {
    if !IsAlphaWord(word) then Abbreviation
    else if |word| < policy.minimumLength.OrElse(DefaultMinimumLength) then Abbreviation
    else if MatchesBlockedPattern(word, policy.blockedPatterns, test) then Abbreviation
    else if policy.excludeProfanity && word in TermSet(policy.profanity) then Profanity
    else if policy.excludeGeoTerms && word in TermSet(policy.geoTerms) then GeoTerm
    else if policy.excludeDemonyms && word in TermSet(policy.demonyms) then Demonym
    else if policy.excludeRare && word in TermSet(policy.rareTerms) then Rare
    else Keep
  }

  /** The state of the filter loop: the kept words in insertion order and
      the removal counters. */
  datatype FilterTally = FilterTally(
    filtered: seq<string>,
    abbreviations: nat,
    profanity: nat,
    geoTerms: nat,
    demonyms: nat,
    rare: nat)
  {
    /** The counter of a removal verdict; kept words have none. */
    function Removed(v: Verdict): nat
    {
      match v
      case Keep => 0
      case Abbreviation => abbreviations
      case Profanity => profanity
      case GeoTerm => geoTerms
      case Demonym => demonyms
      case Rare => rare
    }
  }

  /** One pass of the loop body on a word with its verdict. */
  function Record(t: FilterTally, word: string, v: Verdict): FilterTally
    requires Distinct(t.filtered)
  {
    match v
    case Keep => t.(filtered := Add(t.filtered, word))
    case Abbreviation => t.(abbreviations := t.abbreviations + 1)
    case Profanity => t.(profanity := t.profanity + 1)
    case GeoTerm => t.(geoTerms := t.geoTerms + 1)
    case Demonym => t.(demonyms := t.demonyms + 1)
    case Rare => t.(rare := t.rare + 1)
  }

  /** A lower-cased normalised word that passes every filter. */
  ghost predicate Survives(x: string, normalized: seq<string>, policy: Policy, test: PatternTest)
  {
    Classify(x, policy, test) == Keep && exists k :: 0 <= k < |normalized| && Lower(normalized[k]) == x
  }

  lemma SurvivesSnoc(x: string, ws: seq<string>, w: string, policy: Policy, test: PatternTest)
    ensures Survives(x, ws + [w], policy, test) <==>
      Survives(x, ws, policy, test) || (x == Lower(w) && Classify(x, policy, test) == Keep)
  {
    var s := ws + [w];
    if Survives(x, s, policy, test) && !(x == Lower(w)) {
      var k :| 0 <= k < |s| && Lower(s[k]) == x;
      assert k < |ws| && ws[k] == s[k];
    }
    if Survives(x, ws, policy, test) {
      var k :| 0 <= k < |ws| && Lower(ws[k]) == x;
      assert s[k] == ws[k];
    }
    if x == Lower(w) {
      assert s[|ws|] == w;
    }
  }

  /** The number of words in `ws` whose lower-cased form gets verdict `v`. */
  function CountVerdict(ws: seq<string>, v: Verdict, policy: Policy, test: PatternTest): nat
  {
    if |ws| == 0 then 0
    else (if Classify(Lower(ws[0]), policy, test) == v then 1 else 0) + CountVerdict(ws[1..], v, policy, test)
  }

  lemma {:induction false} CountVerdictSnoc(ws: seq<string>, w: string, v: Verdict, policy: Policy, test: PatternTest)
    ensures CountVerdict(ws + [w], v, policy, test)
         == CountVerdict(ws, v, policy, test) + (if Classify(Lower(w), policy, test) == v then 1 else 0)
  {
    if |ws| > 0 {
      assert (ws + [w])[1..] == ws[1..] + [w];
      CountVerdictSnoc(ws[1..], w, v, policy, test);
    }
  }

  /** The filter loop over the normalised words, in iteration order. */
  function FilterWords(ws: seq<string>, policy: Policy, test: PatternTest): (t: FilterTally)
    ensures Distinct(t.filtered)
  {
    if |ws| == 0 then FilterTally([], 0, 0, 0, 0, 0)
    else Record(FilterWords(ws[..|ws| - 1], policy, test), Lower(ws[|ws| - 1]), Classify(Lower(ws[|ws| - 1]), policy, test))
  }

  /** The kept words are exactly the lower-cased normalised words that pass
      every filter, and no more of them than were classified `Keep`. */
  lemma {:induction false} FilterWordsKeeps(ws: seq<string>, policy: Policy, test: PatternTest)
    ensures forall x :: x in FilterWords(ws, policy, test).filtered <==> Survives(x, ws, policy, test)
    ensures |FilterWords(ws, policy, test).filtered| <= CountVerdict(ws, Keep, policy, test)
  {
    if |ws| > 0 {
      var init := ws[..|ws| - 1];
      var w := ws[|ws| - 1];
      assert ws == init + [w];
      FilterWordsKeeps(init, policy, test);
      var t := FilterWords(init, policy, test);
      var v := Classify(Lower(w), policy, test);
      assert FilterWords(ws, policy, test) == Record(t, Lower(w), v);
      forall x ensures Survives(x, ws, policy, test) <==> Survives(x, init, policy, test) || (x == Lower(w) && Classify(x, policy, test) == Keep) {
        SurvivesSnoc(x, init, w, policy, test);
      }
      CountVerdictSnoc(init, w, Keep, policy, test);
    }
  }

  /** The counter of removal verdict `v` counts the normalised words that
      get `v`. */
  lemma {:induction false} FilterWordsCount(ws: seq<string>, v: Verdict, policy: Policy, test: PatternTest)
    requires v != Keep
    ensures FilterWords(ws, policy, test).Removed(v) == CountVerdict(ws, v, policy, test)
  {
    if |ws| > 0 {
      var init := ws[..|ws| - 1];
      var w := ws[|ws| - 1];
      assert ws == init + [w];
      FilterWordsCount(init, v, policy, test);
      CountVerdictSnoc(init, w, v, policy, test);
    }
  }

  /** Each removal counter counts the normalised words that the chain
      rejects for its reason. */
  lemma FilterWordsCounts(ws: seq<string>, policy: Policy, test: PatternTest)
    ensures FilterWords(ws, policy, test).abbreviations == CountVerdict(ws, Abbreviation, policy, test)
    ensures FilterWords(ws, policy, test).profanity == CountVerdict(ws, Profanity, policy, test)
    ensures FilterWords(ws, policy, test).geoTerms == CountVerdict(ws, GeoTerm, policy, test)
    ensures FilterWords(ws, policy, test).demonyms == CountVerdict(ws, Demonym, policy, test)
    ensures FilterWords(ws, policy, test).rare == CountVerdict(ws, Rare, policy, test)
  {
    FilterWordsCount(ws, Abbreviation, policy, test);
    FilterWordsCount(ws, Profanity, policy, test);
    FilterWordsCount(ws, GeoTerm, policy, test);
    FilterWordsCount(ws, Demonym, policy, test);
    FilterWordsCount(ws, Rare, policy, test);
  }

  /** Every normalised word gets exactly one verdict: the kept words and the
      five removal counts add up to the number of normalised words. */
  lemma {:induction false} VerdictsPartition(ws: seq<string>, policy: Policy, test: PatternTest)
    ensures CountVerdict(ws, Keep, policy, test) + CountVerdict(ws, Abbreviation, policy, test)
          + CountVerdict(ws, Profanity, policy, test) + CountVerdict(ws, GeoTerm, policy, test)
          + CountVerdict(ws, Demonym, policy, test) + CountVerdict(ws, Rare, policy, test) == |ws|
  {
    if |ws| > 0 {
      VerdictsPartition(ws[1..], policy, test);
    }
  }

  /** A surviving word passes every check: it is `^[a-z]+$`, long enough,
      matches no blocked pattern, and is in none of the lists whose flag is
      set. */
  lemma SurvivorPassesChecks(x: string, ws: seq<string>, policy: Policy, test: PatternTest)
    requires x in FilterWords(ws, policy, test).filtered
    ensures IsAlphaWord(x)
    ensures |x| >= policy.minimumLength.OrElse(DefaultMinimumLength)
    ensures !MatchesBlockedPattern(x, policy.blockedPatterns, test)
    ensures policy.excludeProfanity ==> x !in TermSet(policy.profanity)
    ensures policy.excludeGeoTerms ==> x !in TermSet(policy.geoTerms)
    ensures policy.excludeDemonyms ==> x !in TermSet(policy.demonyms)
    ensures policy.excludeRare ==> x !in TermSet(policy.rareTerms)
  {
    FilterWordsKeeps(ws, policy, test);
  }

  /** The allowlist loop: each allowlisted word not yet present is appended
      and counted. */
  function AddAllowed(filtered: seq<string>, allow: seq<string>): (r: (seq<string>, nat))
    requires Distinct(filtered)
    ensures Distinct(r.0)
    ensures forall x :: x in r.0 <==> x in filtered || x in allow
    ensures filtered <= r.0
    ensures r.1 == |r.0| - |filtered|
  {
    if |allow| == 0 then (filtered, 0)
    else
      var t := AddAllowed(filtered, allow[..|allow| - 1]);
      var w := allow[|allow| - 1];
      assert allow == allow[..|allow| - 1] + [w];
      if w in t.0 then t else (t.0 + [w], t.1 + 1)
  }

  /** `allowlistAdded` counts exactly the allowlisted words that the filter
      did not keep. */
  lemma {:induction false} AllowlistAddedCount(filtered: seq<string>, allow: seq<string>)
    requires Distinct(filtered)
    ensures AddAllowed(filtered, allow).1 == |(set x | x in allow) - (set x | x in filtered)|
  {
    if |allow| == 0 {
      assert (set x | x in allow) == {};
    } else {
      var init := allow[..|allow| - 1];
      var w := allow[|allow| - 1];
      assert allow == init + [w];
      AllowlistAddedCount(filtered, init);
      var f := AddAllowed(filtered, init).0;
      var n := AddAllowed(filtered, init).1;
      assert AddAllowed(filtered, allow).1 == if w in f then n else n + 1 by {
        assert allow[..|allow| - 1] == init;
      }
      assert w in f <==> w in (set x | x in init) || w in (set x | x in filtered);
      var a := set x | x in init;
      var fs := set x | x in filtered;
      assert (set x | x in allow) == a + {w} by { ElementsSnoc(init, w); }
      AllowStep(n, AddAllowed(filtered, allow).1, a, fs, w, w in f);
    }
  }

  /** The count after one more allowlisted word: unchanged when the word
      was already present, one more otherwise. */
  lemma AllowStep(n: nat, next: nat, a: set<string>, f: set<string>, w: string, present: bool)
    requires n == |a - f|
    requires present <==> w in a || w in f
    requires next == if present then n else n + 1
    ensures next == |(a + {w}) - f|
  {
    if present {
      assert (a + {w}) - f == a - f;
    } else {
      assert (a + {w}) - f == (a - f) + {w};
    }
  }

  /** The elements of a list extended by one word. */
  lemma ElementsSnoc(init: seq<string>, w: string)
    ensures (set x | x in init + [w]) == (set x | x in init) + {w}
  {
    assert forall x :: x in init + [w] <==> x in init || x == w;
  }

  /** The blocklist loop: each blocklisted word present is deleted and
      counted. */
  function RemoveBlocked(words: seq<string>, block: seq<string>): (r: (seq<string>, nat))
    requires Distinct(words)
    ensures Distinct(r.0)
    ensures forall x :: x in r.0 <==> x in words && x !in block
    ensures r.1 == |words| - |r.0|
  {
    if |block| == 0 then (words, 0)
    else
      var t := RemoveBlocked(words, block[..|block| - 1]);
      var w := block[|block| - 1];
      assert block == block[..|block| - 1] + [w];
      if w in t.0 then (Remove(t.0, w), t.1 + 1) else t
  }

  /** `blocklistRemoved` counts exactly the blocklisted words that were
      present. */
  lemma {:induction false} BlocklistRemovedCount(words: seq<string>, block: seq<string>)
    requires Distinct(words)
    ensures RemoveBlocked(words, block).1 == |(set x | x in block) * (set x | x in words)|
  {
    if |block| == 0 {
      assert (set x | x in block) == {};
    } else {
      var init := block[..|block| - 1];
      var w := block[|block| - 1];
      assert block == init + [w];
      BlocklistRemovedCount(words, init);
      var f := RemoveBlocked(words, init).0;
      var n := RemoveBlocked(words, init).1;
      assert RemoveBlocked(words, block).1 == if w in f then n + 1 else n by {
        assert block[..|block| - 1] == init;
      }
      assert w in f <==> w in (set x | x in words) && w !in (set x | x in init);
      var b := set x | x in init;
      var ws := set x | x in words;
      assert (set x | x in block) == b + {w} by { ElementsSnoc(init, w); }
      BlockStep(n, RemoveBlocked(words, block).1, b, ws, w, w in f);
    }
  }

  /** The count after one more blocklisted word: one more when the word
      was still present, unchanged otherwise. */
  lemma BlockStep(n: nat, next: nat, b: set<string>, ws: set<string>, w: string, present: bool)
    requires n == |b * ws|
    requires present <==> w in ws && w !in b
    requires next == if present then n + 1 else n
    ensures next == |(b + {w}) * ws|
  {
    if present {
      assert (b + {w}) * ws == (b * ws) + {w};
    } else {
      assert (b + {w}) * ws == b * ws;
    }
  }

  /** The build from the parsed input lines. Normalising never adds a
      word, and the final count is the filtered words, plus the allowlist
      additions, minus the blocklist removals. */
  function BuildDictionary(
    baseLines: seq<string>, allowLines: seq<string>, blockLines: seq<string>,
    policy: Policy, nfkc: string -> string, test: PatternTest): (b: Build)
    ensures b.counters.normalizedTotal <= b.counters.inputTotal
    ensures b.finalTotal + b.counters.blocklistRemoved
         == |FilterWords(Normalized(baseLines, nfkc), policy, test).filtered| + b.counters.allowlistAdded
  {
    var baseWords := ParseWordLines(baseLines);
    var allow := Dedup(Map(ParseWordLines(allowLines), Lower));
    var block := Dedup(Map(ParseWordLines(blockLines), Lower));
    var normalized := Dedup(Map(baseWords, nfkc));
    var t := FilterWords(normalized, policy, test);
    var allowed := AddAllowed(t.filtered, allow);
    var blocked := RemoveBlocked(allowed.0, block);
    var words := SortStrings(blocked.0);
    Build(words,
      Counters(|baseWords|, |normalized|, t.profanity, 0, t.geoTerms, t.demonyms, t.abbreviations, t.rare, allowed.1, blocked.1),
      policy.version.OrElse("v1"),
      |words|)
  }

  /** The normalised base words, in iteration order. */
  function Normalized(baseLines: seq<string>, nfkc: string -> string): seq<string>
  {
    Dedup(Map(ParseWordLines(baseLines), nfkc))
  }

  /** A word of an input list, after parsing and lower-casing. */
  ghost predicate Listed(x: string, lines: seq<string>)
  {
    x in Map(ParseWordLines(lines), Lower)
  }

  /** The set the blocklist loop leaves, before sorting. */
  function Kept(baseLines: seq<string>, allowLines: seq<string>, blockLines: seq<string>,
    policy: Policy, nfkc: string -> string, test: PatternTest): (r: seq<string>)
    ensures Distinct(r)
  {
    var filtered := FilterWords(Normalized(baseLines, nfkc), policy, test).filtered;
    var withAllowed := AddAllowed(filtered, Dedup(Map(ParseWordLines(allowLines), Lower))).0;
    RemoveBlocked(withAllowed, Dedup(Map(ParseWordLines(blockLines), Lower))).0
  }

  lemma BuildWordsAreKept(baseLines: seq<string>, allowLines: seq<string>, blockLines: seq<string>,
    policy: Policy, nfkc: string -> string, test: PatternTest)
    ensures BuildDictionary(baseLines, allowLines, blockLines, policy, nfkc, test).words
         == SortStrings(Kept(baseLines, allowLines, blockLines, policy, nfkc, test))
  {
  }

  /** The output is strictly ascending: sorted, with no duplicates. */
  lemma BuildSorted(baseLines: seq<string>, allowLines: seq<string>, blockLines: seq<string>,
    policy: Policy, nfkc: string -> string, test: PatternTest)
    ensures var words := BuildDictionary(baseLines, allowLines, blockLines, policy, nfkc, test).words;
      forall i, j :: 0 <= i < j < |words| ==> StrLt(words[i], words[j])
  {
    var kept := Kept(baseLines, allowLines, blockLines, policy, nfkc, test);
    var words := SortStrings(kept);
    BuildWordsAreKept(baseLines, allowLines, blockLines, policy, nfkc, test);
    DistinctPermutation(kept, words);
    StrictlySortedStrings(words);
  }

  /** A word is in the output iff it is not blocklisted and is either
      allowlisted (no filter applies to those) or a surviving normalised
      base word. */
  lemma BuildMembers(baseLines: seq<string>, allowLines: seq<string>, blockLines: seq<string>,
    policy: Policy, nfkc: string -> string, test: PatternTest)
    ensures var words := BuildDictionary(baseLines, allowLines, blockLines, policy, nfkc, test).words;
      forall x :: x in words <==>
        !Listed(x, blockLines) && (Listed(x, allowLines) || Survives(x, Normalized(baseLines, nfkc), policy, test))
  {
    var kept := Kept(baseLines, allowLines, blockLines, policy, nfkc, test);
    BuildWordsAreKept(baseLines, allowLines, blockLines, policy, nfkc, test);
    FilterWordsKeeps(Normalized(baseLines, nfkc), policy, test);
    assert forall x :: x in SortStrings(kept) <==> x in multiset(kept);
  }

  /** The distinct images of `ws` under `f`, counted. */
  lemma DedupMapCard(ws: seq<string>, f: string -> string)
    ensures |Dedup(Map(ws, f))| == |set w | w in ws :: f(w)|
  {
    var mapped := Map(ws, f);
    var d := Dedup(mapped);
    DistinctCard(d);
    assert (set x | x in d) == set w | w in ws :: f(w) by {
      forall y | y in (set w | w in ws :: f(w)) ensures y in d {
        var w :| w in ws && f(w) == y;
        var k :| 0 <= k < |ws| && ws[k] == w;
        assert mapped[k] == y;
      }
      forall y | y in d ensures y in (set w | w in ws :: f(w)) {
        var k :| 0 <= k < |mapped| && mapped[k] == y;
        assert f(ws[k]) == y;
      }
    }
  }

  /** `inputTotal` counts the parsed base words, `normalizedTotal` their
      distinct normalised forms, and `finalTotal` the output. */
  lemma BuildTotals(baseLines: seq<string>, allowLines: seq<string>, blockLines: seq<string>,
    policy: Policy, nfkc: string -> string, test: PatternTest)
    ensures var b := BuildDictionary(baseLines, allowLines, blockLines, policy, nfkc, test);
      && b.finalTotal == |b.words|
      && b.counters.inputTotal == |ParseWordLines(baseLines)|
      && b.counters.normalizedTotal == |set w | w in ParseWordLines(baseLines) :: nfkc(w)|
      && b.counters.removedProperNouns == 0
  {
    DedupMapCard(ParseWordLines(baseLines), nfkc);
  }

  /** Counter accounting: every normalised word is either kept or counted
      by exactly one removal counter, so the kept words plus the removals
      add up to `normalizedTotal`. */
  lemma CountersPartition(
    baseLines: seq<string>, allowLines: seq<string>, blockLines: seq<string>,
    policy: Policy, nfkc: string -> string, test: PatternTest)
    ensures var c := BuildDictionary(baseLines, allowLines, blockLines, policy, nfkc, test).counters;
      var normalized := Normalized(baseLines, nfkc);
      CountVerdict(normalized, Keep, policy, test)
        + c.removedAbbreviations + c.removedProfanity + c.removedGeoTerms
        + c.removedDemonyms + c.removedRare == c.normalizedTotal
  {
    VerdictsPartition(Normalized(baseLines, nfkc), policy, test);
    FilterWordsCounts(Normalized(baseLines, nfkc), policy, test);
  }

  /** `allowlistAdded` counts the allowlisted words that the filters did not
      keep. */
  lemma AllowlistCounter(
    baseLines: seq<string>, allowLines: seq<string>, blockLines: seq<string>,
    policy: Policy, nfkc: string -> string, test: PatternTest)
    ensures var c := BuildDictionary(baseLines, allowLines, blockLines, policy, nfkc, test).counters;
      var filtered := FilterWords(Normalized(baseLines, nfkc), policy, test).filtered;
      var allow := Dedup(Map(ParseWordLines(allowLines), Lower));
      c.allowlistAdded == |(set x | x in allow) - (set x | x in filtered)|
  {
    var filtered := FilterWords(Normalized(baseLines, nfkc), policy, test).filtered;
    var allow := Dedup(Map(ParseWordLines(allowLines), Lower));
    AllowlistAddedCount(filtered, allow);
  }

  /** `blocklistRemoved` counts the blocklisted words among the kept and
      allowlisted ones. */
  lemma BlocklistCounter(
    baseLines: seq<string>, allowLines: seq<string>, blockLines: seq<string>,
    policy: Policy, nfkc: string -> string, test: PatternTest)
    ensures var c := BuildDictionary(baseLines, allowLines, blockLines, policy, nfkc, test).counters;
      var withAllowed := Allowed(baseLines, allowLines, policy, nfkc, test);
      var block := Dedup(Map(ParseWordLines(blockLines), Lower));
      c.blocklistRemoved == |(set x | x in block) * (set x | x in withAllowed)|
  {
    var withAllowed := Allowed(baseLines, allowLines, policy, nfkc, test);
    var block := Dedup(Map(ParseWordLines(blockLines), Lower));
    BlocklistRemovedCount(withAllowed, block);
  }

  /** The kept words with the allowlist added, in iteration order. */
  function Allowed(
    baseLines: seq<string>, allowLines: seq<string>,
    policy: Policy, nfkc: string -> string, test: PatternTest): (r: seq<string>)
    ensures Distinct(r)
  {
    AddAllowed(FilterWords(Normalized(baseLines, nfkc), policy, test).filtered,
               Dedup(Map(ParseWordLines(allowLines), Lower))).0
  }
}

# Spelling-bee puzzle curation and game core, in Dafny

This project models the deterministic core of a spelling-bee web game and of
the build tools that produce its puzzles. A puzzle has seven distinct letters,
one of which is the centre letter. Its words use only those letters and
always contain the centre letter. A pangram is a word that uses all seven
letters.

The model covers these parts of the program:

- **The dictionary build** (`tools/build-dictionary.mjs`).
  - The base word list is parsed, NFKC-normalised and lower-cased.
  - A chain of filters removes words, with one counter per reason.
  - The allowlist is added, the blocklist is removed, and the result is sorted.
- **The puzzle build** (`tools/build-puzzles.mjs`).
  - `buildCandidates` enumerates every seven-letter set some word uses, with every one of its letters as the centre. It keeps the candidates with enough words and a pangram, sorts them by quality and de-duplicates them by core key.
  - The guardrail step of `annotateCandidates` tags each candidate with the tiers (simple, medium, hard) whose bounds it fits. Candidates that fit none are dropped.
  - `assignDifficulties` labels candidates by score quantile, within their guardrails.
  - `selectByQuota` fills the 30/50/20 quota from buckets ordered by a seeded FNV-1a hash. A short tier borrows from the others, and a global fallback tops up the selection.
  - `interleaveForSchedule` orders the selection by the cadence medium, simple, medium, hard.
- **The game** (`src/core`).
  - Word scoring and maximum score.
  - The validator's chain of checks.
  - The prefix hints.
  - The game engine's `createInitialState` and `submitWord`.
- **Puzzle choice.** `getDailyPuzzle` picks the puzzle of the day, and `hashSeed`/`pickPuzzleBySeed` pick a puzzle from a seed string.
- **Storage.** The IndexedDB schema migrations `MIGRATIONS` and `runMigrations`.

Modelling choices:

- **Data.**
  - Every entity is an immutable datatype.
  - A JavaScript `Set` or `Map` that is iterated is a duplicate-free `seq` in insertion order. One that is only queried is a Dafny `set`.
  - Strings are `seq<char>`. A Dafny `char` is a Unicode scalar value, so a character outside the Basic Multilingual Plane is one `char` but two UTF-16 code units. `Text.CodeUnits` gives a string's code units, and `Text.JsLength` counts them as JavaScript's `length` does. `hashString`, `hashSeed`, `computeWordScore` and the hint prefixes work on code units through these functions.
- **Arithmetic.**
  - Every 32-bit effect is written out. The FNV hash computes on `bv32` (`Math.imul`, `^`, `>>> 0`). `hashSeed` models ToInt32 wrap-around and the `Math.abs(-2^31)` corner.
  - `Math.round`/`Math.floor` of a product with a decimal constant are exact integer formulas. The `rankThresholds` percentages are exact fractions.
- **Operations.** Every loop is a recursive function, or a method with invariants where the loop itself is the point (`Fnv.HashStringLoop`, `RandomGenerator.HashSeedLoop`).
- **Sorting.** `Array.prototype.sort` with a comparator is a stable insertion sort (`Orders.SortBy`). Default `.sort()` and `localeCompare` are both modelled as lexicographic order on `char` (see "## Left out").
- **Parameters.**
  - Calls into code outside the model: `getRank` of `src/core/rankings.js`, which is not part of this model; Unicode NFKC normalisation; the `RegExp` test of blocked patterns.
  - Values from outside: the clock (`now`, the day's `YYYY-MM-DD`); the fresh session id; the floating-point difficulty metrics.

Two behaviours of the code are worth knowing:

- **Fewer puzzles than requested.** `selectByQuota` can return fewer than `min(count, candidates)` candidates. While a shortage borrows, every leftover shifted off a source tier's pool without being admissible is dropped, and it is not returned to the fallback pool. `Quota.SelectByQuotaFromSurvivors` states this for all inputs: the result draws only on the pools that survive the borrow loop. `Quota.SelectByQuotaFallback` states that the fallback fills the shortfall from those survivors as far as they go. `Quota.SelectByQuotaShortfall` exhibits the loss: one candidate, a count of one, and an empty result.
- **No duplicate core keys.** `buildCandidates` never generates two candidates with one core key, so the `uniqueByCore` pass never drops a candidate (`Candidates.UniqueByCoreKeepsDistinct`, `Candidates.BuildCandidatesSorts`).

## Model

| member | source | states |
|---|---|---|
| Fnv.HashString | tools/build-puzzles.mjs:53-60 | `hashString` is FNV-1a over the string's UTF-16 code units; the empty string hashes to the offset basis (the loop and the concatenation rule are the two rows below) |
| Fnv.HashStringLoop | tools/build-puzzles.mjs:53-60 | the loop of `hashString` (xor each UTF-16 code unit, multiply by the FNV prime modulo 2^32, from the offset basis) computes the recursive hash of the string's code units |
| Fnv.HashStringConcat | tools/build-puzzles.mjs:53-60 | hashing `a + b` continues from the hash of `a`, so the bucket hash of `prefix + coreKey` is the hash of the key started from the prefix's hash |
| Fnv.VectorEmpty | tools/build-puzzles.mjs:53-60 | the empty string hashes to the offset basis 0x811C9DC5, the published FNV-1a 32-bit vector |
| Fnv.VectorFoobar | tools/build-puzzles.mjs:53-60 | `foobar` hashes to 0xBF9CF968, the published FNV-1a 32-bit vector |
| Candidates.IsSubsetWord | tools/build-puzzles.mjs:119-126 | true exactly when every letter of the word is in the allowed set |
| Candidates.IsPangram | tools/build-puzzles.mjs:128-139 | true exactly when the word's letter set equals the puzzle's letter set (size check plus containment) |
| Candidates.RankThresholds | tools/build-puzzles.mjs:141-160 | ten tiers in key order, each worth `floor(maxScore * pct)` points |
| Candidates.RankThresholdsShape | tools/build-puzzles.mjs:141-160 | for a non-negative maximum: `beginner` is 0, `queenBee` is the maximum, and the points never decrease and stay within [0, maxScore] |
| Candidates.ValidWords | tools/build-puzzles.mjs:567 | the words kept are exactly those of the list that contain the centre and use only the seven letters, a sub-multiset of the list |
| Candidates.Pangrams | tools/build-puzzles.mjs:568 | the pangrams kept are exactly the listed words whose letter set is the puzzle's |
| Candidates.SevenLetterSets | tools/build-puzzles.mjs:544-560 | one well-formed entry per signature (seven distinct letters, sorted into the signature), no signature twice |
| Candidates.SevenLetterSetsComplete | tools/build-puzzles.mjs:546-560 | every word of length at least 7 with exactly seven distinct letters has its signature's entry |
| Candidates.SevenLetterSetsSound | tools/build-puzzles.mjs:551-558 | every entry holds the letter set of a seed word of the list, in that word's order |
| Candidates.CoreKeyInjective | tools/build-puzzles.mjs:579 | `${signature}:${centerLetter}` with equal-length signatures determines signature and centre |
| Candidates.TryCandidate | tools/build-puzzles.mjs:565-588 | one centre yields at most one candidate |
| Candidates.TryCandidateEmits | tools/build-puzzles.mjs:570-587 | with at least 12 valid words and one pangram, the centre yields its candidate with key `signature:centre` |
| Candidates.TryCandidateWellFormed | tools/build-puzzles.mjs:574-586 | an emitted candidate has the centre among its seven letters, the six others sorted as `outerLetters`, the sorted valid words and pangrams, the maximum score, its thresholds and `quality = maxScore + 3·words + 10·pangrams` |
| Candidates.EntryCandidatesFacts | tools/build-puzzles.mjs:565-588 | the candidates of one letter set are well formed, carry its signature, and have distinct keys |
| Candidates.GenerateKeysDistinct | tools/build-puzzles.mjs:564-589 | letter sets with distinct signatures generate candidates with pairwise distinct core keys |
| Candidates.GenerateFacts | tools/build-puzzles.mjs:564-589 | every generated candidate is well formed and comes from a listed signature, and no key repeats |
| Candidates.QualityGeTotal | tools/build-puzzles.mjs:591 | the comparator `b.quality - a.quality` is a total preorder, so the stable sort is well defined |
| Candidates.UniqueByCore | tools/build-puzzles.mjs:593-601 | the output keeps only input candidates and no key twice |
| Candidates.UniqueByCoreCovers | tools/build-puzzles.mjs:593-601 | every core key of the input survives in the output |
| Candidates.UniqueByCoreKeepsDistinct | tools/build-puzzles.mjs:593-601 | on candidates with distinct keys the pass is the identity |
| Candidates.BuildCandidates | tools/build-puzzles.mjs:543-602 | `buildCandidates`: no two returned candidates share a core key |
| Candidates.BuildCandidatesSorts | tools/build-puzzles.mjs:543-602 | the result is exactly the generated candidates, stably sorted by decreasing quality |
| Candidates.BuildCandidatesFacts | tools/build-puzzles.mjs:543-602 | every emitted candidate is well formed and comes from a seed word; keys are distinct; quality never increases along the list; the result is a permutation of what was generated |
| Candidates.BuildCandidatesComplete | tools/build-puzzles.mjs:543-602 | conversely, every seed word and centre with enough valid words and a pangram yields an emitted candidate with that key |
| Tiers.PassesGuardrail | tools/build-puzzles.mjs:243-263 | a guardrail whose word-count, score or zipf range is empty admits no candidate |
| Tiers.GuardrailBounds | tools/build-puzzles.mjs:23-46 | the three guardrails as bounds: simple 35–85 words, 170–250 points, zipf ≥ 4.2; medium 24–65, 120–210, 3.8–4.4; hard 16–45, 90–170, zipf ≤ 4.0 |
| Tiers.GuardrailMatches | tools/build-puzzles.mjs:243-263 | a tier is listed exactly when the metrics pass its guardrail (inclusive bounds, only the zipf bounds present), in `DIFFICULTY_ORDER` |
| Tiers.ComputeDifficultyTargets | tools/build-puzzles.mjs:281-286 | the three targets add up to the total |
| Tiers.TargetsRounding | tools/build-puzzles.mjs:281-286 | the simple target is 30% and the medium one 50% of the total, rounded half up; none is negative |
| Tiers.TargetsExample | tools/build-puzzles.mjs:281-286 | 730 splits 219/365/146 and 20 splits 6/10/4 |
| Annotation.Annotate | tools/build-puzzles.mjs:527-540 | every output is an input candidate with its metrics and its guardrail matches, never more than the input |
| Annotation.AnnotateKeeps | tools/build-puzzles.mjs:540 | the surviving candidates are exactly those with at least one guardrail match, in input order |
| Assign.ChooseNearest | tools/build-puzzles.mjs:265-279 | no tier for an empty list; otherwise an allowed tier at least as near the score's centre as any other allowed tier |
| Assign.NearestScanFirst | tools/build-puzzles.mjs:269-276 | among equally near tiers the scan keeps the first listed: every tier before the chosen one is strictly farther |
| Assign.TargetLabel | tools/build-puzzles.mjs:299-304 | position `idx` of `total` is simple iff the first `idx + 1` positions fit in 30% of the total, hard iff they exceed both 30% and 80% of it, medium otherwise |
| Assign.Label | tools/build-puzzles.mjs:304-315 | the label is the quantile tier (cutoffs `floor(0.3 n)` and `floor(0.8 n)`) when the guardrails allow it, else the nearest allowed tier; either way an allowed tier |
| Assign.ScoreLeTotal | tools/build-puzzles.mjs:293-298 | the comparator by difficulty score, then core key, is a total preorder |
| Assign.AssignDifficulties | tools/build-puzzles.mjs:288-316 | the output is a permutation of the input, sorted by score then key |
| Assign.AssignLabels | tools/build-puzzles.mjs:300-315 | position i gets the quantile label of i when its guardrails allow it, otherwise a nearest allowed tier; every label is allowed |
| Assign.AssignExample | tests/build-puzzles.test.js:29-45 | the five-candidate example is labelled simple, medium, medium, hard, hard |
| Quota.OfTierPartition | tools/build-puzzles.mjs:326-328 | the three tier buckets split the input as a multiset |
| Quota.HashOrderTotal | tools/build-puzzles.mjs:330-339 | the bucket comparator (hash of `seed:tier:coreKey`, then core key) is a total preorder |
| Quota.Bucket | tools/build-puzzles.mjs:326-339 | a bucket is a permutation of its tier's candidates, in hash order |
| Quota.Cut | tools/build-puzzles.mjs:341-356 | a bucket splits into the selected head and the leftovers; selected plus shortage equals the target; a shortage leaves no leftovers |
| Quota.BorrowOrder | tools/build-puzzles.mjs:358-362 | each tier borrows from the two other tiers, in a fixed order |
| Quota.FirstMatch | tools/build-puzzles.mjs:368-377 | the inner loop stops at the first leftover whose guardrails admit the needed tier |
| Quota.Borrow | tools/build-puzzles.mjs:364-390 | a borrowed candidate is relabelled to the needed tier and its guardrails admit that tier |
| Quota.TakeMatchingNone | tools/build-puzzles.mjs:368-377 | the inner loop over one source finds nothing exactly when no leftover of it admits the needed tier |
| Quota.BorrowNone | tools/build-puzzles.mjs:364-390 | a borrow fails exactly when neither source tier in the borrow order holds a leftover whose guardrails admit the needed tier |
| Quota.Step | tools/build-puzzles.mjs:364-390 | one pass lowers the tier's shortage by one, or only drops shifted leftovers when nothing can be borrowed |
| Quota.StepOk | tools/build-puzzles.mjs:364-390 | one pass of the borrow loop uses no input twice across selections and leftovers, and a relabelled candidate is admissible |
| Quota.FillOk | tools/build-puzzles.mjs:364-390 | the whole borrow loop for a tier keeps that invariant |
| Quota.FinishOk | tools/build-puzzles.mjs:398-418 | the fallback and the final slice use each input at most once |
| Quota.FinishShape | tools/build-puzzles.mjs:398-418 | the result has `min(count, selected + leftovers)` entries; a selection that fits comes first, followed by the leftovers that come first in fallback hash order, sorted; a longer selection is cut to `count` |
| Quota.SelectByQuota | tools/build-puzzles.mjs:318-419 | never more than the requested count |
| Quota.SelectByQuotaUses | tools/build-puzzles.mjs:318-419 | every selected candidate is an input, used at most once; a relabelled one carries a tier its guardrails admit |
| Quota.SelectByQuotaFallback | tools/build-puzzles.mjs:318-419 | with the pools left by the borrow loop, the result has `min(count, selected + leftovers)` entries: the selection, then the front of the leftovers in fallback hash order |
| Quota.SelectByQuotaFromSurvivors | tools/build-puzzles.mjs:364-419 | the result draws only on the selected and leftover pools left after the borrow loop, which hold each input at most once: a leftover shifted off while borrowing is never returned by the fallback |
| Quota.SelectByQuotaExact | tests/build-puzzles.test.js:47-68 | when every bucket can fill its target, the result is the hash-ordered head of each bucket, simple then medium then hard, and each tier appears exactly as often as its target |
| Quota.SelectByQuotaShortfall | tools/build-puzzles.mjs:364-377 | a lone simple candidate with a count of one is shifted away while the medium quota borrows, and nothing is selected |
| Schedule.Fallback | tools/build-puzzles.mjs:441-445 | the first tier in `DIFFICULTY_ORDER` with a candidate queued |
| Schedule.Pick | tools/build-puzzles.mjs:433-445 | the preferred tier of the cadence when it has candidates, otherwise the first non-empty tier in `DIFFICULTY_ORDER` |
| Schedule.InterleaveForSchedule | tools/build-puzzles.mjs:421-449 | `interleaveForSchedule` returns as many candidates as it is given |
| Schedule.InterleaveForSchedulePermutation | tools/build-puzzles.mjs:421-449 | the schedule is a permutation of the selection |
| Schedule.InterleaveForScheduleTier | tools/build-puzzles.mjs:421-449 | within each tier the schedule keeps the selection's order |
| Schedule.InterleaveForScheduleCadence | tools/build-puzzles.mjs:428-439 | with 2k medium, k simple and k hard candidates, the first 4k entries follow medium, simple, medium, hard |
| Schedule.InterleaveExample | tests/build-puzzles.test.js:70-83 | three medium, two simple and one hard candidate are scheduled medium, simple, medium, hard, medium, simple |
| Schedule.FallbackExample | tools/build-puzzles.mjs:441-445 | one medium and three simple candidates: the second medium turn and the hard turn fall back to the simple tier |
| Dictionary.ParseWordLines | tools/build-dictionary.mjs:17-22 | the parsed words are exactly the non-empty trimmed, lower-cased lines |
| Dictionary.Classify | tools/build-dictionary.mjs:100-138 | a word is kept exactly when it passes every check; each removal reason implies its flag is set and the word is on that list; a non-letter word counts as an abbreviation |
| Dictionary.FilterWordsKeeps | tools/build-dictionary.mjs:98-139 | the kept set is exactly the lower-cased normalised words that pass every filter |
| Dictionary.FilterWordsCounts | tools/build-dictionary.mjs:103-136 | each removal counter counts the normalised words rejected for its reason |
| Dictionary.VerdictsPartition | tools/build-dictionary.mjs:100-139 | every normalised word gets exactly one verdict |
| Dictionary.SurvivorPassesChecks | tools/build-dictionary.mjs:103-138 | a kept word is `^[a-z]+$`, long enough (default 4), matches no blocked pattern, and is on no excluded list |
| Dictionary.AddAllowed | tools/build-dictionary.mjs:141-146 | the allowlist loop appends exactly the missing allowlisted words and counts them |
| Dictionary.AllowlistAddedCount | tools/build-dictionary.mjs:141-146 | `allowlistAdded` is the number of allowlisted words the filters did not keep |
| Dictionary.RemoveBlocked | tools/build-dictionary.mjs:148-152 | the blocklist loop leaves exactly the words not blocklisted and counts the deletions |
| Dictionary.BlocklistRemovedCount | tools/build-dictionary.mjs:148-152 | `blocklistRemoved` is the number of blocklisted words that were present |
| Dictionary.BuildDictionary | tools/build-dictionary.mjs:66-156 | normalising never adds a word (`normalizedTotal <= inputTotal`), and the final count is the filtered words plus `allowlistAdded` minus `blocklistRemoved` |
| Dictionary.BuildSorted | tools/build-dictionary.mjs:154 | the output is strictly ascending: sorted, no duplicates |
| Dictionary.BuildMembers | tools/build-dictionary.mjs:89-154 | a word is in the output exactly when it is not blocklisted and is allowlisted or survives the filters |
| Dictionary.BuildTotals | tools/build-dictionary.mjs:89-96 | `inputTotal` counts the parsed base words, `normalizedTotal` their distinct NFKC forms, `finalTotal` the output; no proper nouns are counted |
| Dictionary.CountersPartition | tools/build-dictionary.mjs:92-139 | the kept words plus the removal counters add up to `normalizedTotal` |
| Dictionary.AllowlistCounter | tools/build-dictionary.mjs:141-146 | in the whole build, `allowlistAdded` counts the allowlisted words that the filters did not keep |
| Dictionary.BlocklistCounter | tools/build-dictionary.mjs:148-152 | in the whole build, `blocklistRemoved` counts the blocklisted words among the kept and allowlisted ones |
| Scoring.WordScore | src/core/scoring.js:1-8 | a word scores something exactly when `word.length`, its number of UTF-16 code units, is at least 4, and at most that length plus the bonus |
| Scoring.WordScoreRules | src/core/scoring.js:1-8 | measured in code units: under 4 score 0; 4 score 1; longer words score their length; a pangram adds 7; a word in the Basic Multilingual Plane scores exactly when it has at least 4 characters |
| Scoring.WordScoreCodeUnits | src/core/scoring.js:2-6 | two characters outside the Basic Multilingual Plane are four code units, a word worth 1 |
| Text.JsLengthBmp | src/core/scoring.js:2 | a string's `length` equals its number of characters exactly when every character lies in the Basic Multilingual Plane |
| Scoring.WordScoreExamples | tests/scoring.test.js:5-9 | able 1, alert 5, pangram central 14 |
| Scoring.MaxScore | src/core/scoring.js:10-14 | the total is 0 exactly when no word is 4 code units long or longer |
| Scoring.MaxScoreConcat | src/core/scoring.js:10-14 | the total of a concatenation is the sum of the totals |
| Scoring.MaxScorePermutation | src/core/scoring.js:10-14 | the total does not depend on the order of the words |
| Scoring.MaxScoreExample | tests/scoring.test.js:11-15 | able, alert, central with pangram central total 20 |
| Validator.NormalizeWord | src/core/validator.js:3-5 | the result is no longer than the input, has no upper-case ASCII letter, and neither starts nor ends with white space |
| Validator.NormalizeIdempotent | src/core/validator.js:3-5 | normalising twice is normalising once |
| Validator.ValidateWord | src/core/validator.js:7-38 | each rejection reason holds exactly when its check is the first to fail, in the source's order; a word is accepted exactly when every check passes; the normalised word is reported |
| Validator.PassesChecks | src/core/validator.js:7-38 | a normalised letter word of length ≥ 4 with the centre, only puzzle letters, not yet found and on the list is accepted as it is |
| Validator.ValidateRejectsNonLetters | tests/validator.test.js:11-14 | `ab3d` and the empty string are refused as non-letters |
| Validator.ValidateRequiresCenter | tests/validator.test.js:16-19 | `cler` is refused for lacking the centre letter |
| Validator.ValidateDuplicateAndValid | tests/validator.test.js:21-30 | a found word is refused as a duplicate; `central` is accepted |
| Hints.UnfoundMembers | src/core/hints.js:8-22 | the remaining words are exactly the listed words not found |
| Hints.AccumulateTally | src/core/hints.js:8-22 | after the loop: the remaining count and points are those of the unfound words, and there is one bucket per prefix with its counts |
| Hints.Prefix2Units | src/core/hints.js:9 | the prefix is a prefix of the word's code units: its first two units, or all of them when there are fewer, unless the slice would split a surrogate pair |
| Hints.ComputeHints | src/core/hints.js:3-31 | remaining count and points of the unfound words; one bucket per two-letter prefix of the list, in strictly ascending prefix order, with its total and found counts; the buckets' remaining counts add up to the remaining count |
| Hints.ComputeHintsExample | tests/hints.test.js:5-19 | with `acre` found: 3 words and 24 points remain; buckets ac 1/1, al 0/2, ce 0/1 |
| Puzzles.DecoratePuzzle | src/core/game-engine.js:6-12 | keeps the raw puzzle and adds the sets of its valid words and pangrams |
| GameEngine.CreateInitialState | src/core/game-engine.js:14-34 | found words sorted and mirrored by the found set; score, rank, id, creation time, source and seed taken from the session or defaulted; empty feedback; hints of the found set |
| GameEngine.SubmitWord | src/core/game-engine.js:36-62 | a rejected word only sets the feedback to the reason; an accepted word joins the sorted found list, adds its score, re-ranks, sets `Accepted +n.` (plus ` Pangram!`) and recomputes the hints; nothing else changes |
| GameEngine.InitialConsistent | src/core/game-engine.js:14-34 | a fresh game is consistent: nothing found, score 0 |
| GameEngine.SubmitKeepsConsistent | src/core/game-engine.js:36-62 | every submission keeps the found words sorted, distinct, puzzle words, mirrored by the set, scored by their total, and described by the hints |
| GameEngine.InitialExample | tests/game-engine.test.js:24-29 | the test puzzle starts at score 0 with four words remaining |
| GameEngine.SubmitExample | tests/game-engine.test.js:31-41 | `acre` scores 1; the pangram `central` then brings the score to 15 with two words remaining |
| GameEngine.SubmitMissingCenterExample | tests/game-engine.test.js:43-48 | `xxxx` is refused for the missing centre letter and the score stays 0 |
| Provider.GetDailyPuzzle | src/puzzles/provider.js:13-17 | the first puzzle dated the given day, else the first puzzle, and nothing for an empty list |
| RandomGenerator.ShiftStepIsMulStep | src/puzzles/random-generator.js:8-9 | `(hash << 5) - hash + code`, then `\|= 0`, equals ToInt32(31·hash + code) |
| RandomGenerator.HashSeedLoop | src/puzzles/random-generator.js:5-12 | the loop over `charCodeAt` computes the absolute value of the 32-bit fold |
| RandomGenerator.HashSeed | src/puzzles/random-generator.js:5-12 | the hash is between 0 and 2^31 |
| RandomGenerator.HashSeedReachesTwoTo31 | src/puzzles/random-generator.js:11 | the bound is reached: `xfjfxtf` folds to -2^31, whose absolute value is 2^31 |
| RandomGenerator.PickPuzzleBySeed | src/puzzles/random-generator.js:14-21 | the error "No puzzles available" exactly for an empty list; otherwise the puzzle at the hash modulo the length |
| Idb.RunMigrations | src/storage/idb.js:43-49 | `runMigrations` only adds stores, never one that exists already, and from version 2 on changes nothing |
| Idb.RunAllGrows | src/storage/idb.js:43-49 | running migrations only adds stores; no store is created twice, and none that existed is created again |
| Idb.RunAllRunsSelected | src/storage/idb.js:43-49 | exactly the migrations above the old version run, once each, in table order |
| Idb.MigrationsAscending | src/storage/idb.js:20-41 | the table is ordered by version and ends at `DB_VERSION` 2 |
| Idb.FreshDatabase | tests/idb-migrations.test.js:36-51 | a fresh database gets sessions, puzzles and app_meta, keyed by `sessionId`, `id` and `key`, and the three sessions indexes |
| Idb.UpgradeFromVersion1 | tests/idb-migrations.test.js:53-63 | a version-1 database gets only puzzles and app_meta, keyed by `id` and `key`, and no index |

## Left out

- File and network I/O is not modelled: reading the word lists and `policy.json`, writing the JSON outputs, `loadPuzzles`' `fetch`, and the console messages (the shortage warning of `selectByQuota` among them).
- Clocks and randomness are parameters or left out. `new Date()` becomes the day string or `now`, and `crypto.randomUUID()` the `freshId`. `getRandomPuzzle` and `createSeed` use `Math.random`/`Date.now` and are not modelled.
- The floating-point difficulty metrics are not computed. `averageZipf`, `commonWordShare`, letter rarity, `normalize01` and the blended `difficultyScore` of `annotateCandidates` are given as `real` inputs, and only the guardrail tagging and filtering are modelled.
- `getRank` (`src/core/rankings.js`, not part of this model) is a function parameter of the game engine.
- Unicode NFKC normalisation and `new RegExp(pattern, "u").test` are function parameters of the dictionary build.
- `toLowerCase` and `trim` are modelled for ASCII letters and the ECMAScript white-space characters. Other Unicode case mappings are not modelled.
- `localeCompare` and default `.sort()` are modelled as lexicographic order on `char`. `localeCompare` is locale collation: `"a".localeCompare("B") < 0` although `"B" < "a"` by code unit, and `"é"` sorts between `"e"` and `"f"`. On strings of lower-case ASCII letters in one fixed shape, collation agrees with `char` order. That covers the `[a-z]{7}:[a-z]` core keys compared by `Assign.ScoreLe` and `Quota.HashLe`, and the two-letter hint prefixes, as long as the words are lower-case ASCII.
- Default `.sort()` is UTF-16 code-unit order, and `char` order differs from it for characters outside the Basic Multilingual Plane. Allowlisted words bypass every filter (`Dictionary.BuildMembers`), so an allowlisted word with such characters can be ordered differently by `Orders.SortStrings` in `Dictionary.BuildDictionary` than by `[...filtered].sort()`. Such a word can also bring non-ASCII letters into core keys and hint prefixes, where collation and `char` order part ways.
- `Math.round` and `Math.floor` of products with decimal constants are exact integer formulas. For the difficulty targets (`Math.round` of `0.3 n` and `0.5 n`) and the quantile cutoffs (`Math.floor` of `0.3 n` and `0.8 n`), binary floating point gives the same integers for every realistic count.
- Candidates.RankThresholds: takes the `genius` percentage as the exact fraction 7/10. In binary floating point `maxScore * 0.7` falls just below an integer for some multiples of 10, so `Math.floor` gives one less. For maxScore 90, 170 and 180 the source computes 62, 118 and 125, while the model gives 63, 119 and 126. These scores lie inside the guardrail ranges, so real puzzles are affected. The other nine percentages agree with the exact fraction.
- The IndexedDB connection (`openDb`, `withStore`, transactions) is not modelled. A migration acts on a database reduced to its store names, a log of created stores and indexes, and the key path of each created store.
- The argument parsing of the puzzle build, `loadWordList`, and the annotation's metric arithmetic are outside the modelled core.
- Hints.ComputeHints: when a word's second character lies outside the Basic Multilingual Plane and its first does not, `word.slice(0, 2)` ends in half a surrogate pair. A Dafny `string` cannot hold a lone surrogate, so `Hints.Prefix2` keeps the first character alone there (`Hints.Prefix2Units`). Such a word's bucket is therefore keyed by one character, not by the character and a high surrogate. It can share a bucket with a one-character word, or with another such word whose second character has a different high surrogate, where the source keeps them apart. Its counts then differ from the source's.
- Assign.AssignDifficulties: requires every candidate to have at least one guardrail match. The guardrail filter guarantees this (`Annotation.AnnotateKeeps`); on an empty match list the source would label a candidate `undefined`.
- Quota.SelectByQuota: requires a non-negative count, as the argument parser produces; the source's behaviour on a negative count is not modelled.

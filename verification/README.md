# Sound change and functional load, modelled in Dafny

This project models two small, independent pieces of the dissertation scripts
of the Functionalism_LexicalContrast_SoundChange repository.

**Lexicon sound-change simulator** (`AppendixB/sound_change.py`). A word is a
CVC syllable of integer codes (onset, nucleus, coda). The codes come from a
consonant table of 26 symbols and a vowel table of 15 symbols. A lexicon is a
sequence of words. A simulation run applies a series of conditioned mergers.
Each merger does four things:

- it picks two adjacent codes of the targeted class;
- it builds a conditioning environment by thresholding the phonemes currently
  used in another slot;
- it rewrites the targeted slot of every matching word;
- it recomputes the cached phoneme set of that slot.

The run samples the phoneme count and the pairwise distance statistic before
the first merger and after merger 0, 500, 1000, …

**Functional-load n-gram counter** (`Chapter3/French/functional_load_french.py`).
`ngrams` turns a word → frequency dictionary into frequency-weighted counts:
single characters for order 0, and windows of `k + 1` characters of
`"|" + word + "|"` for order `k >= 1`. `functional_load` builds a merged
frequency table: it replaces one phoneme symbol by another in every word, and
words that collide add their counts.

Files and modules:

| file | module | contents |
|---|---|---|
| alphabet.dfy | `Alphabet` | the two symbol tables and their inverses |
| lexicon.dfy | `Lexicon` | `Word`, `Slot`, encoding and decoding, slot sets, the distance statistic |
| sound_change.dfy | `SoundChange` | the simulator state, the merger pair, the environment, the four mergers |
| simulation.dfy | `Simulation` | one run of `main`: the sampling schedule and the samples |
| counter.dfy | `Counter` | Python `Counter` semantics on `map<string, int>`, and the total of a table |
| ngrams.dfy | `NGrams` | the dictionary as an item list, n-gram extraction and its counting laws |
| functional_load.dfy | `FunctionalLoad` | `str.replace`, the merged table and its laws |

Modelling choices:

- The random draws are parameters:
  - `i` is the pair index, drawn from `range(n - 1)`;
  - `swap` is the order in which `random.sample` returns the two codes;
  - `threshold` is a code of the conditioning class;
  - a run takes the sequence of these draws, each with its merger kind.
- The global lexicon and the three global sets are one `State` value. The
  mergers require the cached sets to equal the slot sets of the lexicon. Every
  run starts in such a state (`Init`), and every merger keeps it.
- A failed symbol lookup (Python's `KeyError`) is an `Option.None`.
- A Python dictionary is its insertion-ordered item list `seq<Entry>`.
  `IsDict` says that the words are distinct. A `Counter` is a
  `map<string, int>` in which a missing key counts 0, and adding to a key
  creates it.
- `str.replace` is modelled in full. This includes the empty-pattern case,
  where Python inserts the replacement around every character.
- `average` is modelled as a sum of distances and a number of pairs. The
  average is their quotient, defined only when there are at least two words.

Where the scripts' own comments and their code differ, the model follows the
code:

- The comments at `sound_change.py:92` and `:305` call the statistic a
  "Levenshtein" distance. The code counts the slots that differ
  (`sound_change.py:99-103`), a Hamming distance on triples, and so does the
  model.

The sampling schedule is modelled as the loop at `sound_change.py:275-284`
runs it: one sample before the first merger, then one after each merger whose
zero-based index `n` satisfies `n % 500 == 0`, recorded as iteration `n + 1`
(1, 501, 1001, …).

## Model

| member | source | states |
|---|---|---|
| `Alphabet.VowelTablesInverse` | AppendixB/sound_change.py:18-19 | the vowel table and its inverse invert each other: `rev_vowels[vowels[v]] == v` and `vowels[rev_vowels[c]] == c` for every code 0..14 |
| `Alphabet.ConsonantTablesInverse` | AppendixB/sound_change.py:22-24 | the same for the 26 consonants, so the consonant table is injective |
| `Alphabet.InverseInjective` | AppendixB/sound_change.py:78-79 | a table that has an inverse gives distinct symbols distinct codes, so building the reverse dictionary loses no symbol |
| `Lexicon.Vectorize` | AppendixB/sound_change.py:36-38 | a spelled word encodes if and only if all three symbols are in their tables, and the codes it gets are keys of the inverse tables |
| `Lexicon.DecodeSlots` | AppendixB/sound_change.py:84-86 | a coded word decodes exactly when each code has a symbol |
| `Lexicon.VectorizeInverse` | AppendixB/sound_change.py:84-86 | the spelled form exists exactly when every code is in the inventory |
| `Lexicon.VectorizeRoundTrip` | AppendixB/sound_change.py:36-38 | decoding an encoded word slot by slot gives back its three symbols, and the spelled form is their concatenation |
| `Lexicon.DecodeRoundTrip` | AppendixB/sound_change.py:84-86 | encoding the symbols of a decodable word gives back the same codes |
| `Lexicon.Load` | AppendixB/sound_change.py:264 | a word list loads if and only if every word encodes; the lexicon then has one word per line, each the encoding of its line |
| `Lexicon.SlotSet` | AppendixB/sound_change.py:56-63 | the onset, nucleus and coda sets hold exactly the values found in slot 0, 1 and 2 of some word |
| `Lexicon.Distance` | AppendixB/sound_change.py:99-103 | the per-pair distance lies in 0..3 and is 0 if and only if the two words are identical; `DistanceCountsSlots` gives its value, the number of differing slots |
| `Lexicon.DistanceCountsSlots` | AppendixB/sound_change.py:99-103 | the distance of two words is the number of slots in which they differ |
| `Lexicon.DistanceSymmetric` | AppendixB/sound_change.py:99-103 | the per-pair distance is symmetric |
| `Lexicon.RowDistances` | AppendixB/sound_change.py:98-103 | the inner loop adds the distance from the current word to each later word, one entry per later word |
| `Lexicon.DistanceSum` | AppendixB/sound_change.py:97-103 | no contract of its own: the reference sum over all pairs `i < j`; `Average` is proved to compute it and `DistanceSumBound`, `DistanceSumZero`, `DistanceSumReverse` state its laws |
| `Lexicon.PairCount` | AppendixB/sound_change.py:97-98 | no contract of its own: the number of pairs the nested loops visit; `PairCountClosed` gives `n(n-1)/2` |
| `Lexicon.PhonemeCount` | AppendixB/sound_change.py:273 | no contract of its own: consonants in use in onset or coda plus vowels in use, from the slot sets; `CachedPhonemeCount` ties it to the cached sets |
| `Lexicon.Average` | AppendixB/sound_change.py:95-104 | the nested loops accumulate the distance over all pairs of positions `i < j`; the number of entries is the pair count of the lexicon and is positive exactly when there are at least two words, which the division needs; the sum is at most 3 per pair |
| `Lexicon.PairCountClosed` | AppendixB/sound_change.py:97-98 | comparing each word with the words after it visits `n(n-1)/2` pairs, which is positive exactly when `n >= 2` |
| `Lexicon.DistanceSumBound` | AppendixB/sound_change.py:99-103 | the distance sum never exceeds 3 times the number of pairs, so the average is at most 3 |
| `Lexicon.DistanceSumReverse` | AppendixB/sound_change.py:97-98 | reversing the lexicon leaves the distance sum unchanged |
| `Lexicon.DistanceSumZero` | AppendixB/sound_change.py:95-103 | the distance sum is 0 if and only if all words of the lexicon are identical |
| `Lexicon.DistanceExample` | AppendixB/sound_change.py:95-104 | `[(0,0,0),(1,1,1)]` has distance sum 3 over 1 pair |
| `Lexicon.DogCatPigLoad` | AppendixB/sound_change.py:48 | the demo list "dog", "cat", "pig" loads through the tables to (5, 3, 13), (16, 2, 6), (1, 0, 13) |
| `Lexicon.DogCatPigDistance` | AppendixB/sound_change.py:48 | those three loaded words have distance sum 3 + 2 + 3 = 8 |
| `SoundChange.Init` | AppendixB/sound_change.py:266 | a fresh run's cached sets are the slot sets of the loaded lexicon |
| `SoundChange.SortedCodes` | AppendixB/sound_change.py:125 | `sorted(list(rev_...))` over an inverse table of `n` codes is the strictly increasing list whose `c`-th entry is code `c` |
| `SoundChange.MergerPair` | AppendixB/sound_change.py:123-125 | the two merger codes are the two elements of the slice `[i:i+2]` of the sorted codes, that is codes `i` and `i + 1`: `(i, i + 1)` when the sample keeps their order and `(i + 1, i)` when `swap` reverses it; they are distinct, adjacent and valid codes |
| `SoundChange.Environment` | AppendixB/sound_change.py:129-133 | the environment is the part of the conditioning set at or above the threshold when `merg_1 < merg_2`, and at or below it otherwise |
| `SoundChange.Applied` | AppendixB/sound_change.py:134-139 | the rewritten lexicon as a value satisfies `Rewritten`: same length, matching words rewritten in the targeted slot, the others unchanged |
| `SoundChange.RewrittenUnique` | AppendixB/sound_change.py:134-139 | `Rewritten` determines the new lexicon uniquely, so the loop's result and `Applied` agree |
| `SoundChange.Rewrite` | AppendixB/sound_change.py:134-139 | the new lexicon has the same length; a matching word gets the new code in the targeted slot, and every other word passes through unchanged |
| `SoundChange.RewriteExhausts` | AppendixB/sound_change.py:134-139 | after merging two different codes no word of the new lexicon matches the merger any more |
| `SoundChange.RewriteChanges` | AppendixB/sound_change.py:134-139 | a word changes if and only if the merger matches it |
| `SoundChange.RewriteIdle` | AppendixB/sound_change.py:129-139 | an empty environment, or a `merg_1` no word carries, leaves the lexicon as it was |
| `SoundChange.RewriteSets` | AppendixB/sound_change.py:134-145 | the targeted slot's set afterwards lies within the old set plus `merg_2`; the other slots' sets are unchanged; codes stay in the inventory |
| `SoundChange.Change` | AppendixB/sound_change.py:117-245 | the shared shape of the four mergers: the merged codes are the slice `[i:i+2]` of the sorted codes in the drawn order (`MergerPair`), so adjacent; the resulting state is `Merge` of the draws; the environment as thresholded; positions kept; a word changes if and only if its targeted slot is `merg_1` and its conditioning slot is in the environment, and then only that slot changes, to `merg_2`; afterwards no word matches; an empty environment, or a `merg_1` not in use, leaves the lexicon unchanged; the targeted set is recomputed and lies within the old set plus `merg_2`; the other sets are untouched and all sets stay equal to the slot sets; codes stay in the inventory |
| `SoundChange.ChangeOnset` | AppendixB/sound_change.py:117-145 | `merg_1`, `merg_2` are the slice `[i:i+2]` of the sorted codes in the drawn order, and the result is `Merge` of the draws; onset `merg_1` becomes `merg_2` exactly in the words whose nucleus is in the environment drawn from the nucleus set; only the onset set changes |
| `SoundChange.ChangeNucleus` | AppendixB/sound_change.py:152-180 | `merg_1`, `merg_2` are the slice `[i:i+2]` of the sorted codes in the drawn order, and the result is `Merge` of the draws; nucleus `merg_1` becomes `merg_2` exactly in the words whose onset is in the environment drawn from the onset set; only the nucleus set changes |
| `SoundChange.ChangeNucleus2` | AppendixB/sound_change.py:182-210 | `merg_1`, `merg_2` are the slice `[i:i+2]` of the sorted codes in the drawn order, and the result is `Merge` of the draws; nucleus `merg_1` becomes `merg_2` exactly in the words whose coda is in the environment drawn from the coda set; only the nucleus set changes |
| `SoundChange.ChangeCoda` | AppendixB/sound_change.py:217-245 | `merg_1`, `merg_2` are the slice `[i:i+2]` of the sorted codes in the drawn order, and the result is `Merge` of the draws; coda `merg_1` becomes `merg_2` exactly in the words whose nucleus is in the environment drawn from the nucleus set; only the coda set changes |
| `Simulation.SamplePointsOrdered` | AppendixB/sound_change.py:272-282 | the loop-built points are 0 and the `x <= N` with `x - 1` a multiple of 500, strictly increasing |
| `Simulation.SamplePointsClosed` | AppendixB/sound_change.py:272-282 | there are `1 + ceil(N / 500)` loop-built points and the `j`-th is `500(j - 1) + 1` for `j >= 1` |
| `Simulation.SamplePointsSpec` | AppendixB/sound_change.py:272-282 | the sample points of `N` changes, built the way the loop builds them, are 0 and every `x` in 1..N with `x - 1` a multiple of 500, strictly increasing, `1 + ceil(N / 500)` of them, the `j`-th being `500(j - 1) + 1` for `j >= 1` |
| `Simulation.CachedPhonemeCount` | AppendixB/sound_change.py:273 | the phoneme count read from the cached sets equals the count of the consonants and vowels in use in the lexicon |
| `Simulation.Advance` | AppendixB/sound_change.py:277 | applying one randomly drawn merger yields exactly `ApplyStep` of the draws, and keeps the cached sets exact, the lexicon length and the inventory |
| `Simulation.Measure` | AppendixB/sound_change.py:272-274 | the statistics taken from the cached sets and the average loops equal the phoneme count, distance sum and pair count recomputed from the lexicon itself, and the sum is at most 3 per pair |
| `Simulation.SampledTake` | AppendixB/sound_change.py:279-284 | after a merger whose index `n` is a multiple of 500, the sample labelled `n + 1` is exactly the next sample point, and the count grows by one |
| `Simulation.RecordedTake` | AppendixB/sound_change.py:279-284 | after merger `n` with `n % 500 == 0`, the appended snapshot is the statistics after the first `n + 1` mergers, at the next sample point |
| `Simulation.RecordedSkip` | AppendixB/sound_change.py:279 | after any other merger every recorded sample still holds the statistics after its own number of mergers |
| `Simulation.SampledSkip` | AppendixB/sound_change.py:279 | after any other merger the samples already sit at exactly the sample points |
| `Simulation.Iterate` | AppendixB/sound_change.py:275-284 | one pass of the loop: the new state is the old state with merger `n` applied (`ApplySteps` over the first `n + 1` steps); the snapshot of the new lexicon is appended exactly when `n % 500 == 0`; cached sets, length and inventory are kept |
| `Simulation.Run` | AppendixB/sound_change.py:257-284 | the final state is the loaded state with all drawn mergers applied in order; one run takes `1 + ceil(N / 500)` samples, the `j`-th at iteration `p = 500(j - 1) + 1` (0 for the first), holding the phoneme count, distance sum and pair count of the lexicon after the first `p` mergers; the first sample is the statistics of the loaded lexicon; every sample divides by the same pair count and has at most 3 per pair; the cached sets stay exact and the length and inventory are kept; with no changes there is one sample and the lexicon is unchanged |
| `NGrams.Grams` | Chapter3/French/functional_load_french.py:46-54 | a word yields `|w|` n-grams for order 0 and `max(0, |w| + 2 - k)` for order `k >= 1`; which window each one is, is stated by `GramShape` and `GramsWindows` |
| `NGrams.NGramsFrom` | Chapter3/French/functional_load_french.py:45-55 | no contract of its own: the loop over the dictionary items; `NGramsFromCount`, `NGramsFromTotal` and `NGramsFromKeys` state what it adds to the table it starts from |
| `NGrams.NGramTable` | Chapter3/French/functional_load_french.py:39-55 | no contract of its own: `ngrams`, the n-gram counter of a dictionary; its laws are `NGramsCount`, `NGramsTotal`, `NGramsKeys`, `NGramsKeyShape`, `NGramsNonNegative` |
| `NGrams.GramShape` | Chapter3/French/functional_load_french.py:46-54 | an order-0 n-gram is the single character at its position; the `i`-th higher-order n-gram is the window `padded_word[i:i+k+1]` of `k + 1` characters that starts at position `i` |
| `NGrams.GramsWindows` | Chapter3/French/functional_load_french.py:46-54 | a word's n-grams are exactly its windows, each once and from left to right, against an independent recursive definition: the single characters for order 0, and every `k + 1`-character window of `"|" + w + "|"` for order `k >= 1` |
| `NGrams.NGramsCount` | Chapter3/French/functional_load_french.py:45-55 | the count of every key is the sum, over the words, of the word's frequency times the number of times the key occurs among its n-grams |
| `NGrams.NGramsTotal` | Chapter3/French/functional_load_french.py:46-54 | the counts add up to the sum of `freq(w) * |w|` for order 0, and of `freq(w) * max(0, |w| + 2 - k)` for order `k >= 1` |
| `NGrams.NGramsKeys` | Chapter3/French/functional_load_french.py:45-55 | the keys are exactly the n-grams that occur in some word |
| `NGrams.NGramsKeyShape` | Chapter3/French/functional_load_french.py:46-54 | for `k = 0` every key is one character of some word; for `k >= 1` every key has length `k + 1` and is a window of some `"|" + w + "|"` |
| `NGrams.NGramsNonNegative` | Chapter3/French/functional_load_french.py:49-54 | with non-negative frequencies every count is non-negative |
| `NGrams.DogUnigrams` | Chapter3/French/functional_load_french.py:46-49 | `{"dog": 1}` at order 0 gives `{d: 1, o: 1, g: 1}` |
| `NGrams.AbBigrams` | Chapter3/French/functional_load_french.py:50-54 | `{"ab": 1}` at order 1 gives `{"|a": 1, "ab": 1, "b|": 1}`: every window of `"|ab|"` is counted once |
| `Counter.Add` | Chapter3/French/functional_load_french.py:49 | `counter[key] += n`: the key is added to the keys, its count grows by `n`, every other count is unchanged |
| `FunctionalLoad.Replace` | Chapter3/French/functional_load_french.py:80 | no contract of its own: `str.replace`, with the empty-pattern case; its laws are `ReplaceSame`, `ReplaceChar`, `ReplaceEmptyExample` |
| `FunctionalLoad.Rename` | Chapter3/French/functional_load_french.py:79-80 | the `j`-th renamed item is the `j`-th word with `phon1` replaced by `phon2`, with the same frequency |
| `FunctionalLoad.TableOf` | Chapter3/French/functional_load_french.py:19-22 | no contract of its own: `Counter` accumulation of items; `CorpusTable`, `TableFromCount`, `TableOfDict` and `MergedCount`/`MergedTotal` state its laws |
| `FunctionalLoad.TableFromCount` | Chapter3/French/functional_load_french.py:19-22 | accumulating lines into a counter adds, to each word's count, the sum of the counts of that word's lines |
| `FunctionalLoad.CorpusTable` | Chapter3/French/functional_load_french.py:19-22 | the counter built from the corpus lines holds exactly the words of the lines; a word on several lines (a homophone) gets the sum of their counts |
| `FunctionalLoad.HomophoneExample` | Chapter3/French/functional_load_french.py:19-22 | lines `sa 2`, `so 1`, `sa 3` give `{sa: 5, so: 1}` |
| `FunctionalLoad.Merged` | Chapter3/French/functional_load_french.py:78-80 | no contract of its own: the merged table; its laws are the `Merged*` lemmas below |
| `FunctionalLoad.ReplaceSame` | Chapter3/French/functional_load_french.py:80 | replacing a symbol by itself leaves every word unchanged |
| `FunctionalLoad.ReplaceChar` | Chapter3/French/functional_load_french.py:80 | replacing one character by another keeps the length and maps the word character by character |
| `FunctionalLoad.ReplaceEmptyExample` | Chapter3/French/functional_load_french.py:80 | an empty pattern inserts the replacement around every character |
| `FunctionalLoad.TableOfDict` | Chapter3/French/functional_load_french.py:78-80 | reading a dictionary's items, as the loop over `words_dic` does, gives back exactly its words, each with its own frequency |
| `FunctionalLoad.MergedCount` | Chapter3/French/functional_load_french.py:78-80 | colliding keys add up: the merged count of `g` is the total frequency of the words that become `g` |
| `FunctionalLoad.MergedTotal` | Chapter3/French/functional_load_french.py:78-80 | the merged table has the same total count as the original table |
| `FunctionalLoad.MergedIdentity` | Chapter3/French/functional_load_french.py:78-80 | with `phon1 == phon2` the merged table equals the original table |
| `FunctionalLoad.MergedKeys` | Chapter3/French/functional_load_french.py:78-80 | the merged keys are exactly the rewritten words |
| `FunctionalLoad.RenamedWord` | Chapter3/French/functional_load_french.py:78-80 | every word of the corpus is rewritten into a word of the renamed corpus |
| `FunctionalLoad.MergedKeyCount` | Chapter3/French/functional_load_french.py:78-80 | merging never increases the number of distinct keys |
| `FunctionalLoad.MergedSingleChar` | Chapter3/French/functional_load_french.py:78-80 | for single-character `phon1 != phon2`, no merged key contains `phon1`, and every rewritten word keeps its length |

## Left out

- Lexicons of fewer than two words. `average` then divides by an empty list's length and `main` raises ZeroDivisionError at AppendixB/sound_change.py:274. `Simulation.Run` instead records a sample with `pairs == 0`, and `Lexicon.Average` states that `pairs > 0` holds exactly when there are at least two words.
- Entropy, the rounded functional-load ratio, and the final division of `average`. These are floating-point computations (`math.log`, `/`, `round`). The model keeps only the integer sum and pair count of `average`.
- File reading and line splitting: the corpus file, the word-list file, and the `strip`/`split('-')` step. This is I/O. `Lexicon.Load` models only the symbol lookup that follows. `FunctionalLoad.TableOf` models the `Counter` accumulation of the corpus lines.
- `random.choice` and `random.sample`. Their results are parameters, constrained to the ranges they are drawn from.
- All printing: the change descriptions, the before→after trace, and the demo prints. This is presentation only.
- matplotlib plotting and command-line argument handling. Both are external.
- The outer loop of `main` over `iterations`. Each iteration reloads the lexicon and is an independent `Simulation.Run`.
- Module-level demo statements and the hard-coded `functional_load` calls. They have no logic of their own.
- FunctionalLoad.MergedSingleChar: the key-length law is stated only for single-character `phon1` and `phon2`. For longer patterns the length changes by the number of occurrences times the length difference, and that is not stated.
- NGrams: the order `k` is a natural number. A negative order is meaningless for a Markov model and is not modelled.

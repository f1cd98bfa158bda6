# textstat readability core in Dafny

This project models the core of the `textstat` readability engine (Python):

- the consensus grade `text_standard`. It collects a floor and ceiling vote from seven grade formulas and bucket votes from the Flesch reading ease. It then picks the most common vote, breaking ties by first appearance, as `collections.Counter.most_common(1)` does.
- the sentence counter.
- the Arabic syllable and long-word counters.
- the monosyllable count.
- the average word length (`chars_per_word`), the Automated Readability Index and the SMOG index.
- the `textstatistics` front end. Its per-instance settings are the language, the rounding points and apostrophe removal. The module also covers the `_legacy_round` output rounding, the grade-band string and the integer branch of `spache_readability`.

Modules, one per source file:

| module | file |
|---|---|
| `Consensus` | `text_standard.dfy` |
| `Sentences` | `count_sentences.dfy` |
| `ArabicSyllables` | `count_arabic_syllables.dfy` |
| `ArabicLongWords` | `count_arabic_long_words.dfy` |
| `Monosyllables` | `count_monosyllable_words.dfy` |
| `WordLengths` | `chars_per_word.dfy` |
| `ReadabilityIndex` | `automated_readability_index.dfy` |
| `Smog` | `smog_index.dfy` |
| `Textstat` | `textstat.dfy` |

Shared pieces:

- `Util` holds a counting filter, Python's `str.split()` and decimal rendering and parsing of integers.
- `Numeric` holds `math.floor`, `math.ceil`, `int()`, `round()` and the square-root contract.
- `Collaborators` holds the helpers whose code is not part of this model.

How the model is written:

- **Code that loops or updates state becomes methods.** What each kind is tied to:
  - The sentence loop and the two Arabic loops are proved equal to a specification function (`SentenceCount`, `ArabicSyllables`, `LongWordCount`), and the properties are proved about that function.
  - The vote tally `Tally` is tied clause by clause to `Distinct` and `Occurrences`.
  - The `most_common` scan `MostCommon` is proved to meet the predicate `IsConsensus`.
  - The `textstatistics` setters have no loop. Their contracts give the new value of every field and what the dependent functions (`LegacyRound`, `RemovePunctuation`, `SyllableCount`) then return.
- **Formulas stay functions.** The straight-line formulas are functions.
- **Floats are exact reals.**
  - `math.floor` is `x.Floor`.
  - `math.ceil` is `-((-x).Floor)`.
  - `int()` truncates toward zero.
  - `round(x, p)` rounds half to even at `p` decimals.
  - `x ** 0.5` is a `sqrt` parameter. Its contract, `Numeric.IsSqrt`, is that it returns a non-negative value whose square is `x`.
- **Unseen helpers are parameters.** Helpers whose code is not part of this model are function-valued fields of one `Collaborators.Backend` value passed to every operation, so every property holds for any implementation of them. This covers `remove_punctuation`, `count_words`, `count_chars`, `list_words`, `count_syllables`, `count_polysyllable_words`, `get_grade_suffix`, the `\s`/`\w` character classes and the other grade formulas.
- **SMOG and ARI are read twice.** `text_standard` imports the SMOG index and ARI from the modules `_smog_index` and `_automated_readability_index`, which are not part of this model. Its votes therefore read them from the `Backend`. The shown `smog_index.py` and `automated_readability_index.py` are modelled separately, in `Smog` and `ReadabilityIndex`.
- **The cache is left out.** `typed_cache` only memoises, so every cached function is a plain function.

The code and its tests disagree about the grade band, and the model follows the code:

- The test `tests/textstat/test_text_standard.py` pairs each float grade with a band that starts at that grade, for example 4.0 with "4th and 5th grade".
- `text_standard` as written starts the band at `int(value) - 1`.
- `Textstat.TextStatistics.TextStandard` therefore models the code. The band the tests expect is `Textstat.IntendedGradeBand`, recorded under Findings.

## Model

| member | source | states |
|---|---|---|
| `Numeric.Floor` | textstat/backend/metrics/_text_standard.py:22 | `math.floor`: the result is the integer `f` with `f <= x < f + 1` |
| `Numeric.Ceil` | textstat/backend/metrics/_text_standard.py:23 | `math.ceil`: the result is the integer `c` with `c - 1 < x <= c` |
| `Numeric.FloorCeilAdjacent` | textstat/backend/metrics/_text_standard.py:22-25 | floor <= ceil <= floor + 1; they are equal exactly when the score is integral |
| `Numeric.Trunc` | textstat/textstat.py:821 | `int()` on a float truncates toward zero: below the value when it is non-negative, above it when it is negative, and within 1 of it |
| `Numeric.RoundHalfEven` | textstat/textstat.py:57 | the nearest integer, within 0.5; an exact half goes to the even neighbour |
| `Numeric.RoundTo` | textstat/textstat.py:57 | `round(x, p)` moves `x` by at most half a unit in the p-th decimal place, for any `p`, negative ones included |
| `Numeric.RoundToScale` | textstat/textstat.py:57 | rounding to units of `1/p`: the result times `p` is the nearest integer to `x * p`, halves to even, and the result is within half a unit of `x` |
| `Numeric.RoundToUnits` | textstat/textstat.py:57 | the result of `round(x, p)` is a whole number of units of `10^-p`: scaled by `10^p` it is the half-to-even nearest integer to the scaled input |
| `Consensus.EaseVotes` | textstat/backend/metrics/_text_standard.py:27-45 | the reading-ease bucket table gives two votes exactly on [60, 70) and one vote elsewhere; every vote lies in 5..13; a score below 30 or at least 100 votes 13 |
| `Consensus.EaseVotesAntitone` | textstat/backend/metrics/_text_standard.py:29-43 | on [30, 100), an easier text never gets a higher vote, and a strictly higher decade of ease gets a strictly lower vote |
| `Consensus.Votes` | textstat/backend/metrics/_text_standard.py:19-82 | the vote list has 16 votes when reading ease is in [60, 70) and 15 otherwise |
| `Consensus.VoteLayout` | textstat/backend/metrics/_text_standard.py:21-82 | layout of the list: the FK pair, then the ease votes, then one floor/ceiling pair per formula in the source's order; the two votes of a pair are equal or one apart |
| `Consensus.DistinctMembers` | textstat/backend/metrics/_text_standard.py:84 | the Counter's keys are exactly the votes, each once |
| `Consensus.DistinctPrefix` | textstat/backend/metrics/_text_standard.py:84 | the keys of a prefix of the votes are a prefix of the keys: keys keep first-appearance order |
| `Consensus.ConsensusUnique` | textstat/backend/metrics/_text_standard.py:84-86 | at most one vote is most common with ties broken by first appearance, so the result is determined |
| `Consensus.Tally` | textstat/backend/metrics/_text_standard.py:84 | building `Counter(grade)`: the counts are defined exactly on the votes, each count is that vote's number of occurrences, and the keys are the distinct votes in first-appearance order |
| `Consensus.FirstMaximalKey` | textstat/backend/metrics/_text_standard.py:84-86 | the first key, in insertion order, whose count is maximal is that consensus |
| `Consensus.MostCommon` | textstat/backend/metrics/_text_standard.py:84-86 | `Counter(grade).most_common(1)[0][0]` on a non-empty list returns the consensus: a vote, no vote occurs more often, and every vote occurring as often first appears later |
| `Consensus.AppendFloorCeil` | textstat/backend/metrics/_text_standard.py:22-25 | appending `floor` then `ceil` of a score extends the list by exactly that pair |
| `Consensus.TextStandard` | textstat/backend/metrics/_text_standard.py:17-86 | the result is an integral float, and it is the consensus of the vote list the appends build |
| `Consensus.AllZeroGrades` | textstat/backend/metrics/_text_standard.py:17-86 | when all seven grade formulas score 0.0, the consensus is 0, whatever the reading ease |
| `Util.Split` | textstat/backend/counts/_count_arabic_long_words.py:36 | `str.split()`: non-empty tokens containing no whitespace |
| `Util.SplitAtSpace` | textstat/backend/counts/_count_arabic_long_words.py:36 | `str.split()` breaks at every whitespace character: the tokens of `a + c + b`, with `c` whitespace, are those of `a` followed by those of `b` |
| `Util.SplitWord` | textstat/backend/counts/_count_arabic_long_words.py:36 | a non-empty run without whitespace is exactly one token, so tokens are maximal runs |
| `Util.SplitAllSpace` | textstat/backend/counts/_count_arabic_long_words.py:36 | whitespace alone gives no token |
| `Util.Delete` | textstat/backend/counts/_count_arabic_long_words.py:30 | `re.sub(<class>, "", s)`: the result is shorter than `s` by exactly the number of class members in it and holds none |
| `Util.DeleteAppend` | textstat/backend/counts/_count_arabic_long_words.py:30 | deletion distributes over concatenation, so the kept characters stay in order |
| `Util.DeleteNone` | textstat/backend/counts/count_arabic_syllables.py:58 | a text without class members is left unchanged |
| `Util.FlattenSplit` | textstat/backend/counts/count_arabic_syllables.py:29-33 | the characters of the tokens of `s`, in order, are `s` with its whitespace deleted |
| `Sentences.NonTerminalRun` | textstat/backend/counts/_count_sentences.py:26 | `[^.!?]+` is greedy: it ends at the first terminal mark or the end of the text |
| `Sentences.TerminalRun` | textstat/backend/counts/_count_sentences.py:26 | `[.!?]*` is greedy: it ends at the first non-mark or the end of the text |
| `Sentences.MatchAt` | textstat/backend/counts/_count_sentences.py:26 | a match at `p` is non-empty and stays inside the text |
| `Sentences.FindAll` | textstat/backend/counts/_count_sentences.py:26 | every reported span starts at or after the search position and is non-empty and inside the text |
| `Sentences.SpanTexts` | textstat/backend/counts/_count_sentences.py:26 | the i-th segment is the text of the i-th span |
| `Sentences.FindAllComplete` | textstat/backend/counts/_count_sentences.py:26 | nothing is skipped: every position where a match could start, a word boundary before a non-mark, lies inside a reported span |
| `Sentences.Segments` | textstat/backend/counts/_count_sentences.py:26 | `findall` returns one segment per span; each is non-empty, starts with a non-mark, and holds marks only as a suffix |
| `Sentences.FindAllMatches` | textstat/backend/counts/_count_sentences.py:26 | each span starts at a word boundary with a non-mark; marks occur in it only as a suffix; the run of marks is maximal; a span stopping before the end of the text ends in a mark; spans are ordered and disjoint |
| `Sentences.OnlyMarksNoSegments` | textstat/backend/counts/_count_sentences.py:26 | a text of terminal marks only has no segments |
| `Sentences.SentenceCount` | textstat/backend/counts/_count_sentences.py:30 | the count is at least 1 |
| `Sentences.CountSentences` | textstat/backend/counts/_count_sentences.py:24-30 | the loop computes `max(1, #segments - #segments of at most two words)` |
| `Sentences.SentenceCountBounds` | textstat/backend/counts/_count_sentences.py:27-30 | the ignored segments are counted by position; the count never exceeds `max(1, #segments)` |
| `Sentences.OnlyMarksCountOne` | textstat/backend/counts/_count_sentences.py:26-30 | the empty text, or one of terminal marks only, counts 1 sentence |
| `ArabicSyllables.Stripped` | textstat/backend/counts/count_arabic_syllables.py:58 | the fallback substitution shortens the text by exactly the number of alef, alef maksura, `?.!,*` and whitespace characters in it and leaves none |
| `ArabicSyllables.ArabicSyllables` | textstat/backend/counts/count_arabic_syllables.py:24-61 | for any token list the count is at least `2 * stress marks - 2`: each stress mark adds two and the fallback subtracts at most two; `HitsPartition` and `RawTokensCollapse` give its value |
| `ArabicSyllables.CountArabicSyllables` | textstat/backend/counts/count_arabic_syllables.py:24-61 | the nested loops, stress count and fallback compute `ArabicSyllables` for any token list |
| `ArabicSyllables.HitsPartition` | textstat/backend/counts/count_arabic_syllables.py:35-50 | every position matching a token increments exactly one counter: long when alef, waw or yaa follows, short otherwise, including at the last position |
| `ArabicSyllables.NoHitsForLongToken` | textstat/backend/counts/count_arabic_syllables.py:36-38 | a token that is not one character matches no position |
| `ArabicSyllables.NoHitsForLongTokens` | textstat/backend/counts/count_arabic_syllables.py:35-50 | with only such tokens both counters stay 0 |
| `ArabicSyllables.RawTokensCollapse` | textstat/backend/counts/count_arabic_syllables.py:28-61 | with the six-character raw tokens as written, the result is always `len(stripped text) - 2 + 2 * stress marks`; it is at least -2, and -2 for the empty text |
| `ArabicSyllables.RawTokensExample` | textstat/backend/counts/count_arabic_syllables.py:28-61 | U+0641 U+064E U+0627 gives 0 as written |
| `ArabicSyllables.CorrectedTokensExample` | textstat/backend/counts/count_arabic_syllables.py:27-61 | with the single-character tokens the comment at line 27 names, the same input gives 2: one long syllable counted double, with the fallback adding 0 |
| `ArabicLongWords.StripTashkeel` | textstat/backend/counts/_count_arabic_long_words.py:25-30 | the substitution shortens the text by exactly the number of the eleven diacritics in it and leaves none |
| `ArabicLongWords.StripTashkeelExactly` | textstat/backend/counts/_count_arabic_long_words.py:25-30 | the text is unchanged exactly when it holds none of U+064B..U+0653, U+0657, U+0658 |
| `ArabicLongWords.LongWordCount` | textstat/backend/counts/_count_arabic_long_words.py:35-40 | the count is at most the number of tokens |
| `ArabicLongWords.CountArabicLongWords` | textstat/backend/counts/_count_arabic_long_words.py:25-40 | the loop computes `LongWordCount` |
| `ArabicLongWords.DiacriticInsertionInvariant` | textstat/backend/counts/_count_arabic_long_words.py:25-40 | inserting one of the eleven diacritics anywhere, or deleting one, leaves the count unchanged |
| `ArabicLongWords.LongWordCountIsIndexCount` | textstat/backend/counts/_count_arabic_long_words.py:33-40 | the count is the number of token positions with more than five characters; no tokens gives 0 |
| `ArabicLongWords.SingleTokenCount` | textstat/backend/counts/_count_arabic_long_words.py:37 | a five-character token is not counted; a six-character one is |
| `Monosyllables.CountMonosyllables` | textstat/backend/counts/_count_monosyllable_words.py:11 | the count is at most the length of the list |
| `Monosyllables.MonosyllableWords` | textstat/backend/counts/_count_monosyllable_words.py:8-11 | 0 <= result <= `len(list_words(text))` |
| `Monosyllables.MonosyllablesByPosition` | textstat/backend/counts/_count_monosyllable_words.py:11 | the count is the number of list positions whose word has exactly one syllable; an empty list gives 0 |
| `Monosyllables.MonosyllablesPerOccurrence` | textstat/backend/counts/_count_monosyllable_words.py:11 | counting is additive over lists, so a repeated word counts once per occurrence; a doubled list counts double |
| `Monosyllables.MonosyllablesExtremes` | textstat/backend/counts/_count_monosyllable_words.py:11 | all one-syllable words count in full; none counts 0 |
| `WordLengths.CharsPerWord` | textstat/backend/metrics/chars_per_word.py:5-28 | with words, result times words equals chars; with no words, the raw character count; always between 0 and the character count; both paths use the same flag, which defaults to True |
| `ReadabilityIndex.AutomatedReadabilityIndex` | textstat/backend/metrics/automated_readability_index.py:28-36 | zero words gives 0.0, and any text with words scores above -21.43; `ReadabilityIndexFormula` gives the exact value |
| `ReadabilityIndex.ReadabilityIndexFormula` | textstat/backend/metrics/automated_readability_index.py:28-36 | zero words gives 0.0; otherwise `4.71 * chars_per_word(text) + 0.5 * words / sentences - 21.43`, with characters counted ignoring spaces, and above -21.43; the sentence count is never 0, so only zero words reaches the fallback |
| `Smog.SmogIndex` | textstat/backend/metrics/smog_index.py:29-39 | under 3 sentences the index is 0.0; with at least 3 and a true square root it is at least 3.1291; `SmogFormula` shows the density can be read back from it |
| `Smog.SmogFormula` | textstat/backend/metrics/smog_index.py:35-37 | with at least 3 sentences the index is at least 3.1291, and `((index - 3.1291) / 1.043)^2 = 30 * poly / sentences`, so the density can be read back |
| `Smog.SmogFewSentences` | textstat/backend/metrics/smog_index.py:29-33 | under 3 sentences the index is 0.0 whatever `count_polysyllable_words` returns |
| `Smog.SmogEmptyText` | textstat/backend/metrics/smog_index.py:29-33 | the empty text has one sentence and scores 0.0 |
| `Util.IntToStringRoundTrip` | textstat/textstat.py:840-845 | the decimal rendering `format` uses parses back to the same integer |
| `Textstat.GradeBand` | textstat/textstat.py:838-845 | the band as rendered is exactly `str(int(v) - 1)`, its suffix, " and ", `str(int(v))`, its suffix and " grade", in that order |
| `Textstat.IntendedGradeBand` | textstat/textstat.py:838-845 | the band the tests expect is exactly `str(int(v))`, its suffix, " and ", `str(int(v) + 1)`, its suffix and " grade", in that order |
| `Textstat.BandReadsBack` | textstat/textstat.py:838-845 | the band is exactly `str(lower)` and `str(lower + 1)`, each followed by its own suffix, joined by " and " and ending in " grade" |
| `Textstat.BandNumeralsReadBack` | textstat/textstat.py:840-845 | in any such band the two numerals parse back as `lower` and `lower + 1` |
| `Textstat.BandRejectsBareSign` | textstat/textstat.py:840-845 | a bare "-" is not the numeral 0: "-th and 1st grade" is not the band for 0 |
| `Textstat.GradeBandOffByOne` | textstat/textstat.py:838-845 | for an integral grade `v` the rendered band opens with `v - 1`; the intended band opens with `v` |
| `Textstat.ZeroGradeBand` | textstat/textstat.py:838-845 | the grade 0.0 is rendered "-1…", where the intended band opens with "0" |
| `Textstat.TextStatistics.constructor` | textstat/textstat.py:27-33 | a fresh instance has lang "en_US", no rounding points and apostrophe removal on |
| `Textstat.TextStatistics.LegacyRound` | textstat/textstat.py:35-57 | unchanged when no rounding points are set; otherwise within half a unit of the last kept decimal |
| `Textstat.TextStatistics.LegacyRoundUnits` | textstat/textstat.py:35-57 | with rounding points set, the output is a whole number of units of the last kept decimal, the half-to-even nearest one |
| `Textstat.TextStatistics.SetRoundingPoints` | textstat/textstat.py:59-74 | sets the rounding points and nothing else |
| `Textstat.TextStatistics.SetRounding` | textstat/textstat.py:76-103 | `True` sets the points passed, `False` clears them whatever was passed, after which outputs pass through unrounded; nothing else changes |
| `Textstat.TextStatistics.SetRmApostrophe` | textstat/textstat.py:105-122 | sets only the apostrophe flag, and `remove_punctuation` then passes the new flag |
| `Textstat.TextStatistics.SetLang` | textstat/textstat.py:124-139 | sets only the language; `syllable_count` then uses it whatever language is passed to it, and `remove_punctuation` is unaffected |
| `Textstat.TextStatistics.RemovePunctuation` | textstat/textstat.py:183-204 | punctuation removal uses the instance's apostrophe flag |
| `Textstat.TextStatistics.SyllableCount` | textstat/textstat.py:248-273 | syllables are counted for the instance language, whatever is passed as the deprecated `lang` |
| `Textstat.TextStatistics.SyllableCountIgnoresLang` | textstat/textstat.py:248-273 | the deprecated `lang` argument does not change the count |
| `Textstat.TextStatistics.SpacheReadability` | textstat/textstat.py:810-821 | float output is `_legacy_round` of the score; integer output truncates toward zero |
| `Textstat.TextStatistics.TextStandard` | textstat/textstat.py:833-845 | the result is the consensus grade for the instance language: legacy-rounded as a float, or rendered as the band from `int(v) - 1` to `int(v)` |

## Findings

| source | as written | input that shows it | evidently intended | confidence | as-written member | corrected member |
|---|---|---|---|---|---|---|
| textstat/backend/counts/count_arabic_syllables.py:28 | the tokens are raw strings `r"\u064E"` etc. They are six characters long and are compared with `!=` to single characters, so no mark is ever found and every text takes the fallback | U+0641 U+064E U+0627 (feh, fatha, alef) gives 0 | the single characters fatha, damma and kasra (the comment at line 27); the same input then gives 2 | high, not executed | `ArabicSyllables.RawTokensCollapse`, `ArabicSyllables.RawTokensExample` | `ArabicSyllables.CorrectedTokensExample`, `ArabicSyllables.HitsPartition` |
| textstat/textstat.py:838-839 | the band starts at `int(value) - 1` | grade 0.0 (the empty text, tests/textstat/test_text_standard.py:11) is rendered "-1…", where line 12 of that test expects "0th and 1st grade"; every band in that test starts at its float grade | the band from `int(value)` to `int(value) + 1` | medium, not executed | `Textstat.GradeBand`, `Textstat.ZeroGradeBand` | `Textstat.IntendedGradeBand`, `Textstat.GradeBandOffByOne` |

For the first finding, `CountArabicSyllables` takes the token list as a parameter:

- `ArabicSyllables.RawTashkeel` is the list as written.
- `ArabicSyllables.Tashkeel` is the corrected list.

## Left out

- `typed_cache` memoisation: every cached function is modelled as a plain function.
- The bodies of `remove_punctuation`, `count_words`, `count_chars`, `list_words`, `count_syllables` (Pyphen hyphenation), `count_polysyllable_words`, `get_grade_suffix` and the Flesch–Kincaid, reading-ease, Coleman–Liau, Dale–Chall, Linsear Write, Gunning Fog and Spache formulas. They are not part of this model and are arbitrary functions of the `Backend`. The expected outputs in `tests/backend/test_transformations.py` depend on `remove_punctuation` and are not modelled.
- The import link from `text_standard` to `_smog_index` and `_automated_readability_index`: those modules are not part of this model, so the consensus reads those two scores from the `Backend` and does not use `Smog.SmogIndex` or `ReadabilityIndex.AutomatedReadabilityIndex`.
- IEEE floating point: scores are exact reals. NaN and infinities, which would raise in `math.floor`, are not modelled, and neither is binary rounding of `round()`.
- `Textstat.TextStatistics.LegacyRound`: rounding is exact decimal half-to-even, not `round()` on the binary float nearest to the value, so values whose decimal expansion is not exact in binary may round differently.
- Unicode: `\s` and `\w` are the `Backend`'s `isSpace` and `isWordChar`; `str.split()` splits on `isSpace`.
- Deprecation warnings (textstat/textstat.py:96-99, 175-180, 265-271).
- The one-line delegating methods of `textstatistics` other than `remove_punctuation`, `syllable_count`, `spache_readability` and `text_standard`. They only forward to the metrics and `_legacy_round`.
- `Smog.SmogFormula`: `sqrt` is a parameter required to be a square root, not Python's `** 0.5` on floats. The `ZeroDivisionError` handler is unreachable because the division only happens with at least 3 sentences.
- `ArabicSyllables.CorrectedTokensExample`: it assumes `remove_punctuation` keeps the three characters, since its code is not part of this model.

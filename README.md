# Legacy AI-content detectors, modelled in Dafny

This project models the rule-based scoring of the two legacy detectors of the
unified backend:

- `TextAIDetector` on its heuristic path. It tokenises a text into lower-cased
  words and into non-blank sentences, and derives counting features: word
  count, sentence count, distinct words, vocabulary diversity and average
  lengths. It then scores bigram/trigram repetition, vocabulary diversity,
  sentence-length consistency and perplexity, each behind a small-input guard
  that returns 0.5. It buckets a confidence by word count and combines the four
  scores with weights 0.3, 0.2, 0.25 and 0.25 before a final clamp.
- `ImageAIDetector` outside the pixel work. It buckets the file size into a
  metadata score and has a "basic" path that clamps that score with a fixed
  confidence of 0.5. The "advanced_cv" path combines four sub-scores with
  weights 0.35, 0.25, 0.20 and 0.20 and buckets a confidence on the image
  dimensions. The closing clamps of the artifact and texture scorers, and the
  dispatch between the two paths, are modelled too.

Files:

- `scores.dfy` (module `Scores`): the result record, Python's `min`/`max` on
  floats modelled on exact `real`, the count of thresholds a value reaches
  (shared by the step functions of both detectors), and small arithmetic lemmas.
- `tokens.dfy` (module `Tokens`): the tokenisers, i.e. `re.findall(r'\b\w+\b')`,
  `str.split()`, `str.strip()` and `re.split(r'[.!?]+')`, with lemmas about them.
- `counting.dfy` (module `Counting`): `set(xs)` and `len(xs) - len(set(xs))`.
- `text_detector.dfy` (module `TextDetector`).
- `image_detector.dfy` (module `ImageDetector`).

What comes from numeric libraries enters as a parameter:

- `sentenceStd` is `np.std` of the sentence lengths, a non-negative real.
- `perplexity` is `exp` of the negated average log bigram probability.
- The OpenCV/NumPy statistics are the two spectrum means, the colour-space
  deviations, the edge density and the mean local variance.

An `Option` that is `None` stands for a library call that raised. In that case
the scorer returns its 0.5 fallback; for `imdecode` it means the basic path.

`_heuristic_detection` accumulates `ai_score` and `total_weight` step by step,
so it is a method whose postcondition ties its result to the specification
functions; the accumulation itself is the method `CombineScores`. The `bigram_freq` dictionary loop of `_calculate_perplexity` is also
a method, specified against the multiset of the bigrams. Everything else in
the two files is if-chains, comprehensions and single expressions, so it is
modelled as functions.

## Model

| member | source | states |
|---|---|---|
| Scores.Clamp | unified-backend/docs/legacy/text_detector.py:119 | `min(hi, max(lo, x))` lies in [lo, hi], is `x` when `x` is already in range, and is the violated bound otherwise |
| Scores.ClampOrder | unified-backend/docs/legacy/image_detector.py:172 | the image scorers' `max(lo, min(hi, x))` equals the text detector's `min(hi, max(lo, x))` whenever `lo <= hi` |
| Tokens.LowerChar | unified-backend/docs/legacy/text_detector.py:138 | `lower()` on one character: an ASCII capital becomes the small letter at the same position in the alphabet and every other character is unchanged, so word characters stay word characters and no capital remains |
| Tokens.LowerCharEqual | unified-backend/docs/legacy/text_detector.py:138 | two characters lower-case to the same character exactly when they are equal or one is the capital of the other |
| Tokens.Lower | unified-backend/docs/legacy/text_detector.py:138 | `text.lower()` keeps the length and lower-cases every character in its place |
| Tokens.LowerEqual | unified-backend/docs/legacy/text_detector.py:138 | two texts lower-case to the same text exactly when they have the same length and agree position by position up to case |
| Tokens.RunLength | unified-backend/docs/legacy/text_detector.py:138 | the longest prefix of matching characters: all of it matches and the next character does not |
| Tokens.Runs | unified-backend/docs/legacy/text_detector.py:138 | every token that `\b\w+\b` (or `split()`) yields is a non-empty run of matching characters |
| Tokens.RunsCover | unified-backend/docs/legacy/text_detector.py:138 | the tokens, concatenated, are exactly the matching characters of the text in order: tokenising drops the separators and nothing else |
| Tokens.RunsSplit | unified-backend/docs/legacy/text_detector.py:138 | a separator character splits the text: the tokens of `a + [c] + b` are those of `a` followed by those of `b` |
| Tokens.RunsOfRun | unified-backend/docs/legacy/text_detector.py:138 | a single run is its own only token |
| Tokens.RunsEmptyIff | unified-backend/docs/legacy/text_detector.py:185 | there are no tokens exactly when no character matches |
| Tokens.Strip | unified-backend/docs/legacy/text_detector.py:137 | `strip()` is empty exactly when the text is all whitespace, and otherwise starts and ends with a non-whitespace character |
| Tokens.StripSlice | unified-backend/docs/legacy/text_detector.py:137 | `strip()` returns one contiguous slice of the text |
| Tokens.StripRemovesSpace | unified-backend/docs/legacy/text_detector.py:137 | everything `strip()` removes, before and after that slice, is whitespace |
| Tokens.StripKeepsNoTerminator | unified-backend/docs/legacy/text_detector.py:179 | stripping a piece that holds no terminator leaves one that holds none |
| Tokens.SplitOnTerminators | unified-backend/docs/legacy/text_detector.py:137 | `re.split(r'[.!?]+')` yields at least one piece, and no piece contains `.`, `!` or `?`; SplitRoundTrip states what the pieces are |
| Tokens.SplitWithoutTerminator | unified-backend/docs/legacy/text_detector.py:137 | a text without a terminator is one piece, itself |
| Tokens.SplitCountsTerminatorRuns | unified-backend/docs/legacy/text_detector.py:137 | there is exactly one piece more than there are runs of terminators |
| Tokens.SplitStep | unified-backend/docs/legacy/text_detector.py:137 | on a text with a terminator, the pieces are the text before the first run of terminators followed by the pieces of the text after that run, and those three parts make up the text |
| Tokens.SplitRoundTrip | unified-backend/docs/legacy/text_detector.py:137 | putting the runs of terminators back between the pieces, in order, gives back the text: the split drops the terminators and nothing else, with one piece more than there are runs |
| Counting.Distinct | unified-backend/docs/legacy/text_detector.py:144 | `set(xs)` holds exactly the entries of `xs`, never more of them than `len(xs)`, and at least one for a non-empty list |
| Counting.DistinctSizeIffNoDuplicates | unified-backend/docs/legacy/text_detector.py:144-145 | `len(set(xs)) == len(xs)` exactly when no entry repeats |
| Counting.NoDuplicatesCons | unified-backend/docs/legacy/text_detector.py:159-160 | a list has no repeat exactly when its head does not recur in its tail and its tail has no repeat |
| Counting.DuplicateCount | unified-backend/docs/legacy/text_detector.py:159-160 | `len(xs) - len(set(xs))` is a natural number, zero exactly when no entry repeats, and below `len(xs)` for a non-empty list |
| Counting.OccurrenceBounds | unified-backend/docs/legacy/text_detector.py:209 | an entry of a list occurs between 1 and `len(xs)` times, so `bigram_freq[b] / len(bigrams)` lies in (0, 1] |
| TextDetector.Words | unified-backend/docs/legacy/text_detector.py:138 | every word is a non-empty run of word characters |
| TextDetector.WordsHaveNoSpace | unified-backend/docs/legacy/text_detector.py:156-157 | no word contains a space, which makes the `' '.join` of bigrams and trigrams unambiguous |
| TextDetector.SentencePieces | unified-backend/docs/legacy/text_detector.py:137 | `re.split(r'[.!?]+', text.strip())` gives one piece more than the stripped text has runs of terminators, no piece holds a terminator, and putting those runs back between the pieces rebuilds the stripped text |
| TextDetector.StrippedNonBlank | unified-backend/docs/legacy/text_detector.py:179 | `[s.strip() for s in pieces if s.strip()]` keeps no more strings than there are pieces, and each one is non-empty and starts and ends with a non-whitespace character |
| TextDetector.StrippedNonBlankAppend | unified-backend/docs/legacy/text_detector.py:179 | the comprehension over two lists of pieces, one after the other, is the comprehension over the first followed by that over the second |
| TextDetector.StrippedNonBlankMembers | unified-backend/docs/legacy/text_detector.py:179 | a string is among the kept sentences exactly when it is non-empty and is the strip of some piece |
| TextDetector.StrippedNonBlankKeepsAll | unified-backend/docs/legacy/text_detector.py:179 | no piece is dropped exactly when every piece strips to a non-empty string |
| TextDetector.Sentences | unified-backend/docs/legacy/text_detector.py:178-179 | the kept sentences are no more than the pieces, and each is non-empty, starts and ends with a non-whitespace character and holds no terminator |
| TextDetector.TokenCount | unified-backend/docs/legacy/text_detector.py:185 | `len(s.split())` is zero exactly when `s` is all whitespace |
| TextDetector.TokenCounts | unified-backend/docs/legacy/text_detector.py:185 | one token count per sentence, in order |
| TextDetector.SentencesHaveTokens | unified-backend/docs/legacy/text_detector.py:179-185 | every kept sentence has at least one token |
| TextDetector.SentenceLengths | unified-backend/docs/legacy/text_detector.py:185 | one length per kept sentence, in order: entry i is the token count `len(sentences[i].split())` of sentence i, and each is at least 1 |
| TextDetector.TotalLength | unified-backend/docs/legacy/text_detector.py:146 | the summed length of non-empty words is at least their number |
| TextDetector.TotalLengthFlatten | unified-backend/docs/legacy/text_detector.py:146 | `sum(len(word) for word in words)` is the length of the words written one after another |
| TextDetector.WordCharacters | unified-backend/docs/legacy/text_detector.py:146 | the words written one after another are exactly the word characters of the lower-cased text, so the summed word length counts those characters |
| TextDetector.ExtractWritingFeatures | unified-backend/docs/legacy/text_detector.py:135-147 | the word count and the non-blank sentence count; `unique_words` is the number of distinct words and at most the word count; `vocabulary_diversity`, `avg_sentence_length` and `avg_word_length` are distinct words, words and summed word length over `max(n, 1)` of the right count; the diversity lies in [0, 1], is 0 exactly on a text without words and 1 exactly when there are words and all are distinct; the average word length is at least 1 when there are words |
| TextDetector.FeatureAverages | unified-backend/docs/legacy/text_detector.py:143-146 | each average times its `max(n, 1)` denominator gives back its numerator: the word count, the distinct-word count and the summed word length |
| TextDetector.FullDiversityIffNoRepeatedWord | unified-backend/docs/legacy/text_detector.py:144-145 | `vocabulary_diversity` is 1 exactly when the text has words and no word repeats |
| TextDetector.FeaturesOfCounts | unified-backend/docs/legacy/text_detector.py:140-147 | the feature dictionary built from the counts: `vocabulary_diversity`, `avg_sentence_length` and `avg_word_length` are distinct words, words and summed word length over `max(n, 1)` of the right count; the diversity lies in [0, 1], is 0 exactly without words and 1 exactly when there are words and every one is distinct; the average sentence length is non-negative and the average word length at least 1 when there are words |
| TextDetector.JoinInjective | unified-backend/docs/legacy/text_detector.py:156 | joining two strings with a space determines both strings when the left one has no space |
| TextDetector.Bigrams | unified-backend/docs/legacy/text_detector.py:156 | one entry per adjacent pair of words, `max(len(words) - 1, 0)` of them, the i-th being words i and i+1 joined by a space |
| TextDetector.Trigrams | unified-backend/docs/legacy/text_detector.py:157 | one entry per three adjacent words, `max(len(words) - 2, 0)` of them, the i-th being words i to i+2 joined by spaces |
| TextDetector.BigramsDetermineWords | unified-backend/docs/legacy/text_detector.py:156 | for words without spaces, two lists of at least two words with the same bigrams are the same list |
| TextDetector.TrigramRepeatGivesBigramRepeat | unified-backend/docs/legacy/text_detector.py:156-157 | two equal trigrams start with two equal bigrams |
| TextDetector.NoRepeatedBigramNoRepeatedTrigram | unified-backend/docs/legacy/text_detector.py:156-160 | when no bigram repeats, no trigram repeats |
| TextDetector.AnalyzeRepetition | unified-backend/docs/legacy/text_detector.py:149-164 | exactly 0.5 below ten words, and always in [0, 1] |
| TextDetector.RepetitionScore | unified-backend/docs/legacy/text_detector.py:163-164 | `min(1, 10 * repetition / max(n, 1))` lies in [0, 1] and is 0 exactly when the duplicate count is 0 |
| TextDetector.RepetitionZeroIffNoRepeatedBigram | unified-backend/docs/legacy/text_detector.py:156-164 | on ten words or more the repetition score is 0 exactly when no bigram repeats |
| TextDetector.AnalyzeVocabularyDiversity | unified-backend/docs/legacy/text_detector.py:166-174 | exactly 0.5 below five words; otherwise in [0, 1) and 0 exactly when all words are distinct |
| TextDetector.VocabularyScoreComplementsFeature | unified-backend/docs/legacy/text_detector.py:145-174 | on five words or more the diversity score is one minus the `vocabulary_diversity` feature |
| TextDetector.Sum | unified-backend/docs/legacy/text_detector.py:186 | a sum of lengths that are each at least 1 is at least their number |
| TextDetector.AnalyzeSentenceStructure | unified-backend/docs/legacy/text_detector.py:176-191 | exactly 0.5 below two non-blank sentences; otherwise in [0, 1], and 1 exactly when the standard deviation is 0 |
| TextDetector.ConsistencyScore | unified-backend/docs/legacy/text_detector.py:186-191 | `max(0, 1 - std / mean)` with the mean at least 1 lies in [0, 1] and is 1 exactly when the deviation is 0 |
| TextDetector.SumUniform | unified-backend/docs/legacy/text_detector.py:186 | `n` lengths all equal to `c` sum to `n * c` |
| TextDetector.SquaredDeviationsUniform | unified-backend/docs/legacy/text_detector.py:187 | lengths all equal to `c` have no squared deviation from `c` |
| TextDetector.UniformMean | unified-backend/docs/legacy/text_detector.py:186 | the mean of lengths all equal to `c` is `c` |
| TextDetector.UniformVarianceZero | unified-backend/docs/legacy/text_detector.py:186-187 | lengths that are all equal have population variance 0 |
| TextDetector.UniformSentencesScoreOne | unified-backend/docs/legacy/text_detector.py:185-191 | two or more sentences of one common length, with `std` the square root of their variance, score exactly 1 |
| TextDetector.SquaredDeviationsZero | unified-backend/docs/legacy/text_detector.py:187 | the sum of squared deviations is never negative and is 0 only when every length equals the mean |
| TextDetector.ZeroVarianceMeansUniform | unified-backend/docs/legacy/text_detector.py:187 | lengths whose population variance is 0 are all the same |
| TextDetector.ScoreOneMeansUniformSentences | unified-backend/docs/legacy/text_detector.py:185-191 | the converse: with `std` the square root of the variance, a structure score of 1 on two or more sentences means every sentence has the same length |
| TextDetector.BigramFrequencies | unified-backend/docs/legacy/text_detector.py:200-204 | the frequency dictionary has exactly the bigrams as keys, maps each to its number of occurrences, and every count lies in [1, len(bigrams)]; so `prob > 0` always holds and the `-10` branch at line 210 is never taken |
| TextDetector.CalculatePerplexity | unified-backend/docs/legacy/text_detector.py:193-217 | exactly 0.5 below ten words; otherwise in [0, 1], and `1 - perplexity / 100` when the perplexity lies in [0, 100] |
| TextDetector.PerplexityScoreAntitone | unified-backend/docs/legacy/text_detector.py:216 | a lower perplexity never gives a lower score |
| TextDetector.CalculateConfidence | unified-backend/docs/legacy/text_detector.py:219-231 | in [0.3, 0.9]; 0.3 exactly below ten words and 0.9 exactly from 200 words; ConfidenceByBand gives the bands in between |
| TextDetector.ConfidenceByBand | unified-backend/docs/legacy/text_detector.py:224-231 | the if-chain agrees on every word count with the table of thresholds 10/50/200 and confidences 0.3/0.6/0.8/0.9 |
| TextDetector.ConfidenceMonotone | unified-backend/docs/legacy/text_detector.py:224-231 | confidence never decreases as the word count grows |
| TextDetector.HeuristicScore | unified-backend/docs/legacy/text_detector.py:95-116 | the 0.3/0.2/0.25/0.25 combination of the four sub-scores lies between the smallest and the largest of them |
| TextDetector.HeuristicScoreIsConvex | unified-backend/docs/legacy/text_detector.py:99-119 | the weighted sum lies between the smallest and the largest sub-score, so four scores in [0, 1] give a score in [0, 1] |
| TextDetector.HeuristicScoreOfEqualScores | unified-backend/docs/legacy/text_detector.py:99-116 | the weights sum to 1: four equal scores combine to that same score |
| TextDetector.CombineScores | unified-backend/docs/legacy/text_detector.py:95-119 | the accumulated `ai_score / total_weight`, clamped, is the weighted sum clamped to [0, 1], lies in [0, 1], and is the plain weighted sum when the four scores lie in [0, 1] |
| TextDetector.ShortTextIsUndecided | unified-backend/docs/legacy/text_detector.py:90-133 | with fewer than five words and fewer than two non-blank sentences every sub-score is 0.5, so the weighted score is 0.5, and the confidence is 0.3 |
| TextDetector.HeuristicDetection | unified-backend/docs/legacy/text_detector.py:90-133 | the analysis is "heuristic" with the features and four sub-scores; the weights sum to 1 so the probability is the plain weighted sum, in [0, 1], and the clamp changes nothing; the confidence is the word-count bucket; a text of under five words and under two sentences gets exactly 0.5 and 0.3 |
| ImageDetector.AnalyzeMetadata | unified-backend/docs/legacy/image_detector.py:177-197 | in [0.3, 0.8]; 0.3 exactly below 10000 bytes and 0.8 exactly from 1000000 bytes |
| Scores.CrossedMonotone | unified-backend/docs/legacy/image_detector.py:185-194 | a larger value never reaches fewer thresholds, so a larger size (or word count) never lands in a lower band |
| ImageDetector.MetadataByBand | unified-backend/docs/legacy/image_detector.py:185-194 | the if-chain agrees on every size with the table of thresholds 10000/50000/200000/1000000 and scores 0.3/0.5/0.6/0.7/0.8 |
| ImageDetector.MetadataMonotone | unified-backend/docs/legacy/image_detector.py:185-194 | a larger file never gets a lower metadata score |
| ImageDetector.ImageAnalysis.MethodName | unified-backend/docs/legacy/image_detector.py:61 | the `"method"` entry is "basic" exactly for the basic record and "advanced_cv" exactly for the advanced one |
| ImageDetector.BasicDetection | unified-backend/docs/legacy/image_detector.py:75-94 | the probability is the metadata score itself (the clamp to [0.2, 0.8] changes nothing); the confidence is 0.5; the analysis records "basic", the file size and the metadata score |
| ImageDetector.Image.Channels | unified-backend/docs/legacy/image_detector.py:67 | `img.shape[2]` when the image has a third dimension, and 1 otherwise |
| ImageDetector.Image.Size | unified-backend/docs/legacy/image_detector.py:230 | `img.size`, the number of entries, is zero exactly when the height, the width or the channel count is zero |
| ImageDetector.CalculateConfidence | unified-backend/docs/legacy/image_detector.py:225-242 | in [0.3, 0.9]; 0.3 exactly for a missing or empty image; otherwise the bucket 0.4/0.6/0.8/0.9 of the shorter side at 64/256/1024 |
| ImageDetector.ConfidenceMonotone | unified-backend/docs/legacy/image_detector.py:234-242 | for non-empty images, a longer shorter side never gives a lower confidence |
| ImageDetector.NonEmptyImageConfidence | unified-backend/docs/legacy/image_detector.py:229-242 | a non-empty image gets a confidence in [0.4, 0.9] |
| ImageDetector.FrequencyDomainAnalysis | unified-backend/docs/legacy/image_detector.py:133-145 | 0.5 when the library raised; otherwise in [0, 1], and 0 exactly when the high-frequency mean is 0 |
| ImageDetector.DetectAiArtifacts | unified-backend/docs/legacy/image_detector.py:159-175 | 0.5 when the library raised; otherwise clamped into [0, 1] |
| ImageDetector.ArtifactScoreAntitone | unified-backend/docs/legacy/image_detector.py:159-172 | more colour deviation or more edges never raise the artifact score |
| ImageDetector.ArtifactScoreExtremes | unified-backend/docs/legacy/image_detector.py:159-172 | a flat image without edges scores 1; deviations summing to 255 or more plus full edge density score 0 |
| ImageDetector.AnalyzeTexturePatterns | unified-backend/docs/legacy/image_detector.py:218-223 | 0.5 when the library raised; otherwise in [0, 1], 1 exactly for zero local variance and 0 exactly from a variance of 255 |
| ImageDetector.TextureScoreAntitone | unified-backend/docs/legacy/image_detector.py:218-220 | more local variance never raises the texture score |
| ImageDetector.AdvancedScore | unified-backend/docs/legacy/image_detector.py:43-48 | the 0.35/0.25/0.20/0.20 combination of the four sub-scores lies between the smallest and the largest of them |
| ImageDetector.AdvancedScoreIsConvex | unified-backend/docs/legacy/image_detector.py:43-48 | the weighted sum lies between the smallest and the largest sub-score, so four scores in [0, 1] give a probability in [0, 1] without a clamp |
| ImageDetector.AdvancedScoreOfEqualScores | unified-backend/docs/legacy/image_detector.py:43-48 | the weights sum to 1: four equal scores combine to that same score |
| ImageDetector.AdvancedDetection | unified-backend/docs/legacy/image_detector.py:26-73 | without a decoded image it is the basic result; otherwise the probability is the weighted combination of the four sub-scores, in [0, 1], the confidence is the dimension bucket, and the analysis is "advanced_cv" with the frequency, artifact, metadata and texture scores, the width, the height and the channel count |
| ImageDetector.Detect | unified-backend/docs/legacy/image_detector.py:19-24 | the basic path when OpenCV is unavailable and the advanced path otherwise; the probability is in [0, 1] and the confidence in [0.3, 0.9] either way |
| ImageDetector.UndecodableImageIsBasic | unified-backend/docs/legacy/image_detector.py:19-34 | without a decodable image the result is the basic one, whether or not OpenCV is available |
| ImageDetector.ModuleOpenCvFlag | unified-backend/docs/legacy/image_detector.py:1-12 | the module-level flag as written: it is defined only when `cv2` imports, and then it is true; it is never false |
| ImageDetector.BasicBranchUnreachable | unified-backend/docs/legacy/image_detector.py:1-24 | whenever the module loads, `detect` takes the advanced path: the basic branch of `detect` cannot be reached |
| ImageDetector.GuardedOpenCvFlag | unified-backend/docs/legacy/image_detector.py:8-12 | the guarded import alone: the flag is always defined and is true exactly when `cv2` imports |
| ImageDetector.GuardedImportReachesBasic | unified-backend/docs/legacy/image_detector.py:8-24 | with the guarded import alone, a missing `cv2` gives a false flag and `detect` returns the basic result |

## Left out

- The machine-learning path of the text detector (`_load_model`, `_ml_detection`, `_calculate_ai_probability`) calls transformers and torch, which cannot be modelled. `_ml_detection` passes the probability tensor where `_calculate_confidence` expects a features dictionary (text_detector.py:51), so that path raises and falls back to the heuristic path.
- The text detector's `detect` dispatch is left out: which branch it takes depends on whether transformers imported and a model loaded, and the ML branch is not modelled.
- The `math.log`/`math.exp` core of `_calculate_perplexity` (text_detector.py:206-213) is transcendental. The perplexity enters as a parameter, and only the guard, the frequency loop and the final clamp are modelled.
- `np.mean`/`np.std` in `_analyze_sentence_structure`: the mean is computed exactly, and the deviation is the parameter `sentenceStd`. UniformSentencesScoreOne ties that parameter to the population variance by its square.
- Floating point: scores are exact reals, so rounding, infinities and NaN are not modelled. For instance, the empty FFT regions of an image under 8 pixels on a side give NaN means in `_frequency_domain_analysis`.
- `\w` and `lower()` are modelled on ASCII only. Python's Unicode word characters and case mapping are not modelled. Whitespace for `strip()`/`split()` follows Python's `str.isspace` in full.
- OpenCV and NumPy pixel work (`imdecode`, FFT, colour conversions, Canny, `filter2D`) is library code on pixel arrays. Its outputs enter as abstract statistics, and only the arithmetic and clamps applied to them are modelled.
- ImageDetector.DetectAiArtifacts: does not bound the edge density to [0, 1], which Canny guarantees; the contract states only what holds for any edge density.
- The `except` branches of `_basic_detection` (image_detector.py:95-100) and `_analyze_metadata` (image_detector.py:196-197) cannot be reached, because `len` of a byte string does not raise. The "fallback" record is not modelled.
- The `image_size` string `f"{width}x{height}"` is kept as the two numbers.
- The `scores` argument of the image `_calculate_confidence` is dropped, because the function never reads it.
- `opencv_available` is a parameter of `Detect` rather than a field of a detector object: it is set once from the import and only read.
- `async`/`await` adds nothing here (no concurrent work is awaited), so every operation is a plain function or method.
- The API routes, the placeholder FastAPI router and the ORM table declaration are not part of this model: they are request, persistence and schema plumbing with no scoring logic.

## Findings

| source | as written | input that shows it | evidently intended | confidence | as-written member | corrected member |
|---|---|---|---|---|---|---|
| unified-backend/docs/legacy/image_detector.py:1-12 | an unguarded `import cv2` precedes the `try`/`except ImportError` block, so the module either fails to load or sets `OPENCV_AVAILABLE = True`; the `else` branch of `detect` (lines 23-24) can never run | an environment without `cv2`: the first line raises and the detector is never created | without `cv2` the flag is false and `detect` falls back to `_basic_detection` | not executed | ImageDetector.ModuleOpenCvFlag | ImageDetector.GuardedOpenCvFlag |

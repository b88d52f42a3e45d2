/** The heuristic path of the legacy `TextAIDetector`: tokenise the text,
    derive counting features, score repetition, vocabulary diversity,
    sentence-length consistency and perplexity, bucket a confidence by word
    count, and combine the four scores with fixed weights.

    Two values come from numeric library code and enter as parameters:
    `sentenceStd`, the population standard deviation of the sentence lengths
    (`np.std`), and `perplexity`, `exp` of the negated average log bigram
    probability. */
module TextDetector {
  import opened Scores
  import opened Tokens
  import opened Counting

  // ---------------------------------------------------------------------------
  // Tokenisation

  /** `re.findall(r'\b\w+\b', text.lower())`: non-empty runs of word
      characters, none of which contains a space. */
  function Words(text: string): (ws: seq<string>)
    ensures forall k :: 0 <= k < |ws| ==> IsRun(ws[k], IsWordChar)
  {
    Runs(Lower(text), IsWordChar)
  }

  lemma WordsHaveNoSpace(text: string)
    ensures forall k :: 0 <= k < |Words(text)| ==> ' ' !in Words(text)[k]
  {
    var ws := Words(text);
    forall k | 0 <= k < |ws| ensures ' ' !in ws[k] {
      assert IsRun(ws[k], IsWordChar);
    }
  }

  /** `re.split(r'[.!?]+', text.strip())`: pieces free of terminators that,
      with the runs of terminators put back between them, give the stripped
      text again. */
  function SentencePieces(text: string): (r: seq<string>)
    ensures |r| == |Runs(Strip(text), IsTerminator)| + 1
    ensures forall k :: 0 <= k < |r| ==> NoneSatisfy(r[k], IsTerminator)
    ensures Interleave(r, Runs(Strip(text), IsTerminator)) == Strip(text)
  {
    SplitRoundTrip(Strip(text));
    SplitOnTerminators(Strip(text))
  }

  /** `[s.strip() for s in pieces if s.strip()]`: the pieces that are not all
      whitespace, stripped. */
  function StrippedNonBlank(pieces: seq<string>): (r: seq<string>)
    ensures |r| <= |pieces|
    ensures forall k :: 0 <= k < |r| ==> IsStripped(r[k])
  {
    if pieces == [] then []
    else
      var s := Strip(pieces[0]);
      var rest := StrippedNonBlank(pieces[1..]);
      if s == [] then rest
      else
        AllStrippedCons(s, rest);
        [s] + rest
  }

  lemma AllStrippedCons(s: string, rest: seq<string>)
    requires IsStripped(s) && forall k :: 0 <= k < |rest| ==> IsStripped(rest[k])
    ensures forall k :: 0 <= k < |[s] + rest| ==> IsStripped(([s] + rest)[k])
  {
    forall k | 0 <= k < |[s] + rest| ensures IsStripped(([s] + rest)[k]) {
      if k > 0 {
        assert ([s] + rest)[k] == rest[k - 1];
      }
    }
  }

  /** The comprehension keeps the order of the pieces: it distributes over
      concatenation. */
  lemma {:induction false} StrippedNonBlankAppend(a: seq<string>, b: seq<string>)
    ensures StrippedNonBlank(a + b) == StrippedNonBlank(a) + StrippedNonBlank(b)
  {
    if a == [] {
      assert a + b == b;
    } else {
      var ab := a + b;
      assert ab[0] == a[0] && ab[1..] == a[1..] + b;
      var head := if Strip(a[0]) == [] then [] else [Strip(a[0])];
      assert StrippedNonBlank(a) == head + StrippedNonBlank(a[1..]);
      assert StrippedNonBlank(ab) == head + StrippedNonBlank(a[1..] + b);
      StrippedNonBlankAppend(a[1..], b);
      ConcatAssoc(head, StrippedNonBlank(a[1..]), StrippedNonBlank(b));
    }
  }

  /** A string is in the result exactly when it is the non-empty stripped
      form of some piece. */
  lemma {:induction false} StrippedNonBlankMembers(pieces: seq<string>, x: string)
    ensures x in StrippedNonBlank(pieces) <==> x != [] && exists k :: 0 <= k < |pieces| && Strip(pieces[k]) == x
  {
    if pieces != [] {
      StrippedNonBlankMembers(pieces[1..], x);
      if exists k :: 0 <= k < |pieces| && Strip(pieces[k]) == x {
        var k :| 0 <= k < |pieces| && Strip(pieces[k]) == x;
        if k > 0 {
          assert Strip(pieces[1..][k - 1]) == x;
        }
      }
      if exists k :: 0 <= k < |pieces[1..]| && Strip(pieces[1..][k]) == x {
        var k :| 0 <= k < |pieces[1..]| && Strip(pieces[1..][k]) == x;
        assert Strip(pieces[k + 1]) == x;
      }
    }
  }

  /** Nothing is dropped exactly when no piece is all whitespace. */
  lemma {:induction false} StrippedNonBlankKeepsAll(pieces: seq<string>)
    ensures |StrippedNonBlank(pieces)| == |pieces| <==> forall k :: 0 <= k < |pieces| ==> Strip(pieces[k]) != []
  {
    if pieces != [] {
      StrippedNonBlankKeepsAll(pieces[1..]);
      if forall k :: 0 <= k < |pieces[1..]| ==> Strip(pieces[1..][k]) != [] {
        if Strip(pieces[0]) != [] {
          forall k | 0 <= k < |pieces| ensures Strip(pieces[k]) != [] {
            if k > 0 {
              assert pieces[k] == pieces[1..][k - 1];
            }
          }
        }
      } else {
        var k :| 0 <= k < |pieces[1..]| && Strip(pieces[1..][k]) == [];
        assert Strip(pieces[k + 1]) == [];
      }
    }
  }

  /** The non-blank sentences of the text: each is non-empty, starts and ends
      with a non-whitespace character and holds no terminator. */
  function Sentences(text: string): (r: seq<string>)
    ensures |r| <= |SentencePieces(text)|
    ensures forall k :: 0 <= k < |r| ==> IsStripped(r[k]) && NoneSatisfy(r[k], IsTerminator)
  {
    var pieces := SentencePieces(text);
    var r := StrippedNonBlank(pieces);
    forall k | 0 <= k < |r| ensures NoneSatisfy(r[k], IsTerminator) {
      StrippedNonBlankMembers(pieces, r[k]);
      var j :| 0 <= j < |pieces| && Strip(pieces[j]) == r[k];
      StripKeepsNoTerminator(pieces[j]);
    }
    r
  }

  /** `len(s.split())`: zero exactly when `s` is all whitespace. */
  function TokenCount(s: string): (n: nat)
    ensures n == 0 <==> NoneSatisfy(s, IsNonSpace)
  {
    RunsEmptyIff(s, IsNonSpace);
    |Runs(s, IsNonSpace)|
  }

  /** `[len(s.split()) for s in sentences]`: every sentence has a token. */
  function SentenceLengths(text: string): (lengths: seq<nat>)
    ensures |lengths| == |Sentences(text)|
    ensures forall i :: 0 <= i < |lengths| ==> lengths[i] == TokenCount(Sentences(text)[i])
    ensures forall i :: 0 <= i < |lengths| ==> lengths[i] >= 1
  {
    SentencesHaveTokens(text);
    TokenCounts(Sentences(text))
  }

  /** The token count of each string, in order. */
  function TokenCounts(ss: seq<string>): (r: seq<nat>)
    ensures |r| == |ss|
    ensures forall i :: 0 <= i < |ss| ==> r[i] == TokenCount(ss[i])
  {
    if ss == [] then [] else [TokenCount(ss[0])] + TokenCounts(ss[1..])
  }

  /** Every non-blank sentence starts with a non-whitespace character, so it
      has a token. */
  lemma SentencesHaveTokens(text: string)
    ensures forall k :: 0 <= k < |Sentences(text)| ==> TokenCount(Sentences(text)[k]) >= 1
  {
    var sentences := Sentences(text);
    forall k | 0 <= k < |sentences| ensures TokenCount(sentences[k]) >= 1 {
      assert IsStripped(sentences[k]);
      assert !NoneSatisfy(sentences[k], IsNonSpace);
    }
  }

  // ---------------------------------------------------------------------------
  // Features

  /** `sum(len(w) for w in words)`: at least one character per word. */
  function TotalLength(ws: seq<string>): (n: nat)
    ensures (forall k :: 0 <= k < |ws| ==> ws[k] != []) ==> n >= |ws|
  {
    if ws == [] then 0 else |ws[0]| + TotalLength(ws[1..])
  }

  lemma {:induction false} TotalLengthFlatten(ws: seq<string>)
    ensures TotalLength(ws) == |Flatten(ws)|
  {
    if ws != [] {
      TotalLengthFlatten(ws[1..]);
    }
  }

  /** The words hold every word character of the lower-cased text and
      nothing else, so their total length is the number of word characters. */
  lemma WordCharacters(text: string)
    ensures Flatten(Words(text)) == Filter(Lower(text), IsWordChar)
    ensures TotalLength(Words(text)) == |Filter(Lower(text), IsWordChar)|
  {
    RunsCover(Lower(text), IsWordChar);
    TotalLengthFlatten(Words(text));
  }

  datatype WritingFeatures = WritingFeatures(
    wordCount: nat,
    sentenceCount: nat,
    avgSentenceLength: real,
    uniqueWords: nat,
    vocabularyDiversity: real,
    avgWordLength: real)

  /** `_extract_writing_features`: the counts of words, sentences and
      distinct words, and three averages whose denominators are at least one.
      The diversity is a fraction that vanishes exactly on a text without
      words and is 1 exactly when no word repeats. */
  function ExtractWritingFeatures(text: string): (f: WritingFeatures)
    ensures f.wordCount == |Words(text)| && f.sentenceCount == |Sentences(text)|
    ensures f.uniqueWords == |Distinct(Words(text))| && f.uniqueWords <= f.wordCount
    ensures 0.0 <= f.vocabularyDiversity <= 1.0
    ensures f.vocabularyDiversity == 0.0 <==> f.wordCount == 0
    ensures f.vocabularyDiversity == 1.0 <==> f.wordCount > 0 && f.uniqueWords == f.wordCount
    ensures f.vocabularyDiversity == f.uniqueWords as real / Max(f.wordCount as real, 1.0)
    ensures f.avgSentenceLength == f.wordCount as real / Max(f.sentenceCount as real, 1.0)
    ensures f.avgSentenceLength >= 0.0
    ensures f.avgWordLength == TotalLength(Words(text)) as real / Max(f.wordCount as real, 1.0)
    ensures f.wordCount > 0 ==> f.avgWordLength >= 1.0
  {
    var words := Words(text);
    FeaturesOfCounts(|words|, |Distinct(words)|, TotalLength(words), |Sentences(text)|)
  }

  /** Each average times its denominator gives back the total it averages:
      the words over the sentences, the distinct words and the word
      characters (`WordCharacters`) over the words. */
  lemma FeatureAverages(text: string)
    ensures var f := ExtractWritingFeatures(text);
      f.avgSentenceLength * Max(f.sentenceCount as real, 1.0) == f.wordCount as real
      && f.vocabularyDiversity * Max(f.wordCount as real, 1.0) == f.uniqueWords as real
      && f.avgWordLength * Max(f.wordCount as real, 1.0) == TotalLength(Words(text)) as real
  {
    AveragesTimesDenominators(ExtractWritingFeatures(text), TotalLength(Words(text)));
  }

  lemma AveragesTimesDenominators(f: WritingFeatures, total: nat)
    requires f.avgSentenceLength == f.wordCount as real / Max(f.sentenceCount as real, 1.0)
    requires f.vocabularyDiversity == f.uniqueWords as real / Max(f.wordCount as real, 1.0)
    requires f.avgWordLength == total as real / Max(f.wordCount as real, 1.0)
    ensures f.avgSentenceLength * Max(f.sentenceCount as real, 1.0) == f.wordCount as real
    ensures f.vocabularyDiversity * Max(f.wordCount as real, 1.0) == f.uniqueWords as real
    ensures f.avgWordLength * Max(f.wordCount as real, 1.0) == total as real
  {
    QuotientTimesDivisor(f.wordCount as real, Max(f.sentenceCount as real, 1.0));
    QuotientTimesDivisor(f.uniqueWords as real, Max(f.wordCount as real, 1.0));
    QuotientTimesDivisor(total as real, Max(f.wordCount as real, 1.0));
  }

  /** The diversity feature is 1 exactly when the text has a word and no
      word repeats. */
  lemma FullDiversityIffNoRepeatedWord(text: string)
    ensures ExtractWritingFeatures(text).vocabularyDiversity == 1.0
            <==> |Words(text)| > 0 && NoDuplicates(Words(text))
  {
    DistinctSizeIffNoDuplicates(Words(text));
  }

  /** The features of `n` words, `unique` of them distinct, `total`
      characters long, in `sentences` sentences. */
  function FeaturesOfCounts(n: nat, unique: nat, total: nat, sentences: nat): (f: WritingFeatures)
    requires unique <= n && (n > 0 ==> unique >= 1) && total >= n
    ensures f.wordCount == n && f.sentenceCount == sentences && f.uniqueWords == unique
    ensures 0.0 <= f.vocabularyDiversity <= 1.0
    ensures f.vocabularyDiversity == 0.0 <==> n == 0
    ensures f.vocabularyDiversity == 1.0 <==> n > 0 && unique == n
    ensures f.vocabularyDiversity == unique as real / Max(n as real, 1.0)
    ensures f.avgSentenceLength == n as real / Max(sentences as real, 1.0)
    ensures f.avgWordLength == total as real / Max(n as real, 1.0)
    ensures f.avgSentenceLength >= 0.0
    ensures n > 0 ==> f.avgWordLength >= 1.0
  {
    var divisor := Max(n as real, 1.0);
    var sentenceDivisor := Max(sentences as real, 1.0);
    QuotientNonNeg(n as real, sentenceDivisor);
    RatioBounds(unique as real, divisor);
    var f := WritingFeatures(n, sentences, n as real / sentenceDivisor, unique,
      unique as real / divisor, total as real / divisor);
    if n > 0 then RatioAtLeastOne(total as real, divisor); f else f
  }

  // ---------------------------------------------------------------------------
  // Repetition

  /** `[' '.join(words[i:i+2]) for i in range(len(words)-1)]`: one entry per
      pair of neighbouring words. */
  function Bigrams(words: seq<string>): (r: seq<string>)
    ensures |r| == if |words| >= 1 then |words| - 1 else 0
    ensures forall i :: 0 <= i < |r| ==> r[i] == words[i] + " " + words[i + 1]
  {
    seq(if |words| >= 1 then |words| - 1 else 0,
        i requires 0 <= i < |words| - 1 => words[i] + " " + words[i + 1])
  }

  /** `[' '.join(words[i:i+3]) for i in range(len(words)-2)]`: one entry per
      run of three neighbouring words. */
  function Trigrams(words: seq<string>): (r: seq<string>)
    ensures |r| == if |words| >= 2 then |words| - 2 else 0
    ensures forall i :: 0 <= i < |r| ==> r[i] == words[i] + " " + words[i + 1] + " " + words[i + 2]
  {
    seq(if |words| >= 2 then |words| - 2 else 0,
        i requires 0 <= i < |words| - 2 => words[i] + " " + words[i + 1] + " " + words[i + 2])
  }

  /** Joining with a space is injective on space-free left operands. */
  lemma JoinInjective(a: string, b: string, a2: string, b2: string)
    requires ' ' !in a && ' ' !in a2
    requires a + " " + b == a2 + " " + b2
    ensures a == a2 && b == b2
  {
    var s := a + " " + b;
    assert s[..|a|] == a && s[|a|] == ' ';
    assert s[..|a2|] == a2 && s[|a2|] == ' ';
    forall i | 0 <= i < |a2| ensures s[i] != ' ' {
      assert s[i] == a2[i];
    }
    forall i | 0 <= i < |a| ensures s[i] != ' ' {
      assert s[i] == a[i];
    }
    assert |a| == |a2|;
    assert s[|a| + 1..] == b;
    assert s[|a2| + 1..] == b2;
  }

  /** The bigrams of at least two space-free words determine the words. */
  lemma BigramsDetermineWords(words: seq<string>, others: seq<string>)
    requires forall k :: 0 <= k < |words| ==> ' ' !in words[k]
    requires forall k :: 0 <= k < |others| ==> ' ' !in others[k]
    requires |words| >= 2 && Bigrams(words) == Bigrams(others)
    ensures words == others
  {
    assert |others| == |words|;
    forall k | 0 <= k < |words| ensures words[k] == others[k] {
      var i := if k < |words| - 1 then k else k - 1;
      assert Bigrams(words)[i] == Bigrams(others)[i];
      JoinInjective(words[i], words[i + 1], others[i], others[i + 1]);
    }
  }

  lemma JoinRegroup(a: string, b: string, c: string)
    ensures a + " " + b + " " + c == a + " " + (b + " " + c)
  {
  }

  /** A repeated trigram starts with a repeated bigram. */
  lemma TrigramRepeatGivesBigramRepeat(words: seq<string>, i: nat, j: nat)
    requires forall k :: 0 <= k < |words| ==> ' ' !in words[k]
    requires i < j && j + 2 < |words|
    requires Trigrams(words)[i] == Trigrams(words)[j]
    ensures Bigrams(words)[i] == Bigrams(words)[j]
  {
    JoinRegroup(words[i], words[i + 1], words[i + 2]);
    JoinRegroup(words[j], words[j + 1], words[j + 2]);
    JoinInjective(words[i], words[i + 1] + " " + words[i + 2], words[j], words[j + 1] + " " + words[j + 2]);
    JoinInjective(words[i + 1], words[i + 2], words[j + 1], words[j + 2]);
  }

  lemma NoRepeatedBigramNoRepeatedTrigram(words: seq<string>)
    requires forall k :: 0 <= k < |words| ==> ' ' !in words[k]
    requires NoDuplicates(Bigrams(words))
    ensures NoDuplicates(Trigrams(words))
  {
    var t := Trigrams(words);
    forall i, j | 0 <= i < j < |t| ensures t[i] == t[j] ==> Bigrams(words)[i] == Bigrams(words)[j] {
      if t[i] == t[j] {
        TrigramRepeatGivesBigramRepeat(words, i, j);
      }
    }
  }

  /** `_analyze_repetition`: 0.5 below ten words, otherwise the repetition
      score of the duplicate bigram and trigram counts. */
  function AnalyzeRepetition(text: string): (r: real)
    ensures |Words(text)| < 10 ==> r == 0.5
    ensures 0.0 <= r <= 1.0
  {
    var words := Words(text);
    if |words| < 10 then 0.5
    else RepetitionScore(DuplicateCount(Bigrams(words)) + DuplicateCount(Trigrams(words)), |words|)
  }

  /** `min(1.0, repetition / max(n, 1) * 10)`: a fraction that is 0 exactly
      when nothing repeats. */
  function RepetitionScore(repetition: nat, wordCount: nat): (r: real)
    ensures 0.0 <= r <= 1.0
    ensures r == 0.0 <==> repetition == 0
  {
    var divisor := Max(wordCount as real, 1.0);
    QuotientNonNeg(repetition as real, divisor);
    Min(1.0, repetition as real / divisor * 10.0)
  }

  /** On ten words or more the repetition score is 0 exactly when no bigram
      repeats: a repeated trigram always brings a repeated bigram with it. */
  lemma RepetitionZeroIffNoRepeatedBigram(text: string)
    requires |Words(text)| >= 10
    ensures AnalyzeRepetition(text) == 0.0 <==> NoDuplicates(Bigrams(Words(text)))
  {
    var words := Words(text);
    WordsHaveNoSpace(text);
    if NoDuplicates(Bigrams(words)) {
      NoRepeatedBigramNoRepeatedTrigram(words);
    }
  }

  // ---------------------------------------------------------------------------
  // Vocabulary diversity

  /** `_analyze_vocabulary_diversity`: 0.5 below five words, otherwise the
      share of word occurrences that repeat an earlier word, which is below 1
      and is 0 exactly when all words are distinct. */
  function AnalyzeVocabularyDiversity(text: string): (r: real)
    ensures |Words(text)| < 5 ==> r == 0.5
    ensures |Words(text)| >= 5 ==> 0.0 <= r < 1.0
    ensures |Words(text)| >= 5 ==> (r == 0.0 <==> NoDuplicates(Words(text)))
  {
    var words := Words(text);
    DistinctSizeIffNoDuplicates(words);
    if |words| < 5 then 0.5
    else
      RatioBounds(|Distinct(words)| as real, |words| as real);
      1.0 - |Distinct(words)| as real / |words| as real
  }

  /** The diversity score is the complement of the diversity feature. */
  lemma VocabularyScoreComplementsFeature(text: string)
    requires |Words(text)| >= 5
    ensures AnalyzeVocabularyDiversity(text) == 1.0 - ExtractWritingFeatures(text).vocabularyDiversity
  {
  }

  // ---------------------------------------------------------------------------
  // Sentence structure

  function Sum(xs: seq<nat>): (n: nat)
    ensures (forall i :: 0 <= i < |xs| ==> xs[i] >= 1) ==> n >= |xs|
  {
    if xs == [] then 0 else xs[0] + Sum(xs[1..])
  }

  /** `_analyze_sentence_structure`: 0.5 below two sentences, otherwise the
      consistency score of the sentence lengths. */
  function AnalyzeSentenceStructure(text: string, sentenceStd: NonNeg): (r: real)
    ensures |Sentences(text)| < 2 ==> r == 0.5
    ensures 0.0 <= r <= 1.0
    ensures |Sentences(text)| >= 2 ==> (r == 1.0 <==> sentenceStd == 0.0)
  {
    var lengths := SentenceLengths(text);
    assert |lengths| == |Sentences(text)| && Sum(lengths) >= |lengths|;
    if |lengths| < 2 then 0.5
    else ConsistencyScore(Sum(lengths), |lengths|, sentenceStd)
  }

  /** `max(0.0, 1.0 - cv)` where `cv` is the deviation over the mean length
      (1.0 for a zero mean). Every sentence has a token, so the mean is at
      least 1 and the score is 1 exactly when the deviation is 0. */
  function ConsistencyScore(total: nat, count: nat, std: NonNeg): (r: real)
    requires count >= 1 && total >= count
    ensures 0.0 <= r <= 1.0
    ensures r == 1.0 <==> std == 0.0
  {
    var mean := total as real / count as real;
    RatioAtLeastOne(total as real, count as real);
    QuotientNonNeg(std, mean);
    var cv := if mean > 0.0 then std / mean else 1.0;
    Max(0.0, 1.0 - cv)
  }

  /** Sum of `(x - mean)^2` over the lengths. */
  function SquaredDeviations(xs: seq<nat>, mean: real): real
  {
    if xs == [] then 0.0 else (xs[0] as real - mean) * (xs[0] as real - mean) + SquaredDeviations(xs[1..], mean)
  }

  /** `np.var`, whose square root `np.std` is. */
  function PopulationVariance(xs: seq<nat>): real
    requires |xs| > 0
  {
    SquaredDeviations(xs, Sum(xs) as real / |xs| as real) / |xs| as real
  }

  lemma {:induction false} SumUniform(xs: seq<nat>, c: nat)
    requires forall i :: 0 <= i < |xs| ==> xs[i] == c
    ensures Sum(xs) == |xs| * c
  {
    if xs != [] {
      SumUniform(xs[1..], c);
    }
  }

  lemma {:induction false} SquaredDeviationsUniform(xs: seq<nat>, c: nat)
    requires forall i :: 0 <= i < |xs| ==> xs[i] == c
    ensures SquaredDeviations(xs, c as real) == 0.0
  {
    if xs != [] {
      SquaredDeviationsUniform(xs[1..], c);
    }
  }

  /** Sentences of one common length have zero variance, hence score 1. */
  lemma UniformSentencesScoreOne(text: string, sentenceStd: NonNeg)
    requires |SentenceLengths(text)| >= 2
    requires forall i :: 0 <= i < |SentenceLengths(text)| ==> SentenceLengths(text)[i] == SentenceLengths(text)[0]
    requires sentenceStd * sentenceStd == PopulationVariance(SentenceLengths(text))
    ensures AnalyzeSentenceStructure(text, sentenceStd) == 1.0
  {
    var xs := SentenceLengths(text);
    UniformVarianceZero(xs, xs[0]);
    SquareZero(sentenceStd);
  }

  /** A sum of squares is never negative, and is zero only when every
      length equals the mean. */
  lemma {:induction false} SquaredDeviationsZero(xs: seq<nat>, mean: real)
    ensures SquaredDeviations(xs, mean) >= 0.0
    ensures SquaredDeviations(xs, mean) == 0.0 ==> forall i :: 0 <= i < |xs| ==> xs[i] as real == mean
  {
    if xs != [] {
      SquaredDeviationsZero(xs[1..], mean);
      SquareNonNeg(xs[0] as real - mean);
      if SquaredDeviations(xs, mean) == 0.0 {
        forall i | 0 <= i < |xs| ensures xs[i] as real == mean {
          if i > 0 {
            assert xs[i] == xs[1..][i - 1];
          }
        }
      }
    }
  }

  /** Zero population variance means every length is the same. */
  lemma ZeroVarianceMeansUniform(xs: seq<nat>)
    requires |xs| > 0
    requires PopulationVariance(xs) == 0.0
    ensures forall i :: 0 <= i < |xs| ==> xs[i] == xs[0]
  {
    var mean := Sum(xs) as real / |xs| as real;
    SquaredDeviationsZero(xs, mean);
    QuotientNonNeg(SquaredDeviations(xs, mean), |xs| as real);
  }

  /** The converse: a structure score of 1, with the deviation the square
      root of the variance, means every sentence has the same length. */
  lemma ScoreOneMeansUniformSentences(text: string, sentenceStd: NonNeg)
    requires |SentenceLengths(text)| >= 2
    requires sentenceStd * sentenceStd == PopulationVariance(SentenceLengths(text))
    requires AnalyzeSentenceStructure(text, sentenceStd) == 1.0
    ensures forall i :: 0 <= i < |SentenceLengths(text)| ==> SentenceLengths(text)[i] == SentenceLengths(text)[0]
  {
    var xs := SentenceLengths(text);
    assert |Sentences(text)| >= 2;
    assert sentenceStd == 0.0;
    SquareZero(sentenceStd);
    ZeroVarianceMeansUniform(xs);
  }

  /** Lengths that all equal one value have that value as their mean and
      vary by nothing. */
  lemma UniformVarianceZero(xs: seq<nat>, c: nat)
    requires |xs| > 0
    requires forall i :: 0 <= i < |xs| ==> xs[i] == c
    ensures PopulationVariance(xs) == 0.0
  {
    UniformMean(xs, c);
    SquaredDeviationsUniform(xs, c);
    QuotientNonNeg(0.0, |xs| as real);
  }

  /** The mean of lengths that all equal `c` is `c`. */
  lemma UniformMean(xs: seq<nat>, c: nat)
    requires |xs| > 0
    requires forall i :: 0 <= i < |xs| ==> xs[i] == c
    ensures Sum(xs) as real / |xs| as real == c as real
  {
    SumUniform(xs, c);
    MeanOfTotal(Sum(xs), |xs|, c);
  }

  // ---------------------------------------------------------------------------
  // Perplexity

  /** The `bigram_freq` loop of `_calculate_perplexity`: every bigram is a key
      and its value is its number of occurrences, between 1 and the number of
      bigrams, so each bigram probability lies in (0, 1]. */
  method BigramFrequencies(bigrams: seq<string>) returns (freq: map<string, nat>)
    ensures forall b :: b in freq <==> b in bigrams
    ensures forall b :: b in freq ==> freq[b] == multiset(bigrams)[b]
    ensures forall b :: b in freq ==> 1 <= freq[b] <= |bigrams|
  {
    freq := map[];
    for i := 0 to |bigrams|
      invariant forall b :: b in freq <==> b in bigrams[..i]
      invariant forall b :: b in freq ==> freq[b] == multiset(bigrams[..i])[b]
    {
      var b := bigrams[i];
      assert bigrams[..i + 1] == bigrams[..i] + [b];
      freq := freq[b := (if b in freq then freq[b] else 0) + 1];
    }
    assert bigrams[..|bigrams|] == bigrams;
    forall b | b in freq ensures 1 <= freq[b] <= |bigrams| {
      OccurrenceBounds(bigrams, b);
    }
  }

  /** The guard and final clamp of `_calculate_perplexity`: 0.5 below ten
      words, otherwise `1 - perplexity / 100` clamped to [0, 1]. */
  function CalculatePerplexity(text: string, perplexity: real): (r: real)
    ensures |Words(text)| < 10 ==> r == 0.5
    ensures 0.0 <= r <= 1.0
    ensures |Words(text)| >= 10 && 0.0 <= perplexity <= 100.0 ==> r + perplexity / 100.0 == 1.0
  {
    if |Words(text)| < 10 then 0.5
    else Max(0.0, Min(1.0, 1.0 - perplexity / 100.0))
  }

  /** Lower perplexity never scores as less AI-like. */
  lemma PerplexityScoreAntitone(text: string, p1: real, p2: real)
    requires p1 <= p2
    ensures CalculatePerplexity(text, p1) >= CalculatePerplexity(text, p2)
  {
  }

  // ---------------------------------------------------------------------------
  // Confidence and combination

  /** `_calculate_confidence`: a step function of the word count. */
  function CalculateConfidence(features: WritingFeatures): (r: real)
    ensures 0.3 <= r <= 0.9
    ensures features.wordCount < 10 <==> r == 0.3
    ensures features.wordCount >= 200 <==> r == 0.9
  {
    var wordCount := features.wordCount;
    if wordCount < 10 then 0.3
    else if wordCount < 50 then 0.6
    else if wordCount < 200 then 0.8
    else 0.9
  }

  /** The word-count thresholds and the confidence each band receives. */
  const WordThresholds: seq<nat> := [10, 50, 200]
  const WordConfidences: seq<real> := [0.3, 0.6, 0.8, 0.9]

  /** The confidence is the one of the band the word count falls in: the
      if-chain and the table of thresholds agree on every count. */
  lemma ConfidenceByBand(f: WritingFeatures)
    ensures CalculateConfidence(f) == WordConfidences[Crossed(f.wordCount, WordThresholds)]
  {
    var n := f.wordCount;
    var t1, t2: seq<nat> := [50, 200], [200];
    assert WordThresholds[1..] == t1 && t1[1..] == t2 && t2[1..] == [];
    assert Crossed(n, t2) == if n >= 200 then 1 else 0;
    assert Crossed(n, t1) == (if n >= 50 then 1 else 0) + Crossed(n, t2);
    assert Crossed(n, WordThresholds) == (if n >= 10 then 1 else 0) + Crossed(n, t1);
  }

  lemma ConfidenceMonotone(f: WritingFeatures, g: WritingFeatures)
    requires f.wordCount <= g.wordCount
    ensures CalculateConfidence(f) <= CalculateConfidence(g)
  {
  }

  /** The fixed-weight combination of the four sub-scores; the weights are
      non-negative and sum to 1. */
  function HeuristicScore(repetition: real, vocab: real, structure: real, perplexity: real): (r: real)
    ensures Min4(repetition, vocab, structure, perplexity) <= r <= Max4(repetition, vocab, structure, perplexity)
  {
    0.3 * repetition + 0.2 * vocab + 0.25 * structure + 0.25 * perplexity
  }

  /** The combination lies between the smallest and the largest sub-score, so
      four scores in [0, 1] combine to a score in [0, 1]. */
  lemma HeuristicScoreIsConvex(repetition: real, vocab: real, structure: real, perplexity: real)
    ensures Min4(repetition, vocab, structure, perplexity)
            <= HeuristicScore(repetition, vocab, structure, perplexity)
            <= Max4(repetition, vocab, structure, perplexity)
    ensures InUnit(repetition) && InUnit(vocab) && InUnit(structure) && InUnit(perplexity)
            ==> InUnit(HeuristicScore(repetition, vocab, structure, perplexity))
  {
    var lo := Min4(repetition, vocab, structure, perplexity);
    var hi := Max4(repetition, vocab, structure, perplexity);
    assert lo <= repetition <= hi && lo <= vocab <= hi;
    assert lo <= structure <= hi && lo <= perplexity <= hi;
  }

  /** The weights sum to 1: four equal scores combine to that score. */
  lemma HeuristicScoreOfEqualScores(x: real)
    ensures HeuristicScore(x, x, x, x) == x
  {
  }

  /** With fewer than five words and fewer than two non-blank sentences every
      sub-score is the neutral 0.5, so the combined score is 0.5 and the
      confidence the floor 0.3. */
  lemma ShortTextIsUndecided(text: string, sentenceStd: NonNeg, perplexity: real)
    requires |Words(text)| < 5 && |Sentences(text)| < 2
    ensures HeuristicScore(AnalyzeRepetition(text), AnalyzeVocabularyDiversity(text),
                           AnalyzeSentenceStructure(text, sentenceStd), CalculatePerplexity(text, perplexity)) == 0.5
    ensures CalculateConfidence(ExtractWritingFeatures(text)) == 0.3
  {
    assert AnalyzeRepetition(text) == AnalyzeVocabularyDiversity(text) == 0.5;
    assert AnalyzeSentenceStructure(text, sentenceStd) == CalculatePerplexity(text, perplexity) == 0.5;
    HeuristicScoreOfEqualScores(0.5);
  }

  /** The accumulation in `_heuristic_detection`: each score is added with
      its weight, the weights are summed, and the weighted sum over the total
      weight is clamped to [0, 1]. The weights sum to 1, and for scores in
      [0, 1] the clamp changes nothing. */
  method CombineScores(repetitionScore: real, vocabScore: real, structureScore: real, perplexityScore: real)
    returns (aiProbability: real)
    ensures aiProbability == Clamp(HeuristicScore(repetitionScore, vocabScore, structureScore, perplexityScore), 0.0, 1.0)
    ensures InUnit(repetitionScore) && InUnit(vocabScore) && InUnit(structureScore) && InUnit(perplexityScore)
            ==> aiProbability == HeuristicScore(repetitionScore, vocabScore, structureScore, perplexityScore)
    ensures InUnit(aiProbability)
  {
    var aiScore := 0.0;
    var totalWeight := 0.0;
    aiScore := aiScore + repetitionScore * 0.3;
    totalWeight := totalWeight + 0.3;
    aiScore := aiScore + vocabScore * 0.2;
    totalWeight := totalWeight + 0.2;
    aiScore := aiScore + structureScore * 0.25;
    totalWeight := totalWeight + 0.25;
    aiScore := aiScore + perplexityScore * 0.25;
    totalWeight := totalWeight + 0.25;
    assert totalWeight == 1.0 && aiScore == HeuristicScore(repetitionScore, vocabScore, structureScore, perplexityScore);
    DivideByOne(aiScore, totalWeight);
    HeuristicScoreIsConvex(repetitionScore, vocabScore, structureScore, perplexityScore);
    aiProbability := Clamp(aiScore / totalWeight, 0.0, 1.0);
  }

  datatype HeuristicAnalysis = HeuristicAnalysis(
    methodName: string,
    features: WritingFeatures,
    repetitionScore: real,
    vocabScore: real,
    structureScore: real,
    perplexity: real)

  /** `_heuristic_detection`: accumulates the weighted scores and their
      weights (0.3 + 0.2 + 0.25 + 0.25 = 1), so the normalised sum is a convex
      combination of four scores in [0, 1] and the final clamp changes
      nothing. */
  method HeuristicDetection(text: string, sentenceStd: NonNeg, perplexity: real)
    returns (d: Detection<HeuristicAnalysis>)
    ensures d.analysis == HeuristicAnalysis(
      "heuristic",
      ExtractWritingFeatures(text),
      AnalyzeRepetition(text),
      AnalyzeVocabularyDiversity(text),
      AnalyzeSentenceStructure(text, sentenceStd),
      CalculatePerplexity(text, perplexity))
    ensures d.aiProbability == HeuristicScore(d.analysis.repetitionScore, d.analysis.vocabScore,
                                              d.analysis.structureScore, d.analysis.perplexity)
    ensures InUnit(d.aiProbability)
    ensures d.confidence == CalculateConfidence(d.analysis.features)
    ensures |Words(text)| < 5 && |Sentences(text)| < 2 ==> d.aiProbability == 0.5 && d.confidence == 0.3
  {
    var features := ExtractWritingFeatures(text);
    var repetitionScore := AnalyzeRepetition(text);
    var vocabScore := AnalyzeVocabularyDiversity(text);
    var structureScore := AnalyzeSentenceStructure(text, sentenceStd);
    var perplexityScore := CalculatePerplexity(text, perplexity);
    var aiProbability := CombineScores(repetitionScore, vocabScore, structureScore, perplexityScore);
    if |Words(text)| < 5 && |Sentences(text)| < 2 {
      ShortTextIsUndecided(text, sentenceStd, perplexity);
    }
    var confidence := CalculateConfidence(features);
    d := Detection(aiProbability, confidence,
      HeuristicAnalysis("heuristic", features, repetitionScore, vocabScore, structureScore, perplexityScore));
  }
}

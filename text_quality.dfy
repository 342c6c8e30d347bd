/** Scoring half of `TextValidator` (utils/text_validator.py): the language
    guess and the five ratio sub-metrics, each a real in [0, 1], combined
    into a clamped weighted quality score. Python's true division `/` is
    real division here. */
module TextQuality {
  import opened PyText
  import opened TextCorrection
  import opened Numeric

  /** `part / len(whole)` with true division, for a part of a non-empty
      whole. */
  function Ratio(part: nat, whole: nat): (r: real)
    requires part <= whole && whole > 0
    ensures 0.0 <= r <= 1.0
    ensures r == 0.0 <==> part == 0
    ensures r == 1.0 <==> part == whole
  {
    QuotientBounds(part as real, whole as real);
    (part as real) / (whole as real)
  }

  /** `re.findall(r'\b\w+\b', s)`: the maximal runs of word characters. */
  function WordsOf(s: string): (ws: seq<string>)
    ensures forall k :: 0 <= k < |ws| ==> |ws[k]| > 0 && AllChars(ws[k], IsWordChar)
  {
    Runs(s, IsWordChar)
  }

  // ---------------------------------------------------------------------
  // detect_language_confidence
  // ---------------------------------------------------------------------

  /** `spanish_patterns['common_words']`. */
  const CommonWords: set<string> := {
    "que", "de", "a", "en", "un", "es", "se", "no", "te", "lo", "le", "da", "su",
    "por", "son", "con", "para", "al", "la", "el", "del", "los", "las", "y", "una"
  }

  /** The class `[ñáéíóúü]`. */
  predicate IsSpanishLetter(c: char) {
    c == '\U{F1}' || c == '\U{E1}' || c == '\U{E9}' || c == '\U{ED}' || c == '\U{F3}'
    || c == '\U{FA}' || c == '\U{FC}'
  }

  datatype LanguageScores = LanguageScores(spanish: real, english: real, unknown: real)

  lemma IntersectionNoLarger(a: set<string>, b: set<string>)
    ensures |a * b| <= |a|
  {
    assert a == (a * b) + (a - b);
    assert (a * b) * (a - b) == {};
  }

  /** `set(re.findall(r'\b\w+\b', text.lower()))`. */
  function DistinctWords(text: string): set<string> {
    set w | w in WordsOf(LowerStr(text))
  }

  lemma SubsetNoLarger(a: set<string>, b: set<string>)
    requires a <= b
    ensures |a| <= |b|
  {
    assert a == a * b;
    IntersectionNoLarger(b, a);
    assert b * a == a;
  }

  /** Share of the distinct lower-cased words that are common Spanish words:
      0 exactly when none is, 1 exactly when there are words and all are. */
  function SpanishWordRatio(text: string): (r: real)
    ensures 0.0 <= r <= 1.0
    ensures r == 0.0 <==> DistinctWords(text) * CommonWords == {}
    ensures r == 1.0 <==> DistinctWords(text) != {} && DistinctWords(text) <= CommonWords
  {
    var words := DistinctWords(text);
    var spanish := words * CommonWords;
    IntersectionNoLarger(words, CommonWords);
    if words == {} then 0.0
    else
      assert spanish == words ==> words <= CommonWords;
      assert words <= CommonWords ==> spanish == words;
      assert |spanish| == |words| ==> spanish == words by {
        if |spanish| == |words| && spanish != words {
          var x :| x in words && x !in spanish;
          assert spanish <= words - {x};
          assert |words - {x}| == |words| - 1;
          SubsetNoLarger(spanish, words - {x});
        }
      }
      Ratio(|spanish|, |words|)
  }

  /** `min(0.2, spanish_chars / len(text))`, and 0 for empty text: positive
      exactly when a Spanish letter occurs, capped at 0.2 once at least one
      character in five is one, and otherwise the share of Spanish letters. */
  function SpanishCharBonus(text: string): (r: real)
    ensures 0.0 <= r <= 0.2
    ensures r == 0.0 <==> Count(LowerStr(text), IsSpanishLetter) == 0
    ensures r == 0.2 <==> text != [] && 5 * Count(LowerStr(text), IsSpanishLetter) >= |text|
    ensures text != [] && 5 * Count(LowerStr(text), IsSpanishLetter) < |text| ==>
      r == (Count(LowerStr(text), IsSpanishLetter) as real) / (|text| as real)
  {
    if text == [] then 0.0
    else
      var c := Count(LowerStr(text), IsSpanishLetter);
      QuotientFifth(c as real, |text| as real);
      MinReal(0.2, (c as real) / (|text| as real))
  }

  /** `detect_language_confidence`: the Spanish score is capped at 1, English
      is its complement and "unknown" is 1 - 2 * spanish floored at 0, so
      unknown is 0 exactly when the Spanish score reaches one half. Text
      without a common Spanish word or a Spanish letter scores 0 for
      Spanish, 1 for English and 1 for unknown. */
  function DetectLanguageConfidence(text: string): (r: LanguageScores)
    ensures 0.0 <= r.spanish <= 1.0 && 0.0 <= r.english <= 1.0 && 0.0 <= r.unknown <= 1.0
    ensures r.english == 1.0 - r.spanish
    ensures r.unknown == MaxReal(0.0, 1.0 - 2.0 * r.spanish)
    ensures r.unknown == 0.0 <==> r.spanish >= 0.5
    ensures r.unknown <= r.english
    ensures r.spanish == MinReal(1.0, SpanishWordRatio(text) + SpanishCharBonus(text))
    ensures SpanishWordRatio(text) == 0.0 && SpanishCharBonus(text) == 0.0 ==>
      r == LanguageScores(0.0, 1.0, 1.0)
  {
    var spanish := MinReal(1.0, SpanishWordRatio(text) + SpanishCharBonus(text));
    LanguageScores(spanish, 1.0 - spanish, MaxReal(0.0, 1.0 - spanish * 2.0))
  }

  /** Text whose distinct words are all common Spanish words is certainly
      Spanish: it scores 1 for Spanish and 0 for English and unknown. */
  lemma AllSpanishWords(text: string)
    requires DistinctWords(text) != {} && DistinctWords(text) <= CommonWords
    ensures DetectLanguageConfidence(text) == LanguageScores(1.0, 0.0, 0.0)
  {
  }

  /** Text without a Spanish letter and without a common Spanish word is
      taken for English; a Spanish letter alone already moves the score. */
  lemma NoSpanishEvidence(text: string)
    ensures DistinctWords(text) * CommonWords == {} ==>
      (DetectLanguageConfidence(text).spanish == 0.0 <==> Count(LowerStr(text), IsSpanishLetter) == 0)
  {
  }

  // ---------------------------------------------------------------------
  // calculate_word_ratio
  // ---------------------------------------------------------------------

  /** `len(word) > 1 and word.isalpha()`. */
  predicate ValidWord(w: string) {
    |w| > 1 && AllChars(w, IsAlpha)
  }

  function ValidWordCount(ws: seq<string>): (n: nat)
    ensures n <= |ws|
    decreases |ws|
  {
    if ws == [] then 0 else (if ValidWord(ws[0]) then 1 else 0) + ValidWordCount(ws[1..])
  }

  lemma {:induction false} ValidWordCountAll(ws: seq<string>)
    ensures ValidWordCount(ws) == |ws| <==> forall k :: 0 <= k < |ws| ==> ValidWord(ws[k])
    decreases |ws|
  {
    if ws != [] {
      ValidWordCountAll(ws[1..]);
      assert forall k :: 1 <= k < |ws| ==> ws[k] == ws[1..][k - 1];
    }
  }

  /** `calculate_word_ratio`: the share of words that are longer than one
      character and purely alphabetic; 0 when there is no word. */
  function WordRatio(text: string): (r: real)
    ensures 0.0 <= r <= 1.0
    ensures WordsOf(text) == [] ==> r == 0.0
  {
    var words := WordsOf(text);
    if words == [] then 0.0
    else Ratio(ValidWordCount(words), |words|)
  }

  /** The word ratio is 1 exactly when there are words and all are valid. */
  lemma WordRatioOne(text: string)
    ensures WordRatio(text) == 1.0 <==>
      WordsOf(text) != [] && forall k :: 0 <= k < |WordsOf(text)| ==> ValidWord(WordsOf(text)[k])
  {
    ValidWordCountAll(WordsOf(text));
  }

  // ---------------------------------------------------------------------
  // calculate_punctuation_ratio
  // ---------------------------------------------------------------------

  /** `sum(len(s.strip().split()) for s in sentences)`. */
  function WordTotal(pieces: seq<string>): nat
    decreases |pieces|
  {
    if pieces == [] then 0 else |Split(Strip(pieces[0]))| + WordTotal(pieces[1..])
  }

  /** The words of the pieces are the words of the pieces joined by spaces:
      `WordTotal` counts what `str.split` finds in each piece. */
  lemma {:induction false} WordTotalJoin(pieces: seq<string>)
    ensures WordTotal(pieces) == |Split(Join(" ", pieces))|
    decreases |pieces|
  {
    if pieces == [] {
      assert Split([]) == [];
    } else if |pieces| == 1 {
      SplitStrip(pieces[0]);
      assert WordTotal(pieces[1..]) == 0;
    } else {
      WordTotalJoin(pieces[1..]);
      SplitStrip(pieces[0]);
      SplitJoinSpace(pieces[0], Join(" ", pieces[1..]));
    }
  }

  /** `avg_sentence_length`: words per piece. */
  function AverageWords(pieces: seq<string>): (avg: real)
    requires pieces != []
    ensures avg >= 0.0
  {
    QuotientScales(WordTotal(pieces) as real, |pieces| as real);
    (WordTotal(pieces) as real) / (|pieces| as real)
  }

  /** The average is the number of words `str.split` finds in the pieces
      joined by spaces, per piece. */
  lemma AverageWordsPerPiece(pieces: seq<string>)
    requires pieces != []
    ensures AverageWords(pieces) == (|Split(Join(" ", pieces))| as real) / (|pieces| as real)
  {
    WordTotalJoin(pieces);
  }

  /** `calculate_punctuation_ratio`: 0.5 for fewer than two pieces, otherwise
      1.0, 0.7 or 0.3 by the average number of words per piece. */
  function PunctuationRatio(text: string): (r: real)
    ensures r == 0.5 || r == 1.0 || r == 0.7 || r == 0.3
  {
    var sentences := SplitSentences(text);
    if |sentences| < 2 then 0.5
    else
      var avg := AverageWords(sentences);
      if 10.0 <= avg <= 25.0 then 1.0
      else if 5.0 <= avg <= 35.0 then 0.7
      else 0.3
  }

  /** The bands of the ideal sentence length: with at least two pieces, the
      ratio is 1 exactly for 10 to 25 words per piece, 0.7 exactly for 5 to
      35 words outside that, and 0.3 exactly for anything else. */
  lemma PunctuationRatioBands(text: string)
    requires |SplitSentences(text)| >= 2
    ensures PunctuationRatio(text) == 1.0 <==> 10.0 <= AverageWords(SplitSentences(text)) <= 25.0
    ensures PunctuationRatio(text) == 0.7 <==>
      !(10.0 <= AverageWords(SplitSentences(text)) <= 25.0) && 5.0 <= AverageWords(SplitSentences(text)) <= 35.0
    ensures PunctuationRatio(text) == 0.3 <==> !(5.0 <= AverageWords(SplitSentences(text)) <= 35.0)
  {
  }

  /** The ratio is 0.5 exactly when the text has no terminator. */
  lemma PunctuationRatioHalf(text: string)
    ensures PunctuationRatio(text) == 0.5 <==> AllChars(text, NotTerminator)
  {
    SplitSentencesSingle(text);
  }

  // ---------------------------------------------------------------------
  // calculate_capitalization_score
  // ---------------------------------------------------------------------

  /** The piece, once stripped, is non-empty and starts with a capital. */
  predicate StartsCapitalized(piece: string) {
    var s := Strip(piece);
    s != [] && IsUpper(s[0])
  }

  function CapitalizedCount(pieces: seq<string>): (n: nat)
    ensures n <= |pieces|
    decreases |pieces|
  {
    if pieces == [] then 0
    else CapitalizedCount(pieces[..|pieces| - 1]) + (if StartsCapitalized(pieces[|pieces| - 1]) then 1 else 0)
  }

  /** The value `calculate_capitalization_score` returns: the share of
      pieces that start with a capital once stripped. */
  function CapitalizationRatio(text: string): (r: real)
    ensures 0.0 <= r <= 1.0
  {
    var sentences := SplitSentences(text);
    Ratio(CapitalizedCount(sentences), |sentences|)
  }

  /** `calculate_capitalization_score`: the counting loop. The guard for an
      empty split is left out, since `re.split` always returns a piece. */
  method CapitalizationScore(text: string) returns (score: real)
    ensures score == CapitalizationRatio(text)
  {
    var sentences := SplitSentences(text);
    var properlyCapitalized: nat := 0;
    for i := 0 to |sentences|
      invariant properlyCapitalized == CapitalizedCount(sentences[..i])
    {
      var pieces := sentences[..i + 1];
      assert pieces[..|pieces| - 1] == sentences[..i] && pieces[|pieces| - 1] == sentences[i];
      var sentence := Strip(sentences[i]);
      if sentence != [] && IsUpper(sentence[0]) {
        properlyCapitalized := properlyCapitalized + 1;
      }
    }
    PrefixAll(sentences);
    score := Ratio(properlyCapitalized, |sentences|);
  }

  /** An uncounted piece keeps the share below 1. */
  lemma {:induction false} CapitalizedCountBelow(pieces: seq<string>)
    requires pieces != [] && !StartsCapitalized(pieces[|pieces| - 1])
    ensures CapitalizedCount(pieces) < |pieces|
  {
  }

  /** Every piece satisfies `p`. */
  predicate AllPieces(pieces: seq<string>, p: string -> bool) {
    forall k :: 0 <= k < |pieces| ==> p(pieces[k])
  }

  predicate NotCapitalized(piece: string) { !StartsCapitalized(piece) }

  /** Every piece starts with a capital once stripped. */
  predicate AllCapitalized(pieces: seq<string>) { AllPieces(pieces, StartsCapitalized) }

  /** No piece starts with a capital once stripped. */
  predicate NoneCapitalized(pieces: seq<string>) { AllPieces(pieces, NotCapitalized) }

  /** Every piece is counted exactly when the count is the number of pieces,
      and none is exactly when it is 0. */
  lemma {:induction false} CapitalizedCountExtremes(pieces: seq<string>)
    ensures CapitalizedCount(pieces) == |pieces| <==> AllCapitalized(pieces)
    ensures CapitalizedCount(pieces) == 0 <==> NoneCapitalized(pieces)
    decreases |pieces|
  {
    if pieces != [] {
      CapitalizedCountExtremes(pieces[..|pieces| - 1]);
      AllPiecesSnoc(pieces, StartsCapitalized);
      AllPiecesSnoc(pieces, NotCapitalized);
    }
  }

  lemma AllPiecesSnoc(pieces: seq<string>, p: string -> bool)
    requires pieces != []
    ensures AllPieces(pieces, p) <==>
      AllPieces(pieces[..|pieces| - 1], p) && p(pieces[|pieces| - 1])
  {
    var init := pieces[..|pieces| - 1];
    forall k | 0 <= k < |init| ensures init[k] == pieces[k] { }
  }

  /** The capitalisation score is 1 exactly when every piece starts with a
      capital once stripped, and 0 exactly when none does. */
  lemma CapitalizationRatioExtremes(text: string)
    ensures CapitalizationRatio(text) == 1.0 <==> AllCapitalized(SplitSentences(text))
    ensures CapitalizationRatio(text) == 0.0 <==> NoneCapitalized(SplitSentences(text))
  {
    CapitalizedCountExtremes(SplitSentences(text));
  }

  /** Empty text scores 0, and text ending in a terminator never scores 1,
      because the empty piece after the last terminator counts in the
      denominator. Text without a terminator scores 1 or 0 depending on its
      first non-blank character. */
  lemma CapitalizationRatioCases(text: string)
    ensures text == [] ==> CapitalizationRatio(text) == 0.0
    ensures text != [] && IsTerminator(text[|text| - 1]) ==> CapitalizationRatio(text) < 1.0
    ensures AllChars(text, NotTerminator) ==>
      CapitalizationRatio(text) == (if StartsCapitalized(text) then 1.0 else 0.0)
  {
    var sentences := SplitSentences(text);
    if text == [] {
      assert sentences == [[]];
      assert Strip([]) == [];
    }
    if text != [] && IsTerminator(text[|text| - 1]) {
      assert Strip([]) == [];
      SplitSentencesEndsEmpty(text);
      CapitalizedCountBelow(sentences);
    }
    if AllChars(text, NotTerminator) {
      assert Span(text, NotTerminator) == |text|;
      assert sentences == [text];
      assert sentences[..0] == [];
    }
  }

  // ---------------------------------------------------------------------
  // calculate_special_chars_ratio
  // ---------------------------------------------------------------------

  /** The class of characters that usually betray OCR errors. */
  predicate IsProblematic(c: char) {
    c in "~`@#$%^&*+={}|[]\\:\";'<>?/"
  }

  /** `calculate_special_chars_ratio`: problematic characters per character,
      0 for empty text. */
  function SpecialCharsRatio(text: string): (r: real)
    ensures 0.0 <= r <= 1.0
    ensures text == [] ==> r == 0.0
  {
    if text == [] then 0.0
    else Ratio(Count(text, IsProblematic), |text|)
  }

  /** The ratio is 0 exactly when no character is problematic, and 1 exactly
      when the text is non-empty and every character is. */
  lemma SpecialCharsRatioExtremes(text: string)
    ensures SpecialCharsRatio(text) == 0.0 <==> forall i :: 0 <= i < |text| ==> !IsProblematic(text[i])
    ensures SpecialCharsRatio(text) == 1.0 <==> text != [] && AllChars(text, IsProblematic)
  {
    CountZero(text, IsProblematic);
    CountAll(text, IsProblematic);
  }

  // ---------------------------------------------------------------------
  // calculate_line_consistency
  // ---------------------------------------------------------------------

  /** `[len(line.strip()) for line in lines if line.strip()]`. */
  function LineLengths(lines: seq<string>): (ls: seq<nat>)
    ensures forall k :: 0 <= k < |ls| ==> ls[k] > 0
    decreases |lines|
  {
    if lines == [] then []
    else
      var s := Strip(lines[0]);
      (if s != [] then [|s|] else []) + LineLengths(lines[1..])
  }

  lemma {:induction false} LineLengthsEmpty(lines: seq<string>)
    ensures LineLengths(lines) == [] <==> forall k :: 0 <= k < |lines| ==> IsBlank(lines[k])
    decreases |lines|
  {
    if lines != [] {
      LineLengthsEmpty(lines[1..]);
      LineLengthsCons(lines);
      AllBlankCons(lines);
    }
  }

  lemma LineLengthsCons(lines: seq<string>)
    requires lines != []
    ensures LineLengths(lines) == [] <==> IsBlank(lines[0]) && LineLengths(lines[1..]) == []
  {
  }

  lemma AllBlankCons(lines: seq<string>)
    requires lines != []
    ensures (forall k :: 0 <= k < |lines| ==> IsBlank(lines[k])) <==>
      IsBlank(lines[0]) && forall k :: 0 <= k < |lines[1..]| ==> IsBlank(lines[1..][k])
  {
    var t := lines[1..];
    forall k | 1 <= k < |lines| ensures lines[k] == t[k - 1] { }
  }

  function Sum(xs: seq<nat>): nat
    decreases |xs|
  {
    if xs == [] then 0 else xs[0] + Sum(xs[1..])
  }

  /** `(x - avg) ** 2`. */
  function Sq(d: real): (r: real)
    ensures r >= 0.0
  {
    var a := if d >= 0.0 then d else -d;
    ProductNonNegative(a, a);
    assert a * a == d * d;
    d * d
  }

  /** `sum((x - avg) ** 2 for x in xs)`. */
  function SquaredDeviation(xs: seq<nat>, avg: real): (r: real)
    ensures r >= 0.0
    decreases |xs|
  {
    if xs == [] then 0.0
    else Sq(xs[0] as real - avg) + SquaredDeviation(xs[1..], avg)
  }

  /** Lengths that all equal the average deviate by nothing. */
  lemma {:induction false} SquaredDeviationZero(xs: seq<nat>, avg: real)
    requires forall k :: 0 <= k < |xs| ==> xs[k] as real == avg
    ensures SquaredDeviation(xs, avg) == 0.0
    decreases |xs|
  {
    if xs != [] {
      SquaredDeviationZero(xs[1..], avg);
      assert xs[0] as real - avg == 0.0;
    }
  }

  /** All the lengths are equal. */
  predicate Uniform(xs: seq<nat>) {
    forall i, j :: 0 <= i < |xs| && 0 <= j < |xs| ==> xs[i] == xs[j]
  }

  lemma {:induction false} SumUniform(xs: seq<nat>, c: nat)
    requires forall k :: 0 <= k < |xs| ==> xs[k] == c
    ensures Sum(xs) == |xs| * c
    decreases |xs|
  {
    if xs != [] {
      SumUniform(xs[1..], c);
    }
  }

  /** `variance` of the stripped non-blank line lengths. */
  function Variance(ls: seq<nat>): (v: real)
    requires ls != []
    ensures v >= 0.0
  {
    var avg := (Sum(ls) as real) / (|ls| as real);
    SquaredDeviation(ls, avg) / (|ls| as real)
  }

  /** Equal lengths have variance 0. */
  lemma VarianceOfUniform(ls: seq<nat>)
    requires ls != [] && Uniform(ls)
    ensures Variance(ls) == 0.0
  {
    var n := |ls| as real;
    var c := ls[0] as real;
    SumUniform(ls, ls[0]);
    assert Sum(ls) as real == n * c;
    var avg := (Sum(ls) as real) / n;
    assert avg == c;
    SquaredDeviationZero(ls, avg);
  }

  /** `1.0 / (1.0 + variance / 100)`, never above 1. */
  function Consistency(variance: real): (r: real)
    requires variance >= 0.0
    ensures 0.0 < r <= 1.0
    ensures r == 1.0 <==> variance == 0.0
  {
    var d := 1.0 + variance / 100.0;
    assert d >= 1.0;
    assert (1.0 / d) * d == 1.0;
    1.0 / d
  }

  /** Lower variance means higher consistency: the score falls as the
      variance grows, strictly. */
  lemma ConsistencyMonotone(v1: real, v2: real)
    requires 0.0 <= v1 <= v2
    ensures Consistency(v2) <= Consistency(v1)
    ensures v1 < v2 ==> Consistency(v2) < Consistency(v1)
  {
    var d1, d2 := 1.0 + v1 / 100.0, 1.0 + v2 / 100.0;
    assert Consistency(v1) * d1 == 1.0;
    assert Consistency(v2) * d2 == 1.0;
    ReciprocalAntitone(Consistency(v1), d1, Consistency(v2), d2);
  }

  /** `calculate_line_consistency`: 1 for a single line, 0 when every line
      is blank, and otherwise in (0, 1], reaching 1 when all non-blank
      lines have the same stripped length. */
  function LineConsistency(text: string): (r: real)
    ensures 0.0 <= r <= 1.0
    ensures '\n' !in text ==> r == 1.0
    ensures '\n' in text && (forall k :: 0 <= k < |SplitLines(text)| ==> IsBlank(SplitLines(text)[k])) ==> r == 0.0
    ensures '\n' in text && LineLengths(SplitLines(text)) != [] ==>
      0.0 < r && (Uniform(LineLengths(SplitLines(text))) ==> r == 1.0)
  {
    var lines := SplitLines(text);
    LineLengthsEmpty(lines);
    if |lines| < 2 then 1.0
    else
      var ls := LineLengths(lines);
      if ls == [] then 0.0
      else
        assert Uniform(ls) ==> Variance(ls) == 0.0 by {
          if Uniform(ls) {
            VarianceOfUniform(ls);
          }
        }
        MinReal(1.0, Consistency(Variance(ls)))
  }

  // ---------------------------------------------------------------------
  // calculate_text_quality_score
  // ---------------------------------------------------------------------

  /** The weighted sum before clamping. */
  function WeightedQuality(text: string): real {
    WordRatio(text) * 0.3 + PunctuationRatio(text) * 0.2 + CapitalizationRatio(text) * 0.2
    + (1.0 - SpecialCharsRatio(text)) * 0.2 + LineConsistency(text) * 0.1
  }

  /** `calculate_text_quality_score`: 0 for blank text, otherwise the
      weighted sum of the five metrics clamped into [0, 1]. */
  function TextQualityScore(text: string): (r: real)
    ensures 0.0 <= r <= 1.0
    ensures IsBlank(text) ==> r == 0.0
  {
    if IsBlank(text) then 0.0 else Clamp01(WeightedQuality(text))
  }

  /** The weights sum to 1 and every metric lies in [0, 1], so the clamp
      never changes the weighted sum of non-blank text. */
  lemma TextQualityUnclamped(text: string)
    requires !IsBlank(text)
    ensures 0.0 <= WeightedQuality(text) <= 1.0
    ensures TextQualityScore(text) == WeightedQuality(text)
  {
  }
}

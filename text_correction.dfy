/** Correction half of `TextValidator` (utils/text_validator.py): the
    literal substitution table, the contextual digit/letter fix, whitespace
    collapsing, punctuation spacing and sentence capitalisation, and the
    pipeline `auto_correct_ocr_errors` that chains them. */
module TextCorrection {
  import opened PyText

  // ---------------------------------------------------------------------
  // The substitution table (common_ocr_errors) and its loop
  // ---------------------------------------------------------------------

  /** `common_ocr_errors`, in its insertion order, which is the order the
      replacement loop visits it in. */
  const Substitutions: seq<(string, string)> := [
    ("0", "O"), ("O", "0"),
    ("1", "l"), ("l", "1"), ("I", "1"),
    ("5", "S"), ("S", "5"),
    ("6", "G"), ("G", "6"),
    ("8", "B"), ("B", "8"),
    ("rn", "m"), ("vv", "w"), ("nn", "\U{F1}"),
    ("cl", "d"), ("fi", "\U{F1}"), ("li", "h"),
    ("\U{A2}", "c"), ("\U{20AC}", "e"), ("\U{A3}", "E"),
    ("\U{A7}", "s"), ("\U{BF}", "?"), ("\U{A1}", "!"),
    (" ,", ","), (" .", "."), (" ;", ";"),
    ("( ", "("), (" )", ")"), ("[ ", "["), (" ]", "]")
  ]

  /** The letters that the table rewrites to digits. */
  const Confusables: string := "OlISGB"

  predicate WellFormedTable(table: seq<(string, string)>) {
    forall k :: 0 <= k < |table| ==> table[k].0 != []
  }

  /** The text after `text.replace(error, correction)` for every entry of
      `table`, in order. */
  function Substituted(table: seq<(string, string)>, s: string): string
    requires WellFormedTable(table)
    decreases |table|
  {
    if table == [] then s
    else
      var last := table[|table| - 1];
      ReplaceAll(Substituted(table[..|table| - 1], s), last.0, last.1)
  }

  /** Once an entry `c -> rep` with `c` not in `rep` has run, `c` stays
      absent provided no later entry writes it back. */
  lemma {:induction false} ErasedFromEntry(table: seq<(string, string)>, s: string, c: char, k: nat)
    requires WellFormedTable(table)
    requires k < |table| && table[k].0 == [c] && c !in table[k].1
    requires NotRewrittenAfter(table, c, k)
    ensures c !in Substituted(table, s)
    decreases |table|
  {
    var n := |table| - 1;
    var prefix := table[..n];
    if n == k {
      ReplaceAllErases(Substituted(prefix, s), c, table[k].1);
    } else {
      ErasedFromEntry(prefix, s, c, k);
      ReplaceAllChars(Substituted(prefix, s), table[n].0, table[n].1, c);
    }
  }

  /** No entry after the `k`-th writes `c` back. */
  predicate NotRewrittenAfter(table: seq<(string, string)>, c: char, k: nat) {
    forall j :: k < j < |table| ==> c !in table[j].1
  }

  lemma SubstitutionsWellFormed()
    ensures WellFormedTable(Substitutions)
  {
  }

  lemma OStaysOut()
    ensures NotRewrittenAfter(Substitutions, 'O', 1)
  {
  }

  lemma LStaysOut()
    ensures NotRewrittenAfter(Substitutions, 'l', 3)
  {
  }

  lemma IStaysOut()
    ensures NotRewrittenAfter(Substitutions, 'I', 4)
  {
  }

  lemma SStaysOut()
    ensures NotRewrittenAfter(Substitutions, 'S', 6)
  {
  }

  lemma GStaysOut()
    ensures NotRewrittenAfter(Substitutions, 'G', 8)
  {
  }

  lemma BStaysOut()
    ensures NotRewrittenAfter(Substitutions, 'B', 10)
  {
  }

  /** After the table has run, none of O, l, I, S, G, B is left. */
  lemma SubstitutionsEraseConfusables(s: string)
    ensures WellFormedTable(Substitutions)
    ensures forall c :: c in Confusables ==> c !in Substituted(Substitutions, s)
  {
    SubstitutionsWellFormed();
    forall c | c in Confusables
      ensures c !in Substituted(Substitutions, s)
    {
      assert c == Confusables[0] || c == Confusables[1] || c == Confusables[2] ||
             c == Confusables[3] || c == Confusables[4] || c == Confusables[5];
      if c == 'O' {
        OStaysOut();
        ErasedFromEntry(Substitutions, s, 'O', 1);
      } else if c == 'l' {
        LStaysOut();
        ErasedFromEntry(Substitutions, s, 'l', 3);
      } else if c == 'I' {
        IStaysOut();
        ErasedFromEntry(Substitutions, s, 'I', 4);
      } else if c == 'S' {
        SStaysOut();
        ErasedFromEntry(Substitutions, s, 'S', 6);
      } else if c == 'G' {
        GStaysOut();
        ErasedFromEntry(Substitutions, s, 'G', 8);
      } else {
        BStaysOut();
        ErasedFromEntry(Substitutions, s, 'B', 10);
      }
    }
  }

  /** The replacement loop of step 2 of `auto_correct_ocr_errors`, over
      any table of non-empty patterns. */
  method ReplaceEach(table: seq<(string, string)>, text: string) returns (corrected: string)
    requires WellFormedTable(table)
    ensures corrected == Substituted(table, text)
  {
    corrected := text;
    for i := 0 to |table|
      invariant corrected == Substituted(table[..i], text)
    {
      var (error, correction) := table[i];
      assert table[..i + 1][..i] == table[..i];
      corrected := ReplaceAll(corrected, error, correction);
    }
    assert table[..|table|] == table;
  }

  /** Step 2 of `auto_correct_ocr_errors`: the loop over `common_ocr_errors`. */
  method ApplySubstitutions(text: string) returns (corrected: string)
    ensures WellFormedTable(Substitutions)
    ensures corrected == Substituted(Substitutions, text)
    ensures forall c :: c in Confusables ==> c !in corrected
  {
    SubstitutionsEraseConfusables(text);
    corrected := ReplaceEach(Substitutions, text);
  }

  // ---------------------------------------------------------------------
  // Contextual digit/letter correction
  // ---------------------------------------------------------------------

  const Articles: set<string> := {"el", "la", "los", "las", "un", "una", "unos", "unas"}

  const Prepositions: set<string> := {
    "a", "ante", "bajo", "con", "contra", "de", "desde", "en", "entre", "hacia",
    "hasta", "para", "por", "seg\U{FA}n", "sin", "sobre", "tras"
  }

  /** The neighbours (already lower-cased) make the token read as text. */
  predicate LetterContext(prev: string, next: string) {
    prev in Articles || prev in Prepositions || next in Articles
  }

  /** `re.search(r'[a-zA-Z]', word)`. */
  predicate HasAsciiLetter(w: string) {
    exists i :: 0 <= i < |w| && IsAsciiLetter(w[i])
  }

  /** `re.match(r'^[\d.,]+$', word)` on a token (which holds no newline). */
  predicate IsNumeric(w: string) {
    |w| > 0 && forall i :: 0 <= i < |w| ==> IsDigit(w[i]) || w[i] == '.' || w[i] == ','
  }

  /** `w.replace(a, b)` for one character `a` and one character `b`. */
  function ReplaceChar(w: string, a: char, b: char): (r: string)
    ensures |r| == |w|
    ensures forall i :: 0 <= i < |w| ==> r[i] == (if w[i] == a then b else w[i])
  {
    ReplaceCharPointwise(w, a, b);
    ReplaceAll(w, [a], [b])
  }

  /** Digit read as a letter in text context: 0 -> O, 1 -> l, 5 -> S. */
  function AsLetter(c: char): char {
    if c == '0' then 'O' else if c == '1' then 'l' else if c == '5' then 'S' else c
  }

  /** The body of the loop in `contextual_number_letter_correction` for one
      token, given the lower-cased previous and next tokens ("" at the ends). */
  function CorrectToken(prev: string, next: string, word: string): (r: string)
    ensures |r| == |word|
    ensures IsToken(word) ==> IsToken(r)
  {
    if LetterContext(prev, next) then
      ReplaceChar(ReplaceChar(ReplaceChar(word, '0', 'O'), '1', 'l'), '5', 'S')
    else if HasAsciiLetter(word) then
      ReplaceChar(ReplaceChar(word, '0', 'O'), '1', 'l')
    else if IsNumeric(word) then
      ReplaceChar(ReplaceChar(ReplaceChar(word, 'O', '0'), 'l', '1'), 'S', '5')
    else word
  }

  /** What the three branches do to a token: in letter context every 0, 1, 5
      becomes O, l, S; otherwise a token with an ASCII letter gets only
      0 -> O and 1 -> l; any other token, numeric ones included, is left
      as it is, because the numeric branch only rewrites letters. */
  lemma CorrectTokenCases(prev: string, next: string, word: string)
    ensures LetterContext(prev, next) ==>
      forall i :: 0 <= i < |word| ==> CorrectToken(prev, next, word)[i] == AsLetter(word[i])
    ensures !LetterContext(prev, next) && HasAsciiLetter(word) ==>
      forall i :: 0 <= i < |word| ==>
        CorrectToken(prev, next, word)[i] == (if word[i] == '5' then '5' else AsLetter(word[i]))
    ensures !LetterContext(prev, next) && !HasAsciiLetter(word) ==>
      CorrectToken(prev, next, word) == word
  {
    if !LetterContext(prev, next) && !HasAsciiLetter(word) && IsNumeric(word) {
      var r := CorrectToken(prev, next, word);
      forall i | 0 <= i < |word| ensures r[i] == word[i] {
        assert !IsAsciiLetter(word[i]);
      }
    }
  }

  /** Lower-cased previous token, "" for the first. */
  function PrevWord(words: seq<string>, i: nat): string
    requires i < |words|
  {
    if i > 0 then LowerStr(words[i - 1]) else ""
  }

  /** Lower-cased next token, "" for the last. */
  function NextWord(words: seq<string>, i: nat): string
    requires i < |words|
  {
    if i < |words| - 1 then LowerStr(words[i + 1]) else ""
  }

  /** The corrected tokens, one per input token, each as long as the token
      it replaces and still free of whitespace. */
  function ContextCorrected(words: seq<string>): (r: seq<string>)
    ensures |r| == |words|
    ensures forall k :: 0 <= k < |words| ==> |r[k]| == |words[k]|
    ensures (forall k :: 0 <= k < |words| ==> IsToken(words[k])) ==>
      forall k :: 0 <= k < |r| ==> IsToken(r[k])
  {
    seq(|words|, i requires 0 <= i < |words| => CorrectToken(PrevWord(words, i), NextWord(words, i), words[i]))
  }

  /** What happens to token `i`, by its neighbours: after an article or a
      preposition, or before an article, every 0, 1, 5 becomes O, l, S;
      otherwise a token with an ASCII letter gets only 0 -> O and 1 -> l,
      and any other token is kept. The first token has no previous word
      and the last no next word. */
  lemma ContextCorrectedAt(words: seq<string>, i: nat)
    requires i < |words|
    ensures var w, r := words[i], ContextCorrected(words)[i];
      var context := (i > 0 && (LowerStr(words[i - 1]) in Articles || LowerStr(words[i - 1]) in Prepositions))
        || (i + 1 < |words| && LowerStr(words[i + 1]) in Articles);
      |r| == |w| &&
      (context ==> forall j :: 0 <= j < |w| ==> r[j] == AsLetter(w[j])) &&
      (!context && HasAsciiLetter(w) ==>
        forall j :: 0 <= j < |w| ==> r[j] == (if w[j] == '5' then '5' else AsLetter(w[j]))) &&
      (!context && !HasAsciiLetter(w) ==> r == w)
  {
    assert "" !in Articles && "" !in Prepositions;
    CorrectTokenCases(PrevWord(words, i), NextWord(words, i), words[i]);
  }

  /** What `contextual_number_letter_correction` returns: the corrected
      tokens re-joined with single spaces. It splits back into exactly those
      tokens, as many as `text` has and each as long as the one it replaces,
      and has no whitespace run and no leading or trailing whitespace. */
  function ContextCorrectedText(text: string): (r: string)
    ensures Split(r) == ContextCorrected(Split(text))
    ensures |Split(r)| == |Split(text)|
    ensures forall k :: 0 <= k < |Split(text)| ==> |Split(r)[k]| == |Split(text)[k]|
    ensures SingleSpaced(r)
  {
    var corrected := ContextCorrected(Split(text));
    SplitJoin(corrected);
    JoinSingleSpaced(corrected);
    Join(" ", corrected)
  }

  /** `contextual_number_letter_correction`: the loop corrects the tokens
      one by one, each from its lower-cased neighbours. */
  method ContextualNumberLetterCorrection(text: string) returns (r: string)
    ensures r == ContextCorrectedText(text)
  {
    var words := Split(text);
    var corrected: seq<string> := [];
    for i := 0 to |words|
      invariant corrected == ContextCorrected(words)[..i]
    {
      var prev := if i > 0 then LowerStr(words[i - 1]) else "";
      var next := if i < |words| - 1 then LowerStr(words[i + 1]) else "";
      ContextCorrectedAt(words, i);
      PrefixStep(ContextCorrected(words), i);
      corrected := corrected + [CorrectToken(prev, next, words[i])];
    }
    PrefixAll(ContextCorrected(words));
    r := Join(" ", corrected);
  }

  // ---------------------------------------------------------------------
  // Whitespace collapsing: re.sub(r'\s+', ' ', text)
  // ---------------------------------------------------------------------

  /** `re.sub(r'\s+', ' ', s)`: every whitespace run becomes one space. */
  function CollapseSpaces(s: string): string
    decreases |s|
  {
    if s == [] then []
    else if IsSpace(s[0]) then " " + CollapseSpaces(s[Span(s, IsSpace)..])
    else [s[0]] + CollapseSpaces(s[1..])
  }

  /** Collapsing copies a whitespace-free prefix. */
  lemma {:induction false} CollapseSpacesPrefix(s: string, n: nat)
    requires n <= |s| && forall i :: 0 <= i < n ==> IsNonSpace(s[i])
    ensures CollapseSpaces(s) == s[..n] + CollapseSpaces(s[n..])
    decreases n
  {
    if n > 0 {
      CollapseSpacesPrefix(s[1..], n - 1);
      assert s[1..][n - 1..] == s[n..];
      assert s[..n] == [s[0]] + s[1..][..n - 1];
    }
  }

  /** Whitespace at the end of `s` collapses to one trailing space. */
  function TrailingSpace(s: string): string {
    if s != [] && IsSpace(s[|s| - 1]) then " " else ""
  }

  /** Text that does not start with whitespace collapses to its tokens
      joined by single spaces, plus one space if it ends with whitespace. */
  lemma {:induction false} CollapseSpacesTokens(s: string)
    requires s == [] || !IsSpace(s[0])
    ensures CollapseSpaces(s) == Join(" ", Split(s)) + TrailingSpace(s)
    ensures s != [] ==> Split(s) != []
    decreases |s|
  {
    if s != [] {
      var n := Span(s, IsNonSpace);
      if n == |s| {
        CollapseSpacesWord(s);
      } else {
        var k := Span(s[n..], IsSpace);
        CollapseSpacesTokens(s[n + k..]);
        CollapseSpacesStep(s, n, k);
      }
    }
  }

  /** Base case of `CollapseSpacesTokens`: a single word. */
  lemma CollapseSpacesWord(s: string)
    requires s != [] && Span(s, IsNonSpace) == |s|
    ensures CollapseSpaces(s) == Join(" ", Split(s)) + TrailingSpace(s)
    ensures Split(s) != []
  {
    SplitOfWholeWord(s);
    CollapseSpacesPrefix(s, |s|);
    assert s[..|s|] == s && s[|s|..] == [];
    assert CollapseSpaces(s) == s + [] && TrailingSpace(s) == "";
    assert Join(" ", [s]) == s;
  }

  lemma SplitOfWholeWord(s: string)
    requires s != [] && Span(s, IsNonSpace) == |s|
    ensures Split(s) == [s] && !IsSpace(s[|s| - 1])
  {
    assert IsNonSpace(s[0]);
    assert s[..|s|] == s && s[|s|..] == [];
    assert Runs(s, IsNonSpace) == [s[..|s|]] + Runs(s[|s|..], IsNonSpace);
  }

  /** Inductive step of `CollapseSpacesTokens`: a word of length `n`, a
      whitespace run of length `k`, then the rest, for which the claim holds. */
  lemma CollapseSpacesStep(s: string, n: nat, k: nat)
    requires s != [] && !IsSpace(s[0])
    requires n == Span(s, IsNonSpace) && n < |s|
    requires k == Span(s[n..], IsSpace)
    requires CollapseSpaces(s[n + k..]) == Join(" ", Split(s[n + k..])) + TrailingSpace(s[n + k..])
    requires s[n + k..] != [] ==> Split(s[n + k..]) != []
    ensures CollapseSpaces(s) == Join(" ", Split(s)) + TrailingSpace(s)
    ensures Split(s) != []
  {
    SplitOfWordGap(s, n, k);
    CollapseOfWordGap(s, n, k);
    TrailingOfWordGap(s, n, k);
    var u := s[n + k..];
    JoinStep(s[..n], Split(u), CollapseSpaces(u), TrailingSpace(u), TrailingSpace(s));
  }

  /** The string algebra of the step: a word, one space, and the collapsed
      rest, whose own tokens are `ws`. */
  lemma JoinStep(w: string, ws: seq<string>, cu: string, tu: string, ts: string)
    requires cu == Join(" ", ws) + tu
    requires ws == [] ==> cu == [] && ts == " "
    requires ws != [] ==> ts == tu
    ensures w + (" " + cu) == Join(" ", [w] + ws) + ts
  {
    if ws == [] {
      assert Join(" ", [w]) == w;
    } else {
      JoinCons(" ", w, ws);
      Regroup(w, " ", Join(" ", ws), tu);
    }
  }

  lemma SplitOfWordGap(s: string, n: nat, k: nat)
    requires s != [] && !IsSpace(s[0])
    requires n == Span(s, IsNonSpace) && n < |s|
    requires k == Span(s[n..], IsSpace)
    ensures n + k <= |s| && IsToken(s[..n])
    ensures Split(s) == [s[..n]] + Split(s[n + k..])
  {
    var t := s[n..];
    SplitOfWord(s, n);
    RunsAfterSkip(t, k, IsNonSpace);
    DropDrop(s, n, k);
  }

  lemma CollapseOfWordGap(s: string, n: nat, k: nat)
    requires s != [] && !IsSpace(s[0])
    requires n == Span(s, IsNonSpace) && n < |s|
    requires k == Span(s[n..], IsSpace)
    ensures n + k <= |s|
    ensures CollapseSpaces(s) == s[..n] + (" " + CollapseSpaces(s[n + k..]))
  {
    var t := s[n..];
    assert t[0] == s[n];
    DropDrop(s, n, k);
    CollapseSpacesPrefix(s, n);
    assert CollapseSpaces(t) == " " + CollapseSpaces(t[k..]);
  }

  lemma TrailingOfWordGap(s: string, n: nat, k: nat)
    requires n < |s| && IsSpace(s[n])
    requires k == Span(s[n..], IsSpace)
    ensures n + k <= |s|
    ensures TrailingSpace(s) == if s[n + k..] == [] then " " else TrailingSpace(s[n + k..])
  {
    var t := s[n..];
    assert t[0] == s[n];
    assert s[|s| - 1] == t[|t| - 1];
    if s[n + k..] != [] {
      assert s[n + k..][|s| - n - k - 1] == s[|s| - 1];
    }
  }

  /** A word of length `n` at the front of `s` is its first token. */
  lemma SplitOfWord(s: string, n: nat)
    requires s != [] && !IsSpace(s[0]) && n == Span(s, IsNonSpace)
    ensures IsToken(s[..n])
    ensures Split(s) == [s[..n]] + Split(s[n..])
  {
    assert IsNonSpace(s[0]);
  }

  /** `str.split()` finds exactly the words of the text with its whitespace
      runs collapsed to one space and its ends stripped. */
  lemma SplitCollapsed(s: string)
    ensures Join(" ", Split(s)) == Strip(CollapseSpaces(s))
  {
    if s != [] && IsSpace(s[0]) {
      var k := Span(s, IsSpace);
      LeadingGap(s, k);
      SplitCollapsedTrimmedStart(s[k..]);
    } else {
      SplitCollapsedTrimmedStart(s);
    }
  }

  /** A leading whitespace run changes neither the tokens nor the stripped
      collapsed text. */
  lemma LeadingGap(s: string, k: nat)
    requires s != [] && IsSpace(s[0]) && k == Span(s, IsSpace)
    ensures Split(s) == Split(s[k..])
    ensures Strip(CollapseSpaces(s)) == Strip(CollapseSpaces(s[k..]))
    ensures s[k..] == [] || !IsSpace(s[k..][0])
  {
    assert CollapseSpaces(s) == " " + CollapseSpaces(s[k..]);
    StripLeadingSpace(' ', CollapseSpaces(s[k..]));
    RunsAfterSkip(s, k, IsNonSpace);
  }

  lemma SplitCollapsedTrimmedStart(s: string)
    requires s == [] || !IsSpace(s[0])
    ensures Join(" ", Split(s)) == Strip(CollapseSpaces(s))
  {
    CollapseSpacesTokens(s);
    StripJoinTail(Split(s), TrailingSpace(s));
  }

  /** Stripping the single-spaced join of tokens, with or without one
      trailing space, gives the join back. */
  lemma StripJoinTail(ws: seq<string>, tail: string)
    requires forall k :: 0 <= k < |ws| ==> IsToken(ws[k])
    requires tail == "" || tail == " "
    requires ws == [] ==> tail == ""
    ensures Strip(Join(" ", ws) + tail) == Join(" ", ws)
  {
    if ws == [] {
      assert Join(" ", ws) + tail == [];
    } else {
      JoinTokensTrimmed(ws);
      StripWithTail(Join(" ", ws), tail);
    }
  }

  /** Non-empty text that neither starts nor ends with whitespace. */
  predicate Trimmed(j: string) {
    j != [] && !IsSpace(j[0]) && !IsSpace(j[|j| - 1])
  }

  lemma JoinTokensTrimmed(ws: seq<string>)
    requires ws != [] && forall k :: 0 <= k < |ws| ==> IsToken(ws[k])
    ensures Trimmed(Join(" ", ws))
  {
    JoinEnds(" ", ws);
  }

  lemma StripWithTail(j: string, tail: string)
    requires Trimmed(j)
    requires tail == "" || tail == " "
    ensures Strip(j + tail) == j
  {
    if tail == "" {
      assert j + tail == j;
      StripTrimmed(j);
    } else {
      StripTrailingSpace(j);
    }
  }

  /** Every whitespace character is a ' ' that is not followed by whitespace. */
  predicate NoSpaceRuns(s: string) {
    forall i :: 0 <= i < |s| && IsSpace(s[i]) ==> s[i] == ' ' && (i + 1 < |s| ==> !IsSpace(s[i + 1]))
  }

  /** Collapsing leaves text without whitespace runs as it is. */
  lemma {:induction false} CollapseSpacesIdentity(s: string)
    requires NoSpaceRuns(s)
    ensures CollapseSpaces(s) == s
    decreases |s|
  {
    if s != [] {
      assert NoSpaceRuns(s[1..]) by {
        forall i | 0 <= i < |s[1..]| ensures IsSpace(s[1..][i]) ==>
          s[1..][i] == ' ' && (i + 1 < |s[1..]| ==> !IsSpace(s[1..][i + 1]))
        {
          assert s[1..][i] == s[i + 1];
        }
      }
      CollapseSpacesIdentity(s[1..]);
      if IsSpace(s[0]) {
        assert Span(s, IsSpace) == 1;
        assert s == " " + s[1..];
      } else {
        assert s == [s[0]] + s[1..];
      }
    }
  }

  /** Single-spaced text has no whitespace run. */
  lemma SingleSpacedHasNoRuns(s: string)
    requires SingleSpaced(s)
    ensures NoSpaceRuns(s)
  {
  }

  /** Collapsing only rewrites whitespace: the other characters are kept,
      in order. */
  lemma {:induction false} CollapseSpacesKeepsNonSpace(s: string)
    ensures NonSpace(CollapseSpaces(s)) == NonSpace(s)
    decreases |s|
  {
    if s != [] {
      assert s == [s[0]] + s[1..];
      NonSpaceCons(s[0], s[1..]);
      if IsSpace(s[0]) {
        var k := Span(s, IsSpace);
        CollapseSpacesKeepsNonSpace(s[k..]);
        NonSpaceAfterBlank(s, k);
        NonSpaceCons(' ', CollapseSpaces(s[k..]));
      } else {
        CollapseSpacesKeepsNonSpace(s[1..]);
        NonSpaceCons(s[0], CollapseSpaces(s[1..]));
      }
    }
  }

  /** Collapsing leaves no whitespace run, so it is idempotent. */
  lemma {:induction false} CollapseSpacesNoRuns(s: string)
    ensures NoSpaceRuns(CollapseSpaces(s))
    ensures s != [] ==> |CollapseSpaces(s)| > 0 && IsSpace(CollapseSpaces(s)[0]) == IsSpace(s[0])
    ensures CollapseSpaces(CollapseSpaces(s)) == CollapseSpaces(s)
    decreases |s|
  {
    if s != [] {
      var r := CollapseSpaces(s);
      if IsSpace(s[0]) {
        var t := s[Span(s, IsSpace)..];
        CollapseSpacesNoRuns(t);
        var ct := CollapseSpaces(t);
        assert r == " " + ct;
        assert t != [] ==> !IsSpace(t[0]);
        forall i | 0 <= i < |r| ensures IsSpace(r[i]) ==> r[i] == ' ' && (i + 1 < |r| ==> !IsSpace(r[i + 1])) {
          if i > 0 { assert r[i] == ct[i - 1]; }
          if i + 1 < |r| { assert r[i + 1] == ct[i]; }
        }
      } else {
        CollapseSpacesNoRuns(s[1..]);
        var ct := CollapseSpaces(s[1..]);
        assert r == [s[0]] + ct;
        forall i | 0 <= i < |r| ensures IsSpace(r[i]) ==> r[i] == ' ' && (i + 1 < |r| ==> !IsSpace(r[i + 1])) {
          if i > 0 { assert r[i] == ct[i - 1]; }
          if i + 1 < |r| { assert r[i + 1] == ct[i]; }
        }
      }
      CollapseSpacesIdentity(r);
    }
  }

  // ---------------------------------------------------------------------
  // fix_punctuation
  // ---------------------------------------------------------------------

  /** The marks of the class `[,.;:!?]`. */
  const PunctMarks: string := ",.;:!?"

  /** `re.sub(r'\s+([marks])', r'\1', s)`: a whitespace run directly before
      one of `marks` is deleted. */
  function DropSpaceBefore(s: string, marks: string): string
    decreases |s|
  {
    if s == [] then []
    else if IsSpace(s[0]) then
      var k := Span(s, IsSpace);
      if k < |s| && s[k] in marks then [s[k]] + DropSpaceBefore(s[k + 1..], marks)
      else [s[0]] + DropSpaceBefore(s[1..], marks)
    else [s[0]] + DropSpaceBefore(s[1..], marks)
  }

  /** `re.sub(r'<mark>\s+', '<mark>', s)`: a whitespace run directly after
      `mark` is deleted. */
  function DropSpaceAfter(s: string, mark: char): string
    decreases |s|
  {
    if s == [] then []
    else if s[0] == mark then [mark] + DropSpaceAfter(s[1 + Span(s[1..], IsSpace)..], mark)
    else [s[0]] + DropSpaceAfter(s[1..], mark)
  }

  /** `re.sub(r'([,.;:!?])([^\s])', r'\1 \2', s)`: a space is put between a
      mark and a non-whitespace character; matches do not overlap. */
  function SpaceAfterPunct(s: string): string
    decreases |s|
  {
    if |s| >= 2 && s[0] in PunctMarks && !IsSpace(s[1]) then [s[0], ' ', s[1]] + SpaceAfterPunct(s[2..])
    else if s == [] then []
    else [s[0]] + SpaceAfterPunct(s[1..])
  }

  lemma {:induction false} DropSpaceBeforeKeepsNonSpace(s: string, marks: string)
    ensures NonSpace(DropSpaceBefore(s, marks)) == NonSpace(s)
    decreases |s|
  {
    if s != [] {
      var k := Span(s, IsSpace);
      if IsSpace(s[0]) && k < |s| && s[k] in marks {
        DropSpaceBeforeKeepsNonSpace(s[k + 1..], marks);
        NonSpaceAfterBlank(s, k);
        assert s[k..] == [s[k]] + s[k + 1..];
        NonSpaceCons(s[k], s[k + 1..]);
        NonSpaceCons(s[k], DropSpaceBefore(s[k + 1..], marks));
      } else {
        DropSpaceBeforeKeepsNonSpace(s[1..], marks);
        assert s == [s[0]] + s[1..];
        NonSpaceCons(s[0], s[1..]);
        NonSpaceCons(s[0], DropSpaceBefore(s[1..], marks));
      }
    }
  }

  lemma {:induction false} DropSpaceAfterKeepsNonSpace(s: string, mark: char)
    ensures NonSpace(DropSpaceAfter(s, mark)) == NonSpace(s)
    decreases |s|
  {
    if s != [] {
      assert s == [s[0]] + s[1..];
      NonSpaceCons(s[0], s[1..]);
      if s[0] == mark {
        var t := s[1..];
        var k := Span(t, IsSpace);
        DropSpaceAfterKeepsNonSpace(t[k..], mark);
        NonSpaceAfterBlank(t, k);
        assert s[1 + k..] == t[k..];
        NonSpaceCons(mark, DropSpaceAfter(t[k..], mark));
      } else {
        DropSpaceAfterKeepsNonSpace(s[1..], mark);
        NonSpaceCons(s[0], DropSpaceAfter(s[1..], mark));
      }
    }
  }

  /** Putting a space between two characters leaves the non-space text alone. */
  lemma NonSpaceSpaced(a: char, b: char, t: string, u: string)
    requires NonSpace(u) == NonSpace(t)
    ensures NonSpace([a, ' ', b] + u) == NonSpace([a] + ([b] + t))
  {
    assert [a, ' ', b] + u == [a, ' '] + ([b] + u);
    NonSpaceDropSpace(a, [b] + u);
    NonSpaceCons(b, t);
    NonSpaceCons(b, u);
    NonSpaceCons(a, [b] + t);
    NonSpaceCons(a, [b] + u);
  }

  lemma NonSpaceDropSpace(a: char, u: string)
    ensures NonSpace([a, ' '] + u) == NonSpace([a] + u)
  {
    assert [a, ' '] + u == [a] + ([' '] + u);
    NonSpaceCons(a, [' '] + u);
    NonSpaceCons(' ', u);
    NonSpaceCons(a, u);
  }

  lemma {:induction false} SpaceAfterPunctKeepsNonSpace(s: string)
    ensures NonSpace(SpaceAfterPunct(s)) == NonSpace(s)
    decreases |s|
  {
    if |s| >= 2 && s[0] in PunctMarks && !IsSpace(s[1]) {
      var rest := SpaceAfterPunct(s[2..]);
      SpaceAfterPunctKeepsNonSpace(s[2..]);
      assert s == [s[0]] + ([s[1]] + s[2..]);
      NonSpaceSpaced(s[0], s[1], s[2..], rest);
    } else if s != [] {
      SpaceAfterPunctKeepsNonSpace(s[1..]);
      assert s == [s[0]] + s[1..];
      NonSpaceCons(s[0], s[1..]);
      NonSpaceCons(s[0], SpaceAfterPunct(s[1..]));
    }
  }

  /** No character of `marks` directly follows whitespace in `r`. */
  predicate NoSpaceBefore(r: string, marks: string) {
    forall i :: 0 <= i < |r| - 1 && IsSpace(r[i]) ==> r[i + 1] !in marks
  }

  /** A character of `marks` is never preceded by whitespace once
      `DropSpaceBefore` has run, for marks that are not whitespace. */
  lemma {:induction false} DropSpaceBeforeNoGap(s: string, marks: string)
    requires forall j :: 0 <= j < |marks| ==> !IsSpace(marks[j])
    ensures NoSpaceBefore(DropSpaceBefore(s, marks), marks)
    decreases |s|
  {
    if s != [] {
      var r := DropSpaceBefore(s, marks);
      var k := Span(s, IsSpace);
      if IsSpace(s[0]) && k < |s| && s[k] in marks {
        var t := DropSpaceBefore(s[k + 1..], marks);
        DropSpaceBeforeNoGap(s[k + 1..], marks);
        assert r == [s[k]] + t;
        forall i | 0 <= i < |r| - 1 && IsSpace(r[i]) ensures r[i + 1] !in marks {
          var j := i - 1;
          assert i > 0 && r[i] == t[j] && r[i + 1] == t[j + 1];
        }
      } else {
        var u := s[1..];
        var t := DropSpaceBefore(u, marks);
        DropSpaceBeforeNoGap(u, marks);
        assert r == [s[0]] + t;
        if IsSpace(s[0]) && u != [] {
          // The run starting at s[1] ends where the run at s[0] ends,
          // so `u` is copied from its first character.
          assert Span(s, IsSpace) == 1 + Span(u, IsSpace);
          assert u[0] !in marks;
          assert t[0] == u[0];
        }
        forall i | 0 <= i < |r| - 1 && IsSpace(r[i]) ensures r[i + 1] !in marks {
          var j := i - 1;
          if i > 0 { assert r[i] == t[j] && r[i + 1] == t[j + 1]; }
          else { assert r[1] == t[0]; }
        }
      }
    }
  }

  /** `DropSpaceAfter` starts with the first character of its input. */
  lemma DropSpaceAfterHead(s: string, mark: char)
    requires s != []
    ensures DropSpaceAfter(s, mark) != [] && DropSpaceAfter(s, mark)[0] == s[0]
  {
  }

  /** `mark` is never directly followed by whitespace in `r`. */
  predicate NoSpaceAfter(r: string, mark: char) {
    forall i :: 0 <= i < |r| - 1 && r[i] == mark ==> !IsSpace(r[i + 1])
  }

  /** `mark` is never followed by whitespace once `DropSpaceAfter` has run. */
  lemma {:induction false} DropSpaceAfterNoGap(s: string, mark: char)
    ensures NoSpaceAfter(DropSpaceAfter(s, mark), mark)
    decreases |s|
  {
    if s != [] {
      var r := DropSpaceAfter(s, mark);
      if s[0] == mark {
        var u := s[1..];
        var w := u[Span(u, IsSpace)..];
        assert s[1 + Span(u, IsSpace)..] == w;
        var t := DropSpaceAfter(w, mark);
        DropSpaceAfterNoGap(w, mark);
        assert r == [mark] + t;
        if w != [] {
          DropSpaceAfterHead(w, mark);
          assert !IsSpace(w[0]);
        }
        forall i | 0 <= i < |r| - 1 && r[i] == mark ensures !IsSpace(r[i + 1]) {
          var j := i - 1;
          if i > 0 { assert r[i] == t[j] && r[i + 1] == t[j + 1]; }
          else { assert r[1] == t[0]; }
        }
      } else {
        var t := DropSpaceAfter(s[1..], mark);
        DropSpaceAfterNoGap(s[1..], mark);
        assert r == [s[0]] + t;
        forall i | 0 <= i < |r| - 1 && r[i] == mark ensures !IsSpace(r[i + 1]) {
          var j := i - 1;
          assert i > 0 && r[i] == t[j] && r[i + 1] == t[j + 1];
        }
      }
    }
  }

  /** `SpaceAfterPunct` starts with the first character of its input. */
  lemma SpaceAfterPunctHead(s: string)
    requires s != []
    ensures SpaceAfterPunct(s) != [] && SpaceAfterPunct(s)[0] == s[0]
  {
  }

  /** After `SpaceAfterPunct`, a mark directly followed by a non-whitespace
      character can only be the second of two marks the rule has split as
      `mark + ' ' + mark`: the matches do not overlap, so that second mark
      is never given its own space. */
  lemma {:induction false} SpaceAfterPunctSpaced(s: string)
    ensures var r := SpaceAfterPunct(s);
      forall i :: 0 <= i < |r| - 1 && r[i] in PunctMarks && !IsSpace(r[i + 1]) ==>
        2 <= i && r[i - 1] == ' ' && r[i - 2] in PunctMarks
    decreases |s|
  {
    var r := SpaceAfterPunct(s);
    if |s| >= 2 && s[0] in PunctMarks && !IsSpace(s[1]) {
      var t := SpaceAfterPunct(s[2..]);
      SpaceAfterPunctSpaced(s[2..]);
      assert r == [s[0], ' ', s[1]] + t;
      if s[2..] != [] { SpaceAfterPunctHead(s[2..]); }
      forall i | 0 <= i < |r| - 1 && r[i] in PunctMarks && !IsSpace(r[i + 1])
        ensures 2 <= i && r[i - 1] == ' ' && r[i - 2] in PunctMarks
      {
        assert r[1] == ' ' && ' ' !in PunctMarks;
        if i > 2 { assert r[i] == t[i - 3] && r[i + 1] == t[i - 2]; }
        if i > 3 { assert r[i - 1] == t[i - 4]; }
        if i > 4 { assert r[i - 2] == t[i - 5]; }
      }
    } else if s != [] {
      var t := SpaceAfterPunct(s[1..]);
      SpaceAfterPunctSpaced(s[1..]);
      assert r == [s[0]] + t;
      if s[1..] != [] { SpaceAfterPunctHead(s[1..]); }
      forall i | 0 <= i < |r| - 1 && r[i] in PunctMarks && !IsSpace(r[i + 1])
        ensures 2 <= i && r[i - 1] == ' ' && r[i - 2] in PunctMarks
      {
        assert r[i + 1] == t[i];
        if i > 0 { assert r[i] == t[i - 1]; }
        if i > 1 { assert r[i - 1] == t[i - 2]; }
        if i > 2 { assert r[i - 2] == t[i - 3]; }
      }
    }
  }

  /** `NoSpaceAfter` holds of every suffix of a text it holds of. */
  lemma NoSpaceAfterSuffix(s: string, mark: char, k: nat)
    requires k <= |s| && NoSpaceAfter(s, mark)
    ensures NoSpaceAfter(s[k..], mark)
  {
    forall i | 0 <= i < |s[k..]| - 1 && s[k..][i] == mark ensures !IsSpace(s[k..][i + 1]) {
      assert s[k..][i] == s[k + i] && s[k..][i + 1] == s[k + i + 1];
    }
  }

  /** `NoSpaceBefore` holds of every suffix of a text it holds of. */
  lemma NoSpaceBeforeSuffix(s: string, marks: string, k: nat)
    requires k <= |s| && NoSpaceBefore(s, marks)
    ensures NoSpaceBefore(s[k..], marks)
  {
    forall i | 0 <= i < |s[k..]| - 1 && IsSpace(s[k..][i]) ensures s[k..][i + 1] !in marks {
      assert s[k..][i] == s[k + i] && s[k..][i + 1] == s[k + i + 1];
    }
  }

  /** `DropSpaceBefore` starts with the first character of its input unless
      that character opens a whitespace run ending at one of `marks`. */
  lemma DropSpaceBeforeHead(s: string, marks: string)
    requires s != []
    requires !IsSpace(s[0]) || Span(s, IsSpace) == |s| || s[Span(s, IsSpace)] !in marks
    ensures DropSpaceBefore(s, marks) != [] && DropSpaceBefore(s, marks)[0] == s[0]
  {
  }

  /** `DropSpaceBefore` only deletes whitespace, so it never puts whitespace
      after a mark that had none. */
  lemma {:induction false} DropSpaceBeforeKeepsNoSpaceAfter(s: string, marks: string, c: char)
    requires !IsSpace(c) && NoSpaceAfter(s, c)
    ensures NoSpaceAfter(DropSpaceBefore(s, marks), c)
    decreases |s|
  {
    if s != [] {
      var r := DropSpaceBefore(s, marks);
      var k := Span(s, IsSpace);
      if IsSpace(s[0]) && k < |s| && s[k] in marks {
        var u := s[k + 1..];
        var t := DropSpaceBefore(u, marks);
        NoSpaceAfterSuffix(s, c, k + 1);
        DropSpaceBeforeKeepsNoSpaceAfter(u, marks, c);
        assert r == [s[k]] + t;
        if s[k] == c && u != [] {
          assert !IsSpace(s[k + 1]);
          DropSpaceBeforeHead(u, marks);
        }
        forall i | 0 <= i < |r| - 1 && r[i] == c ensures !IsSpace(r[i + 1]) {
          if i > 0 { assert r[i] == t[i - 1] && r[i + 1] == t[i]; }
          else { assert r[1] == t[0]; }
        }
      } else {
        var u := s[1..];
        var t := DropSpaceBefore(u, marks);
        NoSpaceAfterSuffix(s, c, 1);
        DropSpaceBeforeKeepsNoSpaceAfter(u, marks, c);
        assert r == [s[0]] + t;
        if s[0] == c && u != [] {
          assert !IsSpace(s[1]);
          DropSpaceBeforeHead(u, marks);
        }
        forall i | 0 <= i < |r| - 1 && r[i] == c ensures !IsSpace(r[i + 1]) {
          if i > 0 { assert r[i] == t[i - 1] && r[i + 1] == t[i]; }
          else { assert r[1] == t[0]; }
        }
      }
    }
  }

  /** `DropSpaceBefore` only deletes whitespace, so it never puts whitespace
      in front of a non-whitespace mark that had none. */
  lemma {:induction false} DropSpaceBeforeKeepsNoSpaceBefore(s: string, marks: string, ms: string)
    requires forall j :: 0 <= j < |ms| ==> !IsSpace(ms[j])
    requires NoSpaceBefore(s, ms)
    ensures NoSpaceBefore(DropSpaceBefore(s, marks), ms)
    decreases |s|
  {
    if s != [] {
      var r := DropSpaceBefore(s, marks);
      var k := Span(s, IsSpace);
      if IsSpace(s[0]) && k < |s| && s[k] in marks {
        var t := DropSpaceBefore(s[k + 1..], marks);
        NoSpaceBeforeSuffix(s, ms, k + 1);
        DropSpaceBeforeKeepsNoSpaceBefore(s[k + 1..], marks, ms);
        assert r == [s[k]] + t;
        forall i | 0 <= i < |r| - 1 && IsSpace(r[i]) ensures r[i + 1] !in ms {
          assert i > 0 && r[i] == t[i - 1] && r[i + 1] == t[i];
        }
      } else {
        var u := s[1..];
        var t := DropSpaceBefore(u, marks);
        NoSpaceBeforeSuffix(s, ms, 1);
        DropSpaceBeforeKeepsNoSpaceBefore(u, marks, ms);
        assert r == [s[0]] + t;
        if IsSpace(s[0]) && u != [] {
          // The run starting at s[1] ends where the run at s[0] ends, and
          // that run is not followed by one of `marks`.
          assert Span(s, IsSpace) == 1 + Span(u, IsSpace);
          DropSpaceBeforeHead(u, marks);
          assert t[0] == s[1];
        }
        forall i | 0 <= i < |r| - 1 && IsSpace(r[i]) ensures r[i + 1] !in ms {
          if i > 0 { assert r[i] == t[i - 1] && r[i + 1] == t[i]; }
          else { assert r[1] == t[0]; }
        }
      }
    }
  }

  /** `DropSpaceAfter` only deletes whitespace, so it never puts whitespace
      after a mark that had none. */
  lemma {:induction false} DropSpaceAfterKeepsNoSpaceAfter(s: string, mark: char, c: char)
    requires !IsSpace(c) && NoSpaceAfter(s, c)
    ensures NoSpaceAfter(DropSpaceAfter(s, mark), c)
    decreases |s|
  {
    if s != [] {
      var r := DropSpaceAfter(s, mark);
      if s[0] == mark {
        var u := s[1..];
        var k := Span(u, IsSpace);
        var w := u[k..];
        assert s[1 + k..] == w;
        var t := DropSpaceAfter(w, mark);
        NoSpaceAfterSuffix(s, c, 1 + k);
        DropSpaceAfterKeepsNoSpaceAfter(w, mark, c);
        assert r == [mark] + t;
        if w != [] {
          DropSpaceAfterHead(w, mark);
          assert !IsSpace(w[0]);
        }
        forall i | 0 <= i < |r| - 1 && r[i] == c ensures !IsSpace(r[i + 1]) {
          if i > 0 { assert r[i] == t[i - 1] && r[i + 1] == t[i]; }
          else { assert r[1] == t[0]; }
        }
      } else {
        var u := s[1..];
        var t := DropSpaceAfter(u, mark);
        NoSpaceAfterSuffix(s, c, 1);
        DropSpaceAfterKeepsNoSpaceAfter(u, mark, c);
        assert r == [s[0]] + t;
        if s[0] == c && u != [] {
          assert !IsSpace(s[1]);
          DropSpaceAfterHead(u, mark);
        }
        forall i | 0 <= i < |r| - 1 && r[i] == c ensures !IsSpace(r[i + 1]) {
          if i > 0 { assert r[i] == t[i - 1] && r[i + 1] == t[i]; }
          else { assert r[1] == t[0]; }
        }
      }
    }
  }

  /** `DropSpaceAfter` only deletes whitespace, so it never puts whitespace
      in front of a non-whitespace mark that had none. */
  lemma {:induction false} DropSpaceAfterKeepsNoSpaceBefore(s: string, mark: char, ms: string)
    requires !IsSpace(mark) && forall j :: 0 <= j < |ms| ==> !IsSpace(ms[j])
    requires NoSpaceBefore(s, ms)
    ensures NoSpaceBefore(DropSpaceAfter(s, mark), ms)
    decreases |s|
  {
    if s != [] {
      var r := DropSpaceAfter(s, mark);
      if s[0] == mark {
        var u := s[1..];
        var k := Span(u, IsSpace);
        var w := u[k..];
        assert s[1 + k..] == w;
        var t := DropSpaceAfter(w, mark);
        NoSpaceBeforeSuffix(s, ms, 1 + k);
        DropSpaceAfterKeepsNoSpaceBefore(w, mark, ms);
        assert r == [mark] + t;
        forall i | 0 <= i < |r| - 1 && IsSpace(r[i]) ensures r[i + 1] !in ms {
          assert i > 0 && r[i] == t[i - 1] && r[i + 1] == t[i];
        }
      } else {
        var u := s[1..];
        var t := DropSpaceAfter(u, mark);
        NoSpaceBeforeSuffix(s, ms, 1);
        DropSpaceAfterKeepsNoSpaceBefore(u, mark, ms);
        assert r == [s[0]] + t;
        if u != [] {
          DropSpaceAfterHead(u, mark);
        }
        forall i | 0 <= i < |r| - 1 && IsSpace(r[i]) ensures r[i + 1] !in ms {
          if i > 0 { assert r[i] == t[i - 1] && r[i + 1] == t[i]; }
          else { assert r[1] == t[0] == s[1]; }
        }
      }
    }
  }

  /** The last five rules of `fix_punctuation` leave no whitespace after
      `(`, `[` or `"` and none before `)`, `]` or `"`: each rule sets up
      its own property and every later rule keeps it. */
  lemma FixPunctuationBrackets(t2: string)
    ensures var t7 := DropSpaceAfter(DropSpaceBefore(DropSpaceAfter(
              DropSpaceBefore(DropSpaceAfter(t2, '('), ")"), '['), "]"), '"');
      var r := DropSpaceBefore(t7, "\"");
      NoSpaceAfter(r, '(') && NoSpaceBefore(r, ")") &&
      NoSpaceAfter(r, '[') && NoSpaceBefore(r, "]") &&
      NoSpaceAfter(r, '"') && NoSpaceBefore(r, "\"")
  {
    var t3 := DropSpaceAfter(t2, '(');
    var t4 := DropSpaceBefore(t3, ")");
    var t5 := DropSpaceAfter(t4, '[');
    var t6 := DropSpaceBefore(t5, "]");
    var t7 := DropSpaceAfter(t6, '"');
    var r := DropSpaceBefore(t7, "\"");
    // `(`: set by t3, kept by the four later rules.
    DropSpaceAfterNoGap(t2, '(');
    DropSpaceBeforeKeepsNoSpaceAfter(t3, ")", '(');
    DropSpaceAfterKeepsNoSpaceAfter(t4, '[', '(');
    DropSpaceBeforeKeepsNoSpaceAfter(t5, "]", '(');
    DropSpaceAfterKeepsNoSpaceAfter(t6, '"', '(');
    DropSpaceBeforeKeepsNoSpaceAfter(t7, "\"", '(');
    // `)`: set by t4.
    DropSpaceBeforeNoGap(t3, ")");
    DropSpaceAfterKeepsNoSpaceBefore(t4, '[', ")");
    DropSpaceBeforeKeepsNoSpaceBefore(t5, "]", ")");
    DropSpaceAfterKeepsNoSpaceBefore(t6, '"', ")");
    DropSpaceBeforeKeepsNoSpaceBefore(t7, "\"", ")");
    // `[`: set by t5.
    DropSpaceAfterNoGap(t4, '[');
    DropSpaceBeforeKeepsNoSpaceAfter(t5, "]", '[');
    DropSpaceAfterKeepsNoSpaceAfter(t6, '"', '[');
    DropSpaceBeforeKeepsNoSpaceAfter(t7, "\"", '[');
    // `]`: set by t6.
    DropSpaceBeforeNoGap(t5, "]");
    DropSpaceAfterKeepsNoSpaceBefore(t6, '"', "]");
    DropSpaceBeforeKeepsNoSpaceBefore(t7, "\"", "]");
    // `"` after: set by t7; `"` before: set by the last rule.
    DropSpaceAfterNoGap(t6, '"');
    DropSpaceBeforeKeepsNoSpaceAfter(t7, "\"", '"');
    DropSpaceBeforeNoGap(t7, "\"");
  }

  /** `fix_punctuation`: the eight substitutions in source order. Every
      rule only deletes whitespace or inserts a space, so the
      non-whitespace characters are kept, in order. The bracket and quote
      rules leave no whitespace after `(`, `[` or `"` and none before `)`,
      `]` or `"`, and the rules after each one only delete whitespace, so
      none of them undoes an earlier one. */
  function FixPunctuation(text: string): (r: string)
    ensures NonSpace(r) == NonSpace(text)
    ensures NoSpaceAfter(r, '(') && NoSpaceBefore(r, ")")
    ensures NoSpaceAfter(r, '[') && NoSpaceBefore(r, "]")
    ensures NoSpaceAfter(r, '"') && NoSpaceBefore(r, "\"")
  {
    var t1 := DropSpaceBefore(text, PunctMarks);
    DropSpaceBeforeKeepsNonSpace(text, PunctMarks);
    var t2 := SpaceAfterPunct(t1);
    SpaceAfterPunctKeepsNonSpace(t1);
    var t3 := DropSpaceAfter(t2, '(');
    DropSpaceAfterKeepsNonSpace(t2, '(');
    var t4 := DropSpaceBefore(t3, ")");
    DropSpaceBeforeKeepsNonSpace(t3, ")");
    var t5 := DropSpaceAfter(t4, '[');
    DropSpaceAfterKeepsNonSpace(t4, '[');
    var t6 := DropSpaceBefore(t5, "]");
    DropSpaceBeforeKeepsNonSpace(t5, "]");
    var t7 := DropSpaceAfter(t6, '"');
    DropSpaceAfterKeepsNonSpace(t6, '"');
    DropSpaceBeforeKeepsNonSpace(t7, "\"");
    DropSpaceBeforeNoGap(t7, "\"");
    FixPunctuationBrackets(t2);
    DropSpaceBefore(t7, "\"")
  }


  // ---------------------------------------------------------------------
  // fix_capitalization
  // ---------------------------------------------------------------------

  /** The class `[.!?]`. */
  predicate IsTerminator(c: char) { c == '.' || c == '!' || c == '?' }

  predicate NotTerminator(c: char) { !IsTerminator(c) }

  /** `re.split(r'[.!?]+', s)`: every maximal run of terminators separates
      two pieces, and empty pieces (at the ends) are kept. */
  function SplitSentences(s: string): (r: seq<string>)
    ensures |r| >= 1
    ensures forall k :: 0 <= k < |r| ==> AllChars(r[k], NotTerminator)
    decreases |s|
  {
    var k := Span(s, NotTerminator);
    if k == |s| then [s]
    else
      var t := s[k..];
      var m := Span(t, IsTerminator);
      var rest := t[m..];
      SentenceStep(s, k, m);
      PiecesCons(s[..k], SplitSentences(rest));
      [s[..k]] + SplitSentences(rest)
  }

  /** One step of `SplitSentences`: the piece before the first terminator
      has none, and the run after it is non-empty and keeps the last
      character. */
  lemma SentenceStep(s: string, k: nat, m: nat)
    requires k < |s| && k == Span(s, NotTerminator) && m == Span(s[k..], IsTerminator)
    ensures AllChars(s[..k], NotTerminator)
    ensures 1 <= m && |s[k..][m..]| < |s|
    ensures s[k..][m..] != [] ==> s[k..][m..][|s[k..][m..]| - 1] == s[|s| - 1]
  {
    assert s[k..][0] == s[k];
    SpanPrefix(s, NotTerminator);
  }

  lemma PiecesCons(head: string, pieces: seq<string>)
    requires |pieces| >= 1 && AllChars(head, NotTerminator)
    requires forall k :: 0 <= k < |pieces| ==> AllChars(pieces[k], NotTerminator)
    ensures forall k :: 0 <= k < |[head] + pieces| ==> AllChars(([head] + pieces)[k], NotTerminator)
  {
    forall k | 0 < k < |[head] + pieces| ensures ([head] + pieces)[k] == pieces[k - 1] { }
  }

  /** `pieces[0] + seps[0] + pieces[1] + ... + pieces[|seps|]`. */
  function Interleave(pieces: seq<string>, seps: seq<string>): string
    requires |pieces| == |seps| + 1
    decreases |seps|
  {
    if seps == [] then pieces[0]
    else pieces[0] + seps[0] + Interleave(pieces[1..], seps[1..])
  }

  /** The pieces are exactly what lies between the maximal terminator runs:
      one more piece than runs, none holding a terminator, and putting the
      runs back between them gives the text. */
  lemma {:induction false} SplitSentencesRejoin(s: string)
    ensures |SplitSentences(s)| == |Runs(s, IsTerminator)| + 1
    ensures forall k :: 0 <= k < |SplitSentences(s)| ==> AllChars(SplitSentences(s)[k], NotTerminator)
    ensures Interleave(SplitSentences(s), Runs(s, IsTerminator)) == s
    decreases |s|
  {
    var k := Span(s, NotTerminator);
    if k == |s| {
      RunsEmpty(s, IsTerminator);
      assert SplitSentences(s) == [s];
    } else {
      var t := s[k..];
      var m := Span(t, IsTerminator);
      FirstStop(s, k, m);
      SplitSentencesRejoin(t[m..]);
      InterleaveCons(s[..k], SplitSentences(t[m..]), t[..m], Runs(t[m..], IsTerminator));
      Rejoin3(s, k, m);
    }
  }

  /** A terminator-free piece of length `k`, then a terminator run of
      length `m`: the piece is the first sentence and the run the first
      separator. */
  lemma FirstStop(s: string, k: nat, m: nat)
    requires k == Span(s, NotTerminator) && k < |s|
    requires m == Span(s[k..], IsTerminator)
    ensures Runs(s, IsTerminator) == [s[k..][..m]] + Runs(s[k..][m..], IsTerminator)
  {
    assert IsTerminator(s[k..][0]) by { assert s[k..][0] == s[k]; }
    RunsAfterSkip(s, k, IsTerminator);
  }

  /** Text that ends in a terminator splits into pieces the last of which
      is empty: the text ends with its last piece, and no piece holds a
      terminator. */
  lemma SplitSentencesEndsEmpty(s: string)
    requires s != [] && IsTerminator(s[|s| - 1])
    ensures SplitSentences(s)[|SplitSentences(s)| - 1] == []
  {
    SplitSentencesRejoin(s);
    InterleaveLastChar(SplitSentences(s), Runs(s, IsTerminator));
  }

  /** A non-empty last piece supplies the last character. */
  lemma {:induction false} InterleaveLastChar(pieces: seq<string>, seps: seq<string>)
    requires |pieces| == |seps| + 1
    ensures pieces[|pieces| - 1] != [] ==>
      |Interleave(pieces, seps)| > 0 &&
      Interleave(pieces, seps)[|Interleave(pieces, seps)| - 1] == pieces[|pieces| - 1][|pieces[|pieces| - 1]| - 1]
    decreases |seps|
  {
    if seps != [] {
      InterleaveLastChar(pieces[1..], seps[1..]);
      assert pieces[1..][|pieces[1..]| - 1] == pieces[|pieces| - 1];
    }
  }

  lemma InterleaveCons(a: string, ps: seq<string>, b: string, rs: seq<string>)
    requires |ps| == |rs| + 1
    ensures Interleave([a] + ps, [b] + rs) == a + b + Interleave(ps, rs)
  {
    assert ([a] + ps)[1..] == ps && ([b] + rs)[1..] == rs;
  }

  lemma Rejoin3(s: string, k: nat, m: nat)
    requires k <= |s| && m <= |s[k..]|
    ensures s[..k] + s[k..][..m] + s[k..][m..] == s
  {
    assert s[k..][..m] + s[k..][m..] == s[k..];
  }

  /** Text splits into more than one piece exactly when it holds a
      terminator. */
  lemma SplitSentencesSingle(s: string)
    ensures |SplitSentences(s)| == 1 <==> AllChars(s, NotTerminator)
  {
    var k := Span(s, NotTerminator);
    if k < |s| {
      assert !NotTerminator(s[k]);
      var m := Span(s[k..], IsTerminator);
      assert |SplitSentences(s)| == 1 + |SplitSentences(s[k..][m..])|;
    }
  }

  /** `sentence[0].upper() + sentence[1:]`, which for a single character is
      `sentence.upper()`. */
  function CapitalizeFirst(s: string): (r: string)
    requires s != []
    ensures |r| == |s| && r[1..] == s[1..]
    ensures !IsAsciiLower(r[0]) && IsSpace(r[0]) == IsSpace(s[0])
    ensures |s| > 1 ==> r[|r| - 1] == s[|s| - 1]
    ensures AllChars(s, NotTerminator) ==> AllChars(r, NotTerminator)
  {
    var r := [Upper(s[0])] + s[1..];
    assert |s| > 1 ==> r[|r| - 1] == s[1..][|s| - 2];
    r
  }

  /** The sentences `fix_capitalization` keeps, in order: each piece is
      stripped, blank ones are dropped, and the rest are capitalised. */
  function CapitalizedSentences(pieces: seq<string>): (r: seq<string>)
    ensures |r| <= |pieces|
    ensures forall k :: 0 <= k < |r| ==>
      r[k] != [] && !IsAsciiLower(r[k][0]) && !IsSpace(r[k][0]) && !IsSpace(r[k][|r[k]| - 1])
    ensures (forall k :: 0 <= k < |pieces| ==> AllChars(pieces[k], NotTerminator)) ==>
      forall k :: 0 <= k < |r| ==> AllChars(r[k], NotTerminator)
    decreases |pieces|
  {
    if pieces == [] then []
    else
      var init := CapitalizedSentences(pieces[..|pieces| - 1]);
      var piece := pieces[|pieces| - 1];
      var t := Strip(piece);
      if t == [] then init
      else
        var c := CapitalizeFirst(t);
        assert AllChars(piece, NotTerminator) ==> AllChars(t, NotTerminator) by {
          if AllChars(piece, NotTerminator) {
            StripKeeps(piece, NotTerminator);
          }
        }
        init + [c]
  }

  /** One more piece: kept, capitalised, when it is not blank. */
  lemma CapitalizedSentencesSnoc(pieces: seq<string>, piece: string)
    ensures CapitalizedSentences(pieces + [piece]) ==
      if Strip(piece) == [] then CapitalizedSentences(pieces)
      else CapitalizedSentences(pieces) + [CapitalizeFirst(Strip(piece))]
  {
    DropLast(pieces, piece);
  }

  /** How many of `pieces` are not blank. */
  function KeptCount(pieces: seq<string>): nat
    decreases |pieces|
  {
    if pieces == [] then 0
    else KeptCount(pieces[..|pieces| - 1]) + (if Strip(pieces[|pieces| - 1]) == [] then 0 else 1)
  }

  /** One entry per non-blank piece, in order: the entry for piece `k` sits
      after those of the non-blank pieces before it and is that piece,
      stripped, with its first character capitalised. */
  predicate KeepsPieces(pieces: seq<string>, r: seq<string>) {
    |r| == KeptCount(pieces) &&
    forall k :: 0 <= k < |pieces| && Strip(pieces[k]) != [] ==>
      KeptCount(pieces[..k]) < |r| && r[KeptCount(pieces[..k])] == CapitalizeFirst(Strip(pieces[k]))
  }

  /** `fix_capitalization` keeps every non-blank piece, in order, and
      nothing else. */
  lemma {:induction false} CapitalizedSentencesKept(pieces: seq<string>)
    ensures KeepsPieces(pieces, CapitalizedSentences(pieces))
    decreases |pieces|
  {
    if pieces != [] {
      var n := |pieces| - 1;
      var init, last := pieces[..n], pieces[n];
      assert pieces == init + [last];
      CapitalizedSentencesKept(init);
      KeptStep(init, last);
    }
  }

  lemma KeptStep(init: seq<string>, last: string)
    requires KeepsPieces(init, CapitalizedSentences(init))
    ensures KeepsPieces(init + [last], CapitalizedSentences(init + [last]))
  {
    var pieces := init + [last];
    var r0, r := CapitalizedSentences(init), CapitalizedSentences(pieces);
    CapitalizedSentencesSnoc(init, last);
    DropLast(init, last);
    assert KeptCount(pieces) == KeptCount(init) + (if Strip(last) == [] then 0 else 1);
    forall k | 0 <= k < |pieces| && Strip(pieces[k]) != []
      ensures KeptCount(pieces[..k]) < |r| && r[KeptCount(pieces[..k])] == CapitalizeFirst(Strip(pieces[k]))
    {
      if k < |init| {
        PrefixOfSnoc(init, last, k);
        assert pieces[k] == init[k];
      }
    }
  }

  /** A prefix that stops before the appended element. */
  lemma PrefixOfSnoc<T>(xs: seq<T>, x: T, k: nat)
    requires k <= |xs|
    ensures (xs + [x])[..k] == xs[..k]
  {
  }

  /** `re.sub(r'([.!?]\s+)([a-z])', ...)`: an ASCII small letter after a
      terminator and a whitespace run is upper-cased. */
  function CapitalizeAfterStops(s: string): string
    decreases |s|
  {
    if s == [] then []
    else
      var k := Span(s[1..], IsSpace);
      if IsTerminator(s[0]) && k > 0 && 1 + k < |s| && IsAsciiLower(s[1 + k]) then
        s[..1 + k] + [Upper(s[1 + k])] + CapitalizeAfterStops(s[2 + k..])
      else [s[0]] + CapitalizeAfterStops(s[1..])
  }

  /** `r` is `s` with some ASCII small letters upper-cased, each of them
      right after whitespace. */
  predicate CapitalisedAfterGaps(s: string, r: string) {
    |r| == |s| &&
    forall i :: 0 <= i < |s| && r[i] != s[i] ==>
      IsAsciiLower(s[i]) && r[i] == Upper(s[i]) && 2 <= i && IsSpace(s[i - 1])
  }

  /** The second capitalisation pass only upper-cases small letters that
      follow whitespace; everything else is copied. */
  lemma {:induction false} CapitalizeAfterStopsChanges(s: string)
    ensures CapitalisedAfterGaps(s, CapitalizeAfterStops(s))
    decreases |s|
  {
    if s != [] {
      var r := CapitalizeAfterStops(s);
      var k := Span(s[1..], IsSpace);
      if IsTerminator(s[0]) && k > 0 && 1 + k < |s| && IsAsciiLower(s[1 + k]) {
        var head, rest := s[..1 + k], s[2 + k..];
        var t := CapitalizeAfterStops(rest);
        CapitalizeAfterStopsChanges(rest);
        assert r == head + [Upper(s[1 + k])] + t;
        forall i | 0 <= i < |s| && r[i] != s[i]
          ensures IsAsciiLower(s[i]) && r[i] == Upper(s[i]) && 2 <= i && IsSpace(s[i - 1])
        {
          if i == 1 + k {
            assert s[i - 1] == s[1..][k - 1];
          } else if i > 1 + k {
            var j := i - (2 + k);
            assert r[i] == t[j] && s[i] == rest[j];
            if j >= 1 { assert s[i - 1] == rest[j - 1]; }
          }
        }
      } else {
        var t := CapitalizeAfterStops(s[1..]);
        CapitalizeAfterStopsChanges(s[1..]);
        assert r == [s[0]] + t;
        forall i | 0 <= i < |s| && r[i] != s[i]
          ensures IsAsciiLower(s[i]) && r[i] == Upper(s[i]) && 2 <= i && IsSpace(s[i - 1])
        {
          var j := i - 1;
          assert r[i] == t[j] && s[i] == s[1..][j];
          assert s[i - 1] == s[1..][j - 1];
        }
      }
    }
  }

  /** A character other than a terminator is copied. */
  lemma CapitalizeAfterStopsPlain(s: string)
    requires s != [] && !IsTerminator(s[0])
    ensures CapitalizeAfterStops(s) == [s[0]] + CapitalizeAfterStops(s[1..])
  {
  }

  /** A stretch without terminators is copied unchanged. */
  lemma {:induction false} CapitalizeAfterStopsSkips(x: string, t: string)
    requires AllChars(x, NotTerminator)
    ensures CapitalizeAfterStops(x + t) == x + CapitalizeAfterStops(t)
    decreases |x|
  {
    if x == [] {
      assert x + t == t;
    } else {
      var c, rest := x[0], x[1..];
      var s := x + t;
      assert s[0] == c && s[1..] == rest + t;
      CapitalizeAfterStopsPlain(s);
      assert AllChars(rest, NotTerminator);
      CapitalizeAfterStopsSkips(rest, t);
      ConsAppend(c, rest, CapitalizeAfterStops(t));
      assert x == [c] + rest;
    }
  }

  lemma ConsAppend(c: char, x: string, y: string)
    ensures [c] + (x + y) == ([c] + x) + y
  {
  }

  /** A terminator and one space followed by a character that is neither
      whitespace nor a small ASCII letter are left alone. */
  lemma CapitalizeAfterStopsSeparator(t: string)
    requires |t| >= 3 && IsTerminator(t[0]) && t[1] == ' '
    requires !IsSpace(t[2]) && !IsAsciiLower(t[2])
    ensures CapitalizeAfterStops(t) == t[..2] + CapitalizeAfterStops(t[2..])
  {
    var u := t[1..];
    assert u[1..] == t[2..];
    assert Span(t[2..], IsSpace) == 0;
    assert Span(u, IsSpace) == 1;
    assert CapitalizeAfterStops(t) == [t[0]] + CapitalizeAfterStops(u);
    assert !IsTerminator(u[0]);
    assert CapitalizeAfterStops(u) == [u[0]] + CapitalizeAfterStops(t[2..]);
    assert t[..2] == [t[0], u[0]];
  }

  /** The substitution on line 184 never fires on the joined sentences:
      every terminator there is followed by one space and a sentence that
      already starts with a character other than a small ASCII letter. */
  lemma {:induction false} CapitalizeAfterStopsNoop(ws: seq<string>)
    requires forall k :: 0 <= k < |ws| ==>
      ws[k] != [] && !IsAsciiLower(ws[k][0]) && !IsSpace(ws[k][0]) && AllChars(ws[k], NotTerminator)
    ensures CapitalizeAfterStops(Join(". ", ws)) == Join(". ", ws)
    decreases |ws|
  {
    if |ws| == 1 {
      CapitalizeAfterStopsSkips(ws[0], []);
      assert ws[0] + [] == ws[0];
    } else if |ws| >= 2 {
      var rest := Join(". ", ws[1..]);
      CapitalizeAfterStopsNoop(ws[1..]);
      JoinEnds(". ", ws[1..]);
      var tail := ". " + rest;
      assert Join(". ", ws) == ws[0] + tail;
      CapitalizeAfterStopsSkips(ws[0], tail);
      assert tail[2..] == rest && tail[..2] == ". ";
      CapitalizeAfterStopsSeparator(tail);
    }
  }

  /** What `fix_capitalization` returns: the pieces between terminator runs,
      stripped, without the blank ones, capitalised and joined with ". ".
      It holds no '!' or '?', neither starts nor ends with whitespace, does
      not end with a '.', and does not start with a small ASCII letter. */
  function Capitalized(text: string): (r: string)
    ensures '!' !in r && '?' !in r
    ensures r != [] ==>
      !IsSpace(r[0]) && !IsAsciiLower(r[0]) && !IsSpace(r[|r| - 1]) && r[|r| - 1] != '.'
  {
    var ws := CapitalizedSentences(SplitSentences(text));
    JoinNotIn(". ", ws, '!');
    JoinNotIn(". ", ws, '?');
    if ws == [] then []
    else
      JoinEnds(". ", ws);
      Join(". ", ws)
  }

  /** `fix_capitalization`: the loop collects the kept sentences; the
      closing substitution (line 184) then changes nothing. */
  method FixCapitalization(text: string) returns (result: string)
    ensures result == Capitalized(text)
  {
    var sentences := SplitSentences(text);
    var corrected: seq<string> := [];
    for i := 0 to |sentences|
      invariant corrected == CapitalizedSentences(sentences[..i])
    {
      PrefixStep(sentences, i);
      CapitalizedSentencesSnoc(sentences[..i], sentences[i]);
      var sentence := Strip(sentences[i]);
      if sentence != [] {
        ghost var stripped := sentence;
        sentence := if |sentence| > 1 then [Upper(sentence[0])] + sentence[1..] else [Upper(sentence[0])];
        assert sentence == CapitalizeFirst(stripped);
        corrected := corrected + [sentence];
      }
    }
    PrefixAll(sentences);
    assert corrected == CapitalizedSentences(sentences);
    result := Join(". ", corrected);
    CapitalizeAfterStopsNoop(corrected);
    assert CapitalizeAfterStops(result) == result;
    assert Capitalized(text) == Join(". ", CapitalizedSentences(SplitSentences(text)));
    result := CapitalizeAfterStops(result);
  }

  // ---------------------------------------------------------------------
  // auto_correct_ocr_errors
  // ---------------------------------------------------------------------

  /** `auto_correct_ocr_errors`, with the NFKC normalisation passed in as
      `nfkc`. The whitespace collapse (step 4) and the final strip change
      nothing: the contextual step already leaves single spaces, and
      `fix_capitalization` already trims. The result holds no '!' or '?',
      is trimmed and does not start with a small ASCII letter. */
  method AutoCorrectOcrErrors(text: string, nfkc: string -> string) returns (r: string)
    ensures WellFormedTable(Substitutions)
    ensures r == Capitalized(FixPunctuation(ContextCorrectedText(Substituted(Substitutions, nfkc(text)))))
  {
    var corrected := nfkc(text);
    corrected := ApplySubstitutions(corrected);
    corrected := ContextualNumberLetterCorrection(corrected);
    SingleSpacedHasNoRuns(corrected);
    CollapseSpacesIdentity(corrected);
    corrected := CollapseSpaces(corrected);
    corrected := FixPunctuation(corrected);
    corrected := FixCapitalization(corrected);
    StripTrimmed(corrected);
    r := Strip(corrected);
  }
}

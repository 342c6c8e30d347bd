/** The parts of Python's `str` that the OCR text validator relies on:
    character classes, `split`, `join`, `strip`, `replace`, `lower`/`upper`
    and `split('\n')`, stated over `seq<char>`. */
module PyText {

  // ---------------------------------------------------------------------
  // Character classes
  // ---------------------------------------------------------------------

  /** `str.isspace()`, which is also what the regex class `\s` matches. */
  predicate IsSpace(c: char) {
    var n := c as int;
    n == 32 || 9 <= n <= 13 || 28 <= n <= 31 || n == 0x85 || n == 0xA0 || n == 0x1680
    || 0x2000 <= n <= 0x200A || n == 0x2028 || n == 0x2029 || n == 0x202F
    || n == 0x205F || n == 0x3000
  }

  predicate IsNonSpace(c: char) { !IsSpace(c) }

  /** The regex class `[a-zA-Z]`. */
  predicate IsAsciiLetter(c: char) { 'a' <= c <= 'z' || 'A' <= c <= 'Z' }

  /** The regex class `[a-z]`. */
  predicate IsAsciiLower(c: char) { 'a' <= c <= 'z' }

  /** The regex class `\d`, restricted to ASCII digits. */
  predicate IsDigit(c: char) { '0' <= c <= '9' }

  /** `str.isupper()` of one character (ASCII and Latin-1 capitals). */
  predicate IsUpper(c: char) {
    var n := c as int;
    'A' <= c <= 'Z' || (0xC0 <= n <= 0xDE && n != 0xD7)
  }

  /** `str.isalpha()` of one character (ASCII and Latin-1 letters). */
  predicate IsAlpha(c: char) {
    var n := c as int;
    IsAsciiLetter(c) || n == 0xAA || n == 0xB5 || n == 0xBA
    || (0xC0 <= n <= 0xFF && n != 0xD7 && n != 0xF7)
  }

  /** The regex class `\w`: letters, digits and the underscore. */
  predicate IsWordChar(c: char) { IsAlpha(c) || IsDigit(c) || c == '_' }

  /** `str.upper()` of one character: ASCII and Latin-1 small letters that
      have a Latin-1 capital are mapped to it, every other character is kept. */
  function Upper(c: char): (u: char)
    ensures !IsAsciiLower(u)
    ensures IsSpace(u) == IsSpace(c)
    ensures u != c ==> IsAlpha(c) && IsAlpha(u)
  {
    var n := c as int;
    if IsAsciiLower(c) || (0xE0 <= n <= 0xFE && n != 0xF7) then (n - 32) as char else c
  }

  /** `str.lower()` of one character, the inverse mapping of `Upper`. */
  function Lower(c: char): (l: char)
    ensures IsSpace(l) == IsSpace(c)
    ensures IsUpper(c) ==> Upper(l) == c
  {
    var n := c as int;
    if IsUpper(c) then (n + 32) as char else c
  }

  function LowerStr(s: string): (r: string)
    ensures |r| == |s|
  {
    seq(|s|, i requires 0 <= i < |s| => Lower(s[i]))
  }

  // ---------------------------------------------------------------------
  // Runs of characters, split and join
  // ---------------------------------------------------------------------

  predicate AllChars(s: string, p: char -> bool) {
    forall i :: 0 <= i < |s| ==> p(s[i])
  }

  /** A token of `str.split()`: non-empty, without whitespace. */
  predicate IsToken(w: string) {
    |w| > 0 && AllChars(w, IsNonSpace)
  }

  /** Length of the longest prefix of `s` whose characters satisfy `p`. */
  function Span(s: string, p: char -> bool): (n: nat)
    ensures n <= |s|
    ensures forall i :: 0 <= i < n ==> p(s[i])
    ensures n < |s| ==> !p(s[n])
    decreases |s|
  {
    if s != [] && p(s[0]) then 1 + Span(s[1..], p) else 0
  }

  /** Length of the longest suffix of `s` whose characters satisfy `p`. */
  function SpanFromEnd(s: string, p: char -> bool): (n: nat)
    ensures n <= |s|
    ensures forall i :: |s| - n <= i < |s| ==> p(s[i])
    ensures n < |s| ==> !p(s[|s| - 1 - n])
    decreases |s|
  {
    if s != [] && p(s[|s| - 1]) then 1 + SpanFromEnd(s[..|s| - 1], p) else 0
  }

  /** The maximal runs of characters satisfying `p`, left to right. With
      `IsNonSpace` this is `str.split()`; with `IsWordChar` it is
      `re.findall(r'\b\w+\b', s)`. */
  function Runs(s: string, p: char -> bool): (rs: seq<string>)
    ensures forall k :: 0 <= k < |rs| ==> |rs[k]| > 0 && AllChars(rs[k], p)
    decreases |s|
  {
    if s == [] then []
    else if !p(s[0]) then Runs(s[1..], p)
    else
      var n := Span(s, p);
      [s[..n]] + Runs(s[n..], p)
  }

  /** `str.split()` with no argument: whitespace runs separate tokens and
      no empty token is produced. */
  function Split(s: string): (ws: seq<string>)
    ensures forall k :: 0 <= k < |ws| ==> IsToken(ws[k])
  {
    Runs(s, IsNonSpace)
  }

  /** There are no runs exactly when no character satisfies `p`. */
  lemma {:induction false} RunsEmpty(s: string, p: char -> bool)
    ensures Runs(s, p) == [] <==> forall i :: 0 <= i < |s| ==> !p(s[i])
    decreases |s|
  {
    if s != [] && !p(s[0]) {
      RunsEmpty(s[1..], p);
      assert forall i :: 1 <= i < |s| ==> s[i] == s[1..][i - 1];
    }
  }

  /** A leading stretch of characters outside `p` holds no run. */
  lemma {:induction false} RunsAfterSkip(s: string, k: nat, p: char -> bool)
    requires k <= |s|
    requires forall i :: 0 <= i < k ==> !p(s[i])
    ensures Runs(s, p) == Runs(s[k..], p)
    decreases k
  {
    if k > 0 {
      RunsAfterSkip(s[1..], k - 1, p);
      assert s[1..][k - 1..] == s[k..];
    }
  }

  /** `str.split()` finds no token exactly in blank text. */
  lemma SplitEmpty(s: string)
    ensures Split(s) == [] <==> AllChars(s, IsSpace)
  {
    RunsEmpty(s, IsNonSpace);
  }

  /** `sep.join(ws)`. */
  function Join(sep: string, ws: seq<string>): string
    decreases |ws|
  {
    if ws == [] then []
    else if |ws| == 1 then ws[0]
    else ws[0] + sep + Join(sep, ws[1..])
  }

  lemma {:induction false} SpanConcat(a: string, b: string, p: char -> bool)
    requires AllChars(a, p)
    ensures Span(a + b, p) == |a| + Span(b, p)
    decreases |a|
  {
    if a != [] {
      assert (a + b)[1..] == a[1..] + b;
      SpanConcat(a[1..], b, p);
    } else {
      assert a + b == b;
    }
  }

  /** A span stops where the text it runs into starts with a character
      outside `p`. */
  lemma {:induction false} SpanStop(a: string, t: string, p: char -> bool)
    requires t == [] || !p(t[0])
    ensures Span(a + t, p) == Span(a, p)
    decreases |a|
  {
    if a == [] {
      assert a + t == t;
    } else {
      assert (a + t)[0] == a[0];
      if p(a[0]) {
        assert (a + t)[1..] == a[1..] + t;
        SpanStop(a[1..], t, p);
      }
    }
  }

  /** A character outside `p` separates the runs on either side of it. */
  lemma {:induction false} RunsSep(a: string, c: char, b: string, p: char -> bool)
    requires !p(c)
    ensures Runs(a + [c] + b, p) == Runs(a, p) + Runs(b, p)
    decreases |a|
  {
    var s := a + [c] + b;
    if a == [] {
      assert s == [c] + b && s[1..] == b;
    } else if !p(a[0]) {
      assert s[0] == a[0] && s[1..] == a[1..] + [c] + b;
      RunsSep(a[1..], c, b, p);
    } else {
      var n := Span(a, p);
      RunsSep(a[n..], c, b, p);
      RunsSepRun(a, c, b, p);
    }
  }

  /** The step of `RunsSep` for text starting with a run. */
  lemma RunsSepRun(a: string, c: char, b: string, p: char -> bool)
    requires !p(c) && a != [] && p(a[0])
    requires Runs(a[Span(a, p)..] + [c] + b, p) == Runs(a[Span(a, p)..], p) + Runs(b, p)
    ensures Runs(a + [c] + b, p) == Runs(a, p) + Runs(b, p)
  {
    var n := Span(a, p);
    SepSlices(a, c, b, n);
    SpanStop(a, [c] + b, p);
    RunsHead(a + [c] + b, p);
    RunsHead(a, p);
    ConsAssoc(a[..n], Runs(a[n..], p), Runs(b, p));
  }

  /** Unfolds `Runs` once on text that starts with a run. */
  lemma RunsHead(s: string, p: char -> bool)
    requires s != [] && p(s[0])
    ensures Runs(s, p) == [s[..Span(s, p)]] + Runs(s[Span(s, p)..], p)
  {
  }

  lemma SepSlices<T>(a: seq<T>, c: T, b: seq<T>, n: nat)
    requires 0 < n <= |a|
    ensures a + [c] + b == a + ([c] + b)
    ensures (a + [c] + b)[0] == a[0]
    ensures (a + [c] + b)[..n] == a[..n]
    ensures (a + [c] + b)[n..] == a[n..] + [c] + b
  {
  }

  lemma ConsAssoc<T>(x: T, ys: seq<T>, zs: seq<T>)
    ensures [x] + (ys + zs) == ([x] + ys) + zs
  {
  }

  /** A whitespace tail adds no token. */
  lemma SplitBlankTail(a: string, t: string)
    requires IsBlank(t)
    ensures Split(a + t) == Split(a)
  {
    if t != [] {
      assert a + t == a + [t[0]] + t[1..];
      RunsSep(a, t[0], t[1..], IsNonSpace);
      RunsEmpty(t[1..], IsNonSpace);
      assert Runs(a, IsNonSpace) + [] == Runs(a, IsNonSpace);
    } else {
      assert a + t == a;
    }
  }

  /** `s.strip().split() == s.split()`. */
  lemma SplitStrip(s: string)
    ensures Split(Strip(s)) == Split(s)
  {
    var i := Span(s, IsSpace);
    var e := SpanFromEnd(s[i..], IsSpace);
    var j := i + |s[i..]| - e;
    BlankEnds(s, i, j);
    assert Strip(s) == s[i..j];
    RunsAfterSkip(s, i, IsNonSpace);
    SliceSplit(s, i, j);
    SplitBlankTail(s[i..j], s[j..]);
  }

  /** `" ".join(ws).split()` is the tokens of each piece in turn, so it has
      as many tokens as the pieces together. */
  lemma {:induction false} SplitJoinSpace(a: string, b: string)
    ensures Split(a + " " + b) == Split(a) + Split(b)
  {
    assert a + " " + b == a + [' '] + b;
    RunsSep(a, ' ', b, IsNonSpace);
  }

  /** A token followed by nothing or by whitespace is the first run. */
  lemma RunsOfToken(w: string, t: string)
    requires IsToken(w)
    requires t == [] || IsSpace(t[0])
    ensures Runs(w + t, IsNonSpace) == [w] + Runs(t, IsNonSpace)
  {
    var s := w + t;
    SpanConcat(w, t, IsNonSpace);
    assert Span(t, IsNonSpace) == 0;
    assert s[0] == w[0];
    assert s[..|w|] == w;
    assert s[|w|..] == t;
  }

  /** Splitting a single-space join of tokens gives the tokens back. */
  lemma {:induction false} SplitJoin(ws: seq<string>)
    requires forall k :: 0 <= k < |ws| ==> IsToken(ws[k])
    ensures Split(Join(" ", ws)) == ws
    decreases |ws|
  {
    if |ws| == 1 {
      RunsOfToken(ws[0], []);
      assert ws[0] + [] == ws[0];
    } else if |ws| > 1 {
      var w, rest := ws[0], Join(" ", ws[1..]);
      assert Join(" ", ws) == w + (" " + rest);
      RunsOfToken(w, " " + rest);
      assert (" " + rest)[1..] == rest;
      assert Runs(" " + rest, IsNonSpace) == Runs(rest, IsNonSpace);
      SplitJoin(ws[1..]);
      assert ws == [w] + ws[1..];
    }
  }

  /** Whitespace occurs only as single ' ' characters, each strictly between
      two non-whitespace characters: no run, no leading or trailing space. */
  predicate SingleSpaced(s: string) {
    forall i :: 0 <= i < |s| && IsSpace(s[i]) ==>
      s[i] == ' ' && 0 < i < |s| - 1 && !IsSpace(s[i - 1]) && !IsSpace(s[i + 1])
  }

  lemma {:induction false} JoinSingleSpaced(ws: seq<string>)
    requires forall k :: 0 <= k < |ws| ==> IsToken(ws[k])
    ensures SingleSpaced(Join(" ", ws))
    ensures ws != [] ==> |Join(" ", ws)| > 0
    decreases |ws|
  {
    if |ws| >= 2 {
      var w, rest := ws[0], Join(" ", ws[1..]);
      JoinSingleSpaced(ws[1..]);
      var s := w + " " + rest;
      assert Join(" ", ws) == s;
      assert |rest| > 0 && !IsSpace(rest[0]);
      forall i | 0 <= i < |s|
        ensures IsSpace(s[i]) ==>
          s[i] == ' ' && 0 < i < |s| - 1 && !IsSpace(s[i - 1]) && !IsSpace(s[i + 1])
      {
        if i < |w| {
          assert s[i] == w[i];
        } else if i == |w| {
          assert s[i - 1] == w[|w| - 1];
          assert s[i + 1] == rest[0];
        } else {
          var j := i - |w| - 1;
          assert s[i] == rest[j];
          if IsSpace(s[i]) {
            assert s[i - 1] == rest[j - 1];
            assert s[i + 1] == rest[j + 1];
          }
        }
      }
    }
  }

  // ---------------------------------------------------------------------
  // strip
  // ---------------------------------------------------------------------

  predicate IsBlank(s: string) { AllChars(s, IsSpace) }

  /** `r` is `s` with a whitespace run cut off each end. */
  predicate IsTrimmedSlice(r: string, s: string) {
    exists i, j :: 0 <= i <= j <= |s| && r == s[i..j] && IsBlank(s[..i]) && IsBlank(s[j..])
  }

  /** `str.strip()`. */
  function Strip(s: string): (r: string)
    ensures r == [] <==> IsBlank(s)
    ensures r != [] ==> !IsSpace(r[0]) && !IsSpace(r[|r| - 1])
    ensures forall c :: c in r ==> c in s
    ensures !IsBlank(s) ==> !IsSpace(s[Span(s, IsSpace)]) && r[0] == s[Span(s, IsSpace)]
  {
    var i := Span(s, IsSpace);
    var left := s[i..];
    var e := SpanFromEnd(left, IsSpace);
    var r := left[..|left| - e];
    assert |left| > 0 ==> !IsSpace(left[0]);
    assert forall c :: c in r ==> c in left;
    r
  }

  /** `str.strip()` cuts a whitespace run off each end and keeps the
      slice between them. */
  lemma StripIsSlice(s: string)
    ensures IsTrimmedSlice(Strip(s), s)
  {
    var i := Span(s, IsSpace);
    var left := s[i..];
    var e := SpanFromEnd(left, IsSpace);
    var j := i + |left| - e;
    BlankEnds(s, i, j);
    assert Strip(s) == s[i..j];
  }

  // ---------------------------------------------------------------------
  // replace
  // ---------------------------------------------------------------------

  /** `s.replace(pat, rep)` for a non-empty `pat`: every occurrence, found
      left to right without overlap, is replaced. */
  function ReplaceAll(s: string, pat: string, rep: string): string
    requires pat != []
    decreases |s|
  {
    if |pat| <= |s| && s[..|pat|] == pat then rep + ReplaceAll(s[|pat|..], pat, rep)
    else if s == [] then []
    else [s[0]] + ReplaceAll(s[1..], pat, rep)
  }

  /** A replacement only produces characters of its input or of `rep`. */
  lemma {:induction false} ReplaceAllChars(s: string, pat: string, rep: string, c: char)
    requires pat != []
    requires c !in s && c !in rep
    ensures c !in ReplaceAll(s, pat, rep)
    decreases |s|
  {
    if |pat| <= |s| && s[..|pat|] == pat {
      ReplaceAllChars(s[|pat|..], pat, rep, c);
    } else if s != [] {
      ReplaceAllChars(s[1..], pat, rep, c);
    }
  }

  /** `pat` occurs in `s` at index `i`. */
  predicate OccursAt(s: string, pat: string, i: int) {
    0 <= i && i + |pat| <= |s| && s[i..i + |pat|] == pat
  }

  /** Text in which `pat` does not occur is left as it is. */
  lemma {:induction false} ReplaceAllAbsent(s: string, pat: string, rep: string)
    requires pat != []
    requires forall i :: !OccursAt(s, pat, i)
    ensures ReplaceAll(s, pat, rep) == s
    decreases |s|
  {
    if s != [] {
      assert !OccursAt(s, pat, 0);
      assert |pat| <= |s| ==> s[0..|pat|] == s[..|pat|];
      var t := s[1..];
      forall i ensures !OccursAt(t, pat, i) {
        assert !OccursAt(s, pat, i + 1);
        if 0 <= i && i + |pat| <= |t| { assert t[i..i + |pat|] == s[i + 1..i + 1 + |pat|]; }
      }
      ReplaceAllAbsent(t, pat, rep);
      assert s == [s[0]] + t;
    }
  }

  /** Replacing a one-character pattern by text that lacks it erases it. */
  lemma {:induction false} ReplaceAllErases(s: string, c: char, rep: string)
    requires c !in rep
    ensures c !in ReplaceAll(s, [c], rep)
    decreases |s|
  {
    if 1 <= |s| && s[..1] == [c] {
      ReplaceAllErases(s[1..], c, rep);
    } else if s != [] {
      assert s[0] != c by { assert s[..1] == [s[0]]; }
      ReplaceAllErases(s[1..], c, rep);
    }
  }

  /** A one-character replacement by one character is a character map. */
  lemma {:induction false} ReplaceCharPointwise(s: string, a: char, b: char)
    ensures |ReplaceAll(s, [a], [b])| == |s|
    ensures forall i :: 0 <= i < |s| ==>
      ReplaceAll(s, [a], [b])[i] == (if s[i] == a then b else s[i])
    decreases |s|
  {
    if s != [] {
      assert s[..1] == [s[0]];
      ReplaceCharPointwise(s[1..], a, b);
      var r := ReplaceAll(s, [a], [b]);
      var t := ReplaceAll(s[1..], [a], [b]);
      assert r == [if s[0] == a then b else s[0]] + t;
      forall i | 0 <= i < |s| ensures r[i] == (if s[i] == a then b else s[i]) {
        if i > 0 { assert r[i] == t[i - 1] && s[i] == s[1..][i - 1]; }
      }
    }
  }

  // ---------------------------------------------------------------------
  // Filters and counts
  // ---------------------------------------------------------------------

  /** The non-whitespace characters of `s`, in order. */
  function NonSpace(s: string): string
    decreases |s|
  {
    if s == [] then []
    else (if IsSpace(s[0]) then [] else [s[0]]) + NonSpace(s[1..])
  }

  /** One character in front of `t`. */
  lemma NonSpaceCons(c: char, t: string)
    ensures NonSpace([c] + t) == (if IsSpace(c) then [] else [c]) + NonSpace(t)
  {
    assert ([c] + t)[1..] == t;
  }

  /** A leading whitespace run contributes nothing. */
  lemma {:induction false} NonSpaceAfterBlank(s: string, k: nat)
    requires k <= |s|
    requires forall i :: 0 <= i < k ==> IsSpace(s[i])
    ensures NonSpace(s) == NonSpace(s[k..])
    decreases k
  {
    if k > 0 {
      NonSpaceAfterBlank(s[1..], k - 1);
      assert s[1..][k - 1..] == s[k..];
    }
  }

  /** Number of characters of `s` that satisfy `p`. */
  function Count(s: string, p: char -> bool): (n: nat)
    ensures n <= |s|
    decreases |s|
  {
    if s == [] then 0 else (if p(s[0]) then 1 else 0) + Count(s[1..], p)
  }

  lemma {:induction false} CountZero(s: string, p: char -> bool)
    ensures Count(s, p) == 0 <==> forall i :: 0 <= i < |s| ==> !p(s[i])
    decreases |s|
  {
    if s != [] {
      CountZero(s[1..], p);
      assert forall i :: 1 <= i < |s| ==> s[i] == s[1..][i - 1];
    }
  }

  lemma {:induction false} CountAll(s: string, p: char -> bool)
    ensures Count(s, p) == |s| <==> AllChars(s, p)
    decreases |s|
  {
    if s != [] {
      CountAll(s[1..], p);
      assert forall i :: 1 <= i < |s| ==> s[i] == s[1..][i - 1];
    }
  }

  /** `s.split('\n')`: always at least one piece; empty pieces are kept. */
  function SplitLines(s: string): (r: seq<string>)
    ensures |r| >= 1
    ensures |r| == 1 <==> '\n' !in s
    ensures Join("\n", r) == s
    ensures forall k :: 0 <= k < |r| ==> '\n' !in r[k]
    decreases |s|
  {
    if s == [] then [""]
    else
      var rest := SplitLines(s[1..]);
      assert s == [s[0]] + s[1..];
      if s[0] == '\n' then
        JoinCons("\n", "", rest);
        [""] + rest
      else
        JoinExtendHead("\n", [s[0]], rest);
        [[s[0]] + rest[0]] + rest[1..]
  }

  /** Joining one more piece in front. */
  lemma JoinCons(sep: string, x: string, ws: seq<string>)
    requires ws != []
    ensures Join(sep, [x] + ws) == x + sep + Join(sep, ws)
  {
    assert ([x] + ws)[1..] == ws;
  }

  /** Extending the first piece extends the join at its front. */
  lemma JoinExtendHead(sep: string, c: string, ws: seq<string>)
    requires ws != []
    ensures Join(sep, [c + ws[0]] + ws[1..]) == c + Join(sep, ws)
  {
    var vs := [c + ws[0]] + ws[1..];
    if |ws| > 1 {
      assert vs[1..] == ws[1..];
    }
  }

  /** Extending a prefix by one element. */
  lemma PrefixStep<T>(xs: seq<T>, i: nat)
    requires i < |xs|
    ensures xs[..i + 1] == xs[..i] + [xs[i]]
  {
  }

  /** Dropping the element just appended. */
  lemma DropLast<T>(xs: seq<T>, x: T)
    ensures (xs + [x])[..|xs|] == xs
    ensures (xs + [x])[|xs|] == x
  {
  }

  /** Concatenation regrouped to the left. */
  lemma Regroup<T>(a: seq<T>, b: seq<T>, c: seq<T>, d: seq<T>)
    ensures a + (b + (c + d)) == a + b + c + d
  {
  }

  lemma SliceSplit<T>(xs: seq<T>, i: nat, j: nat)
    requires i <= j <= |xs|
    ensures xs[i..] == xs[i..j] + xs[j..]
  {
  }

  lemma DropDrop<T>(xs: seq<T>, a: nat, b: nat)
    requires a + b <= |xs|
    ensures xs[a..][b..] == xs[a + b..]
  {
  }

  /** The characters before `Span(s, p)` all satisfy `p`. */
  lemma SpanPrefix(s: string, p: char -> bool)
    ensures AllChars(s[..Span(s, p)], p)
  {
    var n := Span(s, p);
    forall i | 0 <= i < n ensures p(s[..n][i]) {
      assert s[..n][i] == s[i];
    }
  }

  lemma PrefixAll<T>(xs: seq<T>)
    ensures xs[..|xs|] == xs
  {
  }

  /** The slice of `s` between a leading and a trailing whitespace run. */
  lemma BlankEnds(s: string, i: nat, j: nat)
    requires i <= |s| && Span(s, IsSpace) == i
    requires j == i + |s[i..]| - SpanFromEnd(s[i..], IsSpace)
    ensures i <= j <= |s|
    ensures s[i..][..|s[i..]| - SpanFromEnd(s[i..], IsSpace)] == s[i..j]
    ensures IsBlank(s[..i]) && IsBlank(s[j..])
  {
    var left := s[i..];
    var e := SpanFromEnd(left, IsSpace);
    forall k | j <= k < |s| ensures IsSpace(s[k]) {
      assert s[k] == left[k - i];
    }
  }

  /** A leading whitespace character is stripped away. */
  lemma StripLeadingSpace(c: char, x: string)
    requires IsSpace(c)
    ensures Strip([c] + x) == Strip(x)
  {
    var s := [c] + x;
    assert s[1..] == x;
    assert Span(s, IsSpace) == 1 + Span(x, IsSpace);
    assert s[1 + Span(x, IsSpace)..] == x[Span(x, IsSpace)..];
  }

  /** One trailing space after trimmed text is stripped away. */
  lemma StripTrailingSpace(t: string)
    requires t != [] && !IsSpace(t[0]) && !IsSpace(t[|t| - 1])
    ensures Strip(t + " ") == t
  {
    var s := t + " ";
    assert Span(s, IsSpace) == 0;
    assert s[0..] == s;
    assert s[..|s| - 1] == t;
    assert SpanFromEnd(t, IsSpace) == 0;
    assert SpanFromEnd(s, IsSpace) == 1;
  }

  /** Stripping keeps a property every character has. */
  lemma StripKeeps(s: string, p: char -> bool)
    requires AllChars(s, p)
    ensures AllChars(Strip(s), p)
  {
    var r := Strip(s);
    forall i | 0 <= i < |r| ensures p(r[i]) {
      assert r[i] in r;
      var j :| 0 <= j < |s| && s[j] == r[i];
    }
  }

  /** Text that neither starts nor ends with whitespace is its own strip. */
  lemma StripTrimmed(s: string)
    requires s != [] ==> !IsSpace(s[0]) && !IsSpace(s[|s| - 1])
    ensures Strip(s) == s
  {
    if s != [] {
      assert Span(s, IsSpace) == 0;
      assert s[0..] == s;
      assert SpanFromEnd(s, IsSpace) == 0;
    }
  }

  /** A character in neither the separator nor any piece is not in the join. */
  lemma {:induction false} JoinNotIn(sep: string, ws: seq<string>, c: char)
    requires c !in sep
    requires forall k :: 0 <= k < |ws| ==> c !in ws[k]
    ensures c !in Join(sep, ws)
    decreases |ws|
  {
    if |ws| >= 2 {
      JoinNotIn(sep, ws[1..], c);
    }
  }

  /** The join of non-empty pieces starts with the first piece's first
      character and ends with the last piece's last character. */
  lemma {:induction false} JoinEnds(sep: string, ws: seq<string>)
    requires ws != []
    requires forall k :: 0 <= k < |ws| ==> ws[k] != []
    ensures Join(sep, ws) != []
    ensures Join(sep, ws)[0] == ws[0][0]
    ensures Join(sep, ws)[|Join(sep, ws)| - 1] == ws[|ws| - 1][|ws[|ws| - 1]| - 1]
    decreases |ws|
  {
    if |ws| >= 2 {
      JoinEnds(sep, ws[1..]);
      var rest := Join(sep, ws[1..]);
      assert Join(sep, ws) == ws[0] + sep + rest;
    }
  }
}

/** Tokenizing: the lowercase `[A-Za-z]+` words of a text, stopwords left out, each once. */
module Tokens {

  predicate IsLetter(c: char) {
    'a' <= c <= 'z' || 'A' <= c <= 'Z'
  }

  function Lower(c: char): char {
    if 'A' <= c <= 'Z' then (c as int + 32) as char else c
  }

  function Lowered(s: string): string {
    seq(|s|, i requires 0 <= i < |s| => Lower(s[i]))
  }

  const STOPWORDS: set<string> := {
    "a", "an", "and", "are", "as", "at", "be", "by", "for", "from", "in", "is", "it", "of", "on", "or", "that", "the",
    "to", "was", "were", "with"
  }

  /** Length of the run of letters at the front. */
  function Run(text: string): (n: nat)
    ensures n <= |text|
    ensures forall i :: 0 <= i < n ==> IsLetter(text[i])
    ensures n < |text| ==> !IsLetter(text[n])
  {
    if text == "" || !IsLetter(text[0]) then 0 else 1 + Run(text[1..])
  }

  /** `finditer` of `[A-Za-z]+`: leftmost, longest, non-overlapping. */
  function Words(text: string): seq<string>
    decreases |text|
  {
    if text == "" then []
    else if Run(text) == 0 then Words(text[1..])
    else [text[..Run(text)]] + Words(text[Run(text)..])
  }

  /** Lowercased words that are not stopwords, each at its first occurrence. */
  function Distill(words: seq<string>, seen: set<string>): seq<string> {
    if words == [] then []
    else
      var w := Lowered(words[0]);
      if w in STOPWORDS || w in seen then Distill(words[1..], seen) else [w] + Distill(words[1..], seen + {w})
  }

  function Tokenize(text: string): seq<string> {
    Distill(Words(text), {})
  }

  /** A stretch of letters with no letter on either side. */
  predicate MaximalRun(text: string, i: int, j: int) {
    && 0 <= i < j <= |text|
    && (forall k :: i <= k < j ==> IsLetter(text[k]))
    && (i > 0 ==> !IsLetter(text[i - 1]))
    && (j < |text| ==> !IsLetter(text[j]))
  }

  ghost predicate IsRun(text: string, w: string) {
    exists i, j :: MaximalRun(text, i, j) && w == text[i..j]
  }

  /** The words of a text are exactly its maximal runs of letters. */
  lemma {:induction false} WordsAreRuns(text: string, w: string)
    ensures w in Words(text) <==> IsRun(text, w)
    decreases |text|
  {
    if text != "" {
      hide IsRun;
      var cut := if Run(text) == 0 then 1 else Run(text);
      WordsAreRuns(text[cut..], w);
      if IsRun(text, w) {
        FirstRunOrLater(text, cut, w);
      }
      if w in Words(text) {
        LaterRun(text, cut, w);
      }
    }
  }

  lemma FirstRunOrLater(text: string, cut: nat, w: string)
    requires text != "" && cut == if Run(text) == 0 then 1 else Run(text)
    requires IsRun(text, w)
    ensures (Run(text) > 0 && w == text[..Run(text)]) || IsRun(text[cut..], w)
  {
    hide Run;
    var i, j :| MaximalRun(text, i, j) && w == text[i..j];
    if i == 0 {
      RunIsLongest(text, j);
    } else {
      RunStartsLater(text, i, j);
      RunUnshifts(text, cut, i, j);
      assert text[cut..][i - cut..j - cut] == w;
    }
  }

  lemma LaterRun(text: string, cut: nat, w: string)
    requires text != "" && cut == if Run(text) == 0 then 1 else Run(text)
    requires (Run(text) > 0 && w == text[..Run(text)]) || IsRun(text[cut..], w)
    ensures IsRun(text, w)
  {
    hide Run;
    if Run(text) > 0 && w == text[..Run(text)] {
      assert MaximalRun(text, 0, Run(text)) && w == text[0..Run(text)];
    } else {
      var i, j :| MaximalRun(text[cut..], i, j) && w == text[cut..][i..j];
      RunShifts(text, cut, i, j);
      SliceOfSlice(text, cut, i, j);
    }
  }

  lemma SliceOfSlice(text: string, cut: nat, i: int, j: int)
    requires 0 <= i <= j && cut + j <= |text|
    ensures text[cut..][i..j] == text[cut + i..cut + j]
  {
  }

  lemma RunIsLongest(text: string, j: int)
    requires MaximalRun(text, 0, j)
    ensures Run(text) == j
  {
  }

  /** A maximal run that does not start the text starts after the first run and its separator. */
  lemma RunStartsLater(text: string, i: int, j: int)
    requires MaximalRun(text, i, j) && i > 0
    ensures Run(text) < i
  {
  }

  lemma RunShifts(text: string, cut: nat, i: int, j: int)
    requires cut <= |text| && MaximalRun(text[cut..], i, j)
    requires cut == 1 ==> !IsLetter(text[0]) || Run(text) == 1
    requires cut != 1 ==> cut == Run(text)
    ensures MaximalRun(text, cut + i, cut + j)
  {
    var rest := text[cut..];
    forall k | cut + i <= k < cut + j ensures IsLetter(text[k]) {
      assert text[k] == rest[k - cut];
    }
    if i > 0 {
      assert text[cut + i - 1] == rest[i - 1];
    } else {
      assert text[cut] == rest[0];
    }
    if cut + j < |text| {
      assert text[cut + j] == rest[j];
    }
  }

  lemma RunUnshifts(text: string, cut: nat, i: int, j: int)
    requires MaximalRun(text, i, j) && cut <= i
    ensures MaximalRun(text[cut..], i - cut, j - cut)
  {
  }

  lemma {:induction false} DistillMeaning(words: seq<string>, seen: set<string>, t: string)
    ensures t in Distill(words, seen) <==> t !in STOPWORDS && t !in seen && exists w :: w in words && Lowered(w) == t
    ensures forall i, j :: 0 <= i < j < |Distill(words, seen)| ==> Distill(words, seen)[i] != Distill(words, seen)[j]
    decreases |words|
  {
    hide STOPWORDS, Lowered;
    if words != [] {
      var w := Lowered(words[0]);
      assert words == [words[0]] + words[1..];
      DistillMeaning(words[1..], seen, t);
      DistillMeaning(words[1..], seen + {w}, t);
      DistillMeaning(words[1..], seen + {w}, w);
    }
  }

  /**
   * A token is the lowercase form of a maximal run of letters that is no stopword; none is listed
   * twice.
   */
  lemma TokenizeMeaning(text: string, t: string)
    ensures t in Tokenize(text)
            <==> t !in STOPWORDS && exists i, j :: MaximalRun(text, i, j) && Lowered(text[i..j]) == t
    ensures forall i, j :: 0 <= i < j < |Tokenize(text)| ==> Tokenize(text)[i] != Tokenize(text)[j]
  {
    hide STOPWORDS, Lowered;
    DistillMeaning(Words(text), {}, t);
    if exists w :: w in Words(text) && Lowered(w) == t {
      var w :| w in Words(text) && Lowered(w) == t;
      WordsAreRuns(text, w);
    }
    if exists i, j :: MaximalRun(text, i, j) && Lowered(text[i..j]) == t {
      var i, j :| MaximalRun(text, i, j) && Lowered(text[i..j]) == t;
      WordsAreRuns(text, text[i..j]);
    }
  }

  lemma JoinedRuns(a: string, sep: char, b: string, w: string)
    requires !IsLetter(sep)
    ensures IsRun(a + [sep] + b, w) <==> IsRun(a, w) || IsRun(b, w)
  {
    var text := a + [sep] + b;
    if IsRun(a, w) {
      var i, j :| MaximalRun(a, i, j) && w == a[i..j];
      JoinedFront(a, sep, b, i, j);
    }
    if IsRun(b, w) {
      var i, j :| MaximalRun(b, i, j) && w == b[i..j];
      JoinedLater(a, sep, b, i, j);
    }
    if IsRun(text, w) {
      var i, j :| MaximalRun(text, i, j) && w == text[i..j];
      RunAvoidsSeparator(a, sep, b, i, j);
      if j <= |a| {
        JoinedFront(a, sep, b, i, j);
      } else {
        JoinedBack(a, sep, b, i, j);
      }
    }
  }

  lemma RunAvoidsSeparator(a: string, sep: char, b: string, i: int, j: int)
    requires !IsLetter(sep) && MaximalRun(a + [sep] + b, i, j)
    ensures j <= |a| || i > |a|
  {
    assert (a + [sep] + b)[|a|] == sep;
  }

  lemma JoinedFront(a: string, sep: char, b: string, i: int, j: int)
    requires !IsLetter(sep) && 0 <= i < j <= |a|
    ensures MaximalRun(a + [sep] + b, i, j) <==> MaximalRun(a, i, j)
    ensures (a + [sep] + b)[i..j] == a[i..j]
  {
    var text := a + [sep] + b;
    assert forall k :: 0 <= k < |a| ==> text[k] == a[k];
    assert text[|a|] == sep;
  }

  lemma JoinedLater(a: string, sep: char, b: string, i: int, j: int)
    requires !IsLetter(sep) && MaximalRun(b, i, j)
    ensures var text, at := a + [sep] + b, |a| + 1; MaximalRun(text, at + i, at + j) && text[at + i..at + j] == b[i..j]
  {
    var text, at := a + [sep] + b, |a| + 1;
    assert forall k :: 0 <= k < |b| ==> text[at + k] == b[k];
    assert text[at..] == b;
    assert text[|a|] == sep;
    forall k | at + i <= k < at + j ensures IsLetter(text[k]) {
      assert text[k] == b[k - at];
    }
    SliceOfSlice(text, at, i, j);
  }

  lemma JoinedBack(a: string, sep: char, b: string, i: int, j: int)
    requires !IsLetter(sep) && MaximalRun(a + [sep] + b, i, j) && i > |a|
    ensures var at := |a| + 1; MaximalRun(b, i - at, j - at) && (a + [sep] + b)[i..j] == b[i - at..j - at]
  {
    var text, at := a + [sep] + b, |a| + 1;
    assert text[at..] == b;
    SliceOfSlice(text, at, i - at, j - at);
  }

  /** A text joined from parts has exactly the tokens of its parts. */
  lemma JoinTokenizesParts(a: string, b: string, t: string)
    ensures t in Tokenize(a + " " + b) <==> t in Tokenize(a) || t in Tokenize(b)
  {
    hide STOPWORDS, Lowered, IsRun, Words;
    DistillMeaning(Words(a), {}, t);
    DistillMeaning(Words(b), {}, t);
    DistillMeaning(Words(a + " " + b), {}, t);
    forall w ensures w in Words(a + " " + b) <==> w in Words(a) || w in Words(b) {
      WordsAreRuns(a, w);
      WordsAreRuns(b, w);
      WordsAreRuns(a + " " + b, w);
      JoinedRuns(a, ' ', b, w);
    }
  }

  /** The text of an event: its non-empty text parts joined by a space. */
  function EventText(parts: seq<string>): string {
    if parts == [] then ""
    else
      var rest := EventText(parts[1..]);
      if parts[0] == "" then rest else if rest == "" then parts[0] else parts[0] + " " + rest
  }

  /** An event is found by the words of its parts, and by no word that spans two of them. */
  lemma {:induction false} EventTokens(parts: seq<string>, t: string)
    ensures t in Tokenize(EventText(parts)) <==> exists p :: p in parts && t in Tokenize(p)
  {
    hide Tokenize;
    NoTokensInEmpty(t);
    if parts != [] {
      EventTokens(parts[1..], t);
      assert parts == [parts[0]] + parts[1..];
      JoinTokenizesParts(parts[0], EventText(parts[1..]), t);
    }
  }

  lemma NoTokensInEmpty(t: string)
    ensures t !in Tokenize("")
  {
  }

  // ---- words, said without the tokenizer -----------------------------------------------------

  /** The same letter, upper or lower case; any other character only matches itself. */
  predicate SameLetter(c: char, d: char) {
    || c == d
    || ('a' <= c <= 'z' && 'A' <= d <= 'Z' && c as int == d as int + 32)
    || ('A' <= c <= 'Z' && 'a' <= d <= 'z' && c as int + 32 == d as int)
  }

  predicate SameWord(v: string, w: string) {
    |v| == |w| && forall i :: 0 <= i < |v| ==> SameLetter(v[i], w[i])
  }

  /** One of the words too common to be indexed, in either case. */
  predicate CommonWord(w: string) {
    exists s :: s in ["a", "an", "and", "are", "as", "at", "be", "by", "for", "from", "in", "is", "it", "of", "on", "or",
                      "that", "the", "to", "was", "were", "with"] && SameWord(w, s)
  }

  /** The two texts have a word in common, whatever its case, that is not a common one. */
  ghost predicate SharesWord(a: string, b: string) {
    exists i, j, k, l :: MaximalRun(a, i, j) && MaximalRun(b, k, l) && SameWord(a[i..j], b[k..l]) && !CommonWord(a[i..j])
  }

  lemma SameLetterIff(c: char, d: char)
    ensures SameLetter(c, d) <==> Lower(c) == Lower(d)
  {
  }

  lemma SameWordIff(v: string, w: string)
    ensures SameWord(v, w) <==> Lowered(v) == Lowered(w)
  {
    if SameWord(v, w) {
      forall i | 0 <= i < |v| ensures Lowered(v)[i] == Lowered(w)[i] {
        SameLetterIff(v[i], w[i]);
      }
    }
    if Lowered(v) == Lowered(w) {
      assert |v| == |Lowered(v)| == |Lowered(w)| == |w|;
      forall i | 0 <= i < |v| ensures SameLetter(v[i], w[i]) {
        assert Lowered(v)[i] == Lower(v[i]) && Lowered(w)[i] == Lower(w[i]);
        SameLetterIff(v[i], w[i]);
      }
    }
  }

  lemma CommonWordIff(w: string)
    ensures CommonWord(w) <==> Lowered(w) in STOPWORDS
  {
    StopwordsAreLowercase();
    if CommonWord(w) {
      var s :| s in STOPWORDS && SameWord(w, s);
      SameWordIff(w, s);
    }
    if Lowered(w) in STOPWORDS {
      SameWordIff(w, Lowered(w));
      assert SameWord(w, Lowered(w));
    }
  }

  lemma StopwordsAreLowercase()
    ensures forall s :: s in STOPWORDS ==> Lowered(s) == s
  {
    forall s | s in STOPWORDS ensures Lowered(s) == s {
      assert forall i :: 0 <= i < |s| ==> 'a' <= s[i] <= 'z';
    }
  }

  /** Letters are the Latin ones, and a token is a non-empty string of lowercase letters. */
  lemma TokensAreLowercase(text: string, t: string, c: char)
    ensures IsLetter(c) <==> 'a' <= c <= 'z' || 'A' <= c <= 'Z'
    ensures t in Tokenize(text) ==> t != "" && forall i :: 0 <= i < |t| ==> 'a' <= t[i] <= 'z'
  {
    hide STOPWORDS;
    TokenizeMeaning(text, t);
  }

  /** Two texts have a token in common exactly when they share a word. */
  lemma SharedTokenIff(a: string, b: string)
    ensures (exists t :: t in Tokenize(a) && t in Tokenize(b)) <==> SharesWord(a, b)
  {
    hide STOPWORDS, Tokenize, Lowered, MaximalRun;
    if exists t :: t in Tokenize(a) && t in Tokenize(b) {
      var t :| t in Tokenize(a) && t in Tokenize(b);
      SharedTokenIsWord(a, b, t);
    }
    if SharesWord(a, b) {
      SharedWordIsToken(a, b);
    }
  }

  lemma SharedTokenIsWord(a: string, b: string, t: string)
    requires t in Tokenize(a) && t in Tokenize(b)
    ensures SharesWord(a, b)
  {
    hide STOPWORDS, Tokenize, Lowered, CommonWord, SameWord;
    TokenizeMeaning(a, t);
    TokenizeMeaning(b, t);
    var i, j :| MaximalRun(a, i, j) && Lowered(a[i..j]) == t;
    var k, l :| MaximalRun(b, k, l) && Lowered(b[k..l]) == t;
    SameWordIff(a[i..j], b[k..l]);
    CommonWordIff(a[i..j]);
  }

  lemma SharedWordIsToken(a: string, b: string)
    requires SharesWord(a, b)
    ensures exists t :: t in Tokenize(a) && t in Tokenize(b)
  {
    hide STOPWORDS, Tokenize, Lowered, CommonWord, SameWord;
    var i, j, k, l :| MaximalRun(a, i, j) && MaximalRun(b, k, l) && SameWord(a[i..j], b[k..l]) && !CommonWord(a[i..j]);
    var t := Lowered(a[i..j]);
    SameWordIff(a[i..j], b[k..l]);
    CommonWordIff(a[i..j]);
    TokenizeMeaning(a, t);
    TokenizeMeaning(b, t);
    assert t in Tokenize(a) && t in Tokenize(b);
  }

  /** Case does not matter: texts that differ only in case have the same tokens. */
  lemma CaseDoesNotMatter(a: string, b: string, t: string)
    requires SameWord(a, b)
    ensures t in Tokenize(a) ==> t in Tokenize(b)
  {
    hide STOPWORDS, Tokenize, Lowered;
    TokenizeMeaning(a, t);
    TokenizeMeaning(b, t);
    if t in Tokenize(a) {
      var i, j :| MaximalRun(a, i, j) && Lowered(a[i..j]) == t;
      assert forall n :: 0 <= n < |a| ==> SameLetter(a[n], b[n]) && (IsLetter(a[n]) <==> IsLetter(b[n]));
      assert MaximalRun(b, i, j);
      assert SameWord(a[i..j], b[i..j]);
      SameWordIff(a[i..j], b[i..j]);
    }
  }
}

/**
 * The text preprocessor the reward recommenders use: normalisation (`preprocess`), the
 * whitespace tokenizer used when no morphological analyser is installed, joining of comments
 * and the keyword-count sentiment rule.
 */
module TextPreprocessor {
  import opened Wrappers
  import opened PyStr

  /** The fixed Korean stopword set. */
  const Stopwords: set<string> := {
    "의", "가", "이", "은", "들", "는", "좀", "잘", "걍", "과",
    "도", "를", "으로", "자", "에", "와", "한", "하다", "것", "수",
    "있다", "없다", "되다", "이다", "그", "저", "등", "및", "더",
    "에서", "로", "에게", "까지", "부터", "만", "또", "또한"
  }

  /** The Hangul syllable block `가-힣` that the cleaning pattern keeps explicitly. */
  predicate IsHangulSyllable(c: char)
  {
    '\U{AC00}' <= c <= '\U{D7A3}'
  }

  /** The regex class `\w`: letters, digits and `_` (ASCII, Hangul and CJK ideographs here). */
  predicate IsWordChar(c: char)
  {
    || ('a' <= c <= 'z') || ('A' <= c <= 'Z') || ('0' <= c <= '9') || c == '_'
    || IsHangulSyllable(c)
    || ('\U{1100}' <= c <= '\U{11FF}')
    || ('\U{3131}' <= c <= '\U{318E}')
    || ('\U{4E00}' <= c <= '\U{9FFF}')
  }

  /** A character the pattern `[^\w\s가-힣]` does not match. */
  predicate Kept(c: char)
  {
    IsWordChar(c) || IsSpace(c) || IsHangulSyllable(c)
  }

  /** `re.sub(r'[^\w\s가-힣]', ' ', s)`: every other character becomes a space. */
  function CleanSymbols(s: string): (r: string)
    ensures |r| == |s|
    ensures forall i :: 0 <= i < |s| ==> r[i] == if Kept(s[i]) then s[i] else ' '
  {
    seq(|s|, i requires 0 <= i < |s| => if Kept(s[i]) then s[i] else ' ')
  }

  /** `re.sub(r'\s+', ' ', s)`: every maximal run of whitespace becomes one space. */
  function Collapse(s: string): (r: string)
    ensures r == [] <==> s == []
    ensures r != [] ==> (IsSpace(r[0]) <==> IsSpace(s[0]))
    decreases |s|
  {
    if s == [] then []
    else if IsSpace(s[0]) then " " + Collapse(LStrip(s[1..]))
    else [s[0]] + Collapse(s[1..])
  }

  /** `preprocess(text)`. */
  function Preprocess(text: string): (r: string)
    ensures text == [] ==> r == []
  {
    if text == [] then [] else Strip(Collapse(CleanSymbols(Lower(text))))
  }

  /** No plain whitespace other than ' ', no two whitespace characters side by side. */
  predicate SpacedOnce(r: string)
  {
    && (forall i :: 0 <= i < |r| && IsSpace(r[i]) ==> r[i] == ' ')
    && (forall i :: 0 <= i < |r| - 1 ==> !(IsSpace(r[i]) && IsSpace(r[i + 1])))
  }

  lemma {:induction false} CollapseSpaced(s: string)
    ensures SpacedOnce(Collapse(s))
    decreases |s|
  {
    if s == [] {
    } else if IsSpace(s[0]) {
      var l := LStrip(s[1..]);
      CollapseSpaced(l);
      CollapseSpacedAfterSpace(Collapse(l));
    } else {
      CollapseSpaced(s[1..]);
      CollapseSpacedAfterChar(s[0], Collapse(s[1..]));
    }
  }

  lemma CollapseSpacedAfterSpace(c: string)
    requires SpacedOnce(c)
    requires c != [] ==> !IsSpace(c[0])
    ensures SpacedOnce(" " + c)
  {
    var r := " " + c;
    forall i | 0 <= i < |r| - 1
      ensures !(IsSpace(r[i]) && IsSpace(r[i + 1]))
    {
      if i > 0 {
        assert r[i] == c[i - 1] && r[i + 1] == c[i];
      }
    }
  }

  lemma CollapseSpacedAfterChar(ch: char, c: string)
    requires SpacedOnce(c)
    requires !IsSpace(ch)
    ensures SpacedOnce([ch] + c)
  {
    var r := [ch] + c;
    forall i | 0 <= i < |r| - 1
      ensures !(IsSpace(r[i]) && IsSpace(r[i + 1]))
    {
      if i > 0 {
        assert r[i] == c[i - 1] && r[i + 1] == c[i];
      }
    }
  }

  lemma {:induction false} CollapseKeepsChars(s: string)
    ensures forall i :: 0 <= i < |Collapse(s)| && !IsSpace(Collapse(s)[i]) ==> Collapse(s)[i] in s
    decreases |s|
  {
    if s == [] {
    } else if IsSpace(s[0]) {
      var l := LStrip(s[1..]);
      CollapseKeepsChars(l);
      var c := Collapse(l);
      var r := " " + c;
      LStripSuffix(s[1..]);
      assert l == s[1..][|s[1..]| - |l|..];
      forall i | 0 <= i < |r| && !IsSpace(r[i])
        ensures r[i] in s
      {
        assert r[i] == c[i - 1];
        assert r[i] in l;
      }
    } else {
      CollapseKeepsChars(s[1..]);
      var c := Collapse(s[1..]);
      var r := [s[0]] + c;
      forall i | 0 <= i < |r| && !IsSpace(r[i])
        ensures r[i] in s
      {
        if i > 0 {
          assert r[i] == c[i - 1];
          assert r[i] in s[1..];
        }
      }
    }
  }

  lemma SliceSpacedOnce(c: string, a: nat, b: nat)
    requires a <= b <= |c|
    requires SpacedOnce(c)
    ensures SpacedOnce(c[a..b])
  {
    var r := c[a..b];
    forall i | 0 <= i < |r| - 1
      ensures !(IsSpace(r[i]) && IsSpace(r[i + 1]))
    {
      assert r[i] == c[a + i] && r[i + 1] == c[a + i + 1];
    }
  }

  lemma StripSpacedOnce(c: string)
    requires SpacedOnce(c)
    ensures SingleSpaced(Strip(c))
  {
    var a := StripStart(c);
    StripSlice(c);
    SliceSpacedOnce(c, a, a + |Strip(c)|);
  }

  /** The output of `preprocess` is single-spaced: no whitespace at either end, every whitespace
      character is a plain space, and no two whitespace characters are adjacent. */
  lemma PreprocessSingleSpaced(text: string)
    ensures SingleSpaced(Preprocess(text))
  {
    if text != [] {
      var x := CleanSymbols(Lower(text));
      CollapseSpaced(x);
      StripSpacedOnce(Collapse(x));
    }
  }

  /** A character `preprocess` may output besides the separating space. */
  predicate OutputChar(ch: char)
  {
    Kept(ch) && !IsSpace(ch) && !('A' <= ch <= 'Z')
  }

  lemma CleanedCharFacts(text: string, ch: char)
    requires ch in CleanSymbols(Lower(text)) && !IsSpace(ch)
    ensures OutputChar(ch)
  {
    var x := CleanSymbols(Lower(text));
    var j :| 0 <= j < |x| && x[j] == ch;
    assert Lower(text)[j] == LowerChar(text[j]);
  }

  lemma CollapsedChar(x: string, k: nat)
    requires k < |Collapse(x)| && Collapse(x)[k] != ' '
    ensures !IsSpace(Collapse(x)[k]) && Collapse(x)[k] in x
  {
    CollapseSpaced(x);
    CollapseKeepsChars(x);
  }

  lemma StripChar(c: string, i: nat)
    requires i < |Strip(c)|
    ensures StripStart(c) + i < |c| && Strip(c)[i] == c[StripStart(c) + i]
  {
    StripSlice(c);
  }

  lemma PreprocessChar(text: string, i: nat)
    requires text != []
    requires i < |Preprocess(text)| && Preprocess(text)[i] != ' '
    ensures OutputChar(Preprocess(text)[i])
  {
    var x := CleanSymbols(Lower(text));
    var c := Collapse(x);
    StripChar(c, i);
    CollapsedChar(x, StripStart(c) + i);
    CleanedCharFacts(text, Preprocess(text)[i]);
  }

  /** Every character `preprocess` outputs is a space or a kept, non-blank character that is
      not an ASCII capital. */
  lemma PreprocessChars(text: string)
    ensures forall i :: 0 <= i < |Preprocess(text)| && Preprocess(text)[i] != ' ' ==>
      OutputChar(Preprocess(text)[i])
  {
    if text != [] {
      forall i | 0 <= i < |Preprocess(text)| && Preprocess(text)[i] != ' '
        ensures OutputChar(Preprocess(text)[i])
      {
        PreprocessChar(text, i);
      }
    }
  }

  lemma {:induction false} SplitCons(c: char, x: string)
    requires !IsSpace(c)
    ensures Split([c] + x) ==
      if x == [] || IsSpace(x[0]) then [[c]] + Split(x)
      else [[c] + Split(x)[0]] + Split(x)[1..]
  {
    var s := [c] + x;
    assert s[1..] == x;
    var w := Word(x);
    assert Word(s) == [c] + w;
    assert s[|w| + 1..] == x[|w|..];
    if x == [] || IsSpace(x[0]) {
      assert w == [];
      assert Word(s) == [c];
      assert Split(s) == [[c]] + Split(s[1..]);
    } else {
      assert Split(x) == [w] + Split(x[|w|..]);
      assert Split(s) == [[c] + w] + Split(x[|w|..]);
    }
  }

  /** Collapsing whitespace runs does not change the words `split()` finds. */
  lemma {:induction false} SplitCollapse(s: string)
    ensures Split(Collapse(s)) == Split(s)
    decreases |s|
  {
    if s == [] {
    } else if IsSpace(s[0]) {
      var l := LStrip(s[1..]);
      SplitCollapse(l);
      assert (" " + Collapse(l))[1..] == Collapse(l);
      SplitLStrip(s[1..]);
    } else {
      SplitCollapse(s[1..]);
      assert s == [s[0]] + s[1..];
      SplitCons(s[0], s[1..]);
      SplitCons(s[0], Collapse(s[1..]));
    }
  }

  /** `preprocess` is the input's words, after lower-casing and symbol removal, joined by single
      spaces; in particular it never changes which words a later `split()` finds. */
  lemma PreprocessWords(text: string)
    ensures Split(Preprocess(text)) == Split(CleanSymbols(Lower(text)))
    ensures Preprocess(text) == Join(" ", Split(CleanSymbols(Lower(text))))
  {
    var x := CleanSymbols(Lower(text));
    if text != [] {
      SplitStrip(Collapse(x));
      SplitCollapse(x);
    }
    PreprocessSingleSpaced(text);
    JoinSplitSingleSpaced(Preprocess(text));
  }

  /** A token the simple tokenizer keeps: not a stopword and at least two characters long. */
  predicate Keepable(token: string)
  {
    token !in Stopwords && |token| >= 2
  }

  /** The token filter of `_tokenize_simple`, order preserved. */
  function KeepTokens(tokens: seq<string>): (r: seq<string>)
    ensures |r| <= |tokens|
    ensures forall i :: 0 <= i < |r| ==> Keepable(r[i])
  {
    if tokens == [] then []
    else (if Keepable(tokens[0]) then [tokens[0]] else []) + KeepTokens(tokens[1..])
  }

  lemma {:induction false} KeepTokensAppend(a: seq<string>, b: seq<string>)
    ensures KeepTokens(a + b) == KeepTokens(a) + KeepTokens(b)
    decreases |a|
  {
    if a == [] {
      assert a + b == b;
    } else {
      assert (a + b)[1..] == a[1..] + b;
      KeepTokensAppend(a[1..], b);
    }
  }

  /** The filter keeps every token exactly when all of them qualify. */
  lemma {:induction false} KeepTokensAll(tokens: seq<string>)
    ensures KeepTokens(tokens) == tokens <==> forall i :: 0 <= i < |tokens| ==> Keepable(tokens[i])
    decreases |tokens|
  {
    if tokens != [] {
      KeepTokensAll(tokens[1..]);
      if !Keepable(tokens[0]) {
        assert |KeepTokens(tokens)| < |tokens|;
      }
    }
  }

  /** A kept token is one of the input tokens. */
  lemma {:induction false} KeepTokensFrom(tokens: seq<string>)
    ensures forall i :: 0 <= i < |KeepTokens(tokens)| ==> KeepTokens(tokens)[i] in tokens
    decreases |tokens|
  {
    if tokens != [] {
      KeepTokensFrom(tokens[1..]);
    }
  }

  /** `_tokenize_simple(text)`. */
  function TokenizeSimple(text: string): (r: seq<string>)
    ensures forall i :: 0 <= i < |r| ==> Keepable(r[i]) && NoSpace(r[i])
  {
    SplitWordsClean(text);
    KeepTokensFrom(Split(text));
    KeepTokens(Split(text))
  }

  /** `tokenize(text)` on the path without a morphological analyser. */
  function Tokenize(text: string): (r: seq<string>)
    ensures text == [] ==> r == []
  {
    if text == [] then [] else TokenizeSimple(Preprocess(text))
  }

  /** `tokenize` keeps, in order, exactly the words of the lower-cased, symbol-cleaned text that
      are no stopword and have two or more characters; tokens never hold whitespace or ASCII
      capitals. */
  lemma TokenizeSpec(text: string)
    ensures Tokenize(text) == KeepTokens(Split(CleanSymbols(Lower(text))))
    ensures forall i :: 0 <= i < |Tokenize(text)| ==>
      Keepable(Tokenize(text)[i]) && NoSpace(Tokenize(text)[i])
  {
    PreprocessWords(text);
  }

  /** A comment `filter(None, ...)` keeps: present and non-empty. */
  predicate Truthy(t: Option<string>)
  {
    t.Some? && t.value != []
  }

  function Present(texts: seq<Option<string>>): (r: seq<string>)
    ensures forall i :: 0 <= i < |r| ==> r[i] != []
    ensures |r| <= |texts|
    ensures r == [] <==> forall i :: 0 <= i < |texts| ==> !Truthy(texts[i])
  {
    if texts == [] then []
    else (if Truthy(texts[0]) then [texts[0].value] else []) + Present(texts[1..])
  }

  /** `join_texts(texts)`. */
  function JoinTexts(texts: seq<Option<string>>): string
  {
    Join(" ", Present(texts))
  }

  lemma {:induction false} JoinNonEmpty(sep: string, parts: seq<string>)
    requires forall i :: 0 <= i < |parts| ==> parts[i] != []
    ensures Join(sep, parts) == [] <==> parts == []
  {
    if |parts| > 1 {
      assert Join(sep, parts) == parts[0] + sep + Join(sep, parts[1..]);
    }
  }

  /** The joined text is empty exactly when every comment is missing or empty. */
  lemma JoinTextsEmpty(texts: seq<Option<string>>)
    ensures JoinTexts(texts) == [] <==> forall i :: 0 <= i < |texts| ==> !Truthy(texts[i])
  {
    JoinNonEmpty(" ", Present(texts));
  }

  /** A space between two texts always separates words. */
  lemma {:induction false} SplitSpaceConcat(a: string, b: string)
    ensures Split(a + " " + b) == Split(a) + Split(b)
    decreases |a|
  {
    if a == [] {
      assert a + " " + b == " " + b;
      assert (" " + b)[1..] == b;
    } else if IsSpace(a[0]) {
      SplitSpaceConcat(a[1..], b);
      SpaceThenConcat(a, b);
    } else {
      SplitSpaceConcat(a[|Word(a)|..], b);
      WordThenConcat(a, b);
    }
  }

  lemma SpaceThenConcat(a: string, b: string)
    requires a != [] && IsSpace(a[0])
    requires Split(a[1..] + " " + b) == Split(a[1..]) + Split(b)
    ensures Split(a + " " + b) == Split(a) + Split(b)
  {
    var s := a + " " + b;
    assert s[0] == a[0];
    assert s[1..] == a[1..] + " " + b;
  }

  lemma WordThenConcat(a: string, b: string)
    requires a != [] && !IsSpace(a[0])
    requires Split(a[|Word(a)|..] + " " + b) == Split(a[|Word(a)|..]) + Split(b)
    ensures Split(a + " " + b) == Split(a) + Split(b)
  {
    var w := Word(a);
    var rest := a[|w|..];
    assert w == a[..|w|];
    Regroup(a, |w|, b);
    SplitWordThenRest(w, rest);
    SplitWordThenRest(w, rest + " " + b);
    AppendAssoc([w], Split(rest), Split(b));
  }

  /** Cutting `a` at `k` and putting a space and `b` after it. */
  lemma Regroup(a: string, k: nat, b: string)
    requires k <= |a|
    ensures a == a[..k] + a[k..]
    ensures a + " " + b == a[..k] + (a[k..] + " " + b)
    ensures (a[k..] + " " + b)[0] == if k == |a| then ' ' else a[k]
  {
  }

  lemma AppendAssoc<T>(x: seq<T>, y: seq<T>, z: seq<T>)
    ensures x + (y + z) == (x + y) + z
  {
  }

  function SplitAll(texts: seq<string>): seq<string>
  {
    if texts == [] then [] else Split(texts[0]) + SplitAll(texts[1..])
  }

  /** Splitting the joined comments gives every comment's words, comment by comment. */
  lemma {:induction false} SplitJoined(parts: seq<string>)
    ensures Split(Join(" ", parts)) == SplitAll(parts)
    decreases |parts|
  {
    if |parts| == 1 {
      assert parts[1..] == [];
    } else if |parts| > 1 {
      SplitSpaceConcat(parts[0], Join(" ", parts[1..]));
      SplitJoined(parts[1..]);
    }
  }

  lemma SplitJoinTexts(texts: seq<Option<string>>)
    ensures Split(JoinTexts(texts)) == SplitAll(Present(texts))
  {
    SplitJoined(Present(texts));
  }

  // ---------------------------------------------------------------------------
  // Sentiment
  // ---------------------------------------------------------------------------

  datatype Sentiment = Positive | Negative | Neutral
  {
    function Label(): string
    {
      match this
      case Positive => "positive"
      case Negative => "negative"
      case Neutral => "neutral"
    }
  }

  /** `sum(1 for word in words if word in text)`: each listed word counts once at most. */
  function CountContained(words: seq<string>, text: string): (n: nat)
    ensures n <= |words|
    ensures n == 0 <==> forall i :: 0 <= i < |words| ==> !Contains(text, words[i])
    ensures n == |words| <==> forall i :: 0 <= i < |words| ==> Contains(text, words[i])
  {
    if words == [] then 0
    else (if Contains(text, words[0]) then 1 else 0) + CountContained(words[1..], text)
  }

  /** `analyze_sentiment(text, positive_words, negative_words)`. */
  function AnalyzeSentiment(text: string, positiveWords: seq<string>, negativeWords: seq<string>): (r: Sentiment)
    ensures text == [] ==> r == Neutral
    ensures text != [] ==>
      var p := CountContained(positiveWords, Lower(text));
      var n := CountContained(negativeWords, Lower(text));
      && (r == Positive <==> p > n)
      && (r == Negative <==> n > p)
      && (r == Neutral <==> p == n)
  {
    if text == [] then Neutral
    else
      var lower := Lower(text);
      var p := CountContained(positiveWords, lower);
      var n := CountContained(negativeWords, lower);
      if p > n then Positive else if n > p then Negative else Neutral
  }

  lemma {:induction false} ContainsExtend(a: string, b: string, w: string)
    ensures Contains(a, w) ==> Contains(a + b, w)
    ensures Contains(b, w) ==> Contains(a + b, w)
    decreases |a|
  {
    if a == [] {
      assert a + b == b;
    } else {
      assert (a + b)[1..] == a[1..] + b;
      ContainsExtend(a[1..], b, w);
      if w <= a {
        assert w <= a + b by {
          assert (a + b)[..|a|] == a;
        }
      }
    }
  }

  lemma {:induction false} CountContainedExtend(words: seq<string>, a: string, b: string)
    ensures CountContained(words, a) <= CountContained(words, a + b)
    ensures CountContained(words, b) <= CountContained(words, a + b)
    decreases |words|
  {
    if words != [] {
      ContainsExtend(a, b, words[0]);
      CountContainedExtend(words[1..], a, b);
    }
  }

  /** Adding more comment text can only raise the number of matched words. */
  lemma SentimentCountsGrow(words: seq<string>, a: string, b: string)
    ensures CountContained(words, Lower(a)) <= CountContained(words, Lower(a + " " + b))
    ensures CountContained(words, Lower(b)) <= CountContained(words, Lower(a + " " + b))
  {
    assert Lower(a + " " + b) == Lower(a) + (" " + Lower(b));
    assert Lower(a + " " + b) == (Lower(a) + " ") + Lower(b);
    CountContainedExtend(words, Lower(a), " " + Lower(b));
    CountContainedExtend(words, Lower(a) + " ", Lower(b));
  }

  /** ASCII case in the comment does not matter. */
  lemma SentimentIgnoresCase(text: string, positiveWords: seq<string>, negativeWords: seq<string>)
    ensures AnalyzeSentiment(Lower(text), positiveWords, negativeWords) ==
            AnalyzeSentiment(text, positiveWords, negativeWords)
  {
    LowerIdempotent(text);
  }

  /** Swapping the two word lists swaps positive and negative. */
  lemma SentimentSymmetric(text: string, positiveWords: seq<string>, negativeWords: seq<string>)
    ensures AnalyzeSentiment(text, negativeWords, positiveWords) ==
      match AnalyzeSentiment(text, positiveWords, negativeWords)
      case Positive => Negative
      case Negative => Positive
      case Neutral => Neutral
  {
  }
}

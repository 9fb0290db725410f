/**
 * What the TF-IDF and the embedding reward recommenders share: the policy and result records,
 * dictionary-keyword matching, the integer truncation of the fused score, the reason clauses,
 * frequency-ranked keyword extraction and the analysis pipeline (empty-input short-circuit,
 * negative-sentiment veto, threshold filter, stable descending sort, truncation).
 */
module Recommendation {
  import opened Wrappers
  import opened PyStr
  import opened PyList
  import opened Ranking
  import opened TextPreprocessor

  /** A text-valued key of the request body: absent, present as JSON `null`, or present. */
  datatype JsonText = Absent | Null | Text(s: string)

  /** What Python holds after `policy.get(...)`: `None` or a `str`. */
  datatype StrOrNone = NoneValue | Str(s: string)

  /** A reward policy as the caller sends it. */
  datatype Policy = Policy(policyId: Option<int>, policyName: JsonText, description: JsonText)

  /** `policy.get("policyName", "")`: the default only replaces an absent key, so a `null`
      name is `None`. */
  function PolicyName(p: Policy): StrOrNone
  {
    match p.policyName
    case Absent => Str("")
    case Null => NoneValue
    case Text(s) => Str(s)
  }

  /** `policy.get("description", policy_name)`: the name stands in only for an absent key. */
  function PolicyDescription(p: Policy): StrOrNone
  {
    match p.description
    case Absent => PolicyName(p)
    case Null => NoneValue
    case Text(s) => Str(s)
  }

  /** `f"{v}"`: `None` formats as "None". */
  function Formatted(v: StrOrNone): string
  {
    if v.Str? then v.s else "None"
  }

  /** The recommendation settings and keyword tables the engines read from configuration. */
  datatype Config = Config(
    minMatchScore: int,
    maxRecommendations: int,
    positiveWords: seq<string>,
    negativeWords: seq<string>,
    policyKeywords: map<string, seq<string>>)

  /** `POLICY_KEYWORDS.get(name, [])`: the table is keyed by text, so `None` finds nothing. */
  function PolicyKeywords(cfg: Config, name: StrOrNone): seq<string>
  {
    if name.Str? && name.s in cfg.policyKeywords then cfg.policyKeywords[name.s] else []
  }

  /** The `.get` defaults replace only absent keys: an absent name reads as "", an absent
      description as the name, while a `null` in either stays `None`, which formats as
      "None" and has no dictionary keywords. */
  lemma PolicyFieldDefaults(cfg: Config, p: Policy)
    ensures PolicyName(p) == NoneValue <==> p.policyName.Null?
    ensures p.policyName.Absent? ==> PolicyName(p) == Str("")
    ensures p.policyName.Text? ==> PolicyName(p) == Str(p.policyName.s)
    ensures p.description.Absent? ==> PolicyDescription(p) == PolicyName(p)
    ensures p.description.Null? ==> PolicyDescription(p) == NoneValue
    ensures p.description.Text? ==> PolicyDescription(p) == Str(p.description.s)
    ensures Formatted(NoneValue) == "None"
    ensures p.policyName.Null? ==> PolicyKeywords(cfg, PolicyName(p)) == []
  {
  }

  datatype MatchResult = MatchResult(
    policyId: Option<int>,
    policyName: StrOrNone,
    matchScore: int,
    similarityScore: real,
    reason: string,
    keywords: seq<string>)

  datatype AnalysisResult = AnalysisResult(
    recommendations: seq<MatchResult>,
    extractedKeywords: seq<string>,
    overallSentiment: Sentiment,
    skipReason: Option<string>)

  const SkipReasonText: string := "부정적 평가가 많아 포상 추천 대상에서 제외되었습니다."

  /** The default `top_n` of `extract_keywords`. */
  const KeywordLimit: int := 10

  // ---------------------------------------------------------------------------
  // Score arithmetic
  // ---------------------------------------------------------------------------

  /** Python's `int(x)` on a float: truncation toward zero. */
  function Trunc(x: real): (n: int)
    ensures x >= 0.0 ==> n as real <= x < n as real + 1.0
    ensures x < 0.0 ==> n as real - 1.0 < x <= n as real
  {
    if x >= 0.0 then x.Floor else -((-x).Floor)
  }

  /** `min(100, n)`: an upper clamp only. */
  function AtMost100(n: int): (r: int)
    ensures r <= 100 && r <= n
    ensures r == n || r == 100
  {
    if n < 100 then n else 100
  }

  lemma TruncMonotone(x: real, y: real)
    requires x <= y
    ensures Trunc(x) <= Trunc(y)
  {
  }

  /** Truncation is within one of the value and never leaves `[0, 100]` from inside it. */
  lemma TruncBounds(x: real)
    requires 0.0 <= x <= 100.0
    ensures 0 <= Trunc(x) <= 100
    ensures 0 <= AtMost100(Trunc(x)) <= 100
  {
  }

  // ---------------------------------------------------------------------------
  // Dictionary keywords
  // ---------------------------------------------------------------------------

  /** The dictionary keywords, in dictionary order, that occur in `text` (`keyword in text`). */
  function MatchedKeywords(keywords: seq<string>, text: string): (r: seq<string>)
    ensures |r| <= |keywords|
    ensures forall i :: 0 <= i < |r| ==> Contains(text, r[i])
  {
    if keywords == [] then []
    else
      var last := keywords[|keywords| - 1];
      MatchedKeywords(keywords[..|keywords| - 1], text) + (if Contains(text, last) then [last] else [])
  }

  /** A keyword is matched exactly when it is in the dictionary and occurs in the text. */
  lemma {:induction false} MatchedKeywordsExact(keywords: seq<string>, text: string)
    ensures forall k :: k in MatchedKeywords(keywords, text) <==> k in keywords && Contains(text, k)
    ensures MatchedKeywords(keywords, text) == keywords <==> forall i :: 0 <= i < |keywords| ==> Contains(text, keywords[i])
    decreases |keywords|
  {
    if keywords != [] {
      var init := keywords[..|keywords| - 1];
      MatchedKeywordsExact(init, text);
      assert keywords == init + [keywords[|keywords| - 1]];
      if !Contains(text, keywords[|keywords| - 1]) {
        assert |MatchedKeywords(keywords, text)| < |keywords|;
      }
    }
  }

  /** `len(matched) / len(keywords)`, or 0 when the policy has no dictionary entry. */
  function KeywordScore(matched: seq<string>, keywords: seq<string>): (r: real)
    ensures keywords == [] ==> r == 0.0
    ensures |matched| <= |keywords| ==> 0.0 <= r <= 1.0
    ensures keywords != [] && |matched| == |keywords| ==> r == 1.0
  {
    if keywords == [] then 0.0 else |matched| as real / |keywords| as real
  }

  // ---------------------------------------------------------------------------
  // Reasons
  // ---------------------------------------------------------------------------

  /** A clause of a match reason: the engine's similarity sentence, the matched keywords
      shown, or the default sentence. */
  datatype ReasonClause = Similarity(text: string) | KeywordsFound(shown: seq<string>) | Basic

  /** The clauses `_generate_reason` appends, in order, given the engine's similarity clause. */
  function ReasonClauses(similarity: Option<string>, matched: seq<string>): (r: seq<ReasonClause>)
    ensures r != []
  {
    var a := if similarity.Some? then [Similarity(similarity.value)] else [];
    var b := if matched != [] then [KeywordsFound(SliceTo(matched, 3))] else [];
    if a + b == [] then [Basic] else a + b
  }

  /** The default clause appears exactly when no other does, the similarity clause comes first,
      and the keyword clause names the first three matches at most. */
  lemma ReasonClausesShape(similarity: Option<string>, matched: seq<string>)
    ensures Basic in ReasonClauses(similarity, matched) <==> similarity == None && matched == []
    ensures Basic in ReasonClauses(similarity, matched) ==> ReasonClauses(similarity, matched) == [Basic]
    ensures forall t :: Similarity(t) in ReasonClauses(similarity, matched) <==> similarity == Some(t)
    ensures similarity.Some? ==> ReasonClauses(similarity, matched)[0] == Similarity(similarity.value)
    ensures forall k :: KeywordsFound(k) in ReasonClauses(similarity, matched) ==>
      matched != [] && k == SliceTo(matched, 3) && |k| <= 3
    ensures matched != [] ==> KeywordsFound(SliceTo(matched, 3)) in ReasonClauses(similarity, matched)
    ensures |ReasonClauses(similarity, matched)| <= 2
  {
  }

  const BasicReasonText: string := "기본 조건 충족"

  function KeywordClauseText(shown: seq<string>): string
  {
    "핵심 키워드 '" + Join("', '", shown) + "' 발견"
  }

  function ClauseText(c: ReasonClause): string
  {
    match c
    case Similarity(t) => t
    case KeywordsFound(k) => KeywordClauseText(k)
    case Basic => BasicReasonText
  }

  function ClauseTexts(cs: seq<ReasonClause>): (r: seq<string>)
    ensures |r| == |cs|
    ensures forall i :: 0 <= i < |cs| ==> r[i] == ClauseText(cs[i])
  {
    if cs == [] then [] else [ClauseText(cs[0])] + ClauseTexts(cs[1..])
  }

  /** `". ".join(reasons) + "."` over the rendered clauses. */
  function ReasonText(similarity: Option<string>, matched: seq<string>): (r: string)
    ensures |r| >= 1 && r[|r| - 1] == '.'
  {
    Join(". ", ClauseTexts(ReasonClauses(similarity, matched))) + "."
  }

  /** Without a similarity clause or a matched keyword the reason is the default sentence. */
  lemma ReasonTextBasic(matched: seq<string>)
    requires matched == []
    ensures ReasonText(None, matched) == BasicReasonText + "."
  {
  }

  // ---------------------------------------------------------------------------
  // Keyword extraction
  // ---------------------------------------------------------------------------

  /** The distinct tokens in order of first appearance (the key order of a `Counter`). */
  function Distinct(s: seq<string>): (r: seq<string>)
    ensures forall x :: x in r <==> x in s
    ensures forall i, j :: 0 <= i < j < |r| ==> r[i] != r[j]
  {
    if s == [] then []
    else
      var d := Distinct(s[..|s| - 1]);
      var last := s[|s| - 1];
      assert forall x :: x in s <==> x in s[..|s| - 1] || x == last;
      if last in d then d else d + [last]
  }

  function Occurrences(s: seq<string>, w: string): int
  {
    multiset(s)[w]
  }

  /** The count of a token in `tokens`, as a ranking key. */
  function Frequency(tokens: seq<string>): string -> int
  {
    w => Occurrences(tokens, w)
  }

  /** `[w for w, _ in Counter(tokens).most_common(n)]`: `sorted(..., reverse=True)[:n]` over
      the counts, ties in first-seen order, nothing for a non-positive `n`. */
  function MostCommon(tokens: seq<string>, n: int): seq<string>
  {
    SliceTo(SortDesc(Distinct(tokens), Frequency(tokens)), if n < 0 then 0 else n)
  }

  /** `extract_keywords(text, top_n)` on the tokenizer without a morphological analyser. */
  function ExtractKeywords(text: string, topN: int): (r: seq<string>)
    ensures |r| <= if topN < 0 then 0 else topN
    ensures forall i :: 0 <= i < |r| ==> r[i] in Tokenize(text)
    ensures forall i, j :: 0 <= i < j < |r| ==> r[i] != r[j]
  {
    if text == [] then []
    else
      var tokens := Tokenize(text);
      if tokens == [] then []
      else
        MostCommonMembers(tokens, topN);
        MostCommon(tokens, topN)
  }

  lemma DistinctPreserved(r: seq<string>, s: seq<string>)
    requires multiset(r) <= multiset(s)
    requires forall i, j :: 0 <= i < j < |s| ==> s[i] != s[j]
    ensures forall i, j :: 0 <= i < j < |r| ==> r[i] != r[j]
  {
    forall i, j | 0 <= i < j < |r|
      ensures r[i] != r[j]
    {
      if r[i] == r[j] {
        assert multiset(r)[r[i]] >= 2 by {
          assert r == r[..j] + r[j..];
          assert r[i] in r[..j];
          assert multiset(r[..j])[r[i]] >= 1;
          assert multiset(r[j..])[r[i]] >= 1;
        }
        DistinctOnce(s, r[i]);
      }
    }
  }

  lemma {:induction false} DistinctOnce(s: seq<string>, x: string)
    requires forall i, j :: 0 <= i < j < |s| ==> s[i] != s[j]
    ensures multiset(s)[x] <= 1
    decreases |s|
  {
    if s != [] {
      DistinctOnce(s[1..], x);
      assert s == [s[0]] + s[1..];
      if x == s[0] {
        assert x !in s[1..];
      }
    }
  }

  /** The kept tokens are distinct tokens of the input, at most `n` of them. */
  lemma MostCommonMembers(toks: seq<string>, n: int)
    ensures var r := MostCommon(toks, n);
      && |r| <= (if n < 0 then 0 else n)
      && (forall i :: 0 <= i < |r| ==> r[i] in toks)
      && (forall i, j :: 0 <= i < j < |r| ==> r[i] != r[j])
  {
    var d := Distinct(toks);
    var limit := if n < 0 then 0 else n;
    var r := MostCommon(toks, n);
    SortedSliceRanked(d, Frequency(toks), limit);
    DistinctPreserved(r, d);
    forall i | 0 <= i < |r|
      ensures r[i] in toks
    {
      assert r[i] in multiset(r);
      assert r[i] in d;
    }
  }

  /** Kept tokens come by non-increasing count, equal counts in order of first appearance, and
      a token left out is at most as frequent as every token kept. */
  lemma MostCommonOrder(toks: seq<string>, n: int)
    ensures var r := MostCommon(toks, n);
      && NonIncreasing(r, Frequency(toks))
      && (forall v :: WithKey(r, Frequency(toks), v) <= WithKey(Distinct(toks), Frequency(toks), v))
      && (forall w :: w in toks && w !in r ==>
            forall i :: 0 <= i < |r| ==> Occurrences(toks, r[i]) >= Occurrences(toks, w))
  {
    var d := Distinct(toks);
    var limit := if n < 0 then 0 else n;
    var r := MostCommon(toks, n);
    SortedSliceRanked(d, Frequency(toks), limit);
    forall w | w in toks && w !in r
      ensures forall i :: 0 <= i < |r| ==> Occurrences(toks, r[i]) >= Occurrences(toks, w)
    {
      assert w in d;
      SortedSliceTop(d, Frequency(toks), limit, w);
    }
  }

  /** `extract_keywords` returns nothing for an empty text or one without tokens, and otherwise
      the `top_n` most frequent tokens as `MostCommonMembers` and `MostCommonOrder` describe. */
  lemma ExtractKeywordsRanked(text: string, topN: int)
    ensures text == [] || Tokenize(text) == [] ==> ExtractKeywords(text, topN) == []
    ensures text != [] && Tokenize(text) != [] ==> ExtractKeywords(text, topN) == MostCommon(Tokenize(text), topN)
    ensures |ExtractKeywords(text, topN)| <= if topN < 0 then 0 else topN
  {
    MostCommonMembers(Tokenize(text), topN);
  }

  // ---------------------------------------------------------------------------
  // The analysis pipeline
  // ---------------------------------------------------------------------------

  /** The results, in policy order, of scoring every policy against `text` with `score` and
      keeping those that reach `minScore`. */
  function Candidates(text: string, policies: seq<Policy>, score: (string, Policy) -> MatchResult, minScore: int): (r: seq<MatchResult>)
    ensures |r| <= |policies|
    ensures forall i :: 0 <= i < |r| ==> r[i].matchScore >= minScore
  {
    if policies == [] then []
    else
      var last := score(text, policies[|policies| - 1]);
      Candidates(text, policies[..|policies| - 1], score, minScore) + (if last.matchScore >= minScore then [last] else [])
  }

  /** One more policy appends its match exactly when it reaches the threshold. */
  lemma CandidatesStep(text: string, policies: seq<Policy>, i: nat, score: (string, Policy) -> MatchResult, minScore: int)
    requires i < |policies|
    ensures Candidates(text, policies[..i + 1], score, minScore) ==
      Candidates(text, policies[..i], score, minScore) +
      (if score(text, policies[i]).matchScore >= minScore then [score(text, policies[i])] else [])
  {
    assert policies[..i + 1][..i] == policies[..i];
  }

  /** Every candidate is the score of one of the policies. */
  lemma {:induction false} CandidatesFromPolicies(text: string, policies: seq<Policy>, score: (string, Policy) -> MatchResult, minScore: int)
    ensures forall m :: m in Candidates(text, policies, score, minScore) ==>
      exists p :: p in policies && m == score(text, p)
    ensures forall p :: p in policies && score(text, p).matchScore >= minScore ==>
      score(text, p) in Candidates(text, policies, score, minScore)
    decreases |policies|
  {
    if policies != [] {
      var init := policies[..|policies| - 1];
      CandidatesFromPolicies(text, init, score, minScore);
      assert policies == init + [policies[|policies| - 1]];
    }
  }

  function MatchScoreOf(m: MatchResult): int
  {
    m.matchScore
  }

  /** `analyze(comments, policies)` with `score` standing for the engine's `_match_policy`. */
  function AnalysisOf(comments: seq<Option<string>>, policies: seq<Policy>, cfg: Config,
                      score: (string, Policy) -> MatchResult): (r: AnalysisResult)
    ensures r.skipReason.Some? <==> r.overallSentiment == Negative
    ensures r.skipReason.Some? ==> r.skipReason == Some(SkipReasonText) && r.recommendations == []
    ensures |r.extractedKeywords| <= KeywordLimit
    ensures forall i :: 0 <= i < |r.recommendations| ==> r.recommendations[i].matchScore >= cfg.minMatchScore
    ensures NonIncreasing(r.recommendations, MatchScoreOf)
    ensures cfg.maxRecommendations >= 0 ==> |r.recommendations| <= cfg.maxRecommendations
  {
    if comments == [] || policies == [] then AnalysisResult([], [], Neutral, None)
    else
      var combined := JoinTexts(comments);
      var keywords := ExtractKeywords(combined, KeywordLimit);
      var sentiment := AnalyzeSentiment(combined, cfg.positiveWords, cfg.negativeWords);
      if sentiment == Negative then AnalysisResult([], keywords, Negative, Some(SkipReasonText))
      else
        RankedCandidates(combined, policies, score, cfg.minMatchScore, cfg.maxRecommendations);
        var ranked := SliceTo(SortDesc(Candidates(combined, policies, score, cfg.minMatchScore), MatchScoreOf), cfg.maxRecommendations);
        AnalysisResult(ranked, keywords, sentiment, None)
  }

  /** No comments or no policies: nothing is recommended, nothing extracted, and no skip reason. */
  lemma AnalysisShortCircuit(comments: seq<Option<string>>, policies: seq<Policy>, cfg: Config,
                             score: (string, Policy) -> MatchResult)
    requires comments == [] || policies == []
    ensures AnalysisOf(comments, policies, cfg, score) == AnalysisResult([], [], Neutral, None)
  {
  }

  /** A negative sentiment vetoes the scoring: no recommendation, a skip reason, the extracted
      keywords still reported, and the result does not depend on the policies' contents or on
      how a policy would have been scored. */
  lemma AnalysisVeto(comments: seq<Option<string>>, policies: seq<Policy>, cfg: Config,
                     score: (string, Policy) -> MatchResult,
                     otherPolicies: seq<Policy>, otherScore: (string, Policy) -> MatchResult)
    requires comments != [] && policies != [] && otherPolicies != []
    requires AnalyzeSentiment(JoinTexts(comments), cfg.positiveWords, cfg.negativeWords) == Negative
    ensures AnalysisOf(comments, policies, cfg, score) ==
      AnalysisResult([], ExtractKeywords(JoinTexts(comments), KeywordLimit), Negative, Some(SkipReasonText))
    ensures AnalysisOf(comments, policies, cfg, score) == AnalysisOf(comments, otherPolicies, cfg, otherScore)
  {
  }

  /** The threshold, sort and truncation stage on its own. */
  lemma RankedCandidates(text: string, policies: seq<Policy>, score: (string, Policy) -> MatchResult, minScore: int, limit: int)
    ensures var c := Candidates(text, policies, score, minScore);
      var r := SliceTo(SortDesc(c, MatchScoreOf), limit);
      && (forall i :: 0 <= i < |r| ==> r[i].matchScore >= minScore)
      && (forall m :: m in r ==> exists p :: p in policies && m == score(text, p))
      && NonIncreasing(r, MatchScoreOf)
      && (forall v :: WithKey(r, MatchScoreOf, v) <= WithKey(c, MatchScoreOf, v))
      && (limit >= 0 ==> |r| <= limit)
      && (limit >= |c| ==> multiset(r) == multiset(c))
  {
    var c := Candidates(text, policies, score, minScore);
    var r := SliceTo(SortDesc(c, MatchScoreOf), limit);
    SortedSliceRanked(c, MatchScoreOf, limit);
    CandidatesFromPolicies(text, policies, score, minScore);
    SortDescPermutes(c, MatchScoreOf);
    forall i | 0 <= i < |r|
      ensures r[i].matchScore >= minScore
    {
      assert r[i] in multiset(c);
    }
    forall m | m in r
      ensures exists p :: p in policies && m == score(text, p)
    {
      assert m in multiset(c);
      assert m in c;
    }
  }

  /** Without a veto, every recommendation is a policy's score that reaches the threshold; they
      come in non-increasing score, equal scores in policy order, and at most
      `max_recommendations` of them (when that is not negative); below that limit every
      qualifying policy is recommended. */
  lemma AnalysisRanked(comments: seq<Option<string>>, policies: seq<Policy>, cfg: Config,
                       score: (string, Policy) -> MatchResult)
    requires comments != [] && policies != []
    requires AnalyzeSentiment(JoinTexts(comments), cfg.positiveWords, cfg.negativeWords) != Negative
    ensures var a := AnalysisOf(comments, policies, cfg, score);
      var text := JoinTexts(comments);
      var c := Candidates(text, policies, score, cfg.minMatchScore);
      && a.skipReason == None
      && a.overallSentiment == AnalyzeSentiment(text, cfg.positiveWords, cfg.negativeWords)
      && (forall i :: 0 <= i < |a.recommendations| ==> a.recommendations[i].matchScore >= cfg.minMatchScore)
      && (forall m :: m in a.recommendations ==> exists p :: p in policies && m == score(text, p))
      && NonIncreasing(a.recommendations, MatchScoreOf)
      && (forall v :: WithKey(a.recommendations, MatchScoreOf, v) <= WithKey(c, MatchScoreOf, v))
      && (cfg.maxRecommendations >= 0 ==> |a.recommendations| <= cfg.maxRecommendations)
      && (cfg.maxRecommendations >= |c| ==> multiset(a.recommendations) == multiset(c))
  {
    var text := JoinTexts(comments);
    var c := Candidates(text, policies, score, cfg.minMatchScore);
    assert AnalysisOf(comments, policies, cfg, score).recommendations ==
      SliceTo(SortDesc(c, MatchScoreOf), cfg.maxRecommendations);
    RankedCandidates(text, policies, score, cfg.minMatchScore, cfg.maxRecommendations);
  }
}

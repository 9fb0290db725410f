/**
 * The TF-IDF reward recommender: similarity between the joined comments and a policy's
 * description, fused half and half with the dictionary-keyword ratio.
 *
 * The vectorizer is a parameter: `vectorize(a, b)` stands for fitting TF-IDF on the two texts
 * and taking their cosine similarity, and is `None` when that raises.
 */
module TfidfRecommender {
  import opened Wrappers
  import opened PyStr
  import opened PyList
  import opened Ranking
  import opened TextPreprocessor
  import opened Recommendation

  /** A vectorizer that only ever reports similarities in `[0, 1]`. */
  ghost predicate Bounded(vectorize: (string, string) -> Option<real>)
  {
    forall a, b :: vectorize(a, b).Some? ==> 0.0 <= vectorize(a, b).value <= 1.0
  }

  /** `calculate_similarity(text1, text2)`. */
  function CalculateSimilarity(vectorize: (string, string) -> Option<real>, text1: string, text2: string): (r: real)
    ensures text1 == [] || text2 == [] ==> r == 0.0
    ensures text1 != [] && text2 != [] ==> r == vectorize(text1, text2).GetOr(0.0)
  {
    if text1 == [] || text2 == [] then 0.0
    else
      match vectorize(text1, text2)
      case Some(v) => v
      case None => 0.0
  }

  /** Under a bounded vectorizer the similarity stays in `[0, 1]`, whatever the texts. */
  lemma SimilarityBounded(vectorize: (string, string) -> Option<real>, text1: string, text2: string)
    requires Bounded(vectorize)
    ensures 0.0 <= CalculateSimilarity(vectorize, text1, text2) <= 1.0
  {
  }

  /** `calculate_similarity(comments_text, policy_description)`: `not None` holds as for the
      empty text, so a `None` description takes the 0.0 branch. */
  function DescriptionSimilarity(vectorize: (string, string) -> Option<real>, text: string, d: StrOrNone): (r: real)
    ensures d.NoneValue? ==> r == 0.0
    ensures d.Str? ==> r == CalculateSimilarity(vectorize, text, d.s)
  {
    if d.Str? then CalculateSimilarity(vectorize, text, d.s) else 0.0
  }

  /** `min(100, int((similarity * 0.5 + keyword_score * 0.5) * 100))` */
  function FusedScore(similarity: real, keywordScore: real): int
  {
    AtMost100(Trunc((similarity * 0.5 + keywordScore * 0.5) * 100.0))
  }

  /** With both inputs in `[0, 1]` the score is in `[0, 100]`; it grows with either input and
      it is 100 exactly when both are 1. */
  lemma FusedScoreBounds(similarity: real, keywordScore: real)
    requires 0.0 <= similarity <= 1.0 && 0.0 <= keywordScore <= 1.0
    ensures 0 <= FusedScore(similarity, keywordScore) <= 100
    ensures FusedScore(similarity, keywordScore) == 100 <==> similarity == 1.0 && keywordScore == 1.0
  {
    TruncBounds((similarity * 0.5 + keywordScore * 0.5) * 100.0);
  }

  lemma FusedScoreMonotone(s1: real, k1: real, s2: real, k2: real)
    requires s1 <= s2 && k1 <= k2
    ensures FusedScore(s1, k1) <= FusedScore(s2, k2)
  {
    TruncMonotone((s1 * 0.5 + k1 * 0.5) * 100.0, (s2 * 0.5 + k2 * 0.5) * 100.0);
  }

  /** Nothing clamps from below: a negative similarity gives a negative score. */
  lemma FusedScoreNoLowerClamp()
    ensures FusedScore(-1.0, 0.0) == -50
  {
  }

  /** The similarity clause of `_generate_reason`. */
  function SimilarityClause(policyName: string, similarity: real): Option<string>
  {
    if similarity >= 0.5 then Some("'" + policyName + "' 정책과 높은 연관성 확인")
    else if similarity >= 0.3 then Some("'" + policyName + "' 정책과 연관성 확인")
    else None
  }

  /** `_generate_reason(policy_name, matched_keywords, similarity)` */
  function GenerateReason(policyName: string, matched: seq<string>, similarity: real): string
  {
    ReasonText(SimilarityClause(policyName, similarity), matched)
  }

  /** The "high" clause appears iff similarity is at least 0.5, the plain one iff it is in
      `[0.3, 0.5)`; the default sentence only when neither appears and nothing matched. */
  lemma ReasonBands(policyName: string, matched: seq<string>, similarity: real)
    ensures var cs := ReasonClauses(SimilarityClause(policyName, similarity), matched);
      && (Similarity("'" + policyName + "' 정책과 높은 연관성 확인") in cs <==> similarity >= 0.5)
      && (Similarity("'" + policyName + "' 정책과 연관성 확인") in cs <==> 0.3 <= similarity < 0.5)
      && (Basic in cs <==> similarity < 0.3 && matched == [])
      && (cs == [Basic] <==> similarity < 0.3 && matched == [])
    ensures similarity < 0.3 && matched == [] ==> GenerateReason(policyName, matched, similarity) == BasicReasonText + "."
  {
    var high := "'" + policyName + "' 정책과 높은 연관성 확인";
    var medium := "'" + policyName + "' 정책과 연관성 확인";
    assert |high| != |medium|;
    ReasonClausesShape(SimilarityClause(policyName, similarity), matched);
  }

  /** `_match_policy(comments_text, policy, ...)` as a value. */
  function MatchPolicyOf(vectorize: (string, string) -> Option<real>, cfg: Config, text: string, p: Policy): (r: MatchResult)
    ensures r.policyId == p.policyId && r.policyName == PolicyName(p)
    ensures r.matchScore <= 100
    ensures PolicyDescription(p).NoneValue? || text == [] ==> r.similarityScore == 0.0
    ensures forall k :: k in r.keywords ==> k in PolicyKeywords(cfg, PolicyName(p)) && Contains(text, k)
    ensures |r.reason| >= 1 && r.reason[|r.reason| - 1] == '.'
  {
    var name := PolicyName(p);
    var keywords := PolicyKeywords(cfg, name);
    var similarity := DescriptionSimilarity(vectorize, text, PolicyDescription(p));
    var matched := MatchedKeywords(keywords, text);
    MatchedKeywordsExact(keywords, text);
    MatchResult(p.policyId, name, FusedScore(similarity, KeywordScore(matched, keywords)),
                similarity, GenerateReason(Formatted(name), matched, similarity), matched)
  }

  /** Every per-policy score lies in `[0, 100]` under a bounded vectorizer; the similarity is
      taken against the description (the name when there is none). */
  lemma MatchPolicyBounded(vectorize: (string, string) -> Option<real>, cfg: Config, text: string, p: Policy)
    requires Bounded(vectorize)
    ensures 0 <= MatchPolicyOf(vectorize, cfg, text, p).matchScore <= 100
    ensures MatchPolicyOf(vectorize, cfg, text, p).similarityScore ==
      DescriptionSimilarity(vectorize, text, PolicyDescription(p))
    ensures MatchPolicyOf(vectorize, cfg, text, p).keywords ==
      MatchedKeywords(PolicyKeywords(cfg, PolicyName(p)), text)
  {
    var name := PolicyName(p);
    var keywords := PolicyKeywords(cfg, name);
    var matched := MatchedKeywords(keywords, text);
    var d := PolicyDescription(p);
    if d.Str? {
      SimilarityBounded(vectorize, text, d.s);
    }
    FusedScoreBounds(DescriptionSimilarity(vectorize, text, d), KeywordScore(matched, keywords));
  }

  /** `_match_policy`: the keyword loop collects the dictionary keywords found in the text. */
  method MatchPolicy(vectorize: (string, string) -> Option<real>, cfg: Config, text: string, p: Policy)
    returns (r: MatchResult)
    ensures r == MatchPolicyOf(vectorize, cfg, text, p)
  {
    var name := PolicyName(p);
    var description := PolicyDescription(p);
    var keywords := PolicyKeywords(cfg, name);
    var similarity := DescriptionSimilarity(vectorize, text, description);
    var matched: seq<string> := [];
    var keywordScore := 0.0;
    if keywords != [] {
      var i := 0;
      while i < |keywords|
        invariant 0 <= i <= |keywords|
        invariant matched == MatchedKeywords(keywords[..i], text)
      {
        assert keywords[..i + 1][..i] == keywords[..i];
        if Contains(text, keywords[i]) {
          matched := matched + [keywords[i]];
        }
        i := i + 1;
      }
      assert keywords[..i] == keywords;
      keywordScore := |matched| as real / |keywords| as real;
    }
    var score := AtMost100(Trunc((similarity * 0.5 + keywordScore * 0.5) * 100.0));
    r := MatchResult(p.policyId, name, score, similarity, GenerateReason(Formatted(name), matched, similarity), matched);
  }

  function Scorer(vectorize: (string, string) -> Option<real>, cfg: Config): (string, Policy) -> MatchResult
  {
    (text, p) => MatchPolicyOf(vectorize, cfg, text, p)
  }

  /** The policy loop of `analyze`: the match of every policy that reaches the threshold, in
      policy order. */
  method ScorePolicies(vectorize: (string, string) -> Option<real>, cfg: Config, text: string, policies: seq<Policy>)
    returns (recommendations: seq<MatchResult>)
    ensures recommendations == Candidates(text, policies, Scorer(vectorize, cfg), cfg.minMatchScore)
  {
    recommendations := [];
    var i := 0;
    while i < |policies|
      invariant 0 <= i <= |policies|
      invariant recommendations == Candidates(text, policies[..i], Scorer(vectorize, cfg), cfg.minMatchScore)
    {
      CandidatesStep(text, policies, i, Scorer(vectorize, cfg), cfg.minMatchScore);
      var recommendation := MatchPolicy(vectorize, cfg, text, policies[i]);
      assert recommendation == Scorer(vectorize, cfg)(text, policies[i]);
      if recommendation.matchScore >= cfg.minMatchScore {
        recommendations := recommendations + [recommendation];
      }
      i := i + 1;
    }
    assert policies[..i] == policies;
  }

  /** `analyze(comments, policies)`: score each policy in turn, keep those reaching the
      threshold, sort by score (stable, descending) and keep the first `max_recommendations`. */
  method Analyze(vectorize: (string, string) -> Option<real>, cfg: Config,
                 comments: seq<Option<string>>, policies: seq<Policy>)
    returns (r: AnalysisResult)
    ensures r == AnalysisOf(comments, policies, cfg, Scorer(vectorize, cfg))
  {
    if comments == [] || policies == [] {
      return AnalysisResult([], [], Neutral, None);
    }
    var combined := JoinTexts(comments);
    var keywords := ExtractKeywords(combined, KeywordLimit);
    var sentiment := AnalyzeSentiment(combined, cfg.positiveWords, cfg.negativeWords);
    if sentiment == Negative {
      return AnalysisResult([], keywords, sentiment, Some(SkipReasonText));
    }
    var recommendations := ScorePolicies(vectorize, cfg, combined, policies);
    recommendations := SortDesc(recommendations, MatchScoreOf);
    recommendations := SliceTo(recommendations, cfg.maxRecommendations);
    r := AnalysisResult(recommendations, keywords, sentiment, None);
  }

  /** With a bounded vectorizer, every recommended score lies between the threshold and 100. */
  lemma AnalysisScoresBounded(vectorize: (string, string) -> Option<real>, cfg: Config,
                              comments: seq<Option<string>>, policies: seq<Policy>)
    requires Bounded(vectorize)
    ensures forall m :: m in AnalysisOf(comments, policies, cfg, Scorer(vectorize, cfg)).recommendations ==>
      cfg.minMatchScore <= m.matchScore && 0 <= m.matchScore <= 100
  {
    var a := AnalysisOf(comments, policies, cfg, Scorer(vectorize, cfg));
    if comments != [] && policies != [] &&
       AnalyzeSentiment(JoinTexts(comments), cfg.positiveWords, cfg.negativeWords) != Negative {
      AnalysisRanked(comments, policies, cfg, Scorer(vectorize, cfg));
      forall m | m in a.recommendations
        ensures cfg.minMatchScore <= m.matchScore && 0 <= m.matchScore <= 100
      {
        var p :| p in policies && m == Scorer(vectorize, cfg)(JoinTexts(comments), p);
        MatchPolicyBounded(vectorize, cfg, JoinTexts(comments), p);
        var k :| 0 <= k < |a.recommendations| && a.recommendations[k] == m;
      }
    }
  }

  /** A `null` that is present is not a missing key: a `null` description does not fall back
      to the name, and the similarity is 0.0 without the vectorizer; a `null` name comes back
      as `None`, has no dictionary keywords and is named "None" in the reason. */
  lemma NullPolicyFields(vectorize: (string, string) -> Option<real>, cfg: Config, text: string,
                         id: Option<int>, name: string)
    ensures MatchPolicyOf(vectorize, cfg, text, Policy(id, Text(name), Null)).similarityScore == 0.0
    ensures text != [] && name != [] ==>
      MatchPolicyOf(vectorize, cfg, text, Policy(id, Text(name), Absent)).similarityScore ==
      vectorize(text, name).GetOr(0.0)
    ensures var r := MatchPolicyOf(vectorize, cfg, text, Policy(id, Null, Absent));
      r.policyName == NoneValue && r.keywords == [] && r.similarityScore == 0.0
  {
  }
}

/**
 * The sentence-embedding reward recommender: cosine similarity between the embedding of the
 * joined comments and that of "name. description", rescaled from `[-1, 1]` to `[0, 1]` and
 * fused 70/30 with the dictionary-keyword ratio.
 *
 * The encoder is a parameter: `cosine(a, b)` stands for encoding both texts with the sentence
 * model and taking the cosine similarity of the two embeddings.
 */
module KobertRecommender {
  import opened Wrappers
  import opened PyStr
  import opened PyList
  import opened Ranking
  import opened TextPreprocessor
  import opened Recommendation

  /** An encoder whose cosine similarities lie in `[-1, 1]`, as cosines do. */
  ghost predicate Bounded(cosine: (string, string) -> real)
  {
    forall a, b :: -1.0 <= cosine(a, b) <= 1.0
  }

  /** `calculate_similarity(text1, text2)`: the only place with an empty-text guard. */
  function CalculateSimilarity(cosine: (string, string) -> real, text1: string, text2: string): (r: real)
    ensures text1 == [] || text2 == [] ==> r == 0.0
    ensures text1 != [] && text2 != [] ==> r == cosine(text1, text2)
  {
    if text1 == [] || text2 == [] then 0.0 else cosine(text1, text2)
  }

  /** The text a policy is embedded as: `f"{policy_name}. {policy_description}"`, where a
      `None` formats as "None". */
  function PolicyText(p: Policy): (r: string)
    ensures r == Formatted(PolicyName(p)) + ". " + Formatted(PolicyDescription(p))
    ensures |r| >= 2
  {
    Formatted(PolicyName(p)) + ". " + Formatted(PolicyDescription(p))
  }

  /** `(similarity + 1) / 2`. */
  function Normalize(similarity: real): real
  {
    (similarity + 1.0) / 2.0
  }

  /** The rescaling maps `[-1, 1]` onto `[0, 1]`, keeps order, and sends 0 to one half. */
  lemma NormalizeBounds(similarity: real)
    requires -1.0 <= similarity <= 1.0
    ensures 0.0 <= Normalize(similarity) <= 1.0
    ensures Normalize(similarity) == 0.0 <==> similarity == -1.0
    ensures Normalize(similarity) == 1.0 <==> similarity == 1.0
  {
  }

  /** `min(100, int((normalized * 0.7 + keyword_score * 0.3) * 100))` */
  function FusedScore(similarity: real, keywordScore: real): int
  {
    AtMost100(Trunc((Normalize(similarity) * 0.7 + keywordScore * 0.3) * 100.0))
  }

  /** For a cosine in `[-1, 1]` and a ratio in `[0, 1]` the score is in `[0, 100]`, 100 exactly
      when both are 1; and an unrelated text (cosine 0, no keyword) still scores 35. */
  lemma FusedScoreBounds(similarity: real, keywordScore: real)
    requires -1.0 <= similarity <= 1.0 && 0.0 <= keywordScore <= 1.0
    ensures 0 <= FusedScore(similarity, keywordScore) <= 100
    ensures FusedScore(similarity, keywordScore) == 100 <==> similarity == 1.0 && keywordScore == 1.0
  {
    TruncBounds((Normalize(similarity) * 0.7 + keywordScore * 0.3) * 100.0);
  }

  lemma FusedScoreMonotone(s1: real, k1: real, s2: real, k2: real)
    requires s1 <= s2 && k1 <= k2
    ensures FusedScore(s1, k1) <= FusedScore(s2, k2)
  {
    TruncMonotone((Normalize(s1) * 0.7 + k1 * 0.3) * 100.0, (Normalize(s2) * 0.7 + k2 * 0.3) * 100.0);
  }

  /** The score of an orthogonal embedding without keywords: the rescaling's floor of 35. */
  lemma FusedScoreOrthogonal()
    ensures FusedScore(0.0, 0.0) == 35
    ensures FusedScore(-1.0, 0.0) == 0
    ensures FusedScore(-1.0, 1.0) == 30
  {
  }

  /** The similarity clause of `_generate_reason`, which here has three bands. */
  function SimilarityClause(policyName: string, similarity: real): Option<string>
  {
    if similarity >= 0.5 then Some("'" + policyName + "' 정책과 높은 의미적 연관성 확인 (BERT 분석)")
    else if similarity >= 0.3 then Some("'" + policyName + "' 정책과 연관성 확인")
    else if similarity >= 0.1 then Some("'" + policyName + "' 정책과 약한 연관성")
    else None
  }

  /** `_generate_reason(policy_name, matched_keywords, similarity)` */
  function GenerateReason(policyName: string, matched: seq<string>, similarity: real): string
  {
    ReasonText(SimilarityClause(policyName, similarity), matched)
  }

  /** Each of the three similarity sentences appears exactly in its band; the default sentence
      appears only when the cosine is below 0.1 and no keyword matched. */
  lemma ReasonBands(policyName: string, matched: seq<string>, similarity: real)
    ensures var cs := ReasonClauses(SimilarityClause(policyName, similarity), matched);
      && (Similarity("'" + policyName + "' 정책과 높은 의미적 연관성 확인 (BERT 분석)") in cs <==> similarity >= 0.5)
      && (Similarity("'" + policyName + "' 정책과 연관성 확인") in cs <==> 0.3 <= similarity < 0.5)
      && (Similarity("'" + policyName + "' 정책과 약한 연관성") in cs <==> 0.1 <= similarity < 0.3)
      && (Basic in cs <==> similarity < 0.1 && matched == [])
      && (cs == [Basic] <==> similarity < 0.1 && matched == [])
    ensures similarity < 0.1 && matched == [] ==> GenerateReason(policyName, matched, similarity) == BasicReasonText + "."
  {
    var high := "'" + policyName + "' 정책과 높은 의미적 연관성 확인 (BERT 분석)";
    var medium := "'" + policyName + "' 정책과 연관성 확인";
    var weak := "'" + policyName + "' 정책과 약한 연관성";
    assert |high| != |medium| && |high| != |weak|;
    assert medium[|policyName| + 7] != weak[|policyName| + 7];
    ReasonClausesShape(SimilarityClause(policyName, similarity), matched);
  }

  /** `_match_policy(comments_text, comment_embedding, policy, ...)` as a value. The comment
      embedding is computed once in `analyze`, so the cosine is taken of the combined text. */
  function MatchPolicyOf(cosine: (string, string) -> real, cfg: Config, text: string, p: Policy): (r: MatchResult)
    ensures r.policyId == p.policyId && r.policyName == PolicyName(p)
    ensures r.matchScore <= 100
    ensures r.similarityScore == cosine(text, PolicyText(p))
    ensures forall k :: k in r.keywords ==> k in PolicyKeywords(cfg, PolicyName(p)) && Contains(text, k)
    ensures |r.reason| >= 1 && r.reason[|r.reason| - 1] == '.'
  {
    var name := PolicyName(p);
    var keywords := PolicyKeywords(cfg, name);
    var similarity := cosine(text, PolicyText(p));
    var matched := MatchedKeywords(keywords, text);
    MatchedKeywordsExact(keywords, text);
    MatchResult(p.policyId, name, FusedScore(similarity, KeywordScore(matched, keywords)),
                similarity, GenerateReason(Formatted(name), matched, similarity), matched)
  }

  /** Every per-policy score lies in `[0, 100]` under a bounded encoder; unlike
      `calculate_similarity`, the policy cosine is taken even when the description is empty. */
  lemma MatchPolicyBounded(cosine: (string, string) -> real, cfg: Config, text: string, p: Policy)
    requires Bounded(cosine)
    ensures 0 <= MatchPolicyOf(cosine, cfg, text, p).matchScore <= 100
    ensures MatchPolicyOf(cosine, cfg, text, p).similarityScore ==
      cosine(text, Formatted(PolicyName(p)) + ". " + Formatted(PolicyDescription(p)))
    ensures MatchPolicyOf(cosine, cfg, text, p).keywords ==
      MatchedKeywords(PolicyKeywords(cfg, PolicyName(p)), text)
  {
    var name := PolicyName(p);
    var keywords := PolicyKeywords(cfg, name);
    var matched := MatchedKeywords(keywords, text);
    FusedScoreBounds(cosine(text, PolicyText(p)), KeywordScore(matched, keywords));
  }

  /** `_match_policy`: the keyword loop collects the dictionary keywords found in the text. */
  method MatchPolicy(cosine: (string, string) -> real, cfg: Config, text: string, p: Policy)
    returns (r: MatchResult)
    ensures r == MatchPolicyOf(cosine, cfg, text, p)
  {
    var name := PolicyName(p);
    var keywords := PolicyKeywords(cfg, name);
    var similarity := cosine(text, PolicyText(p));
    var matched: seq<string> := [];
    var keywordScore := 0.0;
    if keywords != [] {
      var i := 0;
      while i < |keywords|
        invariant 0 <= i <= |keywords|
        invariant matched == MatchedKeywords(keywords[..i], text)
      {
        assert keywords[..i + 1][..i] == keywords[..i];
        if Contains(text, keywords[i]) {
          matched := matched + [keywords[i]];
        }
        i := i + 1;
      }
      assert keywords[..i] == keywords;
      keywordScore := |matched| as real / |keywords| as real;
    }
    assert matched == MatchedKeywords(keywords, text);
    assert keywordScore == KeywordScore(matched, keywords);
    var normalized := (similarity + 1.0) / 2.0;
    assert normalized == Normalize(similarity);
    var score := AtMost100(Trunc((normalized * 0.7 + keywordScore * 0.3) * 100.0));
    assert score == FusedScore(similarity, KeywordScore(matched, keywords));
    r := MatchResult(p.policyId, name, score, similarity, GenerateReason(Formatted(name), matched, similarity), matched);
  }

  function Scorer(cosine: (string, string) -> real, cfg: Config): (string, Policy) -> MatchResult
  {
    (text, p) => MatchPolicyOf(cosine, cfg, text, p)
  }

  /** The policy loop of `analyze`: the match of every policy that reaches the threshold, in
      policy order. */
  method ScorePolicies(cosine: (string, string) -> real, cfg: Config, text: string, policies: seq<Policy>)
    returns (recommendations: seq<MatchResult>)
    ensures recommendations == Candidates(text, policies, Scorer(cosine, cfg), cfg.minMatchScore)
  {
    recommendations := [];
    var i := 0;
    while i < |policies|
      invariant 0 <= i <= |policies|
      invariant recommendations == Candidates(text, policies[..i], Scorer(cosine, cfg), cfg.minMatchScore)
    {
      CandidatesStep(text, policies, i, Scorer(cosine, cfg), cfg.minMatchScore);
      var recommendation := MatchPolicy(cosine, cfg, text, policies[i]);
      assert recommendation == Scorer(cosine, cfg)(text, policies[i]);
      if recommendation.matchScore >= cfg.minMatchScore {
        recommendations := recommendations + [recommendation];
      }
      i := i + 1;
    }
    assert policies[..i] == policies;
  }

  /** `analyze(comments, policies)`: the same pipeline as the TF-IDF engine with the embedding
      score in place of the TF-IDF one. */
  method Analyze(cosine: (string, string) -> real, cfg: Config,
                 comments: seq<Option<string>>, policies: seq<Policy>)
    returns (r: AnalysisResult)
    ensures r == AnalysisOf(comments, policies, cfg, Scorer(cosine, cfg))
  {
    if comments == [] || policies == [] {
      return AnalysisResult([], [], Neutral, None);
    }
    var combined := JoinTexts(comments);
    var keywords := ExtractKeywords(combined, KeywordLimit);
    var sentiment := AnalyzeSentiment(combined, cfg.positiveWords, cfg.negativeWords);
    if sentiment == Negative {
      return AnalysisResult([], keywords, sentiment, Some(SkipReasonText));
    }
    var recommendations := ScorePolicies(cosine, cfg, combined, policies);
    recommendations := SortDesc(recommendations, MatchScoreOf);
    recommendations := SliceTo(recommendations, cfg.maxRecommendations);
    r := AnalysisResult(recommendations, keywords, sentiment, None);
  }

  /** With a bounded encoder, every recommended score lies between the threshold and 100. */
  lemma AnalysisScoresBounded(cosine: (string, string) -> real, cfg: Config,
                              comments: seq<Option<string>>, policies: seq<Policy>)
    requires Bounded(cosine)
    ensures forall m :: m in AnalysisOf(comments, policies, cfg, Scorer(cosine, cfg)).recommendations ==>
      cfg.minMatchScore <= m.matchScore && 0 <= m.matchScore <= 100
  {
    var a := AnalysisOf(comments, policies, cfg, Scorer(cosine, cfg));
    if comments != [] && policies != [] &&
       AnalyzeSentiment(JoinTexts(comments), cfg.positiveWords, cfg.negativeWords) != Negative {
      AnalysisRanked(comments, policies, cfg, Scorer(cosine, cfg));
      forall m | m in a.recommendations
        ensures cfg.minMatchScore <= m.matchScore && 0 <= m.matchScore <= 100
      {
        var p :| p in policies && m == Scorer(cosine, cfg)(JoinTexts(comments), p);
        MatchPolicyBounded(cosine, cfg, JoinTexts(comments), p);
        var k :| 0 <= k < |a.recommendations| && a.recommendations[k] == m;
      }
    }
  }

  /** With a minimum of 35 or less, an engine whose encoder reports only the
      orthogonal cosine recommends every policy: the rescaling's floor already clears it. */
  lemma OrthogonalPassesThreshold(cfg: Config, text: string, p: Policy)
    requires cfg.minMatchScore <= 35
    ensures MatchPolicyOf((a: string, b: string) => 0.0, cfg, text, p).matchScore >= cfg.minMatchScore
  {
    var keywords := PolicyKeywords(cfg, PolicyName(p));
    var matched := MatchedKeywords(keywords, text);
    FusedScoreMonotone(0.0, 0.0, 0.0, KeywordScore(matched, keywords));
  }

  /** A `null` that is present is not a missing key: a `null` description is embedded as
      "name. None" and a `null` name as "None", comes back as `None` and has no dictionary
      keywords. */
  lemma NullPolicyFields(cosine: (string, string) -> real, cfg: Config, text: string, id: Option<int>, name: string)
    ensures PolicyText(Policy(id, Text(name), Null)) == name + ". None"
    ensures PolicyText(Policy(id, Text(name), Absent)) == name + ". " + name
    ensures var r := MatchPolicyOf(cosine, cfg, text, Policy(id, Null, Absent));
      && PolicyText(Policy(id, Null, Absent)) == "None. None"
      && r.policyName == NoneValue && r.keywords == []
  {
  }
}

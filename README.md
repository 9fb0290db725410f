# HR_FLASK in Dafny

This project is a Dafny model of the logic at the centre of the HR_FLASK services. The services are Flask back ends for an HR system. The model covers four of them.

- **Reward-policy recommender** (`gyu`). It takes evaluation comments and reward policies, and proceeds in order:
  - normalises the comments, tokenises them and joins them;
  - counts sentiment keywords and vetoes the recommendation when the sentiment is negative;
  - extracts the most frequent keywords;
  - scores every policy: a similarity fused with dictionary-keyword matches;
  - keeps the policies that reach the threshold, best first, up to the configured number.

  A policy key present as JSON `null` is kept apart from an absent key, since `.get` applies its default only to the latter.

  There are two engines, TF-IDF and sentence embedding. They share one pipeline (`Recommendation`) and differ in the fusion weights, the score normalisation, the similarity text and the reason bands. The similarity itself is an oracle parameter.
- **Attendance anomaly service** (`eun`). An attendance list arrives from the Spring back end. It is turned into a frame, a sequence of rows. Along the way, Java `LocalDateTime` arrays and objects become ISO texts and missing minute columns become 0. Minutes are filled in from the check-in and check-out times. From the frame the service builds:
  - the anomaly alerts: a score per employee, at most 10, best first;
  - the per-employee report: a status histogram, minute and clock-time series, and the templated analysis.

  The four copies of this logic are all modelled: `app.py`, `routes.py`, `storage1.py` and `storage2.py`. One function per copy wherever the copies differ.
- **HR chatbot** (`young`), in order:
  - Korean whitespace normalisation and the bad-word filter;
  - the CSV knowledge base with its TF-IDF retrieval and the context formatter;
  - the message list sent to the LLM server;
  - the conversation history, which keeps its 20 newest messages;
  - the issue clusters, which count each accepted question for the most similar known issue or open a new one;
  - `handle_question`, which ties these together and fails closed.
- **SQL search** (`hyun`). The `SQL:` / `EXPLANATION:` line parser of the LLM reply inside `predict`, and its rejection and failure outcomes.

Oracles and state:
- The vectorizer, the encoder, the LLM server, the Spring back end and the database are not executed. They become function parameters (oracles).
- The module-level `chat_history` and the `ISSUE_CLUSTER` table are objects of classes whose methods update them in place, proved equal to a function of the old state.

Loops become methods with invariants:
- the policy loop and the keyword loop;
- the group loop of `_build_alerts`;
- the row loop of `_build_series_times`;
- the loaders and the context formatter;
- the bad-word loop, the cluster selection and the reply parser.

Each method is proved against a specification function, and the properties are proved about those functions.

Files:

| file | module | models |
|---|---|---|
| wrappers.dfy | Wrappers | `Option`, `Result` |
| pystr.dfy | PyStr, PyList | the Python `str` and `list` operations used: `split()`, `split(sep)`, `strip`, `join`, `in`, `replace`, `lower`/`upper` (ASCII), slicing, `str(int)`, `%02d` |
| ranking.dfy | Ranking | `sorted(..., key, reverse=True)`, a stable descending sort, and its truncation |
| text_preprocessor.dfy | TextPreprocessor | `src/gyu/services/text_preprocessor.py` |
| recommendation.dfy | Recommendation | what the two engines share: keyword matching, reasons, `extract_keywords`, `analyze` |
| tfidf_recommender.dfy | TfidfRecommender | `src/gyu/models/tfidf_recommender.py` |
| kobert_recommender.dfy | KobertRecommender | `src/gyu/models/kobert_recommender.py` |
| java_time.dfy | JavaTime | `_normalize_java_time` |
| attendance_frame.dfy | AttendanceFrame | the three `_to_df` variants, `_calc_total_minutes_from_times`, `_fill_minutes_from_times`, `_minutes_since_midnight` |
| attendance_alerts.dfy | AttendanceAlerts | `_build_alerts` (all four copies) |
| attendance_report.dfy | AttendanceReport | `_build_employee_report` (four variants), `_build_series_times` |
| text_utils.dfy | ChatText | `normalize_korean_text` |
| tfidf_index.dfy | ChatIndex | `build_tfidf_index`, `retrieve_top_docs`, `format_context`, `build_context_text` |
| ollama_client.dfy | ChatOllama | `ask_ollama` |
| chat_history.dfy | ChatHistory | the `chat_history` list and its trimming |
| csv_loader.dfy | ChatCsvLoader | `load_documents_from_csv_dir` and the `/chatbot/ask` route of `csv_loader.py` |
| issue_cluster.dfy | IssueCluster | `upsert_issue_cluster` |
| question_service.dfy | QuestionService | `BAD_WORDS`, `is_invalid_question`, `handle_question` |
| search.dfy | SqlSearch | `predict` in `src/hyun/search/routes.py` |

## Model

| member | source | states |
|---|---|---|
| TextPreprocessor.CleanSymbols | src/gyu/services/text_preprocessor.py:57 | every character outside `\w`, whitespace and Hangul syllables becomes a space; the others stay, and the length is unchanged |
| TextPreprocessor.Preprocess | src/gyu/services/text_preprocessor.py:50-51 | the empty text preprocesses to the empty text |
| TextPreprocessor.PreprocessSingleSpaced | src/gyu/services/text_preprocessor.py:60-62 | the output has no whitespace at either end, its only whitespace is ' ', and no two whitespace characters are adjacent |
| TextPreprocessor.PreprocessChars | src/gyu/services/text_preprocessor.py:54-57 | every output character other than ' ' is a lower-cased, kept, non-blank character |
| TextPreprocessor.PreprocessWords | src/gyu/services/text_preprocessor.py:54-62 | `preprocess` gives the words of the lower-cased, symbol-cleaned text joined by single spaces, and collapsing does not change the words |
| TextPreprocessor.CollapseSpaced | src/gyu/services/text_preprocessor.py:60 | after `re.sub(r'\s+', ' ')` every whitespace run is one space |
| TextPreprocessor.SplitCollapse | src/gyu/services/text_preprocessor.py:60 | collapsing whitespace runs does not change what `split()` returns |
| TextPreprocessor.KeepTokensAll | src/gyu/services/text_preprocessor.py:110-113 | the token filter returns its input unchanged iff every token is a non-stopword of at least two characters |
| TextPreprocessor.KeepTokensFrom | src/gyu/services/text_preprocessor.py:110-113 | every kept token is one of the input tokens |
| TextPreprocessor.KeepTokensAppend | src/gyu/services/text_preprocessor.py:110-113 | the filter works token by token and keeps the order: filtering `a + b` is filtering `a` then `b` |
| TextPreprocessor.TokenizeSimple | src/gyu/services/text_preprocessor.py:107-113 | every token of `_tokenize_simple` is a non-stopword of length at least 2 without whitespace |
| TextPreprocessor.Tokenize | src/gyu/services/text_preprocessor.py:75-76 | `tokenize("")` is `[]` |
| TextPreprocessor.TokenizeSpec | src/gyu/services/text_preprocessor.py:75-113 | without a morphological analyser `tokenize` preprocesses first and keeps exactly, in order, the qualifying `split()` words of the lower-cased, cleaned text |
| TextPreprocessor.Present | src/gyu/services/text_preprocessor.py:151 | `filter(None, texts)` keeps only non-empty texts, and keeps none exactly when all are missing or empty |
| TextPreprocessor.JoinTextsEmpty | src/gyu/services/text_preprocessor.py:151 | the joined text is empty iff every text is missing or empty (so `[]` gives `""`) |
| TextPreprocessor.SplitJoinTexts | src/gyu/services/text_preprocessor.py:151 | the words of the joined text are the words of each present text, text by text: the single space always separates |
| TextPreprocessor.CountContained | src/gyu/services/text_preprocessor.py:169-170 | each listed word counts at most once, by containment; the count is 0 iff no word occurs and the list length iff all occur |
| TextPreprocessor.AnalyzeSentiment | src/gyu/services/text_preprocessor.py:165-177 | empty text is neutral; otherwise positive iff more positive than negative words occur in the lower-cased text, negative iff fewer, neutral on a tie (also 0-0) |
| TextPreprocessor.SentimentCountsGrow | src/gyu/services/text_preprocessor.py:168-170 | adding text after a space never lowers either count |
| TextPreprocessor.SentimentIgnoresCase | src/gyu/services/text_preprocessor.py:168 | lower-casing the text first changes nothing |
| TextPreprocessor.SentimentSymmetric | src/gyu/services/text_preprocessor.py:172-177 | swapping the two word lists swaps positive and negative and keeps neutral |
| Ranking.SortDescPermutes | src/gyu/models/tfidf_recommender.py:91 | the in-place sort only rearranges: same multiset |
| Ranking.SortDescSorted | src/gyu/models/tfidf_recommender.py:91 | the sorted list is in non-increasing key order |
| Ranking.SortDescStable | src/gyu/models/tfidf_recommender.py:91 | the sort is stable: for every key value, the elements with that key keep their order |
| Ranking.SortedSliceRanked | src/gyu/models/tfidf_recommender.py:91-95 | sort then `[:limit]` gives a non-increasing selection of input elements, at most `limit` long, with each key's elements a prefix of that key's elements in input order, and the whole sorted list when `limit` is at least its length |
| Ranking.SortedSliceTop | src/gyu/models/tfidf_recommender.py:91-95 | an element the truncation dropped ranks no higher than any kept one, and then exactly `limit` were kept |
| Recommendation.Trunc | src/gyu/models/tfidf_recommender.py:135 | Python's `int()` on a real truncates toward zero |
| Recommendation.AtMost100 | src/gyu/models/tfidf_recommender.py:135 | `min(100, n)` clamps from above only |
| Recommendation.TruncMonotone | src/gyu/models/tfidf_recommender.py:135 | truncation keeps order |
| Recommendation.TruncBounds | src/gyu/models/tfidf_recommender.py:134-135 | a value in [0, 100] truncates and clamps into [0, 100] |
| Recommendation.MatchedKeywords | src/gyu/models/tfidf_recommender.py:125-130 | at most as many matches as dictionary keywords, each a substring of the text |
| Recommendation.MatchedKeywordsExact | src/gyu/models/tfidf_recommender.py:125-130 | a keyword is matched iff it is in the dictionary and occurs in the text; all are matched iff all occur |
| Recommendation.KeywordScore | src/gyu/models/tfidf_recommender.py:126-131 | `len(matched)/len(keywords)`: 0 without a dictionary entry, in [0, 1], and 1 when all match |
| Recommendation.ReasonClausesShape | src/gyu/models/tfidf_recommender.py:151-163 | "기본 조건 충족" appears iff there is neither a similarity clause nor a match, and then alone; the similarity clause comes first; the keyword clause names the first 3 matches at most |
| Recommendation.ReasonText | src/gyu/models/tfidf_recommender.py:165 | the reason ends with "." |
| Recommendation.ReasonTextBasic | src/gyu/models/tfidf_recommender.py:162-165 | with no clause at all the reason is "기본 조건 충족." |
| Recommendation.Distinct | src/gyu/models/tfidf_recommender.py:188 | the `Counter` keys are the tokens, each once |
| Recommendation.MostCommonMembers | src/gyu/models/tfidf_recommender.py:188-189 | `most_common(n)` returns at most `n` distinct tokens of the input |
| Recommendation.MostCommonOrder | src/gyu/models/tfidf_recommender.py:188-189 | by non-increasing count, equal counts in first-seen order, and every token left out occurs no more often than any kept one |
| Recommendation.ExtractKeywordsRanked | src/gyu/models/tfidf_recommender.py:178-191 | `[]` for an empty text or one without tokens, otherwise `most_common(top_n)` of the tokens, at most `top_n` |
| Recommendation.PolicyFieldDefaults | src/gyu/models/tfidf_recommender.py:115-116 | `.get` with a default replaces only an absent key: an absent name is `""`, a present `null` name is `None` and has no dictionary keywords, an absent description is the name, a `null` description is `None`, and `None` formats as "None" |
| Recommendation.ExtractKeywords | src/gyu/models/tfidf_recommender.py:167-191 | at most `top_n` keywords (none for a negative `top_n`), each a token of the text, no keyword twice |
| Recommendation.Candidates | src/gyu/models/tfidf_recommender.py:84-88 | the policy loop keeps at most one match per policy, each reaching `min_match_score` |
| Recommendation.CandidatesFromPolicies | src/gyu/models/tfidf_recommender.py:84-88 | every kept match is some policy's score, and every policy scoring at least the threshold is kept |
| Recommendation.AnalysisShortCircuit | src/gyu/models/tfidf_recommender.py:54-59 | no comments or no policies give no recommendations, no keywords, "neutral" and no skip reason |
| Recommendation.AnalysisVeto | src/gyu/models/tfidf_recommender.py:74-81 | a negative sentiment gives no recommendations, the extracted keywords, "negative" and the skip reason, whatever the policies and the scorer |
| Recommendation.RankedCandidates | src/gyu/models/tfidf_recommender.py:84-95 | the threshold, stable sort and truncation stage: at least the threshold, from the policies, non-increasing, ties in policy order, at most `max_recommendations`, all of them when the limit allows |
| Recommendation.AnalysisRanked | src/gyu/models/tfidf_recommender.py:61-101 | without a veto the result has no skip reason, carries the sentiment, and its recommendations satisfy everything `RankedCandidates` states |
| Recommendation.AnalysisOf | src/gyu/models/tfidf_recommender.py:43-101 | a skip reason is given exactly when the sentiment is negative, and then it is the fixed text and nothing is recommended; at most 10 extracted keywords; every recommendation reaches the minimum score, in non-increasing score, at most `max_recommendations` of them |
| TfidfRecommender.CalculateSimilarity | src/gyu/models/tfidf_recommender.py:204-217 | 0.0 when either text is empty or the vectorizer fails, the vectorizer's value otherwise |
| TfidfRecommender.SimilarityBounded | src/gyu/models/tfidf_recommender.py:193-217 | a vectorizer with values in [0, 1] gives a similarity in [0, 1] |
| TfidfRecommender.FusedScoreBounds | src/gyu/models/tfidf_recommender.py:134-135 | with both inputs in [0, 1] the score is in [0, 100], and 100 exactly when both are 1 |
| TfidfRecommender.FusedScoreMonotone | src/gyu/models/tfidf_recommender.py:134-135 | the score grows with either input |
| TfidfRecommender.FusedScoreNoLowerClamp | src/gyu/models/tfidf_recommender.py:135 | nothing clamps from below: similarity -1 gives -50 |
| TfidfRecommender.ReasonBands | src/gyu/models/tfidf_recommender.py:149-165 | "높은 연관성" iff similarity ≥ 0.5, "연관성" iff 0.3 ≤ similarity < 0.5, and the default sentence alone iff similarity < 0.3 with no match |
| TfidfRecommender.MatchPolicyBounded | src/gyu/models/tfidf_recommender.py:115-147 | the similarity is taken against the description, which defaults to the name when absent and is 0.0 when `null`; the keywords are the dictionary matches of the name; the score is in [0, 100] under a bounded vectorizer |
| TfidfRecommender.MatchPolicy | src/gyu/models/tfidf_recommender.py:103-147 | the keyword loop and the fusion compute the `_match_policy` value |
| TfidfRecommender.MatchPolicyOf | src/gyu/models/tfidf_recommender.py:103-147 | the id and the name (`None` for a `null` name) are echoed; the score is at most 100; a `null` description or an empty text gives similarity 0.0; every reported keyword is a dictionary keyword of the name found in the text; the reason ends with a period |
| TfidfRecommender.DescriptionSimilarity | src/gyu/models/tfidf_recommender.py:204-205 | a `None` description is falsy for `calculate_similarity` and scores 0.0 |
| TfidfRecommender.NullPolicyFields | src/gyu/models/tfidf_recommender.py:115-122 | a `null` description gives similarity 0.0; an absent one is compared as the name; a `null` name comes back as `None`, with no keywords and similarity 0.0 |
| TfidfRecommender.ScorePolicies | src/gyu/models/tfidf_recommender.py:84-88 | the policy loop keeps, in policy order, the matches reaching the threshold |
| TfidfRecommender.Analyze | src/gyu/models/tfidf_recommender.py:43-101 | the method computes `analyze` as the shared pipeline with this engine's scorer |
| TfidfRecommender.AnalysisScoresBounded | src/gyu/models/tfidf_recommender.py:84-95 | every recommended score is between `min_match_score` and 100 |
| KobertRecommender.CalculateSimilarity | src/gyu/models/kobert_recommender.py:220-229 | 0.0 when either text is empty, without using the model; the cosine otherwise |
| KobertRecommender.PolicyText | src/gyu/models/kobert_recommender.py:125-132 | the embedded text is `f"{name}. {description}"`, an absent description defaulting to the name and a `null` name or description formatted as "None" |
| KobertRecommender.NormalizeBounds | src/gyu/models/kobert_recommender.py:147 | `(sim + 1) / 2` maps [-1, 1] onto [0, 1], hitting 0 and 1 only at the ends |
| KobertRecommender.FusedScoreBounds | src/gyu/models/kobert_recommender.py:147-149 | a cosine in [-1, 1] and a ratio in [0, 1] give a score in [0, 100], and 100 exactly when both are 1 |
| KobertRecommender.FusedScoreMonotone | src/gyu/models/kobert_recommender.py:147-149 | the score grows with either input |
| KobertRecommender.FusedScoreOrthogonal | src/gyu/models/kobert_recommender.py:147-149 | cosine 0 without keywords scores 35; cosine -1 scores 0 without keywords and 30 with all of them |
| KobertRecommender.ReasonBands | src/gyu/models/kobert_recommender.py:163-181 | on the raw cosine: the high band iff ≥ 0.5, the middle iff in [0.3, 0.5), the weak iff in [0.1, 0.3); the default alone iff below 0.1 with no match |
| KobertRecommender.MatchPolicyBounded | src/gyu/models/kobert_recommender.py:125-161 | the similarity is the cosine with the policy text; the keywords are the dictionary matches of the name; the score is in [0, 100] under a bounded encoder |
| KobertRecommender.MatchPolicy | src/gyu/models/kobert_recommender.py:106-161 | the keyword loop and the fusion compute the `_match_policy` value |
| KobertRecommender.MatchPolicyOf | src/gyu/models/kobert_recommender.py:106-161 | the id and the name (`None` for a `null` name) are echoed; the score is at most 100; the similarity is the cosine of the text to "name. description"; every reported keyword is a dictionary keyword of the name found in the text |
| KobertRecommender.NullPolicyFields | src/gyu/models/kobert_recommender.py:125-132 | a `null` description embeds "name. None", an absent one "name. name", and a `null` name with no description "None. None", coming back as `None` with no keywords |
| KobertRecommender.ScorePolicies | src/gyu/models/kobert_recommender.py:82-91 | the policy loop keeps, in policy order, the matches reaching the threshold |
| KobertRecommender.Analyze | src/gyu/models/kobert_recommender.py:38-104 | the method computes `analyze` as the shared pipeline with this engine's scorer |
| KobertRecommender.AnalysisScoresBounded | src/gyu/models/kobert_recommender.py:90-98 | every recommended score is between `min_match_score` and 100 |
| KobertRecommender.OrthogonalPassesThreshold | src/gyu/models/kobert_recommender.py:147-149 | with a threshold of 35 or less, even a similarity of 0 passes for every policy |
| JavaTime.Lookup | src/eun/attendance/app.py:60-65 | `d.get(key)` finds a value iff the key is present, and the value is that key's |
| JavaTime.IsoTextReadsBack | src/eun/attendance/app.py:54 | the zero-padded `YYYY-MM-DDTHH:MM:SS` text has 19 characters and reads back as its six fields |
| JavaTime.NullishAndText | src/eun/attendance/app.py:46-70 | `None` and NaN give `None`; a text passes through unchanged; every integer `i` gives `str(i)` |
| JavaTime.ListFormat | src/eun/attendance/app.py:50-54 | an array of at least 5 integers gives the ISO text of its first six fields |
| JavaTime.ListSecondsDefault | src/eun/attendance/app.py:52 | 5 entries mean a zero second, and entries after the sixth are ignored |
| JavaTime.ListRaises | src/eun/attendance/app.py:50-54 | an array of five or more entries raises the exception of its first field that `int()` rejects (the sixth only when present): `TypeError` for `None`, a list or an object, `ValueError` for NaN or a non-numeric text |
| JavaTime.NullFieldRaises | src/eun/attendance/app.py:50-66 | `[2026, null, 1, 9, 0]` and `{"year": 2026, "month": 1, "dayOfMonth": null}` both raise `TypeError` |
| JavaTime.IntsOf | src/eun/attendance/app.py:54 | the fields are converted left to right: all of them convert, with their values, or the error is that of the first that does not, and is `TypeError` or `ValueError` |
| JavaTime.ShortList | src/eun/attendance/app.py:50-70 | an array shorter than 5 falls through to `str(v)` |
| JavaTime.DictAsList | src/eun/attendance/app.py:57-66 | an object with year, monthValue and dayOfMonth formats like the array of its fields |
| JavaTime.DictDefaults | src/eun/attendance/app.py:61-65 | a falsy monthValue falls back to month; hour, minute and second default to 0 |
| JavaTime.DictWithoutDate | src/eun/attendance/app.py:59-67 | an object without the date keys gives `None` |
| JavaTime.NormalizeJavaTime | src/eun/attendance/app.py:39-70 | `None` and NaN become missing; text and integers become their text; a missing result comes only from `None`, NaN or a dictionary, and a raise only from a list or a dictionary; a list of fewer than five parts is its `str` |
| AttendanceFrame.KeyUnion | src/eun/attendance/app.py:34 | `pd.DataFrame(records)` has exactly the keys some record carries as columns |
| AttendanceFrame.ToDfOfNothing | src/eun/attendance/app.py:31-32 | every `_to_df` turns no records into the empty frame |
| AttendanceFrame.NormalizingColumns | src/eun/attendance/app.py:34-92 | with records, the frame has the date columns and all four minute columns, one row per record |
| AttendanceFrame.NormalizedRowsRaise | src/eun/attendance/app.py:73-83 | the rows raise iff some check-in or check-out cannot be formatted; the error is that of the first failing check-in, and only when every check-in formats that of the first failing check-out; otherwise row `i` holds record `i`'s parsed times |
| AttendanceFrame.NormalizedRows | src/eun/attendance/app.py:73-83 | one row per record, or a `TypeError` or `ValueError` |
| AttendanceFrame.FirstRaise | src/eun/attendance/app.py:74 | `apply` stops at the first cell that raises: nothing when no cell raises, else the first raising cell's exception |
| AttendanceFrame.MinutesDefaultToZero | src/eun/attendance/app.py:85-90 | a missing or non-numeric minute value becomes 0 |
| AttendanceFrame.MinutesKept | src/eun/attendance/app.py:88 | integers and digit texts keep their value |
| AttendanceFrame.MinutesFraction | src/eun/attendance/app.py:88 | a text `a.b` counts `a` minutes and `-a.b` counts `-a` (`"12.5"` is 12, `"-7.9"` is -7): the fraction is truncated toward zero |
| AttendanceFrame.MinutesExponent | src/eun/attendance/app.py:88 | a text `aek` or `aEk` counts `a·10^k` minutes (`"1e3"` is 1000) |
| AttendanceFrame.Storage1NeedsWorkDate | src/eun/attendance/storage1.py:42 | without any `workDate` key, `storage1.py` raises `KeyError`, `app.py` raises `AttributeError`, and `storage2.py` keeps no row |
| AttendanceFrame.KeepIdentifiedExact | src/eun/attendance/storage2.py:61-62 | a row is kept iff it has an `empId` and a `workDate`; all are kept iff all have both |
| AttendanceFrame.Storage2Defended | src/eun/attendance/storage2.py:35-62 | with records, the frame has `empId`, `empName`, `workStatus`, `workType` and the minute columns; every row left is identified; every identified row is kept |
| AttendanceFrame.ToDfNormalizing | src/eun/attendance/app.py:30-92 | no records give the empty frame; records without any `workDate` key raise `AttributeError`, and the only errors are that, `TypeError` and `ValueError`; otherwise one row per record and every key, minute column and normalised time column present |
| AttendanceFrame.ToDfStorage1 | src/eun/attendance/storage1.py:32-61 | no records give the empty frame; records fail, with `KeyError`, exactly when none has a `workDate` key; otherwise one row per record with every key and minute column present |
| AttendanceFrame.ToDfStorage2 | src/eun/attendance/storage2.py:28-64 | no records give the empty frame; never more rows than records, each with an `empId` and a `workDate`; for records, the defended, minute and `workDate` columns are all present |
| AttendanceFrame.CalcTotalMinutesRules | src/eun/attendance/app.py:104-117 | 0 if either time is missing; the difference when checkout is later; plus 1440 when it is at most a day earlier; never negative |
| AttendanceFrame.CalcTotalMinutesNight | src/eun/attendance/app.py:114-116 | 22:00 to 06:30 counts 510 minutes, with or without the next day's date |
| AttendanceFrame.CalcTotalMinutes | src/eun/attendance/app.py:104-117 | never negative; a missing check-in or check-out gives 0; otherwise 0, the difference, or the difference plus a day |
| AttendanceFrame.FillRowRules | src/eun/attendance/app.py:136-154 | positive total, overtime and normal values are kept; otherwise total comes from the times, overtime is `max(total - 480, 0)` and normal `max(total - overtime - unpaid, 0)`; nothing else changes |
| AttendanceFrame.FillRowSplitsTotal | src/eun/attendance/app.py:142-154 | without stored values and without unpaid minutes, normal plus overtime is the total and normal is at most 480 |
| AttendanceFrame.FillRowIdempotent | src/eun/attendance/app.py:136-154 | filling twice is filling once |
| AttendanceFrame.FillRow | src/eun/attendance/app.py:136-154 | the three minute fields end non-negative, every other field is unchanged, and a row whose minutes are all positive is left alone |
| AttendanceFrame.FillMinutesFromTimes | src/eun/attendance/app.py:127-156 | an empty frame comes back unchanged; otherwise each row is filled |
| AttendanceFrame.MinutesSinceMidnight | src/eun/attendance/app.py:159-162 | a valid time gives a minute in [0, 1440) |
| AttendanceFrame.MinutesSinceMidnightExact | src/eun/attendance/app.py:159-162 | NaT gives `None`; otherwise the minute divides back into the hour and the minute |
| AttendanceAlerts.KeyLessOrder | src/eun/attendance/app.py:178 | the group-key order, with missing values last, is a strict total order |
| AttendanceAlerts.GroupKeysExact | src/eun/attendance/app.py:178-180 | `groupby` visits each key once, in ascending order, exactly the keys of the rows |
| AttendanceAlerts.Group | src/eun/attendance/app.py:180 | a group holds exactly the rows with its key |
| AttendanceAlerts.NamesSplitGroups | src/eun/attendance/app.py:178 | the same id under two names makes two groups |
| AttendanceAlerts.ScoreTerms | src/eun/attendance/app.py:195-213 | score = [absent>0](3+absent) + [night>0](3+night) + [late≥3]·late + [unpaid≥180]·2 + [overtime≥600]·1 |
| AttendanceAlerts.ScoreAndReasons | src/eun/attendance/app.py:192-215 | one reason per fired rule, so `and reasons` never matters; any of the first three rules alone reaches 3; otherwise 3 needs both the unpaid and the overtime rule |
| AttendanceAlerts.ScoreMonotone | src/eun/attendance/app.py:195-213 | more of any count never lowers the score |
| AttendanceAlerts.AlertExactlyAtThreshold | src/eun/attendance/app.py:215-221 | a group gives an alert iff its score is at least 3, carrying the key, the score and the reasons joined by ", " |
| AttendanceAlerts.AlertShape | src/eun/attendance/app.py:215-221 | an alert's score is at least 3 and its reason is non-empty |
| AttendanceAlerts.NameFallback | src/eun/attendance/storage2.py:127 | `emp_name or emp_id` replaces only an empty name; a missing name is NaN, which is truthy |
| AttendanceAlerts.GroupAlerts | src/eun/attendance/app.py:180-221 | at most one alert per group, each scoring at least 3 |
| AttendanceAlerts.GroupAlertsFrom | src/eun/attendance/app.py:180-221 | every alert is its group's, and every alerting group's alert is there |
| AttendanceAlerts.ScoreGroup | src/eun/attendance/app.py:181-221 | the loop body counts the group and applies the five rules |
| AttendanceAlerts.BuildAlerts | src/eun/attendance/app.py:174-224 | `_build_alerts` over a frame, including its errors |
| AttendanceAlerts.AlertsOf | src/eun/attendance/app.py:165-224 | an empty frame gives no alerts; a non-empty frame without the `empId` or the `empName` column raises `KeyError`, and only then; otherwise at most 10 alerts by non-increasing score |
| AttendanceAlerts.AlertsOfEmpty | src/eun/attendance/app.py:174-175 | an empty frame gives `[]` |
| AttendanceAlerts.AlertsOfKeyed | src/eun/attendance/app.py:178 | a frame with rows raises iff it lacks `empId` or `empName`; otherwise it gives the ranked alerts |
| AttendanceAlerts.AlertsRanked | src/eun/attendance/app.py:223-224 | at most 10 alerts, non-increasing scores, ties in group order |
| AttendanceAlerts.TopAlerts | src/eun/attendance/app.py:223-224 | at most 10 alerts, by non-increasing score, each an alert of some group |
| AttendanceAlerts.AlertsFromGroups | src/eun/attendance/app.py:215-224 | each returned alert scores at least 3, has a reason and is a group's alert |
| AttendanceAlerts.AlertsLeftOut | src/eun/attendance/app.py:223-224 | an alerting group left out is outranked by all 10 kept alerts |
| AttendanceAlerts.FillKeepsGroupKeys | src/eun/attendance/app.py:354-356 | filling the minutes before scoring keeps the same groups in the same order |
| AttendanceAlerts.FillCounts | src/eun/attendance/app.py:354-356 | filling keeps the status, night and unpaid counts, and the overtime sum can only grow |
| AttendanceAlerts.FillNeverHidesAlerts | src/eun/attendance/app.py:354-356 | so the app's endpoint scores every group at least as high, and alerts at least about whom the unfilled frame alerts |
| AttendanceAlerts.FillRevealsOvertime | src/eun/attendance/app.py:142-143 | and can alert about more: 05:00 to 23:00 with 180 unpaid minutes alerts only after filling, at score 3 |
| AttendanceReport.EmployeeRows | src/eun/attendance/app.py:235 | the employee's rows are exactly the frame's rows with that id |
| AttendanceReport.EmptyPeriodRaises | src/eun/attendance/app.py:31-32 | for no records the frame has no columns, and the selection as written raises `KeyError` |
| AttendanceReport.SelectAsWritten | src/eun/attendance/app.py:235 | fails, with `KeyError`, exactly on a frame without the `empId` column; otherwise the employee's rows |
| AttendanceReport.Select | src/eun/attendance/app.py:235-237 | a frame without rows selects nothing; a frame with rows but no `empId` column fails, and only that one; otherwise the employee's rows |
| AttendanceReport.SelectCorrects | src/eun/attendance/app.py:235-237 | the corrected selection agrees with the original on frames with rows, fails only without an `empId` column, and selects exactly the employee's rows |
| AttendanceReport.NoDataExactly | src/eun/attendance/app.py:235-237 | all four reports give the message-only result iff the employee has no rows |
| AttendanceReport.FirstName | src/eun/attendance/app.py:241-245 | the first recorded name, and none iff no row has a name |
| AttendanceReport.ReportAppName | src/eun/attendance/app.py:241-245 | the report names the employee by the id or by one of the employee's names |
| AttendanceReport.StatusCountsExact | src/eun/attendance/app.py:248-250 | `value_counts` has a bar for each label that occurs, as high as its count; a missing status counts as "UNKNOWN" |
| AttendanceReport.ReportAppCounts | src/eun/attendance/app.py:248-250 | no bar is empty, and each of the employee's statuses has one |
| AttendanceReport.SortByWorkDateOrdered | src/eun/attendance/app.py:253 | sorting by `workDate` only reorders, puts missing dates last, and never puts a later date before an earlier one |
| AttendanceReport.SortByWorkDate | src/eun/attendance/app.py:253 | the sorted rows are a permutation of the employee's rows |
| AttendanceReport.Labels | src/eun/attendance/app.py:254 | one label per row: its ISO date or "" |
| AttendanceReport.ReportAppShape | src/eun/attendance/app.py:253-273 | labels, the minute series and both clock-time series all have one entry per row of the employee, and the two label lists agree |
| AttendanceReport.ReportApp | src/eun/attendance/app.py:227-335 | the no-data and error outcomes of the selection; a report carries both the minute series with `total` and the clock-time series, one label per row of the employee |
| AttendanceReport.BulletsRules | src/eun/attendance/app.py:287-298 | the counts sentence always comes first; each later sentence is there iff its count is positive, in template order |
| AttendanceReport.BulletCount | src/eun/attendance/app.py:287-298 | one bullet plus one per positive observation |
| AttendanceReport.RisksAndActions | src/eun/attendance/app.py:300-321 | there is a risk iff absent > 0, late ≥ 3 or a night without checkout; the actions are never empty, one per risk, or the monitoring default alone |
| AttendanceReport.RiskActionPairs | src/eun/attendance/app.py:300-319 | each risk comes with its own action |
| AttendanceReport.SummaryClean | src/eun/attendance/app.py:308-311 | the summary is the no-anomaly sentence iff there is no risk |
| AttendanceReport.ShiftedCheckOutRange | src/eun/attendance/routes.py:193-203 | the checkout minute is in [0, 2880), is 1440 or more iff the checkout date is after `workDate`, and is the clock minute modulo 1440 |
| AttendanceReport.CollectTimes | src/eun/attendance/routes.py:186-208 | the row loop gives one label, check-in and shifted check-out per row, in order |
| AttendanceReport.BuildSeriesTimes | src/eun/attendance/routes.py:177-210 | `_build_series_times`: three empty lists for no rows, otherwise the row loop over the rows sorted by date |
| AttendanceReport.NightShiftCharts | src/eun/attendance/routes.py:196-203 | a 22:00 to 06:00 night shift: `app.py` charts the checkout at 360, `routes.py` at 1800 |
| AttendanceReport.ReportRoutes | src/eun/attendance/routes.py:213-291 | the no-data and error outcomes of the selection; a report carries only the clock-time series, one label per row of the employee |
| AttendanceReport.ReportRoutesGuardsSums | src/eun/attendance/routes.py:238-239 | a missing `unpaidMinutes` or `overtimeWorkMinutes` column sums to 0, so its bullet is absent; with the column present the bullet appears exactly when the sum is positive |
| AttendanceReport.ReportStorage1 | src/eun/attendance/storage1.py:137-225 | the no-data and error outcomes of the selection; a report carries only the minute series, without `total`, one label per row of the employee |
| AttendanceReport.ReportStorage1Series | src/eun/attendance/storage1.py:156-164 | labels and normal, overtime and unpaid minutes are equally long, one entry per row of the employee, in `workDate` order with undated rows last |
| AttendanceReport.FilledRows | src/eun/attendance/app.py:239 | the app's report fills each of the employee's rows |
| AttendanceReport.Storage2ReportNeverRaises | src/eun/attendance/storage2.py:136-143 | the `storage2.py` frames carry every column its report reads without a guard, so it never raises |
| AttendanceReport.ReportStorage2 | src/eun/attendance/storage2.py:136-212 | fails exactly for rows without an `empId` column, or when the employee has rows and a name, status or type column is missing; otherwise no data or a report |
| ChatText.NormalizeRemovesWhitespace | src/young/chatbot/text_utils.py:5-8 | `""` for empty or missing input; otherwise the input with its whitespace removed, which has no whitespace, is no longer, and equals the input iff it had none |
| ChatText.RemoveSpacesShorter | src/young/chatbot/text_utils.py:8 | removing whitespace never lengthens, and keeps the length iff there was none |
| ChatText.NormalizeIdempotent | src/young/chatbot/text_utils.py:8 | normalising twice is normalising once |
| ChatText.NormalizeKoreanText | src/young/chatbot/text_utils.py:4-8 | missing and empty text give ""; the result has no whitespace, is never longer than the input, and is the input exactly when the input has no whitespace |
| ChatIndex.CorpusEntries | src/young/chatbot/tfidf_index.py:9-13 | one corpus entry per document, `(title + "\n" + content).strip()` |
| ChatIndex.BuildCorpus | src/young/chatbot/tfidf_index.py:9-13 | the append loop builds that corpus |
| ChatIndex.CorpusEntryOfTrimmedDoc | src/young/chatbot/tfidf_index.py:12 | a stripped document's entry is `title + "\n" + content` |
| ChatIndex.RetrieveTopDocs | src/young/chatbot/tfidf_index.py:31-41 | `[]` without an index; otherwise the first `top_k` of the ranking, each with its document and score, by non-increasing score |
| ChatIndex.RetrieveTopK | src/young/chatbot/tfidf_index.py:36-41 | exactly `min(top_k, n)` distinct documents; any document left out scores no higher than every kept one; all are kept when `top_k ≥ n` |
| ChatIndex.FormatContext | src/young/chatbot/tfidf_index.py:44-57 | the loop builds the context text |
| ChatIndex.KeptCount | src/young/chatbot/tfidf_index.py:49-51 | no entry is kept iff every score is below `min_score` |
| ChatIndex.ContextLinesLayout | src/young/chatbot/tfidf_index.py:49-55 | 3 lines per kept entry; the entry numbered `i` keeps its 1-based number and sits after the kept entries before it |
| ChatIndex.ContextTextFallback | src/young/chatbot/tfidf_index.py:45-57 | the text is the not-found message iff no entry is kept (also for no entries at all) |
| ChatIndex.BuildContextText | src/young/chatbot/question_service.py:97-106 | without an index the context is the not-found message |
| ChatOllama.ContextMessage | src/young/chatbot/ollama_client.py:17-26 | the second system message embeds the context text between the fixed head and tail |
| ChatOllama.WindowSize | src/young/chatbot/ollama_client.py:30-31 | the history window is `min(8, len(history))` |
| ChatOllama.BuildMessages | src/young/chatbot/ollama_client.py:28-33 | the method builds the message list |
| ChatOllama.MessagesShape | src/young/chatbot/ollama_client.py:28-33 | two system messages, then the last `min(8, n)` history entries, then the user message: `3 + min(8, n)` in all |
| ChatOllama.MessagesKeepHistoryOrder | src/young/chatbot/ollama_client.py:30-31 | the history entries keep their order |
| ChatOllama.PayloadOf | src/young/chatbot/ollama_client.py:35-39 | model `gemma3:4b`, `stream` false, and the messages |
| ChatOllama.ReplyText | src/young/chatbot/ollama_client.py:45 | the stripped content, `""` when the message or content is missing |
| ChatOllama.AskOllama | src/young/chatbot/ollama_client.py:41-45 | fails iff the post fails, with its error; otherwise a stripped answer |
| ChatHistory.History.Record | src/young/chatbot/question_service.py:161-165 | the two appends and the trimming `del` |
| ChatHistory.AfterTurnShape | src/young/chatbot/question_service.py:161-165 | at most 20 messages, ending with this turn's question then its answer, the newest suffix of old history plus the turn |
| ChatHistory.AfterTurnDrops | src/young/chatbot/question_service.py:164-165 | nothing is dropped up to 18 old messages; from 20, exactly the two oldest go |
| ChatHistory.AfterTurn | src/young/chatbot/question_service.py:161-165 | the history grows by two up to a length of 20 and ends with the question and then the answer |
| ChatHistory.NextPromptRecallsTurn | src/young/chatbot/ollama_client.py:30-33 | the next prompt carries this turn just before its own question |
| ChatCsvLoader.CsvNameAnyCase | src/young/chatbot/csv_loader.py:55-56 | a file is read iff its name ends in `.csv` in any letter case |
| ChatCsvLoader.RowDocExact | src/young/chatbot/csv_loader.py:63-72 | a row gives a document iff its stripped text and intent are both non-empty, and the document is `{title: text, content: intent}` stripped |
| ChatCsvLoader.ReadRows | src/young/chatbot/csv_loader.py:62-72 | the row loop appends each row's document |
| ChatCsvLoader.LoadDocuments | src/young/chatbot/csv_loader.py:48-77 | the loader computes its result or error |
| ChatCsvLoader.RowDocsFrom | src/young/chatbot/csv_loader.py:62-72 | the file's documents are exactly those of its qualifying rows |
| ChatCsvLoader.DocsProvenance | src/young/chatbot/csv_loader.py:54-72 | a document is loaded iff some row of some `.csv` file gives it |
| ChatCsvLoader.DocsTrimmed | src/young/chatbot/csv_loader.py:63-64 | every document is stripped and non-empty |
| ChatCsvLoader.DocsOfAppend | src/young/chatbot/csv_loader.py:54-72 | files contribute in listing order |
| ChatCsvLoader.LoadErrors | src/young/chatbot/csv_loader.py:51-52 | `FileNotFoundError` iff the directory is missing; `ValueError` iff no valid row exists; otherwise a non-empty list of stripped documents |
| ChatCsvLoader.LoadOf | src/young/chatbot/csv_loader.py:48-77 | `FileNotFoundError` exactly for a missing directory, otherwise only the fixed `ValueError`; a success holds at least one document, each trimmed |
| ChatCsvLoader.LoadedCorpus | src/young/chatbot/csv_loader.py:82-87 | the corpus of loaded documents is `title + "\n" + content` per document |
| ChatCsvLoader.CsvChatbot.AskAsWritten | src/young/chatbot/csv_loader.py:193-221 | the route as written |
| ChatCsvLoader.AskAsWrittenNeverAnswers | src/young/chatbot/csv_loader.py:203-207 | as written the route never answers: after the input checks it is always 500 |
| ChatCsvLoader.AskAsWrittenOf | src/young/chatbot/csv_loader.py:193-221 | never a 200 answer; 400 exactly for an empty or blank question |
| ChatCsvLoader.CsvChatbot.Ask | src/young/chatbot/csv_loader.py:193-221 | the route without the undefined call, updating the history in place |
| ChatCsvLoader.AskRejects | src/young/chatbot/csv_loader.py:194-201 | 400 iff the stripped message is empty; 500 "not initialised" without documents; history unchanged |
| ChatCsvLoader.AskAnswers | src/young/chatbot/csv_loader.py:209-221 | the answer is the LLM reply to the prompt with context and history, and the history takes the turn; an LLM error gives 500 with history unchanged |
| ChatCsvLoader.AskKeepsHistoryBounded | src/young/chatbot/csv_loader.py:212-216 | the history stays at most 20 |
| ChatCsvLoader.AskOf | src/young/chatbot/csv_loader.py:193-221 | 400 exactly for an empty or blank question; every status is 200, 400 or 500; an error leaves the history alone; an answer ends the history with the question and the answer; the history stays within 20 messages |
| IssueCluster.Scores | src/young/chatbot/issue_cluster.py:56-57 | one similarity per cluster, in table order |
| IssueCluster.BestOf | src/young/chatbot/issue_cluster.py:53-64 | no selection leaves score 0; a selection is a valid index holding the score |
| IssueCluster.BestIsFirstMaximum | src/young/chatbot/issue_cluster.py:53-64 | the score is the maximum; nothing is selected iff no score is positive; otherwise the first cluster with the strictly maximal score is selected |
| IssueCluster.SelectBest | src/young/chatbot/issue_cluster.py:53-64 | the loop computes that selection |
| IssueCluster.IssueClusters.Upsert | src/young/chatbot/issue_cluster.py:49-112 | the upsert updates the table in place and keeps ids unique |
| IssueCluster.UpsertKeepsKeys | src/young/chatbot/issue_cluster.py:86-107 | ids stay unique and no higher than the sequence |
| IssueCluster.UpsertExisting | src/young/chatbot/issue_cluster.py:70-83 | at score ≥ 0.70 the selected id is returned, its count goes up by 1, and nothing else changes |
| IssueCluster.UpsertNew | src/young/chatbot/issue_cluster.py:86-112 | otherwise, also without clusters, a new cluster with count 1 under the next sequence id is appended and its id returned |
| IssueCluster.UpsertCountsOnce | src/young/chatbot/issue_cluster.py:70-112 | each upsert adds exactly one to the total count |
| IssueCluster.UpsertOf | src/young/chatbot/issue_cluster.py:49-112 | either the table keeps its size and the sequence its value, or one row with the next id, the raw title and a count of 1 is appended and that id returned; with no cluster a new one is opened; the returned id is in the table |
| QuestionService.IsInvalidQuestion | src/young/chatbot/question_service.py:52-62 | invalid iff the raw text is empty or a listed word is in the raw or the normalised text |
| QuestionService.RawHasBadWord | src/young/chatbot/question_service.py:116-119 | the raw loop finds a listed word iff one occurs |
| QuestionService.BadWordsHaveNoSpace | src/young/chatbot/question_service.py:50 | no listed word has whitespace |
| QuestionService.NormalizedLookupSuffices | src/young/chatbot/question_service.py:52-62 | a word in the raw text survives normalisation, so the check is "empty, or a word in the normalised text" |
| QuestionService.SpacedBadWordCaught | src/young/chatbot/question_service.py:116-127 | "시 발" passes the raw loop but the normalised check refuses it |
| QuestionService.Service.HandleQuestion | src/young/chatbot/question_service.py:111-172 | the method computes the answer, history and clusters of the turn |
| QuestionService.HandleRefusesOrCounts | src/young/chatbot/question_service.py:116-133 | an invalid question is refused with nothing changed; a valid one with the database up counts once; the database down changes no cluster |
| QuestionService.HandleNotInitialised | src/young/chatbot/question_service.py:145-146 | without documents or index, the counted question gets the not-initialised answer and the history is kept |
| QuestionService.HandleFailsClosed | src/young/chatbot/question_service.py:169-172 | a failing database, log connection or LLM gives the internal-error answer with the history unchanged |
| QuestionService.HandleAnswers | src/young/chatbot/question_service.py:149-167 | the answer is the reply to the normalised question; the history holds at most 20 and ends with the raw question then the answer |
| QuestionService.HandleKeepsHistory | src/young/chatbot/question_service.py:160-165 | the history is unchanged or takes exactly this turn, and stays at most 20 |
| QuestionService.HandleOf | src/young/chatbot/question_service.py:111-172 | an invalid question is refused and changes nothing; a database failure leaves the table alone; the history is either unchanged or extended by this question and its answer, only for a valid question and a loaded knowledge base, and stays within 20 messages |
| SqlSearch.Classify | src/hyun/search/routes.py:91-95 | a `SQL:` line takes precedence over an `EXPLANATION:` line |
| SqlSearch.ParseReply | src/hyun/search/routes.py:86-95 | the line loop computes the parse |
| SqlSearch.LastSql | src/hyun/search/routes.py:90-93 | the last SQL line, none iff there is none |
| SqlSearch.LastSqlLineWins | src/hyun/search/routes.py:86-93 | the SQL is the remainder of the last SQL line, `""` without one |
| SqlSearch.LastExplanationLineWins | src/hyun/search/routes.py:87-95 | the explanation is the remainder of the last explanation line, `""` without one |
| SqlSearch.TagsExclusive | src/hyun/search/routes.py:92-94 | no line carries both tags |
| SqlSearch.TagsAnyCase | src/hyun/search/routes.py:91-94 | the tags match in any letter case |
| SqlSearch.SqlLineParses | src/hyun/search/routes.py:93 | `"SQL: " + sql` gives back `sql` |
| SqlSearch.ExplanationLineParses | src/hyun/search/routes.py:95 | `"EXPLANATION: " + e` gives back `e` |
| SqlSearch.FormattedReplyParses | src/hyun/search/routes.py:86-95 | a reply in the prompt's format parses back to its SQL and explanation |
| SqlSearch.ParseContent | src/hyun/search/routes.py:86-95 | the SQL is that of the last SQL line and the explanation that of the last explanation line, each "" when there is none |
| SqlSearch.Predict | src/hyun/search/routes.py:27-104 | the method computes the route's outcome |
| SqlSearch.PredictRejects | src/hyun/search/routes.py:30-31 | rejected with 400 iff the question is missing or empty |
| SqlSearch.PredictGenerates | src/hyun/search/routes.py:98-104 | "fail" iff the SQL is empty or has "ERROR" in any case; otherwise the SQL and explanation |
| SqlSearch.PredictOf | src/hyun/search/routes.py:24-104 | rejected exactly for a missing or empty question; raised exactly when the model call fails; otherwise the fixed failure or SQL that is non-empty and free of `ERROR` for this question |
| SqlSearch.NoSqlLineFails | src/hyun/search/routes.py:86-104 | a reply without a SQL line fails |
| SqlSearch.FormattedReplyGenerates | src/hyun/search/routes.py:83-104 | a formatted reply without "ERROR" generates its SQL and explanation |

## Left out

- The TF-IDF vectorizer, the sentence encoders and `cosine_similarity` are foreign libraries. They are function parameters. So are the Kiwi analyser (`_tokenize_with_kiwi`, the Kiwi path of `extract_nouns`) and the configuration tables (`TFIDF_CONFIG`, `RECOMMENDATION_CONFIG`, `SENTIMENT_KEYWORDS`, `POLICY_KEYWORDS`).
- `base_recommender.py`, `get_recommender` and `src/gyu/routes.py` are not part of this model. They are an interface, an import-time fallback and request handling.
- Floating point is modelled as exact reals. `round(similarity, 4)` is not modelled, and neither is the rounding of `round(diff)` in `_calc_total_minutes_from_times`: times are whole minutes.
- Letter case covers ASCII only. `\w` covers ASCII letters and digits, `_`, Hangul and CJK ideographs.
- Sorting: `argsort(-sims)` is an oracle ranking constrained to be non-increasing, since its tie order is unspecified. `sort_values("workDate")` is not stable in pandas but is modelled as stable.
- `pd.to_datetime` is a parser parameter from values to optional dates and times.
- Group keys:
  - a missing group key reaches the `storage2.py` name fallback as NaN, which is truthy;
  - string order is by code point.
- All Flask routes, `request`, `jsonify`, `date.today()` defaults and `_spring_get` are not part of this model. The Spring result reaches the model as the record list.
- The SQL-search steps after parsing are not modelled: the Spring call and its 502 and non-200 outcomes, lines 109-140 of `src/hyun/search/routes.py`. The prompt text is not modelled either. `Outcome.Generated` stops at the parsed SQL.
- A request body that is not a JSON object is not modelled.
- The database is not modelled:
  - `src/young/db.py`, `_load_all_clusters`, the JSON embedding column, `UPDATED_AT`, `HR_CHAT_LOG`;
  - `save_question_log` shows only as whether its connection succeeds. When it fails, its `finally` raises and `handle_question` returns the internal error; its inserts are left out.
  - `ISSUE_CLUSTER_SEQ.CURRVAL` is the class's `lastId` plus one.
- The cosine between embeddings is an oracle on the normalised texts.
- `src/young/chatbot/routes.py` (including `/stats`) and `src/young/phaseAi/routes.py` are not part of this model.
- The import-time loading and `print` logging are not modelled. Loading becomes the constructor's `loaded` and `fitted` parameters.
- `csv_loader.py` has its own copies of `retrieve_top_docs`, `format_context` and `ask_ollama` (lines 115-187). They are the shared `ChatIndex` and `ChatOllama` functions over its global state.
- The directory listing order of `os.listdir` is the order of the `files` parameter.
- Non-text JSON values in the chatbot request and in the `question` of `predict` (`src/hyun/search/routes.py`) are not modelled: a truthy non-text question, such as a number, would be formatted into the prompt.
- ChatOllama.ReplyText: a reply whose `message` or `content` is present as `null` raises `AttributeError` in `ollama_client.py:45`; the model reads it as "", because the reply record holds text only.
- ChatCsvLoader.LoadOf: the failures of `open()` at `csv_loader.py:60` are not modelled: a file that is not UTF-8, an `OSError`, or a directory entry whose name ends in `.csv`.
- AttendanceFrame.MinuteValue: a JSON float minute value, such as 30.7 (30 in pandas), is not modelled, because `JavaValue` has no float case. Numeric text is read as an exact decimal, so float64 rounding of long digit strings and values beyond 64 bits are not modelled. The spellings `inf` and `infinity`, on which `astype(int)` raises, are read as not a number and give 0.
- AttendanceFrame.ToDfStorage1: its minute columns go through `MinuteValue`, so they share its gaps: no JSON floats, no float64 rounding, no `inf`.
- AttendanceFrame.ToDfStorage2: as `ToDfStorage1`, its minute columns share the gaps of `MinuteValue`.
- AttendanceFrame.ToDfNormalizing: as `ToDfStorage1`, its minute columns share the gaps of `MinuteValue`.
- AttendanceFrame.RawRecord: `empId`, `empName`, `workStatus` and `workType` are text or `null` only, so a numeric `empId` that would never equal the text `emp_id` is not modelled.

## Findings

| source | as written | input that shows it | evidently intended | confidence | as-written member | corrected member |
|---|---|---|---|---|---|---|
| src/eun/attendance/app.py:31-32, 235 (same in routes.py:59-60, 214; storage1.py:33-34, 144; storage2.py:29-30, 137) | `_to_df([])` returns a frame without columns, and `df["empId"]` on it raises `KeyError`, so the route answers 500 | a period without any attendance record | the "no data for the period" message, which the `g.empty` branch is there to give | high, not executed | AttendanceReport.SelectAsWritten, AttendanceReport.EmptyPeriodRaises | AttendanceReport.Select, AttendanceReport.NoDataExactly |
| src/young/chatbot/csv_loader.py:204-207 | `ask` calls `save_question_log`, which is neither defined nor imported there; the `NameError` is caught and returned as 500 | any non-empty message once the documents are loaded, if the blueprint is registered: `src/__init__.py:7-13` registers the blueprints of `src/young/chatbot/routes.py`, `src/hyun/search/routes.py` and `src/young/phaseAi/routes.py` but not this one, so as shipped the route is not reachable | log the question, then answer it | high, not executed | ChatCsvLoader.CsvChatbot.AskAsWritten, ChatCsvLoader.AskAsWrittenNeverAnswers | ChatCsvLoader.CsvChatbot.Ask, ChatCsvLoader.AskAnswers |

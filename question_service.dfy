/**
 * The chatbot's question service: the bad-word filter, and `handle_question`, which filters a
 * question, counts it in the issue clusters, logs it, and answers it from the HR documents
 * through the language model while keeping the conversation history.
 *
 * The world outside the process is one value: the embedding similarity of the issue
 * clusters, whether the database answers the upsert and the log, the vectoriser's ranking of
 * a query and the language-model endpoint.
 */
module QuestionService {
  import opened Wrappers
  import opened PyStr
  import opened ChatText
  import opened ChatIndex
  import opened ChatOllama
  import opened ChatHistory
  import opened ChatCsvLoader
  import opened IssueCluster

  // ---------------------------------------------------------------------------
  // The question filter
  // ---------------------------------------------------------------------------

  /** `BAD_WORDS`, in order and with its repeated entry. */
  const BadWords: seq<string> := ["시발", "병신", "개새끼", "개새", "욕설", "좆됐다", "존나", "즐", "조까", "욕설"]

  /** Some entry of `BAD_WORDS` occurs in `s`. */
  predicate ContainsBadWord(s: string)
  {
    exists i :: 0 <= i < |BadWords| && Contains(s, BadWords[i])
  }

  /** What `is_invalid_question(raw_text, normalized_text)` answers. */
  predicate Invalid(raw: string, normalized: string)
  {
    raw == [] || ContainsBadWord(raw) || ContainsBadWord(normalized)
  }

  /** `is_invalid_question`: an empty question is invalid; otherwise each bad word is looked up
      in the raw and then in the normalized text, and the first hit makes it invalid. */
  method IsInvalidQuestion(raw: string, normalized: string) returns (invalid: bool)
    ensures invalid <==> Invalid(raw, normalized)
  {
    if raw == [] {
      return true;
    }
    for i := 0 to |BadWords|
      invariant forall k :: 0 <= k < i ==> !Contains(raw, BadWords[k]) && !Contains(normalized, BadWords[k])
    {
      if Contains(raw, BadWords[i]) {
        return true;
      }
      if Contains(normalized, BadWords[i]) {
        return true;
      }
    }
    return false;
  }

  /** The loop on the raw message at the start of `handle_question`. */
  method RawHasBadWord(userMessage: string) returns (found: bool)
    ensures found <==> ContainsBadWord(userMessage)
  {
    for i := 0 to |BadWords|
      invariant forall k :: 0 <= k < i ==> !Contains(userMessage, BadWords[k])
    {
      if Contains(userMessage, BadWords[i]) {
        return true;
      }
    }
    return false;
  }

  lemma {:induction false} ContainsAfter(p: string, t: string, w: string)
    requires Contains(t, w)
    ensures Contains(p + t, w)
    decreases |p|
  {
    if p == [] {
      assert p + t == t;
    } else {
      ContainsAfter(p[1..], t, w);
      assert (p + t)[1..] == p[1..] + t;
    }
  }

  /** A word without whitespace that occurs in a text still occurs once the whitespace is
      removed. */
  lemma {:induction false} ContainsRemoveSpaces(text: string, w: string)
    requires NoSpace(w) && Contains(text, w)
    ensures Contains(RemoveSpaces(text), w)
    decreases |text|
  {
    if w <= text {
      var rest := text[|w|..];
      assert text == w + rest;
      RemoveSpacesAppend(w, rest);
      RemoveSpacesOfNoSpace(w);
      assert RemoveSpaces(text) == w + RemoveSpaces(rest);
    } else {
      ContainsRemoveSpaces(text[1..], w);
      var head := if IsSpace(text[0]) then [] else [text[0]];
      assert RemoveSpaces(text) == head + RemoveSpaces(text[1..]);
      ContainsAfter(head, RemoveSpaces(text[1..]), w);
    }
  }

  /** No bad word holds whitespace. */
  lemma BadWordsHaveNoSpace()
    ensures forall i :: 0 <= i < |BadWords| ==> NoSpace(BadWords[i])
  {
  }

  /** Normalising never hides a bad word, so the normalized look-up catches everything the raw
      one does: a non-empty question is invalid exactly when its normalized text holds a bad
      word. */
  lemma NormalizedLookupSuffices(raw: string)
    ensures ContainsBadWord(raw) ==> ContainsBadWord(NormalizeKoreanText(Some(raw)))
    ensures Invalid(raw, NormalizeKoreanText(Some(raw))) <==>
            raw == [] || ContainsBadWord(NormalizeKoreanText(Some(raw)))
  {
    NormalizeRemovesWhitespace(Some(raw));
    if ContainsBadWord(raw) {
      var i :| 0 <= i < |BadWords| && Contains(raw, BadWords[i]);
      BadWordsHaveNoSpace();
      ContainsRemoveSpaces(raw, BadWords[i]);
    }
  }

  /** A word whose first character is not in a text does not occur in it. */
  lemma {:induction false} MissingFirstChar(text: string, w: string)
    requires w != [] && w[0] !in text
    ensures !Contains(text, w)
    decreases |text|
  {
    if text != [] {
      assert text[0] != w[0];
      MissingFirstChar(text[1..], w);
    }
  }

  /** No bad word occurs in "시 발": it is "시발" with a space inside. */
  lemma SpacedBadWordMissed()
    ensures !ContainsBadWord("시 발")
  {
    var text := "시 발";
    forall i | 0 <= i < |BadWords| ensures !Contains(text, BadWords[i]) {
      if i == 0 {
        assert text[1] != BadWords[0][1];
        assert text[1..] == " 발";
        MissingFirstChar(text[1..], BadWords[0]);
      } else {
        MissingFirstChar(text, BadWords[i]);
      }
    }
  }

  /** A bad word written with a space inside escapes the raw look-up and is caught by the
      normalized one. */
  lemma SpacedBadWordCaught()
    ensures !ContainsBadWord("시 발")
    ensures NormalizeKoreanText(Some("시 발")) == "시발"
    ensures Invalid("시 발", NormalizeKoreanText(Some("시 발")))
  {
    SpacedBadWordMissed();
    NormalizeRemovesWhitespace(Some("시 발"));
    assert RemoveSpaces("시 발") == "시발";
    assert Contains("시발", BadWords[0]);
  }

  // ---------------------------------------------------------------------------
  // handle_question
  // ---------------------------------------------------------------------------

  const RefusalText: string := "업무와 관련된 질문만 가능합니다(욕설 금지!)"
  const InternalErrorText: string := "서버 내부 오류가 발생했습니다."

  /** What `handle_question` depends on outside the process. */
  datatype World = World(
    similarity: (string, string) -> real,   // cosine of two sentence embeddings
    dbUp: bool,                             // `upsert_issue_cluster` reaches the database
    logConnects: bool,                      // `save_question_log` gets a connection
    index: string -> Ranking,               // the TF-IDF ranking of a query
    post: Payload -> Result<Reply, string>) // the language-model endpoint

  /** The answer and the state a question leaves behind: the history and the issue table. */
  datatype Turn = Turn(answer: string, history: seq<Message>, clusters: seq<Cluster>, lastId: int)

  function Normalized(message: string): string
  {
    NormalizeKoreanText(Some(message))
  }

  /** `handle_question(user_message)` as a value. A failing upsert raises before it changes
      the table; a failing log connection raises from its `finally` after the upsert, so the
      question stays counted; a failing language-model call raises before the history
      changes. Every raise ends in the fixed internal-error answer. */
  function HandleOf(ready: bool, documents: seq<Doc>, history: seq<Message>, clusters: seq<Cluster>,
                    lastId: int, message: string, w: World): (r: Turn)
    requires ready ==> IndexOver(w.index, documents)
    ensures Invalid(message, Normalized(message)) ==> r == Turn(RefusalText, history, clusters, lastId)
    ensures !w.dbUp ==> r.clusters == clusters && r.lastId == lastId
    ensures r.history == history || r.history == AfterTurn(history, message, r.answer)
    ensures r.history != history ==> !Invalid(message, Normalized(message)) && ready && documents != []
    ensures |history| <= HistoryLimit ==> |r.history| <= HistoryLimit
  {
    var normalized := Normalized(message);
    if ContainsBadWord(message) || Invalid(message, normalized) then
      Turn(RefusalText, history, clusters, lastId)
    else if !w.dbUp then
      Turn(InternalErrorText, history, clusters, lastId)
    else
      var u := UpsertOf(clusters, lastId, message, normalized, w.similarity);
      if !w.logConnects then
        Turn(InternalErrorText, history, u.clusters, u.lastId)
      else if documents == [] || !ready then
        Turn(NotInitialisedText, history, u.clusters, u.lastId)
      else
        var context := BuildContextText(ready, documents, w.index, normalized);
        match AskOllama(w.post, normalized, context, history)
        case Err(_) => Turn(InternalErrorText, history, u.clusters, u.lastId)
        case Ok(answer) => Turn(answer, AfterTurn(history, message, answer), u.clusters, u.lastId)
  }

  /** The module-level state of `question_service`: the documents and the fitted index loaded
      at import, the chat history and the issue table. */
  class Service {
    const documents: seq<Doc>
    /** `vectorizer` and `doc_vectors` are set. */
    const ready: bool
    const history: History
    const issues: IssueClusters

    /** The import-time `try`: loading or fitting failing leaves no documents and no index. */
    constructor(loaded: Result<seq<Doc>, LoadError>, fitted: bool, issues: IssueClusters)
      ensures ready == (loaded.Ok? && fitted)
      ensures documents == if ready then loaded.value else []
      ensures this.issues == issues
      ensures fresh(history) && history.entries == []
    {
      ready := loaded.Ok? && fitted;
      documents := if loaded.Ok? && fitted then loaded.value else [];
      this.issues := issues;
      history := new History();
    }

    /** `handle_question(user_message)`. */
    method HandleQuestion(userMessage: string, w: World) returns (answer: string)
      requires ready ==> IndexOver(w.index, documents)
      requires issues.Valid()
      modifies history, issues
      ensures issues.Valid()
      ensures Turn(answer, history.entries, issues.clusters, issues.lastId) ==
              HandleOf(ready, documents, old(history.entries), old(issues.clusters), old(issues.lastId), userMessage, w)
    {
      var found := RawHasBadWord(userMessage);
      if found {
        return RefusalText;
      }
      var normalized := NormalizeKoreanText(Some(userMessage));
      var invalid := IsInvalidQuestion(userMessage, normalized);
      if invalid {
        return RefusalText;
      }
      if !w.dbUp {
        return InternalErrorText;
      }
      var issueId := issues.Upsert(userMessage, normalized, w.similarity);
      if !w.logConnects {
        return InternalErrorText;
      }
      if documents == [] || !ready {
        return NotInitialisedText;
      }
      var context := BuildContextText(ready, documents, w.index, normalized);
      var reply := AskOllama(w.post, normalized, context, history.entries);
      if reply.Err? {
        return InternalErrorText;
      }
      answer := reply.value;
      history.Record(userMessage, answer);
    }
  }

  /** An empty question, or one holding a bad word before or after normalising, is refused
      and changes nothing; any other question is counted exactly once in the issue table,
      whatever happens after the upsert. */
  lemma HandleRefusesOrCounts(ready: bool, documents: seq<Doc>, history: seq<Message>, clusters: seq<Cluster>,
                              lastId: int, message: string, w: World)
    requires ready ==> IndexOver(w.index, documents)
    requires WellKeyed(clusters, lastId)
    ensures var t := HandleOf(ready, documents, history, clusters, lastId, message, w);
      && (Invalid(message, Normalized(message)) ==> t == Turn(RefusalText, history, clusters, lastId))
      && (!Invalid(message, Normalized(message)) && w.dbUp ==> TotalCount(t.clusters) == TotalCount(clusters) + 1)
      && (!w.dbUp ==> t.clusters == clusters && t.lastId == lastId)
  {
    if !Invalid(message, Normalized(message)) && w.dbUp {
      UpsertCountsOnce(clusters, lastId, message, Normalized(message), w.similarity);
    }
  }

  /** A question that passes the filter and is counted, while no documents or no index were
      loaded, gets the fixed "not initialised" answer and the history is left alone. */
  lemma HandleNotInitialised(ready: bool, documents: seq<Doc>, history: seq<Message>, clusters: seq<Cluster>,
                             lastId: int, message: string, w: World)
    requires ready ==> IndexOver(w.index, documents)
    requires !Invalid(message, Normalized(message)) && w.dbUp && w.logConnects
    requires documents == [] || !ready
    ensures var t := HandleOf(ready, documents, history, clusters, lastId, message, w);
      var u := UpsertOf(clusters, lastId, message, Normalized(message), w.similarity);
      t == Turn(NotInitialisedText, history, u.clusters, u.lastId)
  {
  }

  /** Every exception is caught into the fixed internal-error answer, and none of them changes
      the history. */
  lemma HandleFailsClosed(ready: bool, documents: seq<Doc>, history: seq<Message>, clusters: seq<Cluster>,
                          lastId: int, message: string, w: World)
    requires ready ==> IndexOver(w.index, documents)
    requires !Invalid(message, Normalized(message))
    requires !w.dbUp || !w.logConnects ||
             (documents != [] && ready &&
              w.post(PayloadOf(Normalized(message), BuildContextText(ready, documents, w.index, Normalized(message)), history)).Err?)
    ensures var t := HandleOf(ready, documents, history, clusters, lastId, message, w);
      t.answer == InternalErrorText && t.history == history
  {
  }

  /** An answered question: the model is asked about the normalized text with the documents
      retrieved for the normalized text and the current history; the reply, stripped, is the
      answer; the raw question and the answer end the new history, which keeps at most 20
      messages. */
  lemma HandleAnswers(ready: bool, documents: seq<Doc>, history: seq<Message>, clusters: seq<Cluster>,
                      lastId: int, message: string, w: World)
    requires ready ==> IndexOver(w.index, documents)
    requires !Invalid(message, Normalized(message)) && w.dbUp && w.logConnects
    requires documents != [] && ready
    requires w.post(PayloadOf(Normalized(message), BuildContextText(ready, documents, w.index, Normalized(message)), history)).Ok?
    ensures var t := HandleOf(ready, documents, history, clusters, lastId, message, w);
      var p := PayloadOf(Normalized(message), BuildContextText(ready, documents, w.index, Normalized(message)), history);
      && t.answer == ReplyText(w.post(p).value)
      && t.history == AfterTurn(history, message, t.answer)
      && |t.history| <= HistoryLimit
      && t.history[|t.history| - 2] == Message("user", message)
      && t.history[|t.history| - 1] == Message("assistant", t.answer)
  {
    var p := PayloadOf(Normalized(message), BuildContextText(ready, documents, w.index, Normalized(message)), history);
    AfterTurnShape(history, message, ReplyText(w.post(p).value));
  }

  /** Whatever happens, the history is either unchanged or extended by exactly this turn, so
      it never exceeds 20 messages once it starts within them. */
  lemma HandleKeepsHistory(ready: bool, documents: seq<Doc>, history: seq<Message>, clusters: seq<Cluster>,
                           lastId: int, message: string, w: World)
    requires ready ==> IndexOver(w.index, documents)
    ensures var t := HandleOf(ready, documents, history, clusters, lastId, message, w);
      && (t.history == history || t.history == AfterTurn(history, message, t.answer))
      && (|history| <= HistoryLimit ==> |t.history| <= HistoryLimit)
  {
    var t := HandleOf(ready, documents, history, clusters, lastId, message, w);
    AfterTurnShape(history, message, t.answer);
  }
}

/**
 * The CSV-backed chatbot: loading the question/answer documents from a directory of CSV files,
 * the knowledge base built from them at start-up, and the `/ask` route that answers a
 * question from the retrieved documents and the conversation so far.
 *
 * The file system is a parameter: a directory is `None` when `os.path.isdir` is false and
 * otherwise the files `os.listdir` yields, in that order, each with the rows its
 * `csv.DictReader` yields. The vectoriser, the similarities and the HTTP call are oracles as
 * in `ChatIndex` and `ChatOllama`.
 */
module ChatCsvLoader {
  import opened Wrappers
  import opened PyStr
  import opened ChatIndex
  import opened ChatOllama
  import opened ChatHistory

  // ---------------------------------------------------------------------------
  // Loading the documents
  // ---------------------------------------------------------------------------

  /** A CSV row: its `text` and `intent` fields, `None` when the column is missing or the row
      is short. */
  datatype CsvRow = CsvRow(text: Option<string>, intent: Option<string>)

  datatype CsvFile = CsvFile(name: string, rows: seq<CsvRow>)

  datatype LoadError = FileNotFoundError(message: string) | ValueError(message: string)

  const NoDocumentsMessage: string := "CSV 디렉터리에서 유효한 문서를 하나도 읽지 못했습니다."

  function MissingDirectoryMessage(path: string): string
  {
    "CSV 디렉터리를 찾을 수 없습니다: " + path
  }

  /** `filename.lower().endswith(".csv")` */
  predicate IsCsvName(name: string)
  {
    EndsWith(Lower(name), ".csv")
  }

  /** The extension test ignores case: it looks at the last four characters lowered. */
  lemma CsvNameAnyCase(name: string)
    ensures IsCsvName(name) <==>
      |name| >= 4 && LowerChar(name[|name| - 4]) == '.' && LowerChar(name[|name| - 3]) == 'c' &&
      LowerChar(name[|name| - 2]) == 's' && LowerChar(name[|name| - 1]) == 'v'
  {
    var l := Lower(name);
    if |name| >= 4 {
      var tail := l[|l| - 4..];
      assert tail[0] == l[|l| - 4] && tail[1] == l[|l| - 3] && tail[2] == l[|l| - 2] && tail[3] == l[|l| - 1];
    }
  }

  /** The document of one row: the stripped `text` as the question and the stripped `intent`
      as the answer, or nothing when either is empty. */
  function RowDoc(row: CsvRow): Option<Doc>
  {
    var question := Strip(row.text.GetOr(""));
    var answer := Strip(row.intent.GetOr(""));
    if question == [] || answer == [] then None else Some(Doc(question, answer))
  }

  /** The documents of a file's rows, in row order. */
  function RowDocs(rows: seq<CsvRow>): seq<Doc>
  {
    if rows == [] then []
    else
      var d := RowDoc(rows[|rows| - 1]);
      RowDocs(rows[..|rows| - 1]) + (if d.Some? then [d.value] else [])
  }

  /** The documents of one directory entry: none for a file that is not a CSV file. */
  function FileDocs(f: CsvFile): seq<Doc>
  {
    if IsCsvName(f.name) then RowDocs(f.rows) else []
  }

  /** The documents of a directory, file by file. */
  function DocsOf(files: seq<CsvFile>): seq<Doc>
  {
    if files == [] then [] else DocsOf(files[..|files| - 1]) + FileDocs(files[|files| - 1])
  }

  /** `load_documents_from_csv_dir(dir_path)` as a value. */
  function LoadOf(path: string, dir: Option<seq<CsvFile>>): (r: Result<seq<Doc>, LoadError>)
    ensures r.Err? && r.error.FileNotFoundError? <==> dir.None?
    ensures r.Err? ==> r.error == FileNotFoundError(MissingDirectoryMessage(path)) || r.error == ValueError(NoDocumentsMessage)
    ensures r.Ok? ==> r.value != [] && forall d :: d in r.value ==> Trimmed(d)
  {
    if dir.None? then Err(FileNotFoundError(MissingDirectoryMessage(path)))
    else if DocsOf(dir.value) == [] then Err(ValueError(NoDocumentsMessage))
    else
      DocsTrimmed(dir.value);
      Ok(DocsOf(dir.value))
  }

  lemma RowDocsStep(rows: seq<CsvRow>, j: nat)
    requires j < |rows|
    ensures RowDocs(rows[..j + 1]) ==
      RowDocs(rows[..j]) + (if RowDoc(rows[j]).Some? then [RowDoc(rows[j]).value] else [])
  {
    assert rows[..j + 1][..j] == rows[..j];
  }

  lemma DocsOfStep(files: seq<CsvFile>, i: nat)
    requires i < |files|
    ensures DocsOf(files[..i + 1]) == DocsOf(files[..i]) + FileDocs(files[i])
  {
    assert files[..i + 1][..i] == files[..i];
  }

  /** The rows of one CSV file appended to the documents so far. */
  method ReadRows(docs0: seq<Doc>, rows: seq<CsvRow>) returns (docs: seq<Doc>)
    ensures docs == docs0 + RowDocs(rows)
  {
    docs := docs0;
    var j := 0;
    while j < |rows|
      invariant 0 <= j <= |rows|
      invariant docs == docs0 + RowDocs(rows[..j])
    {
      RowDocsStep(rows, j);
      var question := Strip(rows[j].text.GetOr(""));
      var answer := Strip(rows[j].intent.GetOr(""));
      if question != [] && answer != [] {
        assert RowDocs(rows[..j + 1]) == RowDocs(rows[..j]) + [Doc(question, answer)];
        docs := docs + [Doc(question, answer)];
      }
      j := j + 1;
    }
    assert rows[..j] == rows;
  }

  /** `load_documents_from_csv_dir`: the directory check, the loop over its entries skipping
      files that are not CSV files, the row loop, and the check that something was read. */
  method LoadDocuments(path: string, dir: Option<seq<CsvFile>>) returns (r: Result<seq<Doc>, LoadError>)
    ensures r == LoadOf(path, dir)
  {
    if dir.None? {
      return Err(FileNotFoundError("CSV 디렉터리를 찾을 수 없습니다: " + path));
    }
    var files := dir.value;
    var docs: seq<Doc> := [];
    var i := 0;
    while i < |files|
      invariant 0 <= i <= |files|
      invariant docs == DocsOf(files[..i])
    {
      DocsOfStep(files, i);
      if IsCsvName(files[i].name) {
        docs := ReadRows(docs, files[i].rows);
      }
      i := i + 1;
    }
    assert files[..i] == files;
    if docs == [] {
      return Err(ValueError(NoDocumentsMessage));
    }
    return Ok(docs);
  }

  /** A document carries no surrounding whitespace and neither part is empty. */
  predicate Trimmed(d: Doc)
  {
    && d.title != [] && !IsSpace(d.title[0]) && !IsSpace(d.title[|d.title| - 1])
    && d.content != [] && !IsSpace(d.content[0]) && !IsSpace(d.content[|d.content| - 1])
  }

  /** A row yields a document exactly when both stripped fields are non-empty, and the
      document is those stripped fields. */
  lemma RowDocExact(row: CsvRow)
    ensures RowDoc(row).Some? <==> Strip(row.text.GetOr("")) != [] && Strip(row.intent.GetOr("")) != []
    ensures RowDoc(row).Some? ==>
      RowDoc(row).value == Doc(Strip(row.text.GetOr("")), Strip(row.intent.GetOr(""))) && Trimmed(RowDoc(row).value)
  {
  }

  /** The documents of a file are exactly the documents of its rows. */
  lemma {:induction false} RowDocsFrom(rows: seq<CsvRow>)
    ensures forall d :: d in RowDocs(rows) <==> exists j :: 0 <= j < |rows| && RowDoc(rows[j]) == Some(d)
  {
    if rows != [] {
      var n := |rows| - 1;
      var front := rows[..n];
      RowDocsFrom(front);
      var tail := if RowDoc(rows[n]).Some? then [RowDoc(rows[n]).value] else [];
      assert RowDocs(rows) == RowDocs(front) + tail;
      forall d ensures d in RowDocs(rows) <==> exists j :: 0 <= j < |rows| && RowDoc(rows[j]) == Some(d) {
        if d in RowDocs(front) {
          var j :| 0 <= j < |front| && RowDoc(front[j]) == Some(d);
          assert rows[j] == front[j];
        }
        if exists j :: 0 <= j < |rows| && RowDoc(rows[j]) == Some(d) {
          var j :| 0 <= j < |rows| && RowDoc(rows[j]) == Some(d);
          if j < n {
            assert rows[j] == front[j];
          } else {
            assert j == n && RowDoc(rows[n]) == Some(d);
            assert tail == [d];
          }
        }
      }
    }
  }

  /** A loaded document comes from a row of a CSV file of the directory. */
  lemma {:induction false} DocFromRow(files: seq<CsvFile>, d: Doc)
    requires d in DocsOf(files)
    ensures exists i, j :: 0 <= i < |files| && IsCsvName(files[i].name) && 0 <= j < |files[i].rows| &&
                           RowDoc(files[i].rows[j]) == Some(d)
  {
    var n := |files| - 1;
    var front := files[..n];
    var last := files[n];
    assert DocsOf(files) == DocsOf(front) + FileDocs(last);
    if d in DocsOf(front) {
      DocFromRow(front, d);
      var i, j :| 0 <= i < |front| && IsCsvName(front[i].name) && 0 <= j < |front[i].rows| &&
                  RowDoc(front[i].rows[j]) == Some(d);
      assert files[i] == front[i];
    } else {
      assert d in FileDocs(last);
      RowDocsFrom(last.rows);
      var j :| 0 <= j < |last.rows| && RowDoc(last.rows[j]) == Some(d);
      assert IsCsvName(files[n].name) && RowDoc(files[n].rows[j]) == Some(d);
    }
  }

  /** A row of a CSV file of the directory with both fields non-empty is loaded. */
  lemma {:induction false} RowLoaded(files: seq<CsvFile>, i: nat, j: nat)
    requires i < |files| && IsCsvName(files[i].name) && j < |files[i].rows| && RowDoc(files[i].rows[j]).Some?
    ensures RowDoc(files[i].rows[j]).value in DocsOf(files)
  {
    var d := RowDoc(files[i].rows[j]).value;
    var n := |files| - 1;
    var front := files[..n];
    assert DocsOf(files) == DocsOf(front) + FileDocs(files[n]);
    if i < n {
      assert files[i] == front[i];
      RowLoaded(front, i, j);
    } else {
      var rows := files[n].rows;
      assert i == n && RowDoc(rows[j]) == Some(d);
      RowDocsFrom(rows);
      assert d in RowDocs(rows);
      assert FileDocs(files[n]) == RowDocs(rows);
    }
  }

  /** Every loaded document is the stripped question and answer of a row of a CSV file of the
      directory, and every row of a CSV file with both fields non-empty is loaded. */
  lemma DocsProvenance(files: seq<CsvFile>)
    ensures forall d :: d in DocsOf(files) <==>
      exists i, j :: 0 <= i < |files| && IsCsvName(files[i].name) && 0 <= j < |files[i].rows| &&
                     RowDoc(files[i].rows[j]) == Some(d)
  {
    forall d | d in DocsOf(files)
      ensures exists i, j :: 0 <= i < |files| && IsCsvName(files[i].name) && 0 <= j < |files[i].rows| &&
                             RowDoc(files[i].rows[j]) == Some(d)
    {
      DocFromRow(files, d);
    }
    forall i, j | 0 <= i < |files| && IsCsvName(files[i].name) && 0 <= j < |files[i].rows| &&
                  RowDoc(files[i].rows[j]).Some?
      ensures RowDoc(files[i].rows[j]).value in DocsOf(files)
    {
      RowLoaded(files, i, j);
    }
  }

  /** Every loaded document is trimmed and non-empty. */
  lemma DocsTrimmed(files: seq<CsvFile>)
    ensures forall d :: d in DocsOf(files) ==> Trimmed(d)
  {
    DocsProvenance(files);
    forall d | d in DocsOf(files) ensures Trimmed(d) {
      var i, j :| 0 <= i < |files| && IsCsvName(files[i].name) && 0 <= j < |files[i].rows| &&
                  RowDoc(files[i].rows[j]) == Some(d);
      RowDocExact(files[i].rows[j]);
    }
  }

  /** Directory entries are read one after the other: the documents of two listings are those
      of the first followed by those of the second, so a file that is not a CSV file adds
      nothing wherever it is listed. */
  lemma {:induction false} DocsOfAppend(a: seq<CsvFile>, b: seq<CsvFile>)
    ensures DocsOf(a + b) == DocsOf(a) + DocsOf(b)
    decreases |b|
  {
    if b != [] {
      var bf := b[..|b| - 1];
      assert (a + b)[..|a + b| - 1] == a + bf;
      DocsOfAppend(a, bf);
    } else {
      assert a + b == a;
    }
  }

  /** The loader fails with `FileNotFoundError` exactly for a missing directory and with
      `ValueError` exactly when no row of any CSV file yields a document; otherwise it returns
      at least one document, each trimmed. */
  lemma LoadErrors(path: string, dir: Option<seq<CsvFile>>)
    ensures LoadOf(path, dir).Err? && LoadOf(path, dir).error.FileNotFoundError? <==> dir.None?
    ensures LoadOf(path, dir).Err? && LoadOf(path, dir).error.ValueError? <==>
      dir.Some? && forall i, j :: 0 <= i < |dir.value| && IsCsvName(dir.value[i].name) && 0 <= j < |dir.value[i].rows| ==>
        RowDoc(dir.value[i].rows[j]).None?
    ensures LoadOf(path, dir).Ok? ==> LoadOf(path, dir).value != [] && forall d :: d in LoadOf(path, dir).value ==> Trimmed(d)
  {
    if dir.Some? {
      var files := dir.value;
      DocsProvenance(files);
      DocsTrimmed(files);
      if DocsOf(files) != [] {
        var d := DocsOf(files)[0];
        assert d in DocsOf(files);
      }
    }
  }

  /** The corpus text of a loaded document is its question, a newline and its answer: the
      `strip()` of `build_tfidf_index` removes nothing. */
  lemma LoadedCorpus(path: string, dir: Option<seq<CsvFile>>)
    requires LoadOf(path, dir).Ok?
    ensures var docs := LoadOf(path, dir).value;
      |Corpus(docs)| == |docs| &&
      forall i :: 0 <= i < |docs| ==> Corpus(docs)[i] == docs[i].title + "\n" + docs[i].content
  {
    var docs := LoadOf(path, dir).value;
    LoadErrors(path, dir);
    CorpusEntries(docs);
    forall i | 0 <= i < |docs| ensures Corpus(docs)[i] == docs[i].title + "\n" + docs[i].content {
      assert docs[i] in docs;
      CorpusEntryOfTrimmedDoc(docs[i]);
    }
  }

  // ---------------------------------------------------------------------------
  // The `/ask` route
  // ---------------------------------------------------------------------------

  datatype Body = Answer(answer: string) | Error(error: string)

  /** A JSON response and its HTTP status. */
  datatype Response = Response(status: int, body: Body)

  const EmptyMessageText: string := "메시지가 비어 있습니다."
  const NotInitialisedText: string := "HR 지식 베이스가 초기화되지 않았습니다."

  /** `str(e)` of the `NameError` raised by the call to `save_question_log`, which this file
      neither defines nor imports. */
  const UndefinedLogText: string := "name 'save_question_log' is not defined"

  /** The question of a request: `data.get("message", "").strip()`, with `None` for a body that
      is not JSON or has no `message`. */
  function UserText(message: Option<string>): string
  {
    Strip(message.GetOr(""))
  }

  /** The route as written: after the two input checks the undefined `save_question_log`
      raises, so every question ends in the error response and the history never grows. */
  function AskAsWrittenOf(documents: seq<Doc>, message: Option<string>): (r: Response)
    ensures r.status != 200 && r.body.Error?
    ensures r.status == 400 <==> UserText(message) == []
  {
    var user := UserText(message);
    if user == [] then Response(400, Error(EmptyMessageText))
    else if documents == [] then Response(500, Error(NotInitialisedText))
    else Response(500, Error(UndefinedLogText))
  }

  /** The route as evidently intended, without the undefined logging call: the context
      retrieved for the question, the model's answer and the turn recorded. The result is
      the response and the new history. */
  function AskOf(ready: bool, documents: seq<Doc>, history: seq<Message>, message: Option<string>,
                 index: string -> Ranking, post: Payload -> Result<Reply, string>): (r: (Response, seq<Message>))
    requires ready ==> IndexOver(index, documents)
    ensures r.0.status == 400 <==> UserText(message) == []
    ensures r.0.status == 200 || r.0.status == 400 || r.0.status == 500
    ensures r.0.status != 200 ==> r.0.body.Error? && r.1 == history
    ensures r.0.status == 200 ==>
      r.0.body.Answer? && |r.1| >= 2 &&
      r.1[|r.1| - 2] == Message("user", UserText(message)) &&
      r.1[|r.1| - 1] == Message("assistant", r.0.body.answer)
    ensures |history| <= HistoryLimit ==> |r.1| <= HistoryLimit
  {
    var user := UserText(message);
    if user == [] then (Response(400, Error(EmptyMessageText)), history)
    else if documents == [] then (Response(500, Error(NotInitialisedText)), history)
    else
      var context := BuildContextText(ready, documents, index, user);
      match AskOllama(post, user, context, history)
      case Err(e) => (Response(500, Error(e)), history)
      case Ok(answer) => (Response(200, Answer(answer)), AfterTurn(history, user, answer))
  }

  /** The knowledge base of the module and its conversation history. */
  class CsvChatbot {
    const documents: seq<Doc>
    /** Whether the vectoriser and the document vectors exist. */
    const ready: bool
    const history: History

    /** The start-up `try`: the loaded documents and, when the vectoriser could also be fitted,
        the index; on any failure the knowledge base stays empty. */
    constructor(loaded: Result<seq<Doc>, LoadError>, fitted: bool)
      ensures ready == (loaded.Ok? && fitted)
      ensures documents == if ready then loaded.value else []
      ensures fresh(history) && history.entries == []
    {
      ready := loaded.Ok? && fitted;
      documents := if loaded.Ok? && fitted then loaded.value else [];
      history := new History();
    }

    /** `ask()` as written. */
    method AskAsWritten(message: Option<string>) returns (resp: Response)
      ensures resp == AskAsWrittenOf(documents, message)
    {
      var user := Strip(message.GetOr(""));
      if user == [] {
        return Response(400, Error("메시지가 비어 있습니다."));
      }
      if documents == [] {
        return Response(500, Error("HR 지식 베이스가 초기화되지 않았습니다."));
      }
      resp := Response(500, Error(UndefinedLogText));
    }

    /** `ask()` as evidently intended. */
    method Ask(message: Option<string>, index: string -> Ranking, post: Payload -> Result<Reply, string>)
      returns (resp: Response)
      requires ready ==> IndexOver(index, documents)
      modifies history
      ensures (resp, history.entries) == AskOf(ready, documents, old(history.entries), message, index, post)
    {
      var user := Strip(message.GetOr(""));
      if user == [] {
        return Response(400, Error("메시지가 비어 있습니다."));
      }
      if documents == [] {
        return Response(500, Error("HR 지식 베이스가 초기화되지 않았습니다."));
      }
      var context := BuildContextText(ready, documents, index, user);
      var answer := AskOllama(post, user, context, history.entries);
      if answer.Err? {
        return Response(500, Error(answer.error));
      }
      history.Record(user, answer.value);
      resp := Response(200, Answer(answer.value));
    }
  }

  /** As written, the route never answers: every request gets a 400 or a 500 response. */
  lemma AskAsWrittenNeverAnswers(documents: seq<Doc>, message: Option<string>)
    ensures AskAsWrittenOf(documents, message).status != 200
    ensures UserText(message) != [] && documents != [] ==>
      AskAsWrittenOf(documents, message) == Response(500, Error(UndefinedLogText))
  {
  }

  /** An empty or blank question is rejected with 400 and a missing knowledge base with 500,
      the history unchanged either way; the question is checked first. */
  lemma AskRejects(ready: bool, documents: seq<Doc>, history: seq<Message>, message: Option<string>,
                   index: string -> Ranking, post: Payload -> Result<Reply, string>)
    requires ready ==> IndexOver(index, documents)
    ensures var (resp, h) := AskOf(ready, documents, history, message, index, post);
      && (resp.status == 400 <==> UserText(message) == [])
      && (UserText(message) == [] ==> resp.body == Error(EmptyMessageText) && h == history)
      && (UserText(message) != [] && documents == [] ==> resp == Response(500, Error(NotInitialisedText)) && h == history)
  {
  }

  /** With a question and documents, the model is asked the stripped question with the
      context retrieved for that question and at most the last 8 history messages; its reply
      is the answer and the turn is recorded. A failed request gives 500 with the exception's
      text, the history unchanged. */
  lemma AskAnswers(ready: bool, documents: seq<Doc>, history: seq<Message>, message: Option<string>,
                   index: string -> Ranking, post: Payload -> Result<Reply, string>)
    requires ready ==> IndexOver(index, documents)
    requires UserText(message) != [] && documents != []
    ensures var user := UserText(message);
      var p := Payload("gemma3:4b", MessagesOf(user, BuildContextText(ready, documents, index, user), history), false);
      var (resp, h) := AskOf(ready, documents, history, message, index, post);
      && (post(p).Ok? ==> resp == Response(200, Answer(ReplyText(post(p).value))) && h == AfterTurn(history, user, ReplyText(post(p).value)))
      && (post(p).Err? ==> resp == Response(500, Error(post(p).error)) && h == history)
  {
  }

  /** The history never holds more than 20 messages. */
  lemma AskKeepsHistoryBounded(ready: bool, documents: seq<Doc>, history: seq<Message>, message: Option<string>,
                               index: string -> Ranking, post: Payload -> Result<Reply, string>)
    requires ready ==> IndexOver(index, documents)
    requires |history| <= HistoryLimit
    ensures |AskOf(ready, documents, history, message, index, post).1| <= HistoryLimit
  {
    var user := UserText(message);
    if user != [] && documents != [] {
      var context := BuildContextText(ready, documents, index, user);
      var a := AskOllama(post, user, context, history);
      if a.Ok? {
        AfterTurnShape(history, user, a.value);
      }
    }
  }
}

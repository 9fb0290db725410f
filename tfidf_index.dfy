/**
 * The chatbot's document index: the corpus built from the loaded documents, the top-k
 * retrieval over the similarity ranking and the context text handed to the language model.
 *
 * The TF-IDF vectoriser and the cosine similarities are not modelled: retrieval receives the
 * similarity of the query to every document and the order `argsort(-sims)` produced, and
 * requires only what `argsort` guarantees of that order.
 */
module ChatIndex {
  import opened PyStr
  import opened PyList

  /** A knowledge-base entry: a question (`title`) and its answer (`content`). */
  datatype Doc = Doc(title: string, content: string)

  /** A retrieved document with its similarity to the query. */
  datatype Scored = Scored(doc: Doc, score: real)

  // ---------------------------------------------------------------------------
  // Corpus
  // ---------------------------------------------------------------------------

  /** The corpus text of one document: `f"{title}\n{content}".strip()`. */
  function CorpusEntry(d: Doc): (r: string)
    ensures |r| <= |d.title| + 1 + |d.content|
  {
    Strip(d.title + "\n" + d.content)
  }

  /** The corpus of `build_tfidf_index`, entry by entry. */
  function Corpus(docs: seq<Doc>): seq<string>
  {
    if docs == [] then [] else Corpus(docs[..|docs| - 1]) + [CorpusEntry(docs[|docs| - 1])]
  }

  /** One corpus entry per document, in document order. */
  lemma {:induction false} CorpusEntries(docs: seq<Doc>)
    ensures |Corpus(docs)| == |docs|
    ensures forall i :: 0 <= i < |docs| ==> Corpus(docs)[i] == CorpusEntry(docs[i])
  {
    if docs != [] {
      var front := docs[..|docs| - 1];
      CorpusEntries(front);
      assert forall i :: 0 <= i < |front| ==> docs[i] == front[i];
    }
  }

  /** The corpus loop of `build_tfidf_index`. */
  method BuildCorpus(docs: seq<Doc>) returns (corpus: seq<string>)
    ensures corpus == Corpus(docs)
  {
    corpus := [];
    var i := 0;
    while i < |docs|
      invariant 0 <= i <= |docs|
      invariant corpus == Corpus(docs[..i])
    {
      assert docs[..i + 1][..i] == docs[..i];
      corpus := corpus + [CorpusEntry(docs[i])];
      i := i + 1;
    }
    assert docs[..i] == docs;
  }

  /** `strip()` leaves the text of a document whose title does not start and whose content does
      not end with whitespace (as every loaded document) unchanged. */
  lemma CorpusEntryOfTrimmedDoc(d: Doc)
    requires d.title != [] && !IsSpace(d.title[0])
    requires d.content != [] && !IsSpace(d.content[|d.content| - 1])
    ensures CorpusEntry(d) == d.title + "\n" + d.content
  {
    var s := d.title + "\n" + d.content;
    assert s[0] == d.title[0];
    assert LStrip(s) == s;
    assert s[|s| - 1] == d.content[|d.content| - 1];
    assert RStrip(s) == s;
  }

  // ---------------------------------------------------------------------------
  // Retrieval
  // ---------------------------------------------------------------------------

  /** The first position of `i` in `order`, or `|order|` when it does not occur. */
  function Position(order: seq<int>, i: int): (p: nat)
    ensures p <= |order|
    ensures p < |order| ==> order[p] == i
    ensures forall q :: 0 <= q < p ==> order[q] != i
  {
    if order == [] then 0
    else if order[0] == i then 0
    else 1 + Position(order[1..], i)
  }

  /** What `np.argsort(-sims)` returns: every index exactly once, similarities non-increasing.
      The order among equal similarities is left open. */
  predicate RanksAll(sims: seq<real>, order: seq<int>)
  {
    && |order| == |sims|
    && (forall j :: 0 <= j < |order| ==> 0 <= order[j] < |sims|)
    && (forall j, k :: 0 <= j < k < |order| ==> order[j] != order[k])
    && (forall i :: 0 <= i < |sims| ==> Position(order, i) < |order|)
    && (forall j, k :: 0 <= j < k < |order| ==> sims[order[j]] >= sims[order[k]])
  }

  /** `retrieve_top_docs`: nothing when the index was never built (`ready` is false), otherwise
      the documents at the first `top_k` ranked indices with their similarities. */
  function RetrieveTopDocs(ready: bool, documents: seq<Doc>, sims: seq<real>, order: seq<int>, topK: int)
    : (r: seq<Scored>)
    requires ready ==> |sims| == |documents| && RanksAll(sims, order)
    ensures !ready ==> r == []
    ensures ready ==> |r| == |SliceTo(order, topK)|
    ensures ready ==> forall j :: 0 <= j < |r| ==> r[j] == Scored(documents[order[j]], sims[order[j]])
    ensures forall j, k :: 0 <= j < k < |r| ==> r[j].score >= r[k].score
  {
    if !ready then []
    else
      var top := SliceTo(order, topK);
      seq(|top|, j requires 0 <= j < |top| => Scored(documents[top[j]], sims[top[j]]))
  }

  /** The retrieved documents are the `top_k` best: each is distinct, none scores below a
      document that was left out, and when `top_k` covers the index every document is
      returned. */
  lemma RetrieveTopK(documents: seq<Doc>, sims: seq<real>, order: seq<int>, topK: int)
    requires |sims| == |documents| && RanksAll(sims, order)
    ensures var r := RetrieveTopDocs(true, documents, sims, order, topK);
      && (topK >= 0 ==> |r| == if topK < |documents| then topK else |documents|)
      && (forall j, k :: 0 <= j < k < |r| ==> order[j] != order[k])
      && (forall i, j :: 0 <= i < |documents| && Position(order, i) >= |r| && 0 <= j < |r| ==> r[j].score >= sims[i])
      && (forall i :: 0 <= i < |documents| && Position(order, i) < |r| ==> r[Position(order, i)].doc == documents[i])
      && (topK >= |documents| ==> forall i :: 0 <= i < |documents| ==> Position(order, i) < |r|)
  {
  }
  // ---------------------------------------------------------------------------
  // Context text
  // ---------------------------------------------------------------------------

  const NotFoundText := "관련된 인사관리 문서를 찾지 못했다."

  /** The three lines written for the document numbered `number`. */
  function EntryLines(number: int, d: Doc): seq<string>
  {
    ["[문서 " + IntToStr(number) + "] 질문: " + d.title, "답변: " + d.content, ""]
  }

  /** The lines `format_context` collects: entries numbered from 1 in input order, those
      scoring below `minScore` skipped without renumbering the rest. */
  function ContextLines(entries: seq<Scored>, minScore: real): seq<string>
    decreases |entries|
  {
    if entries == [] then []
    else
      var n := |entries|;
      ContextLines(entries[..n - 1], minScore) +
      (if entries[n - 1].score < minScore then [] else EntryLines(n, entries[n - 1].doc))
  }

  /** `format_context(docs_with_scores, min_score)` as a value. */
  function ContextText(entries: seq<Scored>, minScore: real): string
  {
    if entries == [] then NotFoundText
    else
      var lines := ContextLines(entries, minScore);
      if lines == [] then NotFoundText else Join("\n", lines)
  }

  lemma ContextLinesStep(entries: seq<Scored>, i: nat, minScore: real)
    requires i < |entries|
    ensures ContextLines(entries[..i + 1], minScore) == ContextLines(entries[..i], minScore) +
      (if entries[i].score < minScore then [] else EntryLines(i + 1, entries[i].doc))
  {
    assert entries[..i + 1][..i] == entries[..i];
  }

  /** `format_context`: the loop appends three lines per kept entry. */
  method FormatContext(entries: seq<Scored>, minScore: real) returns (r: string)
    ensures r == ContextText(entries, minScore)
  {
    if entries == [] {
      return NotFoundText;
    }
    var lines: seq<string> := [];
    var i := 0;
    while i < |entries|
      invariant 0 <= i <= |entries|
      invariant lines == ContextLines(entries[..i], minScore)
    {
      ContextLinesStep(entries, i, minScore);
      if entries[i].score >= minScore {
        lines := lines + ["[문서 " + IntToStr(i + 1) + "] 질문: " + entries[i].doc.title];
        lines := lines + ["답변: " + entries[i].doc.content];
        lines := lines + [""];
      }
      i := i + 1;
    }
    assert entries[..i] == entries;
    r := if lines == [] then NotFoundText else Join("\n", lines);
  }

  /** How many entries reach `minScore`. */
  function KeptCount(entries: seq<Scored>, minScore: real): (n: nat)
    ensures n <= |entries|
    ensures n == 0 <==> forall i :: 0 <= i < |entries| ==> entries[i].score < minScore
    decreases |entries|
  {
    if entries == [] then 0
    else
      var m := |entries| - 1;
      assert forall i :: 0 <= i < m ==> entries[..m][i] == entries[i];
      KeptCount(entries[..m], minScore) + (if entries[m].score < minScore then 0 else 1)
  }

  lemma {:induction false} ContextLinesLength(entries: seq<Scored>, minScore: real)
    ensures |ContextLines(entries, minScore)| == 3 * KeptCount(entries, minScore)
    decreases |entries|
  {
    if entries != [] {
      ContextLinesLength(entries[..|entries| - 1], minScore);
    }
  }

  lemma {:induction false} ContextLinesEntry(entries: seq<Scored>, minScore: real, i: nat)
    requires i < |entries| && entries[i].score >= minScore
    ensures var at := 3 * KeptCount(entries[..i], minScore);
      at + 3 <= |ContextLines(entries, minScore)| &&
      ContextLines(entries, minScore)[at..at + 3] == EntryLines(i + 1, entries[i].doc)
    decreases |entries|
  {
    var m := |entries| - 1;
    var front := entries[..m];
    var lines := ContextLines(entries, minScore);
    var before := ContextLines(front, minScore);
    assert lines == before + EntryLines(m + 1, entries[m].doc) || lines == before;
    if i == m {
      assert entries[..i] == front;
      ContextLinesLength(front, minScore);
      assert lines == before + EntryLines(m + 1, entries[m].doc);
    } else {
      assert entries[..i] == front[..i];
      assert front[i] == entries[i];
      ContextLinesEntry(front, minScore, i);
      var at := 3 * KeptCount(entries[..i], minScore);
      assert lines[at..at + 3] == before[at..at + 3];
    }
  }

  /** Every kept entry contributes exactly its three lines, numbered with its original 1-based
      position, at the place given by the number of kept entries before it; skipped entries
      contribute nothing. */
  lemma ContextLinesLayout(entries: seq<Scored>, minScore: real)
    ensures |ContextLines(entries, minScore)| == 3 * KeptCount(entries, minScore)
    ensures forall i :: 0 <= i < |entries| && entries[i].score >= minScore ==>
      var at := 3 * KeptCount(entries[..i], minScore);
      at + 3 <= |ContextLines(entries, minScore)| &&
      ContextLines(entries, minScore)[at..at + 3] == EntryLines(i + 1, entries[i].doc)
  {
    ContextLinesLength(entries, minScore);
    forall i | 0 <= i < |entries| && entries[i].score >= minScore
      ensures var at := 3 * KeptCount(entries[..i], minScore);
        at + 3 <= |ContextLines(entries, minScore)| &&
        ContextLines(entries, minScore)[at..at + 3] == EntryLines(i + 1, entries[i].doc)
    {
      ContextLinesEntry(entries, minScore, i);
    }
  }

  /** Every collected block starts with its "[문서 n]" header. */
  lemma {:induction false} ContextLinesHead(entries: seq<Scored>, minScore: real)
    ensures var lines := ContextLines(entries, minScore);
      lines != [] ==> lines[0] != [] && lines[0][0] == '['
    decreases |entries|
  {
    if entries != [] {
      var m := |entries| - 1;
      ContextLinesHead(entries[..m], minScore);
      var before := ContextLines(entries[..m], minScore);
      if before == [] && entries[m].score >= minScore {
        assert ContextLines(entries, minScore) == EntryLines(m + 1, entries[m].doc);
      }
    }
  }

  lemma JoinStartsWithFirst(sep: string, parts: seq<string>)
    requires parts != [] && parts[0] != []
    ensures Join(sep, parts) != [] && Join(sep, parts)[0] == parts[0][0]
  {
  }

  /** The fixed message comes back exactly when there is nothing to show: no entries, or every
      entry below `minScore`; otherwise the text starts with the first kept entry's line. */
  lemma ContextTextFallback(entries: seq<Scored>, minScore: real)
    ensures ContextText(entries, minScore) == NotFoundText <==>
      forall i :: 0 <= i < |entries| ==> entries[i].score < minScore
  {
    ContextLinesLength(entries, minScore);
    ContextLinesHead(entries, minScore);
    if entries != [] && KeptCount(entries, minScore) != 0 {
      var lines := ContextLines(entries, minScore);
      JoinStartsWithFirst("\n", lines);
      assert NotFoundText[0] != '[';
    }
  }

  // ---------------------------------------------------------------------------
  // The context for one question
  // ---------------------------------------------------------------------------

  /** What the vectoriser yields for a query: its similarity to every document and the order
      `argsort(-sims)`. */
  datatype Ranking = Ranking(sims: seq<real>, order: seq<int>)

  /** An index over `documents`: for every query, one similarity per document and an order
      that ranks them all. */
  ghost predicate IndexOver(index: string -> Ranking, documents: seq<Doc>)
  {
    forall q :: |index(q).sims| == |documents| && RanksAll(index(q).sims, index(q).order)
  }

  const ContextTopK: int := 5

  /** `build_context_text(query)`: the five best documents for the query, formatted with the
      default minimum score. */
  function BuildContextText(ready: bool, documents: seq<Doc>, index: string -> Ranking, query: string): (r: string)
    requires ready ==> IndexOver(index, documents)
    ensures !ready ==> r == NotFoundText
  {
    var top := RetrieveTopDocs(ready, documents, index(query).sims, index(query).order, ContextTopK);
    ContextText(top, 0.0)
  }
}

/**
 * The natural-language employee search: `predict` asks the language model to turn a question
 * into one line of Oracle SQL and one line of explanation, reads both back from the reply, and
 * gives up on a reply without usable SQL.
 *
 * The model call is an oracle from the question to the reply text, or to the text of the
 * exception it raised. Sending the SQL to the employee service is not part of this model.
 */
module SqlSearch {
  import opened Wrappers
  import opened PyStr

  const SqlTag: string := "SQL:"
  const ExplanationTag: string := "EXPLANATION:"

  /** What the parser keeps: the generated SQL and its explanation. */
  datatype Parsed = Parsed(sql: string, explanation: string)

  /** A reply line announces the SQL: stripped and upper-cased, it starts with `SQL:`. */
  predicate IsSqlLine(raw: string)
  {
    SqlTag <= Upper(Strip(raw))
  }

  /** A reply line announces the explanation. */
  predicate IsExplanationLine(raw: string)
  {
    ExplanationTag <= Upper(Strip(raw))
  }

  /** `line[4:].strip().replace("```sql", "").replace("```", "")` */
  function SqlOf(line: string): string
    requires |line| >= |SqlTag|
  {
    ReplaceAll(ReplaceAll(Strip(line[4..]), "```sql", ""), "```", "")
  }

  /** `line[12:].strip()` */
  function ExplanationOf(line: string): string
    requires |line| >= |ExplanationTag|
  {
    Strip(line[12..])
  }

  /** What one reply line tells the parser. */
  datatype Line = SqlLine(sql: string) | ExplanationLine(text: string) | OtherLine

  /** The `if` and `elif` of the loop body: an SQL line first, else an explanation line. */
  function Classify(raw: string): (l: Line)
    ensures l.SqlLine? <==> IsSqlLine(raw)
    ensures l.ExplanationLine? <==> !IsSqlLine(raw) && IsExplanationLine(raw)
  {
    var line := Strip(raw);
    if SqlTag <= Upper(line) then SqlLine(SqlOf(line))
    else if ExplanationTag <= Upper(line) then ExplanationLine(ExplanationOf(line))
    else OtherLine
  }

  function Classified(lines: seq<string>): (ls: seq<Line>)
    ensures |ls| == |lines| && forall i :: 0 <= i < |lines| ==> ls[i] == Classify(lines[i])
  {
    seq(|lines|, i requires 0 <= i < |lines| => Classify(lines[i]))
  }

  /** One pass of the loop: an SQL line replaces the SQL, an explanation line replaces the
      explanation, and any other line changes nothing. */
  function Step(p: Parsed, l: Line): Parsed
  {
    match l
    case SqlLine(sql) => p.(sql := sql)
    case ExplanationLine(text) => p.(explanation := text)
    case OtherLine => p
  }

  /** The loop over the classified lines, from two empty strings. */
  function ParseLines(ls: seq<Line>): Parsed
  {
    if ls == [] then Parsed("", "") else Step(ParseLines(ls[..|ls| - 1]), ls[|ls| - 1])
  }

  /** The lines of a reply: stripped, then split at every newline. */
  function ReplyLinesOf(content: string): seq<string>
  {
    SplitOn(Strip(content), '\n')
  }

  /** The parse of a whole reply. */
  function ParseContent(content: string): (r: Parsed)
    ensures var ls := Classified(ReplyLinesOf(content));
      && r.sql == (if LastSql(ls).Some? then ls[LastSql(ls).value].sql else "")
      && r.explanation == (if LastExplanation(ls).Some? then ls[LastExplanation(ls).value].text else "")
    ensures (forall k :: 0 <= k < |ReplyLinesOf(content)| ==> !IsSqlLine(ReplyLinesOf(content)[k])) ==> r.sql == ""
  {
    var ls := Classified(ReplyLinesOf(content));
    LastSqlLineWins(ls);
    LastExplanationLineWins(ls);
    ParseLines(ls)
  }

  /** The parsing loop of `predict`. */
  method ParseReply(content: string) returns (generatedSql: string, explanation: string)
    ensures Parsed(generatedSql, explanation) == ParseContent(content)
  {
    generatedSql := "";
    explanation := "";
    var lines := SplitOn(Strip(content), '\n');
    assert lines == ReplyLinesOf(content);
    ghost var ls := Classified(lines);
    for i := 0 to |lines|
      invariant Parsed(generatedSql, explanation) == ParseLines(ls[..i])
    {
      assert ls[..i + 1][..i] == ls[..i];
      var line := Strip(lines[i]);
      if SqlTag <= Upper(line) {
        generatedSql := ReplaceAll(ReplaceAll(Strip(line[4..]), "```sql", ""), "```", "");
      } else if ExplanationTag <= Upper(line) {
        explanation := Strip(line[12..]);
      }
    }
    assert ls[..|lines|] == ls;
  }

  /** The position of the last SQL line, if any. */
  function LastSql(ls: seq<Line>): (r: Option<nat>)
    ensures r.Some? ==> r.value < |ls| && ls[r.value].SqlLine?
    ensures r.Some? ==> forall m :: r.value < m < |ls| ==> !ls[m].SqlLine?
    ensures r.None? <==> forall k :: 0 <= k < |ls| ==> !ls[k].SqlLine?
  {
    if ls == [] then None
    else if ls[|ls| - 1].SqlLine? then Some(|ls| - 1)
    else
      assert forall k :: 0 <= k < |ls| - 1 ==> ls[..|ls| - 1][k] == ls[k];
      LastSql(ls[..|ls| - 1])
  }

  /** The position of the last explanation line, if any. */
  function LastExplanation(ls: seq<Line>): (r: Option<nat>)
    ensures r.Some? ==> r.value < |ls| && ls[r.value].ExplanationLine?
    ensures r.Some? ==> forall m :: r.value < m < |ls| ==> !ls[m].ExplanationLine?
    ensures r.None? <==> forall k :: 0 <= k < |ls| ==> !ls[k].ExplanationLine?
  {
    if ls == [] then None
    else if ls[|ls| - 1].ExplanationLine? then Some(|ls| - 1)
    else
      assert forall k :: 0 <= k < |ls| - 1 ==> ls[..|ls| - 1][k] == ls[k];
      LastExplanation(ls[..|ls| - 1])
  }

  /** Later SQL lines overwrite earlier ones: the SQL is that of the last SQL line, or empty
      when there is none. */
  lemma {:induction false} LastSqlLineWins(ls: seq<Line>)
    ensures var k := LastSql(ls);
      ParseLines(ls).sql == if k.Some? then ls[k.value].sql else ""
  {
    if ls != [] {
      var front := ls[..|ls| - 1];
      LastSqlLineWins(front);
      var k := LastSql(front);
      if k.Some? {
        assert front[k.value] == ls[k.value];
      }
    }
  }

  /** Later explanation lines overwrite earlier ones: the explanation is that of the last
      explanation line, or empty when there is none. */
  lemma {:induction false} LastExplanationLineWins(ls: seq<Line>)
    ensures var k := LastExplanation(ls);
      ParseLines(ls).explanation == if k.Some? then ls[k.value].text else ""
  {
    if ls != [] {
      var front := ls[..|ls| - 1];
      LastExplanationLineWins(front);
      var k := LastExplanation(front);
      if k.Some? {
        assert front[k.value] == ls[k.value];
      }
    }
  }

  /** No line announces both the SQL and the explanation. */
  lemma TagsExclusive(raw: string)
    ensures !(IsSqlLine(raw) && IsExplanationLine(raw))
  {
    if IsSqlLine(raw) {
      assert Upper(Strip(raw))[0] == 'S';
    }
  }

  lemma UpperCharKeepsSpaces(c: char)
    ensures IsSpace(UpperChar(c)) <==> IsSpace(c)
  {
  }

  /** A tag is recognised in any letter case, wherever the line's surrounding whitespace. */
  lemma TagAnyCase(p: string, x: string, tag: string)
    requires |p| == |tag| > 0 && Upper(p) == tag
    requires !IsSpace(tag[0]) && !IsSpace(tag[|tag| - 1])
    ensures tag <= Upper(Strip(p + x))
  {
    var s := p + x;
    UpperCharKeepsSpaces(p[0]);
    UpperCharKeepsSpaces(p[|p| - 1]);
    assert s[0] == p[0] && s[|p| - 1] == p[|p| - 1];
    assert LStrip(s) == s;
    RStripKeeps(s, |p| - 1);
    var t := Strip(s);
    assert t == RStrip(s);
    assert t[..|p|] == p;
    assert Upper(t)[..|p|] == Upper(p);
  }

  /** `sql:`, `Sql:` or `SQL:` all open an SQL line, and likewise for the explanation. */
  lemma TagsAnyCase(p: string, x: string)
    ensures |p| == 4 && Upper(p) == SqlTag ==> IsSqlLine(p + x)
    ensures |p| == 12 && Upper(p) == ExplanationTag ==> IsExplanationLine(p + x)
  {
    if |p| == 4 && Upper(p) == SqlTag {
      TagAnyCase(p, x, SqlTag);
    }
    if |p| == 12 && Upper(p) == ExplanationTag {
      TagAnyCase(p, x, ExplanationTag);
    }
  }

  /** Text that can stand on a reply line of its own: no newline, no code fence and no
      surrounding whitespace. */
  predicate LinePart(s: string)
  {
    s != [] && '\n' !in s && !Contains(s, "```") && !IsSpace(s[0]) && !IsSpace(s[|s| - 1])
  }

  lemma UpperOfPrefix(a: string, b: string)
    ensures Upper(a + b)[..|a|] == Upper(a)
  {
    assert forall i :: 0 <= i < |a| ==> (a + b)[i] == a[i];
  }

  /** A tag, a space and a part: the line strips to itself, announces the tag, and what
      follows the tag strips to the part. */
  lemma TaggedLine(tag: string, x: string)
    requires tag != [] && !IsSpace(tag[0]) && !IsSpace(tag[|tag| - 1]) && Upper(tag) == tag
    requires LinePart(x)
    ensures var line := tag + " " + x;
      Strip(line) == line && tag <= Upper(line) && Strip(line[|tag|..]) == x
  {
    var line := tag + " " + x;
    assert line[0] == tag[0];
    assert line[|line| - 1] == x[|x| - 1];
    StripTrimmed(line);
    UpperOfPrefix(tag, " " + x);
    assert line == tag + (" " + x);
    assert line[|tag|..] == " " + x;
    StripAfterSpace(x);
  }

  /** `SQL: <sql>` is an SQL line that yields `<sql>`. */
  lemma SqlLineParses(sql: string)
    requires LinePart(sql)
    ensures Classify("SQL: " + sql) == SqlLine(sql)
  {
    assert "SQL: " + sql == SqlTag + " " + sql;
    TaggedLine(SqlTag, sql);
    ContainsPrefix(sql, "```sql", "```");
    ReplaceAbsent(sql, "```sql", "");
    ReplaceAbsent(sql, "```", "");
  }

  /** `EXPLANATION: <text>` is an explanation line that yields `<text>`. */
  lemma ExplanationLineParses(explanation: string)
    requires LinePart(explanation)
    ensures Classify("EXPLANATION: " + explanation) == ExplanationLine(explanation)
  {
    var l2 := "EXPLANATION: " + explanation;
    assert l2 == ExplanationTag + " " + explanation;
    TaggedLine(ExplanationTag, explanation);
    assert Upper(l2)[0] == 'E';
    assert !IsSqlLine(l2);
  }

  /** The reply `SQL: <sql>` newline `EXPLANATION: <text>` is those two lines. */
  lemma ReplyLines(sql: string, explanation: string)
    requires LinePart(sql) && LinePart(explanation)
    ensures ReplyLinesOf("SQL: " + sql + "\n" + "EXPLANATION: " + explanation) ==
            ["SQL: " + sql, "EXPLANATION: " + explanation]
  {
    var l1 := "SQL: " + sql;
    var l2 := "EXPLANATION: " + explanation;
    var content := "SQL: " + sql + "\n" + "EXPLANATION: " + explanation;
    assert content == l1 + ['\n'] + l2;
    assert content[|content| - 1] == explanation[|explanation| - 1];
    StripTrimmed(content);
    assert '\n' !in l1 by {
      assert forall i :: 5 <= i < |l1| ==> l1[i] == sql[i - 5];
    }
    assert '\n' !in l2 by {
      assert forall i :: 13 <= i < |l2| ==> l2[i] == explanation[i - 13];
    }
    SplitOnAt(l1, '\n', l2);
    SplitOnNone(l2, '\n');
  }

  /** An SQL line followed by an explanation line parses to both. */
  lemma ParseTwoLines(l1: string, l2: string, sql: string, explanation: string)
    requires Classify(l1) == SqlLine(sql) && Classify(l2) == ExplanationLine(explanation)
    ensures ParseLines(Classified([l1, l2])) == Parsed(sql, explanation)
  {
    var ls := Classified([l1, l2]);
    assert ls == [SqlLine(sql), ExplanationLine(explanation)];
    assert ls[..1] == [SqlLine(sql)];
    assert ls[..1][..0] == [];
  }

  /** A reply in the shape the prompt asks for, `SQL: <sql>` and then `EXPLANATION: <text>`,
      is read back as exactly that SQL and that text. */
  lemma FormattedReplyParses(sql: string, explanation: string)
    requires LinePart(sql) && LinePart(explanation)
    ensures ParseContent("SQL: " + sql + "\n" + "EXPLANATION: " + explanation) == Parsed(sql, explanation)
  {
    ReplyLines(sql, explanation);
    SqlLineParses(sql);
    ExplanationLineParses(explanation);
    ParseTwoLines("SQL: " + sql, "EXPLANATION: " + explanation, sql, explanation);
  }

  // ---------------------------------------------------------------------------
  // predict
  // ---------------------------------------------------------------------------

  /** The SQL is unusable: empty, or holding `ERROR` in any letter case. */
  predicate IsFail(sql: string)
  {
    Contains(Upper(sql), "ERROR") || sql == []
  }

  const NoQuestionMessage: string := "질문을 입력해주세요."
  const FailExplanation: string := "죄송합니다. 질문이 너무 복잡하여 분석이 어렵거나 해당되지 않는 질문입니다."

  /** Where `predict` ends within this model: a rejected question (400), an exception (500),
      the fixed "fail" answer with no data, or SQL ready to be run with its explanation. */
  datatype Outcome =
    | Rejected
    | Raised(message: string)
    | Failed(question: string)
    | Generated(question: string, sql: string, explanation: string)

  function Status(o: Outcome): int
    requires !o.Generated?
  {
    match o
    case Rejected => 400
    case Raised(_) => 500
    case Failed(_) => 200
  }

  /** `predict` up to the call to the employee service: `question` is
      `data.get("question")`, and `llm` answers `chain.invoke`. */
  function PredictOf(question: Option<string>, llm: string -> Result<string, string>): (r: Outcome)
    ensures r.Rejected? <==> question.None? || question == Some("")
    ensures r.Raised? <==> question.Some? && question.value != [] && llm(question.value).Err?
    ensures r.Failed? ==> r == Failed(question.value)
    ensures r.Generated? ==> question == Some(r.question) && r.sql != [] && !Contains(Upper(r.sql), "ERROR")
  {
    if question.None? || question.value == [] then Rejected
    else match llm(question.value)
      case Err(e) => Raised(e)
      case Ok(reply) =>
        var p := ParseContent(reply);
        if IsFail(p.sql) then Failed(question.value) else Generated(question.value, p.sql, p.explanation)
  }

  method Predict(question: Option<string>, llm: string -> Result<string, string>) returns (o: Outcome)
    ensures o == PredictOf(question, llm)
  {
    if question.None? || question.value == [] {
      return Rejected;
    }
    var response := llm(question.value);
    if response.Err? {
      return Raised(response.error);
    }
    var content := Strip(response.value);
    var generatedSql, explanation := ParseReply(content);
    assert Strip(content) == content by {
      StripTrimmed(content);
    }
    if Contains(Upper(generatedSql), "ERROR") || generatedSql == [] {
      return Failed(question.value);
    }
    o := Generated(question.value, generatedSql, explanation);
  }

  /** A missing or empty question, and only such a question, is rejected with 400. */
  lemma PredictRejects(question: Option<string>, llm: string -> Result<string, string>)
    ensures PredictOf(question, llm).Rejected? <==> question.None? || question == Some("")
    ensures PredictOf(question, llm).Rejected? ==> Status(PredictOf(question, llm)) == 400
  {
  }

  /** A question the model answers without usable SQL gets the fixed "fail" answer; otherwise
      the parsed SQL, non-empty and free of `ERROR`, goes on with the parsed explanation. */
  lemma PredictGenerates(question: string, llm: string -> Result<string, string>)
    requires question != [] && llm(question).Ok?
    ensures var p := ParseContent(llm(question).value);
      var o := PredictOf(Some(question), llm);
      && (o.Failed? <==> p.sql == [] || Contains(Upper(p.sql), "ERROR"))
      && (o.Failed? ==> o == Failed(question) && Status(o) == 200)
      && (!o.Failed? ==> o == Generated(question, p.sql, p.explanation) && p.sql != [] && !Contains(Upper(p.sql), "ERROR"))
  {
  }

  /** A reply with no SQL line always fails. */
  lemma NoSqlLineFails(question: string, llm: string -> Result<string, string>)
    requires question != [] && llm(question).Ok?
    requires forall k :: 0 <= k < |ReplyLinesOf(llm(question).value)| ==> !IsSqlLine(ReplyLinesOf(llm(question).value)[k])
    ensures PredictOf(Some(question), llm) == Failed(question)
  {
    var lines := ReplyLinesOf(llm(question).value);
    var ls := Classified(lines);
    assert forall k :: 0 <= k < |ls| ==> !ls[k].SqlLine?;
    LastSqlLineWins(ls);
    assert ParseContent(llm(question).value).sql == "";
  }

  /** A well-formed reply whose SQL is usable goes on with exactly that SQL and explanation. */
  lemma FormattedReplyGenerates(question: string, llm: string -> Result<string, string>, sql: string, explanation: string)
    requires question != [] && LinePart(sql) && LinePart(explanation) && !Contains(Upper(sql), "ERROR")
    requires llm(question) == Ok("SQL: " + sql + "\n" + "EXPLANATION: " + explanation)
    ensures PredictOf(Some(question), llm) == Generated(question, sql, explanation)
  {
    FormattedReplyParses(sql, explanation);
  }
}

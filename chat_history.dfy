/**
 * The chatbot's conversation memory: the module-level `chat_history` list that every answered
 * turn extends by the question and the answer and then trims to its 20 newest messages.
 */
module ChatHistory {
  import opened ChatOllama

  /** How many messages the history keeps (`del chat_history[:-20]`). */
  const HistoryLimit: nat := 20

  function AssistantMessage(answer: string): Message
  {
    Message("assistant", answer)
  }

  /** The history after a turn: both messages appended, then everything but the newest 20
      dropped when it grew longer than 20. */
  function AfterTurn(h: seq<Message>, user: string, answer: string): (r: seq<Message>)
    ensures |r| == if |h| + 2 > HistoryLimit then HistoryLimit else |h| + 2
    ensures r[|r| - 2] == Message("user", user) && r[|r| - 1] == Message("assistant", answer)
  {
    var g := h + [UserMessage(user), AssistantMessage(answer)];
    if |g| > HistoryLimit then g[|g| - HistoryLimit..] else g
  }

  /** The `chat_history` list, updated in place. */
  class History {
    var entries: seq<Message>

    constructor()
      ensures entries == []
    {
      entries := [];
    }

    /** The two `append`s and the trimming `del` after an answered turn. */
    method Record(user: string, answer: string)
      modifies this
      ensures entries == AfterTurn(old(entries), user, answer)
    {
      entries := entries + [UserMessage(user)];
      entries := entries + [AssistantMessage(answer)];
      if |entries| > 20 {
        entries := entries[|entries| - 20..];
      }
    }
  }

  /** After a turn the history holds at most 20 messages, whatever it held before; it ends
      with this turn's question and then its answer; and it is the newest part of the old
      history followed by the turn. */
  lemma AfterTurnShape(h: seq<Message>, user: string, answer: string)
    ensures var a := AfterTurn(h, user, answer);
      && 2 <= |a| <= HistoryLimit
      && a[|a| - 2] == Message("user", user)
      && a[|a| - 1] == Message("assistant", answer)
      && a == (h + [UserMessage(user), AssistantMessage(answer)])[|h| + 2 - |a|..]
  {
  }

  /** Nothing is dropped while the old history holds at most 18 messages; from a full history
      exactly the two oldest messages are dropped. */
  lemma AfterTurnDrops(h: seq<Message>, user: string, answer: string)
    ensures |h| <= HistoryLimit - 2 ==> AfterTurn(h, user, answer) == h + [UserMessage(user), AssistantMessage(answer)]
    ensures |h| >= HistoryLimit - 2 ==> |AfterTurn(h, user, answer)| == HistoryLimit
    ensures |h| == HistoryLimit ==> AfterTurn(h, user, answer) == h[2..] + [UserMessage(user), AssistantMessage(answer)]
  {
    var t := [UserMessage(user), AssistantMessage(answer)];
    if |h| == HistoryLimit {
      assert (h + t)[2..] == h[2..] + t;
    }
  }

  /** The next prompt carries this turn as the two messages before its own question. */
  lemma NextPromptRecallsTurn(h: seq<Message>, user: string, answer: string, next: string, context: string)
    ensures var m := MessagesOf(next, context, AfterTurn(h, user, answer));
      && m[|m| - 3] == Message("user", user)
      && m[|m| - 2] == Message("assistant", answer)
      && m[|m| - 1] == Message("user", next)
  {
    var a := AfterTurn(h, user, answer);
    AfterTurnShape(h, user, answer);
    MessagesShape(next, context, a);
    var m := MessagesOf(next, context, a);
    var w := WindowSize(a);
    assert w >= 2;
    var hs := a[|a| - w..];
    assert m[2..|m| - 1] == hs;
    assert m[|m| - 3] == hs[w - 2] == a[|a| - 2];
    assert m[|m| - 2] == hs[w - 1] == a[|a| - 1];
  }
}

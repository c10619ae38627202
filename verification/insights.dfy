/**
  The insights service: the one-shot `generate` over the transaction list,
  and `chat`, which replays a session's transcript from the append-only
  chat log, asks the agent, and appends the new turn. The language model
  and the agent are opaque functions supplied by the caller.
 */
module Insights {
  import opened Outcomes
  import Ledger

  const NotEnoughData: string := "Not enough data for an insight."
  const RoleHuman: string := "human"
  const RoleAi: string := "ai"

  /** One row of the chat log; the log's order is `created_at` order. */
  datatype ChatRow = ChatRow(session: string, role: string, content: string)

  /** The messages the agent exchanges; `Tool` stands for its tool-call traffic. */
  datatype Message = Human(content: string) | Ai(content: string) | Tool(content: string)

  /** What the agent does with a conversation: fails, or returns its message list. */
  datatype AgentReply = AgentFailed | AgentReplied(messages: seq<Message>)

  // ---------------------------------------------------------------- generate

  /**
    The insight for the listed transactions: a fixed answer when there are
    none, otherwise whatever the model makes of them.
   */
  function Generate(listed: seq<Ledger.Row>, model: seq<Ledger.Row> -> Result<string>): (r: Result<string>)
    ensures |listed| == 0 ==> r == Ok(NotEnoughData)
    ensures |listed| > 0 ==> r == model(listed)
  {
    if |listed| == 0 then Ok(NotEnoughData) else model(listed)
  }

  /** With no transactions the answer does not depend on the model at all. */
  lemma GenerateIgnoresModelWhenEmpty(listed: seq<Ledger.Row>, m1: seq<Ledger.Row> -> Result<string>,
                                      m2: seq<Ledger.Row> -> Result<string>)
    requires |listed| == 0
    ensures Generate(listed, m1) == Generate(listed, m2)
  {
  }

  /** `generate` as a handler: list the table, then answer from the listing. */
  method GenerateInsight(t: Ledger.Table, model: seq<Ledger.Row> -> Result<string>)
    returns (r: Result<string>, listed: seq<Ledger.Row>)
    ensures Ledger.Enumerates(listed, t.rows) && Ledger.NewestFirst(listed)
    ensures t.rows == map[] ==> r == Ok(NotEnoughData)
    ensures t.rows != map[] ==> r == model(listed)
  {
    listed := Ledger.List(t);
    r := Generate(listed, model);
  }

  // ---------------------------------------------------------------- history

  /** A log row as a message: human and ai rows convert, rows with any other role are dropped. */
  function AsMessage(row: ChatRow): (m: Option<Message>)
    ensures m.Some? <==> row.role == RoleHuman || row.role == RoleAi
    ensures m.Some? ==> m.value.content == row.content && !m.value.Tool?
    ensures m.Some? ==> (m.value.Human? <==> row.role == RoleHuman)
  {
    if row.role == RoleHuman then Some(Human(row.content))
    else if row.role == RoleAi then Some(Ai(row.content))
    else None
  }

  /** Some row of `log` belongs to `session` and converts to `m`. */
  ghost predicate FromSession(log: seq<ChatRow>, session: string, m: Message)
  {
    exists j :: 0 <= j < |log| && log[j].session == session && AsMessage(log[j]) == Some(m)
  }

  /** The transcript of one session, oldest first. */
  function SessionHistory(log: seq<ChatRow>, session: string): (h: seq<Message>)
    ensures |h| <= |log|
    ensures forall i :: 0 <= i < |h| ==> !h[i].Tool? && FromSession(log, session, h[i])
  {
    if log == [] then []
    else
      var rest := SessionHistory(log[1..], session);
      assert forall i :: 0 <= i < |rest| ==> FromSession(log, session, rest[i]) by {
        forall i | 0 <= i < |rest|
          ensures FromSession(log, session, rest[i])
        {
          assert FromSession(log[1..], session, rest[i]);
          var j :| 0 <= j < |log[1..]| && log[1..][j].session == session && AsMessage(log[1..][j]) == Some(rest[i]);
          assert log[j + 1] == log[1..][j];
        }
      }
      if log[0].session == session && AsMessage(log[0]).Some? then [AsMessage(log[0]).value] + rest
      else rest
  }

  /** The transcript of a concatenated log is the concatenation of the transcripts. */
  lemma {:induction false} HistoryOfConcat(a: seq<ChatRow>, b: seq<ChatRow>, session: string)
    ensures SessionHistory(a + b, session) == SessionHistory(a, session) + SessionHistory(b, session)
    decreases |a|
  {
    if a != [] {
      assert (a + b)[1..] == a[1..] + b;
      HistoryOfConcat(a[1..], b, session);
    } else {
      assert a + b == b;
    }
  }

  /** Rows of other sessions never reach a session's transcript. */
  lemma {:induction false} HistoryIgnoresOtherSessions(log: seq<ChatRow>, session: string)
    requires forall j :: 0 <= j < |log| ==> log[j].session != session
    ensures SessionHistory(log, session) == []
    decreases |log|
  {
    if log != [] {
      HistoryIgnoresOtherSessions(log[1..], session);
    }
  }

  /** Every human or ai row of the session contributes its message, and no other row does. */
  lemma HistoryOfOneRow(row: ChatRow, session: string)
    ensures row.session == session && row.role == RoleHuman ==> SessionHistory([row], session) == [Human(row.content)]
    ensures row.session == session && row.role == RoleAi ==> SessionHistory([row], session) == [Ai(row.content)]
    ensures row.session != session || (row.role != RoleHuman && row.role != RoleAi) ==> SessionHistory([row], session) == []
  {
    assert [row][1..] == [];
  }

  // ---------------------------------------------------------------- chat

  /** What the agent is given: the session's transcript, then the new human message. */
  function AgentInput(log: seq<ChatRow>, session: string, message: string): (input: seq<Message>)
    ensures |input| == |SessionHistory(log, session)| + 1
    ensures input[..|input| - 1] == SessionHistory(log, session)
    ensures input[|input| - 1] == Human(message)
  {
    SessionHistory(log, session) + [Human(message)]
  }

  /** The two rows one chat turn appends: the human message, then the agent's answer. */
  function Turn(session: string, message: string, response: string): (rows: seq<ChatRow>)
  {
    [ChatRow(session, RoleHuman, message), ChatRow(session, RoleAi, response)]
  }

  /**
    One chat turn. The answer is the content of the last message the agent
    returns; the log is appended to only after the agent has answered, so a
    failing agent (or one returning no message) leaves the log unchanged.
   */
  function Chat(log: seq<ChatRow>, session: string, message: string,
                agent: seq<Message> -> AgentReply): (r: Step<seq<ChatRow>, Result<string>>)
    ensures r.reply.Err? ==> r.state == log
    ensures r.reply.Ok? <==>
      agent(AgentInput(log, session, message)).AgentReplied? && |agent(AgentInput(log, session, message)).messages| > 0
    ensures r.reply.Ok? ==>
      var ms := agent(AgentInput(log, session, message)).messages;
      r.reply.value == ms[|ms| - 1].content
    ensures r.reply.Ok? ==> |r.state| == |log| + 2 && r.state[..|log|] == log
    ensures r.reply.Ok? ==> r.state[|log|] == ChatRow(session, RoleHuman, message)
    ensures r.reply.Ok? ==> r.state[|log| + 1] == ChatRow(session, RoleAi, r.reply.value)
  {
    match agent(AgentInput(log, session, message))
    case AgentFailed => Step(log, Err("agent failed"))
    case AgentReplied(ms) =>
      if |ms| == 0 then Step(log, Err("agent returned no messages"))
      else
        var response := ms[|ms| - 1].content;
        Step(log + Turn(session, message, response), Ok(response))
  }

  /** After a successful turn the session's transcript has grown by the human message and the answer. */
  lemma ChatExtendsHistory(log: seq<ChatRow>, session: string, message: string,
                                             agent: seq<Message> -> AgentReply)
    requires Chat(log, session, message, agent).reply.Ok?
    ensures var r := Chat(log, session, message, agent);
            SessionHistory(r.state, session)
              == SessionHistory(log, session) + [Human(message), Ai(r.reply.value)]
  {
    var r := Chat(log, session, message, agent);
    var turn := Turn(session, message, r.reply.value);
    assert r.state == log + turn;
    HistoryOfConcat(log, turn, session);
    HistoryOfConcat([turn[0]], [turn[1]], session);
    assert turn == [turn[0]] + [turn[1]];
    HistoryOfOneRow(turn[0], session);
    HistoryOfOneRow(turn[1], session);
  }

  /** A turn in one session leaves every other session's transcript as it was. */
  lemma ChatLeavesOtherSessions(log: seq<ChatRow>, session: string, message: string,
                                                  agent: seq<Message> -> AgentReply, other: string)
    requires other != session
    ensures SessionHistory(Chat(log, session, message, agent).state, other) == SessionHistory(log, other)
  {
    var r := Chat(log, session, message, agent);
    if r.reply.Ok? {
      var turn := Turn(session, message, r.reply.value);
      assert r.state == log + turn;
      HistoryOfConcat(log, turn, other);
      HistoryIgnoresOtherSessions(turn, other);
    }
  }
}

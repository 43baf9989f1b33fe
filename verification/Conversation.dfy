/** One conversation: the helper's message list, whose roles are given by index parity, and the
    rows it publishes. */
module Conversation {
  import opened Sql
  import Text

  datatype Message = Message(text: string, ts: nat)

  datatype Author = Author(userId: nat, userName: string, sessionId: string)

  /** A call to the model that may throw. */
  datatype Call<+T> = Threw | Answered(value: T)

  /** The first reply on the native tool branch. Each tool call yields a result; `broken` says that
      reading a later tool call threw. */
  datatype NativeReply =
    | NoChoices
    | DirectText(content: string)
    | ToolCalls(message: string, results: seq<string>, broken: bool)

  /** A tool's result may be one that cannot be written into the second prompt. */
  datatype ToolOutcome = NoTool | ToolFailed(error: string) | ToolUnwritable | ToolDone

  /** Everything the outside world decides during one `chat` call, branch by branch. `Unprepared` is
      a throw before anything is pushed: an unknown model, a missing key, a configuration or a
      prompt that cannot be made. */
  datatype Plan =
    | Unprepared
    | Simulated(mock: string)
    | PlainModel(reply: Call<string>)
    | NativeModel(first: Call<NativeReply>, second: Call<string>)
    | McpModel(prompt: string, reply: Call<string>, tool: ToolOutcome, secondPrompt: string, second: Call<string>)

  const BAD_FORMAT := "[Error] DeepSeek 返回格式异常"
  const UNPARSED := "[Error] 无法解析响应"
  const NO_ANSWER := "[Error] 工具调用后未生成回答"
  const TOOL_FAILED := "[工具调用失败] "

  /** A reply that asks for tools names at least one. */
  predicate Possible(plan: Plan) {
    plan.NativeModel? && plan.first.Answered? && plan.first.value.ToolCalls? && !plan.first.value.broken
    ==> plan.first.value.results != []
  }

  predicate CallsTools(plan: Plan) {
    plan.NativeModel? && plan.first.Answered? && plan.first.value.ToolCalls?
  }

  /** The publication that throws, if any. */
  datatype Lost = Neither | QuestionLost | AnswerLost

  /** The call throws with nothing left behind. */
  predicate LeavesNothing(plan: Plan) {
    plan.Unprepared? || (plan.McpModel? && plan.reply.Answered? && plan.tool.ToolUnwritable?)
  }

  /** The answer stored in history, when the call gets that far. */
  function StoredAnswer(plan: Plan): Call<string> {
    match plan
    case Unprepared => Threw
    case Simulated(mock) => Answered(mock)
    case PlainModel(reply) => reply
    case NativeModel(Threw, _) => Threw
    case NativeModel(Answered(NoChoices), _) => Answered(BAD_FORMAT)
    case NativeModel(Answered(DirectText(content)), _) => Answered(content)
    case NativeModel(Answered(ToolCalls(_, _, broken)), second) => if broken then Threw else second
    case McpModel(_, Threw, _, _, _) => Threw
    case McpModel(_, Answered(text), NoTool, _, _) => Answered(text)
    case McpModel(_, _, ToolFailed(error), _, _) => Answered(TOOL_FAILED + error)
    case McpModel(_, _, ToolUnwritable, _, _) => Threw
    case McpModel(_, _, ToolDone, _, second) => second
  }

  /** The text returned to the caller differs from the stored one only when that is empty. */
  function Shown(plan: Plan, stored: string): string {
    if stored != "" then stored
    else if plan.PlainModel? || (plan.NativeModel? && !CallsTools(plan)) then UNPARSED
    else if CallsTools(plan) then NO_ANSWER
    else ""
  }

  /** What the caller gets. */
  function Result(plan: Plan, lost: Lost): Call<string> {
    match StoredAnswer(plan)
    case Threw => Threw
    case Answered(stored) => if lost.Neither? then Answered(Shown(plan, stored)) else Threw
  }

  function Temporary(texts: seq<string>): (r: seq<Message>)
    ensures |r| == |texts| && forall i | 0 <= i < |r| :: r[i] == Message(texts[i], 0)
  {
    if texts == [] then [] else [Message(texts[0], 0)] + Temporary(texts[1..])
  }

  /** What the native tool branch pushes beside the question: the assistant's request and the
      results. */
  function Pushed(plan: Plan): seq<Message>
    requires CallsTools(plan)
  {
    [Message(plan.first.value.message, 0)] + Temporary(plan.first.value.results)
  }

  /** What stays between question and answer: exactly two entries are popped, whatever was pushed. */
  function Residue(plan: Plan): seq<Message>
    requires Possible(plan)
  {
    if CallsTools(plan) && !plan.first.value.broken then Pushed(plan)[..|Pushed(plan)| - 2] else []
  }

  /** What a call leaves behind that threw after something was pushed. */
  function Wreck(plan: Plan, question: Message): seq<Message> {
    if plan.McpModel? then [Message(if plan.reply.Threw? then plan.prompt else plan.secondPrompt, 0)]
    else [question] + if CallsTools(plan) then Pushed(plan) else []
  }

  function RowOf(a: Author, isUser: bool, m: Message): Row {
    Row(a.userId, a.userName, a.sessionId, isUser, m.text, m.ts)
  }

  /** A stream is refused before its question is kept, stops when that cannot be published, or runs. */
  datatype StreamStart = Refused | Unpublished | Started

  datatype Turn =
    | ChatTurn(question: string, plan: Plan, lost: Lost, asked: nat, answered: nat)
    | StreamTurn(question: string, start: StreamStart, reply: string, asked: nat, answered: nat)

  /** Memory and published rows of one helper. */
  datatype History = History(messages: seq<Message>, rows: seq<Row>)

  /** The turn threw before it kept anything. */
  predicate Silent(turn: Turn) {
    match turn
    case ChatTurn(_, plan, _, _, _) => LeavesNothing(plan)
    case StreamTurn(_, start, _, _, _) => start.Refused?
  }

  /** One turn: what memory and rows gain, on every branch of `chat` and for a stream. */
  function TakeTurn(h: History, a: Author, turn: Turn): History
    requires turn.ChatTurn? ==> Possible(turn.plan)
  {
    if Silent(turn) then h
    else
      var q := Message(turn.question, turn.asked);
      match turn
      case StreamTurn(_, start, reply, _, answered) =>
        if start.Unpublished? then History(h.messages + [q], h.rows)
        else Kept(h, a, q, [], Message(reply, answered), Neither)
      case ChatTurn(_, plan, lost, _, answered) =>
        if plan.McpModel? && StoredAnswer(plan).Threw? then History(h.messages + Wreck(plan, q), h.rows)
        else if lost.QuestionLost? then History(h.messages + [q], h.rows)
        else match StoredAnswer(plan)
          case Answered(stored) => Kept(h, a, q, Residue(plan), Message(stored, answered), lost)
          case Threw => History(h.messages + Wreck(plan, q), h.rows + [RowOf(a, true, q)])
  }

  /** Question and answer kept, with whatever stayed between them. */
  function Kept(h: History, a: Author, q: Message, between: seq<Message>, answer: Message, lost: Lost): History {
    History(h.messages + ([q] + between + [answer]),
            h.rows + ([RowOf(a, true, q)] + if lost.AnswerLost? then [] else [RowOf(a, false, answer)]))
  }

  lemma KeptInParts(h: History, a: Author, q: Message, between: seq<Message>, answer: Message, lost: Lost)
    ensures var row := if lost.AnswerLost? then [] else [RowOf(a, false, answer)];
            Kept(h, a, q, between, answer, lost)
            == History(h.messages + [q] + (between + [answer]), h.rows + [RowOf(a, true, q)] + row)
  {
    Text.Regroup([q], between, [answer]);
    Text.Regroup(h.messages, [q], between + [answer]);
    Text.Regroup(h.rows, [RowOf(a, true, q)], if lost.AnswerLost? then [] else [RowOf(a, false, answer)]);
  }

  // ----- what is answered -----

  function TextIn(reply: NativeReply): string {
    match reply
    case NoChoices => ""
    case DirectText(content) => content
    case ToolCalls(message, _, _) => message
  }

  /** The model calls made, in order, with the text of each reply; a mock stands for one. */
  function ModelCalls(plan: Plan): seq<Call<string>> {
    match plan
    case Unprepared => []
    case Simulated(mock) => [Answered(mock)]
    case PlainModel(reply) => [reply]
    case NativeModel(first, second) =>
      [if first.Threw? then Threw else Answered(TextIn(first.value))]
      + if CallsTools(plan) && !plan.first.value.broken then [second] else []
    case McpModel(_, reply, tool, _, second) => [reply] + if reply.Answered? && tool.ToolDone? then [second] else []
  }

  /** A turn that returned `text`: the question is the first new entry and the user's row, the last
      reply of the model, or the fixed text where there is none to use, the last entry and the other
      row; `text` is that answer unless it is empty. */
  predicate Returned(before: History, after: History, a: Author, turn: Turn, text: string)
    requires turn.ChatTurn?
  {
    var plan, calls, n := turn.plan, ModelCalls(turn.plan), |after.messages|;
    var q := Message(turn.question, turn.asked);
    && calls != [] && calls[|calls| - 1].Answered?
    && var answer :=
         if plan.McpModel? && plan.tool.ToolFailed? then TOOL_FAILED + plan.tool.error
         else if plan.NativeModel? && plan.first.Answered? && plan.first.value.NoChoices? then BAD_FORMAT
         else calls[|calls| - 1].value;
    && |before.messages| + 2 <= n && before.messages <= after.messages
    && after.messages[|before.messages|] == q
    && after.messages[n - 1] == Message(answer, turn.answered)
    && after.rows == before.rows + [RowOf(a, true, q), RowOf(a, false, Message(answer, turn.answered))]
    && (answer != "" ==> text == answer)
    && (answer == "" ==>
          text == if plan.McpModel? || plan.Simulated? then "" else if |calls| == 2 then NO_ANSWER else UNPARSED)
  }

  /** What a call answers is the last thing the model said. */
  lemma AnswerIsLastReply(h: History, a: Author, turn: Turn)
    requires turn.ChatTurn? && Possible(turn.plan) && Result(turn.plan, turn.lost).Answered?
    ensures Returned(h, TakeTurn(h, a, turn), a, turn, Result(turn.plan, turn.lost).value)
  {
    var stored := Message(StoredAnswer(turn.plan).value, turn.answered);
    var q := Message(turn.question, turn.asked);
    assert TakeTurn(h, a, turn) == Kept(h, a, q, Residue(turn.plan), stored, Neither);
    assert [RowOf(a, true, q)] + [RowOf(a, false, stored)] == [RowOf(a, true, q), RowOf(a, false, stored)];
  }

  /** A call returns iff everything it does succeeds: it was prepared, no model call threw, the tools
      asked for could be read and their results written, and both entries were published. */
  lemma ReturnsExactly(plan: Plan, lost: Lost)
    requires Possible(plan)
    ensures Result(plan, lost).Answered?
            <==> && !plan.Unprepared?
                 && (forall c | c in ModelCalls(plan) :: c.Answered?)
                 && !(CallsTools(plan) && plan.first.value.broken)
                 && !(plan.McpModel? && plan.tool.ToolUnwritable?)
                 && lost.Neither?
  {
    var calls := ModelCalls(plan);
    if calls != [] {
      assert calls[0] in calls && calls[|calls| - 1] in calls;
      assert forall c | c in calls :: c == calls[0] || c == calls[|calls| - 1];
    }
  }

  /** What a call that threw leaves in memory: on the MCP branch the prompt of the model call that
      threw and nothing else, on the others the question and what the tools pushed; a row only for a
      question that was published. */
  lemma ThrowLeaves(h: History, a: Author, turn: Turn)
    requires turn.ChatTurn? && Possible(turn.plan) && turn.lost.Neither? && Result(turn.plan, turn.lost).Threw?
    ensures var plan, r, n := turn.plan, TakeTurn(h, a, turn), |h.messages|;
            var q := Message(turn.question, turn.asked);
            && h.messages <= r.messages
            && (plan.Unprepared? ==> r == h)
            && (plan.McpModel? ==>
                  && r.rows == h.rows
                  && (plan.reply.Answered? && plan.tool.ToolUnwritable? ==> r == h)
                  && (plan.reply.Threw? ==> r.messages[n..] == [Message(plan.prompt, 0)])
                  && (plan.reply.Answered? && plan.tool.ToolDone? ==>
                        r.messages[n..] == [Message(plan.secondPrompt, 0)]))
            && (plan.PlainModel? || plan.NativeModel? ==>
                  && r.rows == h.rows + [RowOf(a, true, q)]
                  && r.messages[n..]
                     == [q] + if CallsTools(plan) then
                                [Message(plan.first.value.message, 0)] + Temporary(plan.first.value.results)
                              else [])
  {
  }

  lemma LastPopped(before: seq<Message>, pushed: seq<Message>)
    requires pushed != []
    ensures var all := before + pushed; all[..|all| - 1] == before + pushed[..|pushed| - 1]
  {
  }

  class AIHelper {
    var messages: seq<Message>
    var published: seq<Row>

    constructor ()
      ensures View() == History([], [])
    {
      messages, published := [], [];
    }

    function View(): History
      reads this
    {
      History(messages, published)
    }

    /** `addMessage`: into memory, and to the queue as an INSERT unless publishing throws. */
    method AddMessage(a: Author, isUser: bool, text: string, now: nat, lost: bool) returns (ok: bool)
      modifies this
      ensures ok == !lost
      ensures messages == old(messages) + [Message(text, now)]
      ensures published == old(published)
                           + if lost then [] else [Row(a.userId, a.userName, a.sessionId, isUser, text, now)]
    {
      messages := messages + [Message(text, now)];
      if lost {
        assert published + [] == published;
        return false;
      }
      published := published + [Row(a.userId, a.userName, a.sessionId, isUser, text, now)];
      ok := true;
    }

    /** The question and the answer one after the other, as most branches end. */
    method AddBoth(a: Author, question: string, answer: string, lost: Lost, asked: nat, answered: nat)
      returns (ok: bool)
      modifies this
      ensures ok == lost.Neither?
      ensures View() == if lost.QuestionLost? then History(old(messages) + [Message(question, asked)], old(published))
                        else Kept(old(View()), a, Message(question, asked), [], Message(answer, answered), lost)
    {
      ghost var q, m := Message(question, asked), Message(answer, answered);
      ok := AddMessage(a, true, question, asked, lost.QuestionLost?);
      if !ok {
        assert published + [] == published;
        return;
      }
      ok := AddMessage(a, false, answer, answered, lost.AnswerLost?);
      assert [q] + [] == [q];
      Text.Regroup(old(messages), [q], [m]);
      Text.Regroup(old(published), [RowOf(a, true, q)], if lost.AnswerLost? then [] else [RowOf(a, false, m)]);
    }

    method Push(text: string)
      modifies this`messages
      ensures messages == old(messages) + [Message(text, 0)]
    {
      messages := messages + [Message(text, 0)];
    }

    method Pop()
      requires messages != []
      modifies this`messages
      ensures messages == old(messages)[..|old(messages)| - 1]
    {
      messages := messages[..|messages| - 1];
    }

    /** `chat`, on every branch. */
    method Chat(a: Author, question: string, plan: Plan, lost: Lost, asked: nat, answered: nat)
      returns (r: Call<string>)
      requires Possible(plan)
      modifies this
      ensures r == Result(plan, lost)
      ensures View() == TakeTurn(old(View()), a, ChatTurn(question, plan, lost, asked, answered))
      ensures r.Answered? ==>
                Returned(old(View()), View(), a, ChatTurn(question, plan, lost, asked, answered), r.value)
    {
      if Result(plan, lost).Answered? {
        AnswerIsLastReply(View(), a, ChatTurn(question, plan, lost, asked, answered));
      }
      match plan {
        case Unprepared =>
          r := Threw;
        case Simulated(mock) =>
          var ok := AddBoth(a, question, mock, lost, asked, answered);
          r := if ok then Answered(mock) else Threw;
        case NativeModel(first, second) =>
          r := ChatNative(a, question, plan, lost, asked, answered);
        case PlainModel(reply) =>
          r := ChatPlain(a, question, plan, lost, asked, answered);
        case McpModel(_, _, _, _, _) =>
          r := ChatMcp(a, question, plan, lost, asked, answered);
      }
    }

    method ChatPlain(a: Author, question: string, plan: Plan, lost: Lost, asked: nat, answered: nat)
      returns (r: Call<string>)
      requires plan.PlainModel?
      modifies this
      ensures r == Result(plan, lost)
      ensures View() == TakeTurn(old(View()), a, ChatTurn(question, plan, lost, asked, answered))
    {
      if plan.reply.Threw? {
        var kept := AddMessage(a, true, question, asked, lost.QuestionLost?);
        assert old(published) + [] == old(published);
        assert [Message(question, asked)] + [] == [Message(question, asked)];
        return Threw;
      }
      var ok := AddBoth(a, question, plan.reply.value, lost, asked, answered);
      r := if !ok then Threw else Answered(if plan.reply.value == "" then UNPARSED else plan.reply.value);
    }

    method ChatMcp(a: Author, question: string, plan: Plan, lost: Lost, asked: nat, answered: nat)
      returns (r: Call<string>)
      requires plan.McpModel?
      modifies this
      ensures r == Result(plan, lost)
      ensures View() == TakeTurn(old(View()), a, ChatTurn(question, plan, lost, asked, answered))
    {
      Push(plan.prompt);
      if plan.reply.Threw? {
        return Threw;
      }
      Pop();
      var stored := plan.reply.value;
      if plan.tool.ToolFailed? {
        stored := TOOL_FAILED + plan.tool.error;
      } else if plan.tool.ToolUnwritable? {
        return Threw;
      } else if plan.tool.ToolDone? {
        Push(plan.secondPrompt);
        if plan.second.Threw? {
          return Threw;
        }
        Pop();
        stored := plan.second.value;
      }
      assert messages == old(messages) && published == old(published);
      var ok := AddBoth(a, question, stored, lost, asked, answered);
      r := if ok then Answered(stored) else Threw;
    }

    method ChatNative(a: Author, question: string, plan: Plan, lost: Lost, asked: nat, answered: nat)
      returns (r: Call<string>)
      requires plan.NativeModel? && Possible(plan)
      modifies this
      ensures r == Result(plan, lost)
      ensures View() == TakeTurn(old(View()), a, ChatTurn(question, plan, lost, asked, answered))
    {
      ghost var q := Message(question, asked);
      var ok := AddMessage(a, true, question, asked, lost.QuestionLost?);
      if !ok {
        assert old(published) + [] == old(published);
        return Threw;
      }
      if plan.first.Threw? {
        assert [q] + [] == [q];
        return Threw;
      }
      match plan.first.value {
        case NoChoices =>
          ok := AddMessage(a, false, BAD_FORMAT, answered, lost.AnswerLost?);
          r := if ok then Answered(BAD_FORMAT) else Threw;
        case DirectText(content) =>
          ok := AddMessage(a, false, content, answered, lost.AnswerLost?);
          r := if !ok then Threw else Answered(if content == "" then UNPARSED else content);
        case ToolCalls(message, results, broken) =>
          r := ChatTools(a, plan, lost.AnswerLost?, answered);
      }
      if StoredAnswer(plan).Answered? {
        ghost var answer := Message(StoredAnswer(plan).value, answered);
        KeptInParts(old(View()), a, q, Residue(plan), answer, lost);
      } else {
        Text.Regroup(old(messages), [q], Pushed(plan));
      }
    }

    /** The tool calls and the second request; two entries are popped at the end. */
    method ChatTools(a: Author, plan: Plan, lost: bool, answered: nat) returns (r: Call<string>)
      requires CallsTools(plan) && Possible(plan)
      modifies this
      ensures r == Result(plan, if lost then AnswerLost else Neither)
      ensures match StoredAnswer(plan)
              case Answered(stored) =>
                var answer := Message(stored, answered);
                && messages == old(messages) + (Residue(plan) + [answer])
                && published == old(published) + if lost then [] else [RowOf(a, false, answer)]
              case Threw => messages == old(messages) + Pushed(plan) && published == old(published)
    {
      var reply := plan.first.value;
      Push(reply.message);
      PushAll(reply.results);
      ghost var pushed, n := Pushed(plan), |Pushed(plan)|;
      Text.Regroup(old(messages), [Message(reply.message, 0)], Temporary(reply.results));
      assert messages == old(messages) + pushed;
      if reply.broken || plan.second.Threw? {
        return Threw;
      }
      LastPopped(old(messages), pushed);
      Pop();
      LastPopped(old(messages), pushed[..n - 1]);
      Pop();
      assert pushed[..n - 1][..n - 2] == pushed[..n - 2];
      Text.Regroup(old(messages), pushed[..n - 2], [Message(plan.second.value, answered)]);
      var ok := AddMessage(a, false, plan.second.value, answered, lost);
      r := if !ok then Threw else Answered(if plan.second.value == "" then NO_ANSWER else plan.second.value);
    }

    method PushAll(texts: seq<string>)
      modifies this`messages
      ensures messages == old(messages) + Temporary(texts)
    {
      for i := 0 to |texts|
        invariant messages == old(messages) + Temporary(texts)[..i]
      {
        Push(texts[i]);
      }
    }

    /** A stream's two writes: the question at its start, the reply or the placeholder at its end. */
    method Stream(a: Author, question: string, start: StreamStart, reply: string, asked: nat, answered: nat)
      modifies this
      ensures View() == TakeTurn(old(View()), a, StreamTurn(question, start, reply, asked, answered))
      ensures messages == old(messages) + match start
                                          case Refused => []
                                          case Unpublished => [Message(question, asked)]
                                          case Started => [Message(question, asked), Message(reply, answered)]
      ensures published == old(published)
                           + if start.Started? then [RowOf(a, true, Message(question, asked)),
                                                     RowOf(a, false, Message(reply, answered))] else []
    {
      ghost var q, m := Message(question, asked), Message(reply, answered);
      assert [q] + [] + [m] == [q, m];
      assert [RowOf(a, true, q)] + [RowOf(a, false, m)] == [RowOf(a, true, q), RowOf(a, false, m)];
      assert old(messages) + [] == old(messages) && old(published) + [] == old(published);
      if start.Refused? {
        return;
      }
      var ok := AddBoth(a, question, reply, if start.Unpublished? then QuestionLost else Neither, asked, answered);
    }

    /** `buildRequest`: roles by parity. */
    method BuildRequest() returns (request: seq<(string, string)>)
      ensures |request| == |messages|
      ensures forall i | 0 <= i < |messages| :: request[i] == (Role(i), messages[i].text)
    {
      request := [];
      for i := 0 to |messages|
        invariant |request| == i
        invariant forall j | 0 <= j < i :: request[j] == (Role(j), messages[j].text)
      {
        if i % 2 == 0 {
          request := request + [("user", messages[i].text)];
        } else {
          request := request + [("assistant", messages[i].text)];
        }
      }
    }
  }

  function Role(i: nat): string {
    if i % 2 == 0 then "user" else "assistant"
  }

  // ----- whole conversations -----

  /** Whole turns, and entry `i` was persisted as the user's iff `i` is even. */
  predicate Aligned(h: History) {
    && |h.messages| == |h.rows|
    && |h.messages| % 2 == 0
    && forall i | 0 <= i < |h.rows| ::
         h.rows[i].content == h.messages[i].text && h.rows[i].ts == h.messages[i].ts
         && h.rows[i].isUser == (i % 2 == 0)
  }

  /** The turn kept nothing, or it did not throw and asked for at most one tool on the native
      branch. */
  predicate Balanced(turn: Turn) {
    Silent(turn) ||
    match turn
    case StreamTurn(_, start, _, _, _) => start.Started?
    case ChatTurn(_, plan, lost, _, _) =>
      lost.Neither? && StoredAnswer(plan).Answered? && (CallsTools(plan) ==> |plan.first.value.results| == 1)
  }

  /** A native turn with `k` tool calls changes the length by `k + 1`. */
  lemma ToolTurnLength(h: History, a: Author, turn: Turn)
    requires turn.ChatTurn? && Possible(turn.plan) && !turn.lost.QuestionLost?
    requires CallsTools(turn.plan) && StoredAnswer(turn.plan).Answered?
    ensures |TakeTurn(h, a, turn).messages| == |h.messages| + |turn.plan.first.value.results| + 1
  {
  }

  /** A turn keeps the alternation exactly when it is balanced: then it appends the question and
      the stored answer with every temporary prompt removed, or nothing at all. */
  lemma TurnKeepsAlternation(h: History, a: Author, turn: Turn)
    requires Aligned(h) && (turn.ChatTurn? ==> Possible(turn.plan))
    ensures Aligned(TakeTurn(h, a, turn)) <==> Balanced(turn)
  {
    var r := TakeTurn(h, a, turn);
    if turn.ChatTurn? && StoredAnswer(turn.plan).Answered? && turn.lost.Neither? {
      var q, answer := Message(turn.question, turn.asked), Message(StoredAnswer(turn.plan).value, turn.answered);
      assert |r.messages| == |h.messages| + |Residue(turn.plan)| + 2 && |r.rows| == |h.rows| + 2;
      if Residue(turn.plan) == [] {
        assert [q] + [] == [q];
      }
    }
  }

  function Converse(h: History, a: Author, turns: seq<Turn>): History
    requires forall t | t in turns :: t.ChatTurn? ==> Possible(t.plan)
    decreases |turns|
  {
    if turns == [] then h else Converse(TakeTurn(h, a, turns[0]), a, turns[1..])
  }

  /** A row stored under the other role than its place gives. */
  predicate WrongRole(rows: seq<Row>, i: nat)
    requires i < |rows|
  {
    rows[i].isUser != (i % 2 == 0)
  }

  /** Out of step for good: an entry without a row, half a turn, or a row in the other role's place. */
  predicate OutOfStep(h: History) {
    && |h.messages| >= |h.rows|
    && (|h.messages| > |h.rows| || |h.rows| % 2 == 1 || exists i: nat | i < |h.rows| :: WrongRole(h.rows, i))
  }

  lemma WrongRoleStays(rows: seq<Row>, more: seq<Row>)
    ensures (exists i: nat | i < |rows| :: WrongRole(rows, i))
            ==> exists i: nat | i < |rows + more| :: WrongRole(rows + more, i)
    ensures |rows| % 2 == 1 && more != [] && more[0].isUser
            ==> exists i: nat | i < |rows + more| :: WrongRole(rows + more, i)
  {
    var all := rows + more;
    if i: nat :| i < |rows| && WrongRole(rows, i) {
      assert WrongRole(all, i);
    }
    if |rows| % 2 == 1 && more != [] && more[0].isUser {
      assert WrongRole(all, |rows|);
    }
  }

  /** The rows of a turn begin with the question, and entries never fall behind rows. */
  lemma TurnGrows(h: History, a: Author, turn: Turn) returns (more: seq<Row>)
    requires turn.ChatTurn? ==> Possible(turn.plan)
    ensures TakeTurn(h, a, turn).rows == h.rows + more
    ensures |TakeTurn(h, a, turn).messages| >= |h.messages| + |more|
    ensures more == [] ==> TakeTurn(h, a, turn) == h || |TakeTurn(h, a, turn).messages| > |h.messages|
    ensures more != [] ==> more[0].isUser
  {
    more := TakeTurn(h, a, turn).rows[|h.rows|..];
    assert h.rows + [] == h.rows;
  }

  lemma TurnKeepsOutOfStep(h: History, a: Author, turn: Turn)
    requires OutOfStep(h) && (turn.ChatTurn? ==> Possible(turn.plan))
    ensures OutOfStep(TakeTurn(h, a, turn))
  {
    var more := TurnGrows(h, a, turn);
    WrongRoleStays(h.rows, more);
  }

  /** An unbalanced turn leaves an entry without a row, or half a turn. */
  lemma UnbalancedTurn(h: History, a: Author, turn: Turn)
    requires Aligned(h) && (turn.ChatTurn? ==> Possible(turn.plan)) && !Balanced(turn)
    ensures OutOfStep(TakeTurn(h, a, turn))
  {
  }

  lemma {:induction false} OutOfStepRun(h: History, a: Author, turns: seq<Turn>)
    requires OutOfStep(h) && forall t | t in turns :: t.ChatTurn? ==> Possible(t.plan)
    ensures OutOfStep(Converse(h, a, turns))
    decreases |turns|
  {
    if turns != [] {
      TurnKeepsOutOfStep(h, a, turns[0]);
      OutOfStepRun(TakeTurn(h, a, turns[0]), a, turns[1..]);
    }
  }

  lemma OutOfStepNotAligned(h: History)
    requires OutOfStep(h)
    ensures !Aligned(h)
  {
  }

  /** How many of the turns kept something. */
  function Rounds(turns: seq<Turn>): nat {
    if turns == [] then 0 else (if Silent(turns[0]) then 0 else 1) + Rounds(turns[1..])
  }

  /** Over whole conversations, streams and chats in any order, parity is role exactly when every
      turn was balanced; then each that kept something added two entries. Once lost the alternation
      never returns. */
  lemma {:induction false} AlternationRun(h: History, a: Author, turns: seq<Turn>)
    requires Aligned(h) && forall t | t in turns :: t.ChatTurn? ==> Possible(t.plan)
    ensures Aligned(Converse(h, a, turns)) <==> forall t | t in turns :: Balanced(t)
    ensures (forall t | t in turns :: Balanced(t))
            ==> |Converse(h, a, turns).messages| == |h.messages| + 2 * Rounds(turns)
    decreases |turns|
  {
    if turns != [] {
      var next := TakeTurn(h, a, turns[0]);
      TurnKeepsAlternation(h, a, turns[0]);
      assert turns == [turns[0]] + turns[1..];
      if Balanced(turns[0]) {
        BalancedLength(h, a, turns[0]);
        AlternationRun(next, a, turns[1..]);
      } else {
        UnbalancedTurn(h, a, turns[0]);
        OutOfStepRun(next, a, turns[1..]);
        OutOfStepNotAligned(Converse(next, a, turns[1..]));
      }
    }
  }

  lemma BalancedLength(h: History, a: Author, turn: Turn)
    requires (turn.ChatTurn? ==> Possible(turn.plan)) && Balanced(turn)
    ensures |TakeTurn(h, a, turn).messages| == |h.messages| + if Silent(turn) then 0 else 2
  {
  }

  // ----- what the rows can give back -----

  /** Whatever the turn kept it also published: a balanced turn, or one that stopped at its
      published question. */
  predicate Tracked(turn: Turn) {
    Balanced(turn)
    || (turn.ChatTurn? && !turn.lost.QuestionLost? && StoredAnswer(turn.plan).Threw?
        && !turn.plan.McpModel? && !CallsTools(turn.plan))
  }
}

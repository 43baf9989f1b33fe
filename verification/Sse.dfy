/** The downstream half of a stream: frames written by the handler, read back by the page. */
module Sse {
  import opened Text
  import opened Json
  import opened Upstream

  // ----- the handler -----

  const DONE_FRAME := PREFIX + DONE + "\n\n"
  const PLACEHOLDER := "[错误] AI 回复失败，请重试"

  predicate KnownKind(kind: string) {
    kind == "reasoning" || kind == "content" || kind == "error"
  }

  function Frame(kind: string, raw: string): string {
    PREFIX + MemberText(kind, raw) + "\n\n"
  }

  /** What one `onChunk` call sends: nothing for an empty text or an unknown kind. */
  function ChunkFrame(c: Chunk): string {
    if c.1 == "" || !KnownKind(c.0) then "" else Frame(c.0, Escape(c.1))
  }

  function ChunkFrames(chunks: seq<Chunk>): string {
    if chunks == [] then "" else ChunkFrame(chunks[0]) + ChunkFrames(chunks[1..])
  }

  /** The texts that make up the answer, in order. */
  function ContentText(chunks: seq<Chunk>): string {
    if chunks == [] then ""
    else Content(chunks[0]) + ContentText(chunks[1..])
  }

  function Content(c: Chunk): string {
    if c.0 == "content" then c.1 else ""
  }

  function SessionFrame(newId: Option<string>): string {
    if newId.Some? then Frame("sessionId", newId.value) else ""
  }

  /** The frame of an exception; its message is not escaped. */
  function FailureFrame(failure: Option<string>): string {
    if failure.Some? then Frame("error", failure.value) else ""
  }

  /** Everything sent after the response head. */
  function Body(newId: Option<string>, chunks: seq<Chunk>, failure: Option<string>): string {
    SessionFrame(newId) + (ChunkFrames(chunks) + (FailureFrame(failure) + DONE_FRAME))
  }

  /** The answer written to history: the placeholder keeps the turn complete when nothing came. */
  function StoredReply(chunks: seq<Chunk>): string {
    if ContentText(chunks) != "" then ContentText(chunks) else PLACEHOLDER
  }

  class StreamHandler {
    var sent: string
    var fullReply: string

    constructor ()
      ensures sent == "" && fullReply == ""
    {
      sent, fullReply := "", "";
    }

    method OnChunk(c: Chunk)
      modifies this
      ensures sent == old(sent) + ChunkFrame(c)
      ensures fullReply == old(fullReply) + Content(c)
    {
      if c.1 == "" {
        return;
      }
      var escaped := EscapeForJson(c.1);
      if c.0 == "reasoning" {
        sent := sent + Frame("reasoning", escaped);
      } else if c.0 == "content" {
        fullReply := fullReply + c.1;
        sent := sent + Frame("content", escaped);
      } else if c.0 == "error" {
        sent := sent + Frame("error", escaped);
      }
    }

    method SendChunks(chunks: seq<Chunk>)
      modifies this
      ensures sent == old(sent) + ChunkFrames(chunks)
      ensures fullReply == old(fullReply) + ContentText(chunks)
    {
      assert chunks[0..] == chunks;
      for i := 0 to |chunks|
        invariant sent + ChunkFrames(chunks[i..]) == old(sent) + ChunkFrames(chunks)
        invariant fullReply + ContentText(chunks[i..]) == old(fullReply) + ContentText(chunks)
      {
        ChunkTaken(sent, fullReply, chunks, i);
        OnChunk(chunks[i]);
      }
    }

    /** A whole stream: the session frame, one callback per chunk, the failure frame when the
        transfer threw, the write-back, and the end mark. */
    method Stream(newId: Option<string>, chunks: seq<Chunk>, failure: Option<string>)
      returns (stored: string)
      requires sent == "" && fullReply == ""
      modifies this
      ensures sent == Body(newId, chunks, failure)
      ensures stored == StoredReply(chunks)
    {
      if newId.Some? {
        sent := Frame("sessionId", newId.value);
      }
      SendChunks(chunks);
      if failure.Some? {
        sent := sent + Frame("error", failure.value);
      } else {
        assert sent + "" == sent;
      }
      stored := if fullReply != "" then fullReply else PLACEHOLDER;
      sent := sent + DONE_FRAME;
      BodyGrouped(newId, chunks, failure);
    }
  }

  lemma BodyGrouped(newId: Option<string>, chunks: seq<Chunk>, failure: Option<string>)
    ensures Body(newId, chunks, failure)
            == SessionFrame(newId) + ChunkFrames(chunks) + FailureFrame(failure) + DONE_FRAME
  {
    var a, b, c := SessionFrame(newId), ChunkFrames(chunks), FailureFrame(failure);
    Regroup(a, b, c + DONE_FRAME);
    Regroup(a + b, c, DONE_FRAME);
  }

  lemma FirstChunk(c: Chunk, later: seq<Chunk>)
    ensures ChunkFrames([c] + later) == ChunkFrame(c) + ChunkFrames(later)
    ensures ContentText([c] + later) == Content(c) + ContentText(later)
  {
    assert ([c] + later)[1..] == later;
  }

  lemma ChunkTaken(before: string, reply: string, chunks: seq<Chunk>, i: nat)
    requires i < |chunks|
    ensures before + ChunkFrame(chunks[i]) + ChunkFrames(chunks[i + 1..]) == before + ChunkFrames(chunks[i..])
    ensures reply + Content(chunks[i]) + ContentText(chunks[i + 1..]) == reply + ContentText(chunks[i..])
  {
    var c, later := chunks[i], chunks[i + 1..];
    assert chunks[i..] == [c] + later;
    FirstChunk(c, later);
    Regroup(before, ChunkFrame(c), ChunkFrames(later));
    Regroup(reply, Content(c), ContentText(later));
  }

  // ----- the page -----

  datatype Event = SessionStarted(id: string) | Failed(message: string)
                 | Thought(text: string) | Said(text: string) | Finished

  function MemberEvent(key: string, value: string): seq<Event> {
    if value == "" then []
    else if key == "sessionId" then [SessionStarted(value)]
    else if key == "error" then [Failed(value)]
    else if key == "reasoning" then [Thought(value)]
    else if key == "content" then [Said(value)]
    else []
  }

  /** Of the members it knows the page takes the first that is not empty. */
  function ObjectEvent(members: seq<Member>): seq<Event> {
    if Get(members, "sessionId") != "" then [SessionStarted(Get(members, "sessionId"))]
    else if Get(members, "error") != "" then [Failed(Get(members, "error"))]
    else if Get(members, "reasoning") != "" then [Thought(Get(members, "reasoning"))]
    else if Get(members, "content") != "" then [Said(Get(members, "content"))]
    else []
  }

  lemma {:induction false} OneMemberEvent(m: Member)
    ensures ObjectEvent([m]) == MemberEvent(m.0, m.1)
  {
    assert [m][..0] == [];
    assert forall key :: Get([], key) == "";
    assert forall key :: Get([m], key) == if m.0 == key then m.1 else "";
  }

  const ORDER := ["sessionId", "error", "reasoning", "content"]

  /** Of several members that are not empty the page takes the one that comes first in its order,
      wherever they stand in the object. */
  lemma {:induction false} FirstMemberShown(members: seq<Member>, i: nat)
    requires i < |ORDER| && Get(members, ORDER[i]) != ""
    ensures ObjectEvent(members) == MemberEvent(ORDER[i], Get(members, ORDER[i]))
            <==> forall j | 0 <= j < i :: Get(members, ORDER[j]) == ""
  {
    assert ORDER[0] == "sessionId" && ORDER[1] == "error" && ORDER[2] == "reasoning" && ORDER[3] == "content";
  }

  /** `handleData`: anything that does not parse is ignored. */
  function HandleData(data: string): seq<Event> {
    if data == DONE then [Finished]
    else match ParseObject(data)
      case None => []
      case Some(members) => ObjectEvent(members)
  }

  function LineEvents(line: string): seq<Event> {
    if PREFIX <= line then HandleData(line[|PREFIX|..]) else []
  }

  function LinesEvents(lines: seq<string>): seq<Event> {
    if lines == [] then [] else LineEvents(lines[0]) + LinesEvents(lines[1..])
  }

  lemma {:induction false} LinesEventsConcat(a: seq<string>, b: seq<string>)
    ensures LinesEvents(a + b) == LinesEvents(a) + LinesEvents(b)
  {
    if a == [] {
      assert a + b == b;
    } else {
      assert (a + b)[1..] == a[1..] + b;
      LinesEventsConcat(a[1..], b);
    }
  }

  lemma LinesEventsOne(line: string)
    ensures LinesEvents([line]) == LineEvents(line)
  {
    assert [line][1..] == [];
    assert LinesEvents([line]) == LineEvents(line) + [];
  }

  lemma OneMoreLine(lines: seq<string>, line: string)
    ensures LinesEvents(lines + [line]) == LinesEvents(lines) + LineEvents(line)
  {
    LinesEventsConcat(lines, [line]);
    LinesEventsOne(line);
  }

  lemma ReadEvents(r: Lines, c: char)
    ensures LinesEvents(ReadChar(r, c).done) == LinesEvents(r.done) + if c == '\n' then LineEvents(r.buffer) else []
  {
    OneMoreLine(r.done, r.buffer);
  }

  /** What the page makes of a whole response. */
  function TextEvents(text: string): seq<Event> {
    LinesEvents(Split(text, '\n'))
  }

  function AnswerShown(events: seq<Event>): string {
    if events == [] then ""
    else (if events[0].Said? then events[0].text else "") + AnswerShown(events[1..])
  }

  class Page {
    var lineBuffer: string
    var events: seq<Event>

    constructor ()
      ensures lineBuffer == "" && events == []
    {
      lineBuffer, events := "", [];
    }

    method OnNetwork(chunk: string)
      modifies this
      ensures var r := Read(Lines([], old(lineBuffer)), chunk);
              lineBuffer == r.buffer && events == old(events) + LinesEvents(r.done)
    {
      ghost var r := Lines([], lineBuffer);
      assert chunk[0..] == chunk;
      for i := 0 to |chunk|
        invariant Read(r, chunk[i..]) == Read(Lines([], old(lineBuffer)), chunk)
        invariant lineBuffer == r.buffer && events == old(events) + LinesEvents(r.done)
      {
        ReadNext(r, chunk, i);
        ReadEvents(r, chunk[i]);
        Regroup(old(events), LinesEvents(r.done), if chunk[i] == '\n' then LineEvents(r.buffer) else []);
        r := ReadChar(r, chunk[i]);
        if chunk[i] == '\n' {
          Dispatch();
          lineBuffer := "";
        } else {
          lineBuffer := lineBuffer + [chunk[i]];
        }
      }
    }

    method Dispatch()
      modifies this`events
      ensures events == old(events) + LineEvents(lineBuffer)
    {
      if PREFIX <= lineBuffer {
        events := events + HandleData(lineBuffer[|PREFIX|..]);
      }
    }
  }

  /** Reading a whole response cut into `fragments`, with the last dispatch at the end. */
  method ReadResponse(fragments: seq<string>) returns (events: seq<Event>)
    ensures events == TextEvents(Flatten(fragments))
  {
    var page := new Page();
    ghost var seen: seq<string> := [];
    assert fragments[0..] == fragments && "" + Flatten(fragments) == Flatten(fragments);
    for i := 0 to |fragments|
      invariant '\n' !in page.lineBuffer
      invariant page.events == LinesEvents(seen)
      invariant Split(Flatten(fragments), '\n')
             == seen + Split(page.lineBuffer + Flatten(fragments[i..]), '\n')
    {
      ghost var later, before := fragments[i..], page.lineBuffer;
      assert later[1..] == fragments[i + 1..];
      ghost var r := Read(Lines([], before), fragments[i]);
      ReadSplits(Lines([], before), fragments[i]);
      SplitResumes(before, fragments[i], Flatten(fragments[i + 1..]));
      Regroup(before, fragments[i], Flatten(fragments[i + 1..]));
      Regroup(seen, r.done, Split(r.buffer + Flatten(fragments[i + 1..]), '\n'));
      LinesEventsConcat(seen, r.done);
      page.OnNetwork(fragments[i]);
      seen := seen + r.done;
    }
    assert page.lineBuffer + "" == page.lineBuffer;
    FindNone(page.lineBuffer, '\n');
    OneMoreLine(seen, page.lineBuffer);
    page.Dispatch();
    events := page.events;
  }

  // ----- frame by frame -----

  lemma FirstLine(line: string, rest: string)
    requires '\n' !in line
    ensures TextEvents(line + ['\n'] + rest) == LineEvents(line) + TextEvents(rest)
  {
    LineFirst(line, rest);
    LinesEventsConcat([line], Split(rest, '\n'));
    LinesEventsOne(line);
  }

  lemma BlankLine(line: string, rest: string)
    ensures line + "\n\n" + rest == line + ['\n'] + ("" + ['\n'] + rest)
  {
  }

  /** A line followed by an empty one contributes its own events and nothing else. */
  lemma LineThenText(line: string, rest: string)
    requires '\n' !in line
    ensures TextEvents(line + "\n\n" + rest) == LineEvents(line) + TextEvents(rest)
  {
    var tail := "" + ['\n'] + rest;
    BlankLine(line, rest);
    FirstLine(line, tail);
    FirstLine("", rest);
    assert LineEvents("") + TextEvents(rest) == TextEvents(rest);
  }

  lemma DataEvents(data: string)
    ensures LineEvents(PREFIX + data) == HandleData(data)
  {
    assert (PREFIX + data)[|PREFIX|..] == data;
  }

  lemma MemberEvents(key: string, text: string)
    requires Plain(key)
    ensures HandleData(MemberText(key, Escape(text))) == MemberEvent(key, text)
  {
    var data := MemberText(key, Escape(text));
    ParseEscapedMember(key, text);
    OneMemberEvent((key, text));
    assert data[0] == '{' && DONE[0] == '[';
  }

  lemma MemberOneLine(key: string, raw: string)
    requires '\n' !in key && '\n' !in raw
    ensures '\n' !in PREFIX + MemberText(key, raw)
  {
  }

  lemma FrameEvents(key: string, text: string, rest: string)
    requires Plain(key)
    ensures TextEvents(Frame(key, Escape(text)) + rest) == MemberEvent(key, text) + TextEvents(rest)
  {
    var data := MemberText(key, Escape(text));
    EscapeNoControl(text);
    MemberOneLine(key, Escape(text));
    LineThenText(PREFIX + data, rest);
    DataEvents(data);
    MemberEvents(key, text);
  }

  /** The events of the chunks: the nonempty ones, in order, of a kind the page knows from a model. */
  function ChunkEvents(chunks: seq<Chunk>): seq<Event> {
    if chunks == [] then []
    else ChunkEvent(chunks[0]) + ChunkEvents(chunks[1..])
  }

  function ChunkEvent(c: Chunk): seq<Event> {
    if c.0 == "sessionId" then [] else MemberEvent(c.0, c.1)
  }

  lemma ChunkFrameEvent(c: Chunk, rest: string)
    ensures TextEvents(ChunkFrame(c) + rest) == ChunkEvent(c) + TextEvents(rest)
  {
    if ChunkFrame(c) == "" {
      assert "" + rest == rest && [] + TextEvents(rest) == TextEvents(rest);
    } else {
      FrameEvents(c.0, c.1, rest);
    }
  }

  lemma {:induction false} ChunkFramesEvents(chunks: seq<Chunk>, rest: string)
    ensures TextEvents(ChunkFrames(chunks) + rest) == ChunkEvents(chunks) + TextEvents(rest)
  {
    if chunks == [] {
      assert ChunkFrames(chunks) + rest == rest;
    } else {
      var c, tail := chunks[0], ChunkFrames(chunks[1..]) + rest;
      Regroup(ChunkFrame(c), ChunkFrames(chunks[1..]), rest);
      ChunkFramesEvents(chunks[1..], rest);
      ChunkFrameEvent(c, tail);
      Regroup(ChunkEvent(c), ChunkEvents(chunks[1..]), TextEvents(rest));
    }
  }

  lemma DoneEvents()
    ensures TextEvents(DONE_FRAME) == [Finished]
  {
    var line := PREFIX + DONE;
    assert DONE_FRAME + "" == DONE_FRAME;
    LineThenText(line, "");
    DataEvents(DONE);
    FindNone("", '\n');
    LinesEventsOne("");
  }

  function OptionEvent(key: string, text: Option<string>): seq<Event> {
    if text.Some? then MemberEvent(key, text.value) else []
  }

  lemma SessionFrameEvents(newId: Option<string>, rest: string)
    requires newId.Some? ==> Plain(newId.value)
    ensures TextEvents(SessionFrame(newId) + rest) == OptionEvent("sessionId", newId) + TextEvents(rest)
  {
    if newId.Some? {
      EscapePlain(newId.value);
      FrameEvents("sessionId", newId.value, rest);
    } else {
      assert "" + rest == rest;
    }
  }

  /** Text before a line end and text behind it contribute their own events. */
  lemma {:induction false} BothSides(a: string, b: string)
    ensures TextEvents(a + ['\n'] + b) == TextEvents(a) + TextEvents(b)
  {
    SplitBoth(a, '\n', b);
    LinesEventsConcat(Split(a, '\n'), Split(b, '\n'));
  }

  lemma {:induction false} EmptyLine(rest: string)
    ensures TextEvents("" + ['\n'] + rest) == TextEvents(rest)
  {
    BothSides("", rest);
    NothingAfter();
  }

  lemma {:induction false} BlockEvents(text: string, rest: string)
    ensures TextEvents(text + "\n\n" + rest) == TextEvents(text) + TextEvents(rest)
  {
    BlankLine(text, rest);
    BothSides(text, "" + ['\n'] + rest);
    EmptyLine(rest);
  }

  lemma {:induction false} BlockAlone(text: string, block: string)
    requires block == text + "\n\n"
    ensures TextEvents(block) == TextEvents(text)
  {
    assert text + "\n\n" + "" == block;
    BlockEvents(text, "");
    NothingAfter();
  }

  lemma {:induction false} BlockThenText(text: string, block: string, rest: string)
    requires block == text + "\n\n"
    ensures TextEvents(block + rest) == TextEvents(block) + TextEvents(rest)
  {
    BlockAlone(text, block);
    BlockEvents(text, rest);
  }

  /** What the page makes of the frame of an exception, whatever its message contains. */
  function FailureEvents(failure: Option<string>): seq<Event> {
    TextEvents(FailureFrame(failure))
  }

  lemma {:induction false} FailureFrameEvents(failure: Option<string>, rest: string)
    ensures TextEvents(FailureFrame(failure) + rest) == FailureEvents(failure) + TextEvents(rest)
  {
    if failure.Some? {
      BlockThenText(PREFIX + MemberText("error", failure.value), FailureFrame(failure), rest);
    } else {
      NothingAfter();
      assert "" + rest == rest;
    }
  }

  /** From chunks to events: the page recovers the session id, the nonempty chunks in order and the
      end mark whatever the message of an exception contains; that one gives the events of its own
      frame. */
  lemma BodyEvents(newId: Option<string>, chunks: seq<Chunk>, failure: Option<string>)
    requires newId.Some? ==> Plain(newId.value)
    ensures TextEvents(Body(newId, chunks, failure))
            == OptionEvent("sessionId", newId) + (ChunkEvents(chunks) + (FailureEvents(failure) + [Finished]))
  {
    var last := FailureFrame(failure) + DONE_FRAME;
    SessionFrameEvents(newId, ChunkFrames(chunks) + last);
    ChunkFramesEvents(chunks, last);
    FailureFrameEvents(failure, DONE_FRAME);
    DoneEvents();
  }

  lemma {:induction false} AnswerConcat(a: seq<Event>, b: seq<Event>)
    ensures AnswerShown(a + b) == AnswerShown(a) + AnswerShown(b)
  {
    if a == [] {
      assert a + b == b;
    } else {
      assert (a + b)[1..] == a[1..] + b;
      AnswerConcat(a[1..], b);
    }
  }

  lemma {:induction false} ChunkAnswer(chunks: seq<Chunk>)
    ensures AnswerShown(ChunkEvents(chunks)) == ContentText(chunks)
  {
    if chunks != [] {
      var c := chunks[0];
      ChunkAnswer(chunks[1..]);
      AnswerConcat(ChunkEvent(c), ChunkEvents(chunks[1..]));
    }
  }

  /** What an event shows under a kind of chunk. */
  function Shows(e: Event, kind: string): seq<string> {
    match e
    case Failed(message) => if kind == "error" then [message] else []
    case Thought(text) => if kind == "reasoning" then [text] else []
    case Said(text) => if kind == "content" then [text] else []
    case _ => []
  }

  function ShownUnder(kind: string, events: seq<Event>): seq<string> {
    if events == [] then [] else Shows(events[0], kind) + ShownUnder(kind, events[1..])
  }

  lemma {:induction false} ShownFirst(kind: string, c: Chunk, more: seq<Event>)
    requires c.0 in ["content", "reasoning", "error"] && c.1 != ""
    ensures ShownUnder(kind, ChunkEvent(c) + more) == (if c.0 == kind then [c.1] else []) + ShownUnder(kind, more)
  {
    assert |ChunkEvent(c)| == 1 && (ChunkEvent(c) + more)[1..] == more;
  }

  /** The page shows the texts of each kind of chunk, in order. */
  lemma {:induction false} ChunksShown(kind: string, chunks: seq<Chunk>)
    requires forall c | c in chunks :: c.0 in ["content", "reasoning", "error"] && c.1 != ""
    ensures ShownUnder(kind, ChunkEvents(chunks)) == TextsOf(kind, chunks)
  {
    if chunks != [] {
      ShownFirst(kind, chunks[0], ChunkEvents(chunks[1..]));
      ChunksShown(kind, chunks[1..]);
    }
  }

  lemma {:induction false} ContentJoined(chunks: seq<Chunk>)
    ensures ContentText(chunks) == Flatten(TextsOf("content", chunks))
  {
    if chunks != [] {
      ContentJoined(chunks[1..]);
      var more := TextsOf("content", chunks[1..]);
      if chunks[0].0 == "content" {
        assert ([chunks[0].1] + more)[1..] == more;
      } else {
        assert "" + Flatten(more) == Flatten(more) && [] + more == more;
      }
    }
  }

  /** What the replies of the model say, shown by the page and stored: thoughts, answer and notices
      under their own kinds, the answer stored being the content of the replies joined. */
  lemma {:induction false} RepliesShown(json: string -> Reply, lines: seq<string>)
    ensures var chunks, replies := AllChunks(json, lines), Replies(json, lines);
            && (forall kind :: ShownUnder(kind, ChunkEvents(chunks)) == Told(replies, kind))
            && ContentText(chunks) == Flatten(Told(replies, "content"))
  {
    var chunks := AllChunks(json, lines);
    ChunksKnown(json, lines);
    forall kind ensures ShownUnder(kind, ChunkEvents(chunks)) == Told(Replies(json, lines), kind) {
      ChunksShown(kind, chunks);
      ChunksAreReplies(json, lines, kind);
    }
    ChunksAreReplies(json, lines, "content");
    ContentJoined(chunks);
  }

  lemma OtherAnswer(key: string, text: Option<string>)
    requires key != "content"
    ensures AnswerShown(OptionEvent(key, text)) == ""
  {
  }

  /** No line end to begin another frame and no quote to begin another member. */
  predicate Contained(failure: Option<string>) {
    failure.Some? ==> '\n' !in failure.value && '"' !in failure.value
  }

  /** A contained failure message says nothing that joins the answer. */
  lemma {:induction false} ContainedFailure(failure: Option<string>)
    requires Contained(failure)
    ensures AnswerShown(FailureEvents(failure)) == ""
  {
    if failure.Some? {
      var data := MemberText("error", failure.value);
      UnbrokenFrame(failure.value);
      QuotelessMember("error", failure.value);
      if ParseObject(data).Some? {
        var members := ParseObject(data).value;
        OneMemberEvent(members[0]);
        assert members == [members[0]];
      }
    } else {
      NothingAfter();
    }
  }

  /** A message with a quote can go on with another member: the page shows the message up to the
      quote, or, where nothing stood there, what the other member says. */
  lemma {:induction false} MemberInsideFailure(before: string, key: string, text: string)
    requires Plain(before) && Plain(key) && key != "sessionId" && key != "error"
    ensures FailureEvents(Some(TwoValues(before, key, text)))
            == if before != "" then [Failed(before)] else MemberEvent(key, text)
  {
    TwoValuesOneLine(before, key, text);
    UnbrokenFrame(TwoValues(before, key, text));
    SecondMember(before, key, text);
    TwoMembers([("error", before), (key, text)], before, key, text);
  }

  lemma {:induction false} TwoValuesOneLine(before: string, key: string, text: string)
    requires Plain(before) && Plain(key)
    ensures '\n' !in TwoValues(before, key, text)
  {
    EscapeNoControl(text);
  }

  lemma {:induction false} TwoMembers(members: seq<Member>, before: string, key: string, text: string)
    requires members == [("error", before), (key, text)] && key != "error"
    requires key != "sessionId"
    ensures ObjectEvent(members) == if before != "" then [Failed(before)] else MemberEvent(key, text)
  {
    assert members[..1] == [("error", before)] && [("error", before)][..0] == [];
    assert forall k :: Get([], k) == "";
    assert forall k :: Get([("error", before)], k) == if k == "error" then before else "";
    assert forall k :: Get(members, k) == if k == key then text else if k == "error" then before else "";
  }

  lemma {:induction false} MiddleLine(head: string, inner: string, tail: string)
    requires '\n' !in inner
    ensures TextEvents(head + ['\n'] + (inner + ['\n'] + tail))
            == TextEvents(head) + (LineEvents(inner) + TextEvents(tail))
  {
    BothSides(head, inner + ['\n'] + tail);
    FirstLine(inner, tail);
  }

  /** A message of several lines is read line by line: a frame inside it is shown as the frame. */
  lemma {:induction false} FrameInsideFailure(before: string, key: string, text: string, after: string)
    requires Plain(key)
    ensures var inner := PREFIX + MemberText(key, Escape(text));
            FailureEvents(Some(before + ['\n'] + (inner + ['\n'] + after)))
            == TextEvents(PREFIX + "{\"error\": \"" + before) + (MemberEvent(key, text) + TextEvents(after + "\"}\n\n"))
  {
    var inner := PREFIX + MemberText(key, Escape(text));
    var m := before + ['\n'] + (inner + ['\n'] + after);
    var head, tail := PREFIX + "{\"error\": \"" + before, after + "\"}\n\n";
    assert FailureFrame(Some(m)) == head + ['\n'] + (inner + ['\n'] + tail);
    EscapeNoControl(text);
    MemberOneLine(key, Escape(text));
    MiddleLine(head, inner, tail);
    DataEvents(MemberText(key, Escape(text)));
    MemberEvents(key, text);
  }

  /** The answer shown is the text of the content chunks, followed by what the failure's frame says;
      so it is the reply stored, or nothing where the placeholder is, as long as a failure message
      has neither a line end nor a quote. */
  lemma ShownIsStored(newId: Option<string>, chunks: seq<Chunk>, failure: Option<string>)
    requires newId.Some? ==> Plain(newId.value)
    ensures var shown := AnswerShown(TextEvents(Body(newId, chunks, failure)));
            && shown == ContentText(chunks) + AnswerShown(FailureEvents(failure))
            && (Contained(failure)
                ==> shown == ContentText(chunks) && StoredReply(chunks) == if shown != "" then shown else PLACEHOLDER)
  {
    var a, b, c := OptionEvent("sessionId", newId), ChunkEvents(chunks), FailureEvents(failure);
    BodyEvents(newId, chunks, failure);
    AnswerConcat(a, b + (c + [Finished]));
    AnswerConcat(b, c + [Finished]);
    AnswerConcat(c, [Finished]);
    OtherAnswer("sessionId", newId);
    ChunkAnswer(chunks);
    assert AnswerShown([Finished]) == "";
    assert AnswerShown(c) + "" == AnswerShown(c);
    if Contained(failure) {
      ContainedFailure(failure);
      assert ContentText(chunks) + "" == ContentText(chunks);
    }
  }

  // ----- the frame that is not escaped -----

  /** A failure shown by the page is at least 18 bytes shorter than its line. */
  lemma FailureShorter(line: string, m: string)
    requires Failed(m) in LineEvents(line)
    requires m != ""
    ensures |m| + 18 <= |line|
  {
    var data := line[|PREFIX|..];
    ObjectLength(data);
    var members := ParseObject(data).value;
    GetIsMember(members, "error");
    assert Get(members, "error") == m;
    WeightOne(members, ("error", m));
  }

  lemma {:induction false} FailureNotIn(lines: seq<string>, m: string)
    requires forall p | p in lines :: |p| < |m| + 18
    ensures Failed(m) !in LinesEvents(lines)
  {
    if lines != [] {
      if Failed(m) in LineEvents(lines[0]) {
        FailureShorter(lines[0], m);
      }
      FailureNotIn(lines[1..], m);
    }
  }

  lemma {:induction false} PieceLength(s: string, c: char)
    ensures forall p | p in Split(s, c) :: |p| <= |s|
    decreases |s|
  {
    var n := Find(s, c);
    if n < |s| {
      PieceLength(s[n + 1..], c);
    }
  }

  lemma {:induction false} BrokenFrame(m: string)
    requires '\n' in m
    ensures Failed(m) !in TextEvents(Frame("error", m))
  {
    var i := Find(m, '\n');
    FindIsFirst(m, '\n');
    if i == |m| {
      assert false;
    }
    var line, rest := PREFIX + "{\"error\": \"" + m[..i], m[i + 1..] + "\"}\n\n";
    assert m == m[..i] + ['\n'] + m[i + 1..];
    assert Frame("error", m) == line + ['\n'] + rest;
    assert '\n' !in m[..i];
    LineFirst(line, rest);
    PieceLength(rest, '\n');
    FailureNotIn([line] + Split(rest, '\n'), m);
  }

  /** The frame sent for an exception shows its message iff the message is nonempty and needs no
      escaping: no quote, no backslash, no control byte. The messages thrown there today, the
      library's own texts, need none; nothing in the handler relies on that. */
  lemma FailureFrameExactly(m: string)
    ensures TextEvents(Frame("error", m)) == [Failed(m)] <==> Plain(m) && m != ""
  {
    if '\n' in m {
      BrokenFrame(m);
      assert Failed(m) in [Failed(m)];
    } else {
      UnbrokenFrame(m);
      RawMemberExactly("error", m);
      OnlyFailure(m);
    }
  }

  lemma UnbrokenFrame(m: string)
    requires '\n' !in m
    ensures TextEvents(Frame("error", m)) == HandleData(MemberText("error", m))
    ensures MemberText("error", m) != DONE
  {
    var data := MemberText("error", m);
    MemberOneLine("error", m);
    assert Frame("error", m) + "" == Frame("error", m);
    LineThenText(PREFIX + data, "");
    DataEvents(data);
    NothingAfter();
    assert data[0] == '{' && DONE[0] == '[';
  }

  lemma {:induction false} OnlyFailure(m: string)
    ensures (match ParseObject(MemberText("error", m))
             case None => false
             case Some(members) => ObjectEvent(members) == [Failed(m)])
            <==> ParseObject(MemberText("error", m)) == Some([("error", m)]) && m != ""
  {
    var data := MemberText("error", m);
    OneMemberEvent(("error", m));
    ObjectLength(data);
    if ParseObject(data).Some? {
      var members := ParseObject(data).value;
      if ObjectEvent(members) == [Failed(m)] {
        assert ObjectEvent(members)[0] == Failed(m);
        FailureIsOnly(members, m);
        assert |data| == |m| + 13;
        assert members == [members[0]];
      }
    }
  }

  lemma {:induction false} FailureIsOnly(members: seq<Member>, m: string)
    requires Get(members, "error") == m != ""
    ensures ("error", m) in members && |m| + 5 + 6 * |members| <= Weight(members)
  {
    GetIsMember(members, "error");
    WeightOne(members, ("error", m));
  }

  lemma NothingAfter()
    ensures TextEvents("") == []
  {
    FindNone("", '\n');
    LinesEventsOne("");
  }

  // ----- both networks at once -----

  /** End to end: whatever way the upstream response is cut into callbacks and the downstream
      response into fragments, the page shows what the replies in the upstream bytes say, thoughts as
      thoughts and the answer as the answer, and their joined content is what is stored. */
  method StreamEndToEnd(json: string -> Reply, writes: seq<string>, ok: bool, newId: Option<string>,
                        failure: Option<string>, fragments: seq<string>)
    returns (events: seq<Event>, stored: string)
    requires newId.Some? ==> Plain(newId.value)
    requires Flatten(fragments)
          == Body(newId, AllChunks(json, Kept(Split(Flatten(writes), '\n'), ok)), failure)
    ensures var chunks := AllChunks(json, Kept(Split(Flatten(writes), '\n'), ok));
            && events == OptionEvent("sessionId", newId)
                         + (ChunkEvents(chunks) + (FailureEvents(failure) + [Finished]))
            && var replies := Replies(json, Kept(Split(Flatten(writes), '\n'), ok));
            && (forall kind :: ShownUnder(kind, ChunkEvents(chunks)) == Told(replies, kind))
            && var said := Flatten(Told(replies, "content"));
            && ContentText(chunks) == said && stored == (if said != "" then said else PLACEHOLDER)
            && AnswerShown(events) == ContentText(chunks) + AnswerShown(FailureEvents(failure))
            && (Contained(failure)
                ==> stored == if AnswerShown(events) != "" then AnswerShown(events) else PLACEHOLDER)
  {
    var lines := Transfer(writes, ok);
    EmptyLinesSilent(json, Kept(Split(Flatten(writes), '\n'), ok));
    var chunks := AllChunks(json, lines);
    var handler := new StreamHandler();
    stored := handler.Stream(newId, chunks, failure);
    events := ReadResponse(fragments);
    BodyEvents(newId, chunks, failure);
    ShownIsStored(newId, chunks, failure);
    RepliesShown(json, Kept(Split(Flatten(writes), '\n'), ok));
  }
}

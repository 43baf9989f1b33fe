/** The upstream half of a stream: write callbacks are cut into lines and each line is turned into
    chunks of the answer. */
module Upstream {
  import opened Text

  type Chunk = (string, string)   // kind and text

  // ----- a line reader fed byte by byte -----

  /** Finished lines and the unfinished one. */
  datatype Lines = Lines(done: seq<string>, buffer: string) {
    function All(): seq<string> {
      done + [buffer]
    }
  }

  function ReadChar(r: Lines, c: char): Lines {
    if c == '\n' then Lines(r.done + [r.buffer], "") else r.(buffer := r.buffer + [c])
  }

  function Read(r: Lines, bytes: string): Lines
    decreases |bytes|
  {
    if bytes == "" then r else Read(ReadChar(r, bytes[0]), bytes[1..])
  }

  lemma ReadNext(r: Lines, bytes: string, i: nat)
    requires i < |bytes|
    ensures Read(r, bytes[i..]) == Read(ReadChar(r, bytes[i]), bytes[i + 1..])
  {
    assert bytes[i..][1..] == bytes[i + 1..];
  }

  lemma {:induction false} ReadConcat(r: Lines, a: string, b: string)
    ensures Read(r, a + b) == Read(Read(r, a), b)
    decreases |a|
  {
    if a == "" {
      assert a + b == b;
    } else {
      assert (a + b)[1..] == a[1..] + b;
      ReadConcat(ReadChar(r, a[0]), a[1..], b);
    }
  }

  /** Reading byte by byte is splitting at the line ends. */
  lemma {:induction false} ReadSplits(r: Lines, bytes: string)
    requires '\n' !in r.buffer
    ensures Read(r, bytes).All() == r.done + Split(r.buffer + bytes, '\n')
    ensures '\n' !in Read(r, bytes).buffer
    decreases |bytes|
  {
    if bytes == "" {
      assert r.buffer + bytes == r.buffer;
      FindNone(r.buffer, '\n');
    } else {
      var c, rest := bytes[0], bytes[1..];
      ReadSplits(ReadChar(r, c), rest);
      assert r.buffer + bytes == r.buffer + [c] + rest;
      if c == '\n' {
        LineFirst(r.buffer, rest);
        assert "" + rest == rest;
        Regroup(r.done, [r.buffer], Split(rest, '\n'));
      }
    }
  }

  lemma LineFirst(line: string, rest: string)
    requires '\n' !in line
    ensures Split(line + ['\n'] + rest, '\n') == [line] + Split(rest, '\n')
  {
    var s := line + ['\n'] + rest;
    FindAt(line, '\n', rest);
    assert s[..|line|] == line && s[|line| + 1..] == rest;
  }

  // ----- lines into chunks -----

  /** A member of the reply: absent, null or not a string are treated alike. */
  datatype Field = NoText | IsText(text: string)

  /** What parsing a line's JSON yields; `Unusable` also stands for a parse error. */
  datatype Reply = Unusable | Choice(finishReason: Field, reasoning: Field, content: Field)

  const PREFIX := "data: "
  const DONE := "[DONE]"
  const TRUNCATED := "⚠️ 回复因 token 限制被截断，请尝试缩短问题或开启新会话"

  function TextChunk(kind: string, f: Field): seq<Chunk> {
    if f.IsText? && f.text != "" then [(kind, f.text)] else []
  }

  function Truncation(f: Field): seq<Chunk> {
    if f == IsText("length") then [("error", TRUNCATED)] else []
  }

  /** `parseResponseStreaming` for a given JSON reader. */
  function LineChunks(json: string -> Reply, line: string): seq<Chunk> {
    if !(PREFIX <= line) || line[|PREFIX|..] == DONE then []
    else match json(line[|PREFIX|..])
      case Unusable => []
      case Choice(finish, reasoning, content) =>
        Truncation(finish) + TextChunk("reasoning", reasoning) + TextChunk("content", content)
  }

  function AllChunks(json: string -> Reply, lines: seq<string>): seq<Chunk> {
    if lines == [] then [] else LineChunks(json, lines[0]) + AllChunks(json, lines[1..])
  }

  lemma {:induction false} AllChunksConcat(json: string -> Reply, a: seq<string>, b: seq<string>)
    ensures AllChunks(json, a + b) == AllChunks(json, a) + AllChunks(json, b)
  {
    if a == [] {
      assert a + b == b;
    } else {
      assert (a + b)[1..] == a[1..] + b;
      AllChunksConcat(json, a[1..], b);
    }
  }

  function NonEmpty(lines: seq<string>): seq<string> {
    if lines == [] then []
    else if lines[0] == "" then NonEmpty(lines[1..])
    else [lines[0]] + NonEmpty(lines[1..])
  }

  lemma {:induction false} NonEmptyConcat(a: seq<string>, b: seq<string>)
    ensures NonEmpty(a + b) == NonEmpty(a) + NonEmpty(b)
  {
    if a == [] {
      assert a + b == b;
    } else {
      assert (a + b)[1..] == a[1..] + b;
      NonEmptyConcat(a[1..], b);
    }
  }

  lemma NonEmptyOne(line: string)
    ensures NonEmpty([line]) == if line == "" then [] else [line]
  {
  }

  /** Leaving out empty lines changes nothing that is emitted. */
  lemma {:induction false} EmptyLinesSilent(json: string -> Reply, lines: seq<string>)
    ensures AllChunks(json, NonEmpty(lines)) == AllChunks(json, lines)
  {
    if lines != [] {
      EmptyLinesSilent(json, lines[1..]);
      if lines[0] != "" {
        assert ([lines[0]] + NonEmpty(lines[1..]))[1..] == NonEmpty(lines[1..]);
      }
    }
  }

  // ----- the write callback -----

  /** The callback's data: a line buffer, and the lines passed to `parseResponseStreaming`. */
  class WriteData {
    var lineBuffer: string
    var calls: seq<string>

    constructor ()
      ensures lineBuffer == "" && calls == []
    {
      lineBuffer, calls := "", [];
    }

    method OnWrite(contents: string)
      modifies this
      ensures var r := Read(Lines([], old(lineBuffer)), contents);
              lineBuffer == r.buffer && calls == old(calls) + NonEmpty(r.done)
    {
      ghost var r := Lines([], lineBuffer);
      assert contents[0..] == contents;
      for i := 0 to |contents|
        invariant Read(r, contents[i..]) == Read(Lines([], old(lineBuffer)), contents)
        invariant lineBuffer == r.buffer && calls == old(calls) + NonEmpty(r.done)
      {
        ReadNext(r, contents, i);
        NonEmptyConcat(r.done, [lineBuffer]);
        NonEmptyOne(lineBuffer);
        r := ReadChar(r, contents[i]);
        if contents[i] == '\n' {
          if lineBuffer != "" {
            calls := calls + [lineBuffer];
            lineBuffer := "";
          }
        } else {
          lineBuffer := lineBuffer + [contents[i]];
        }
      }
    }

    /** After a successful transfer a last line without line end is parsed too. */
    method Finish(ok: bool)
      modifies this
      ensures calls == old(calls) + NonEmpty(Kept([old(lineBuffer)], ok))
    {
      NonEmptyOne(lineBuffer);
      if ok && lineBuffer != "" {
        calls := calls + [lineBuffer];
      }
    }
  }

  /** The pieces that get parsed: a failed transfer drops the unfinished last one. */
  function Kept(pieces: seq<string>, ok: bool): seq<string>
    requires |pieces| >= 1
  {
    if ok then pieces else pieces[..|pieces| - 1]
  }

  /** The calls made for a whole transfer cut into `writes`. */
  function Calls(buffer: string, writes: seq<string>, ok: bool): seq<string>
    decreases |writes|
  {
    if writes == [] then NonEmpty(Kept([buffer], ok))
    else
      var r := Read(Lines([], buffer), writes[0]);
      NonEmpty(r.done) + Calls(r.buffer, writes[1..], ok)
  }

  /** The callbacks a transfer makes, and the flush when it succeeded. */
  method Transfer(writes: seq<string>, ok: bool) returns (calls: seq<string>)
    ensures var pieces := Split(Flatten(writes), '\n');
            calls == NonEmpty(if ok then pieces else pieces[..|pieces| - 1])
  {
    var data := new WriteData();
    assert writes[0..] == writes;
    for i := 0 to |writes|
      invariant data.calls + Calls(data.lineBuffer, writes[i..], ok) == Calls("", writes, ok)
    {
      assert writes[i..][1..] == writes[i + 1..];
      data.OnWrite(writes[i]);
    }
    data.Finish(ok);
    calls := data.calls;
    WholeTransfer(writes, ok);
  }

  lemma WholeTransfer(writes: seq<string>, ok: bool)
    ensures Calls("", writes, ok) == NonEmpty(Kept(Split(Flatten(writes), '\n'), ok))
  {
    CallsAreLines("", writes, ok);
    assert "" + Flatten(writes) == Flatten(writes);
  }

  lemma KeptAfter(a: seq<string>, b: seq<string>, ok: bool)
    requires |b| >= 1
    ensures Kept(a + b, ok) == a + Kept(b, ok)
  {
  }

  /** However a response is cut into write callbacks, the lines parsed are exactly the nonempty
      pieces of the whole response between line ends. */
  lemma {:induction false} CallsAreLines(buffer: string, writes: seq<string>, ok: bool)
    requires '\n' !in buffer
    ensures Calls(buffer, writes, ok) == NonEmpty(Kept(Split(buffer + Flatten(writes), '\n'), ok))
    decreases |writes|
  {
    if writes == [] {
      assert buffer + "" == buffer;
      FindNone(buffer, '\n');
    } else {
      var start, bytes := Lines([], buffer), writes[0];
      var later := Flatten(writes[1..]);
      var r := Read(start, bytes);
      var pieces := Split(r.buffer + later, '\n');
      ReadSplits(start, bytes);
      CallsAreLines(r.buffer, writes[1..], ok);
      SplitResumes(buffer, bytes, later);
      KeptAfter(r.done, pieces, ok);
      NonEmptyConcat(r.done, Kept(pieces, ok));
      Regroup(buffer, bytes, later);
    }
  }

  /** Splitting what follows a first fragment resumes at its unfinished line. */
  lemma SplitResumes(buffer: string, bytes: string, later: string)
    requires '\n' !in buffer
    ensures var r := Read(Lines([], buffer), bytes);
            Split(buffer + bytes + later, '\n') == r.done + Split(r.buffer + later, '\n')
  {
    var start, r := Lines([], buffer), Read(Lines([], buffer), bytes);
    ReadSplits(start, bytes);
    ReadSplits(start, bytes + later);
    ReadConcat(start, bytes, later);
    ReadSplits(r, later);
    Regroup(buffer, bytes, later);
    assert [] + Split(buffer + (bytes + later), '\n') == Split(buffer + (bytes + later), '\n');
  }

  /** The chunks emitted depend on the response's bytes and the transfer's success alone. */
  lemma ChunksIgnoreWrites(json: string -> Reply, writes: seq<string>, ok: bool)
    ensures AllChunks(json, Calls("", writes, ok))
            == AllChunks(json, Kept(Split(Flatten(writes), '\n'), ok))
  {
    WholeTransfer(writes, ok);
    EmptyLinesSilent(json, Kept(Split(Flatten(writes), '\n'), ok));
  }

  // ----- the chunks told by the replies -----

  /** What the lines with data say, in order; the end mark says nothing. */
  function Replies(json: string -> Reply, lines: seq<string>): seq<Reply> {
    if lines == [] then []
    else if PREFIX <= lines[0] && lines[0] != PREFIX + DONE then
      [json(lines[0][|PREFIX|..])] + Replies(json, lines[1..])
    else Replies(json, lines[1..])
  }

  function TextOf(f: Field): seq<string> {
    if f.IsText? && f.text != "" then [f.text] else []
  }

  /** What a reply has to say under each kind: its nonempty members, and a notice when it was cut. */
  function Says(r: Reply, kind: string): seq<string> {
    if r.Unusable? then []
    else if kind == "content" then TextOf(r.content)
    else if kind == "reasoning" then TextOf(r.reasoning)
    else if kind == "error" && r.finishReason == IsText("length") then [TRUNCATED]
    else []
  }

  function Told(replies: seq<Reply>, kind: string): seq<string> {
    if replies == [] then [] else Says(replies[0], kind) + Told(replies[1..], kind)
  }

  /** The texts of the chunks of one kind. */
  function TextsOf(kind: string, chunks: seq<Chunk>): seq<string> {
    if chunks == [] then []
    else (if chunks[0].0 == kind then [chunks[0].1] else []) + TextsOf(kind, chunks[1..])
  }

  lemma {:induction false} TextsConcat(kind: string, a: seq<Chunk>, b: seq<Chunk>)
    ensures TextsOf(kind, a + b) == TextsOf(kind, a) + TextsOf(kind, b)
  {
    if a == [] {
      assert a + b == b;
    } else {
      assert (a + b)[1..] == a[1..] + b;
      TextsConcat(kind, a[1..], b);
    }
  }

  function Rank(kind: string): int {
    if kind == "error" then 0 else if kind == "reasoning" then 1 else if kind == "content" then 2 else 3
  }

  /** Within a line the notice comes first, then the thought, then the content, each at most once. */
  lemma LineInOrder(json: string -> Reply, line: string)
    ensures var chunks := LineChunks(json, line);
            forall i, j | 0 <= i < j < |chunks| :: Rank(chunks[i].0) < Rank(chunks[j].0) < 3
  {
  }

  lemma {:induction false} OneChunk(kind: string, c: Chunk)
    ensures TextsOf(kind, [c]) == if c.0 == kind then [c.1] else []
  {
    assert [c][1..] == [];
  }

  lemma {:induction false} FieldTexts(kind: string, k: string, f: Field)
    ensures TextsOf(kind, TextChunk(k, f)) == if kind == k then TextOf(f) else []
  {
    if f.IsText? {
      OneChunk(kind, (k, f.text));
    }
  }

  lemma {:induction false} ReplyTexts(r: Reply, kind: string)
    requires r.Choice?
    ensures var thought, content := TextChunk("reasoning", r.reasoning), TextChunk("content", r.content);
            TextsOf(kind, Truncation(r.finishReason) + thought + content) == Says(r, kind)
  {
    var notice, thought := Truncation(r.finishReason), TextChunk("reasoning", r.reasoning);
    TextsConcat(kind, notice + thought, TextChunk("content", r.content));
    TextsConcat(kind, notice, thought);
    OneChunk(kind, ("error", TRUNCATED));
    FieldTexts(kind, "reasoning", r.reasoning);
    FieldTexts(kind, "content", r.content);
  }

  lemma {:induction false} LineTexts(json: string -> Reply, line: string, kind: string)
    ensures TextsOf(kind, LineChunks(json, line)) == Told(Replies(json, [line]), kind)
  {
    assert [line][1..] == [];
    if PREFIX <= line {
      var reply := json(line[|PREFIX|..]);
      assert line == PREFIX + line[|PREFIX|..];
      assert (PREFIX + DONE)[|PREFIX|..] == DONE;
      assert [reply][1..] == [] && Says(reply, kind) + [] == Says(reply, kind);
      if reply.Choice? {
        ReplyTexts(reply, kind);
      }
    }
  }

  lemma {:induction false} ToldFirst(json: string -> Reply, line: string, more: seq<string>, kind: string)
    ensures Told(Replies(json, [line] + more), kind)
            == Told(Replies(json, [line]), kind) + Told(Replies(json, more), kind)
  {
    assert ([line] + more)[1..] == more && [line][1..] == [];
    if PREFIX <= line && line != PREFIX + DONE {
      var reply, later := json(line[|PREFIX|..]), Replies(json, more);
      assert ([reply] + later)[1..] == later && ([reply] + [])[1..] == [];
    }
  }

  /** The chunks, told by the replies alone: those of each kind are, in order, what the replies have
      to say under it. */
  lemma {:induction false} ChunksAreReplies(json: string -> Reply, lines: seq<string>, kind: string)
    ensures TextsOf(kind, AllChunks(json, lines)) == Told(Replies(json, lines), kind)
  {
    if lines != [] {
      var first, more := lines[0], lines[1..];
      assert lines == [first] + more;
      LineTexts(json, first, kind);
      ChunksAreReplies(json, more, kind);
      ToldFirst(json, first, more, kind);
      TextsConcat(kind, LineChunks(json, first), AllChunks(json, more));
    }
  }

  /** Every chunk emitted carries text and one of the three kinds. */
  lemma {:induction false} ChunksKnown(json: string -> Reply, lines: seq<string>)
    ensures forall c | c in AllChunks(json, lines) :: c.0 in ["content", "reasoning", "error"] && c.1 != ""
  {
    if lines != [] {
      ChunksKnown(json, lines[1..]);
    }
  }
}

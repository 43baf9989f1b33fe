/** The connection: one parse, at most one dispatch and one reset per message event. */
module HttpServerModel {
  import opened Backlog
  import opened Text
  import opened HttpRequestModel
  import opened HttpContextModel
  import opened HttpRender

  /** The connection as a value: the parser, the requests handed to handlers so far, and how many
      times `400 Bad Request` was sent. */
  datatype Connection = Connection(parse: Parse, dispatched: seq<RequestValue>, rejections: nat)

  const ACCEPTED := Connection(OPENING, [], 0)

  /** One message event. A request completed by this call is dispatched and the parser reset;
      bytes of a following request stay in the buffer. */
  function OnMessage(c: Connection, bytes: string): (r: Connection)
    requires c.parse.Open()
    ensures r.parse.Open()
  {
    var (p, verdict) := Run(c.parse.More(bytes));
    var rejections := if verdict == Good then c.rejections else c.rejections + 1;
    if p.Open() then Connection(p, c.dispatched, rejections)
    else Connection(Parse(ExpectRequestLine, ResetValue(p.req), p.unread), c.dispatched + [p.req], rejections)
  }

  /** A message event whose dispatch throws, when there is one: 400, and no reset. */
  function OnMessageThrowing(c: Connection, bytes: string): Connection
    requires c.parse.Open()
  {
    var (p, verdict) := Run(c.parse.More(bytes));
    var rejections := if verdict == Good then c.rejections else c.rejections + 1;
    if p.Open() then OnMessage(c, bytes) else Connection(p, c.dispatched + [p.req], rejections + 1)
  }

  function OnMessages(c: Connection, fragments: seq<string>): (r: Connection)
    requires c.parse.Open()
    ensures r.parse.Open()
    decreases |fragments|, 2
  {
    if fragments == [] then c else OnLast(c, fragments)
  }

  function OnLast(c: Connection, fragments: seq<string>): (r: Connection)
    requires c.parse.Open() && fragments != []
    ensures r.parse.Open()
    decreases |fragments|, 1
  {
    OnNext(c, fragments[..|fragments| - 1], fragments[|fragments| - 1])
  }

  function OnNext(c: Connection, earlier: seq<string>, bytes: string): (r: Connection)
    requires c.parse.Open()
    ensures r.parse.Open()
    decreases |earlier| + 1, 0
  {
    OnMessage(OnMessages(c, earlier), bytes)
  }

  lemma {:induction false} OnOneMore(c: Connection, earlier: seq<string>, bytes: string)
    requires c.parse.Open()
    ensures OnMessages(c, earlier + [bytes]) == OnMessage(OnMessages(c, earlier), bytes)
  {
    var all := earlier + [bytes];
    assert all[..|all| - 1] == earlier && all[|all| - 1] == bytes;
    assert OnLast(c, all) == OnNext(c, earlier, bytes);
  }

  // ----- a stream of well-formed requests -----

  /** The first `k` requests as a client writes them. */
  function Renders(sent: seq<Sent>, k: nat): (r: seq<string>)
    requires k <= |sent|
    ensures |r| == k
  {
    if k == 0 then [] else Renders(sent, k - 1) + [Render(sent[k - 1])]
  }

  lemma {:induction false} RendersAt(sent: seq<Sent>, k: nat, i: nat)
    requires i < k <= |sent|
    ensures Renders(sent, k)[i] == Render(sent[i])
  {
    if i < k - 1 {
      RendersAt(sent, k - 1, i);
    }
  }

  function Texts(sent: seq<Sent>): (r: seq<string>)
    ensures |r| == |sent|
  {
    Renders(sent, |sent|)
  }

  /** The bytes of the first `k` texts. */
  function BytesBefore(texts: seq<string>, k: nat): string
    requires k <= |texts|
  {
    if k == 0 then "" else BytesBefore(texts, k - 1) + texts[k - 1]
  }

  /** The bytes of the texts from number `k` on. */
  function BytesFrom(texts: seq<string>, k: nat): string
    requires k <= |texts|
    decreases |texts| - k
  {
    if k == |texts| then "" else texts[k] + BytesFrom(texts, k + 1)
  }

  lemma {:induction false} BytesSplit(texts: seq<string>, k: nat)
    requires k <= |texts|
    ensures BytesBefore(texts, |texts|) == BytesBefore(texts, k) + BytesFrom(texts, k)
    decreases |texts| - k
  {
    if k == |texts| {
      assert BytesBefore(texts, k) + "" == BytesBefore(texts, k);
    } else {
      BytesSplit(texts, k + 1);
      Regroup(BytesBefore(texts, k), texts[k], BytesFrom(texts, k + 1));
    }
  }

  function Stream(sent: seq<Sent>): string {
    BytesBefore(Texts(sent), |sent|)
  }

  /** The requests handlers see for `sent[..k]`: each is what was sent, except that one without a
      body shows the body and length left by the one before it. */
  function ReceivedAll(sent: seq<Sent>, k: nat): (r: seq<RequestValue>)
    requires k <= |sent|
    ensures |r| == k
  {
    if k == 0 then [] else ReceivedAll(sent, k - 1) + [ReceivedOne(sent, k - 1)]
  }

  function ReceivedOne(sent: seq<Sent>, k: nat): RequestValue
    requires k < |sent|
    decreases k, 1
  {
    Received(sent[k], BaseAt(sent, k))
  }

  /** The parser's request object after `k` dispatches and resets. */
  function BaseAt(sent: seq<Sent>, k: nat): RequestValue
    requires k <= |sent|
    decreases k, 0
  {
    if k == 0 then BLANK else ResetValue(ReceivedOne(sent, k - 1))
  }

  lemma {:induction false} BaseFresh(sent: seq<Sent>, k: nat)
    requires k <= |sent|
    ensures Fresh(BaseAt(sent, k))
  {
  }

  lemma {:induction false} ReceivedAt(sent: seq<Sent>, n: nat, k: nat)
    requires k < n <= |sent|
    ensures ReceivedAll(sent, n)[k] == ReceivedOne(sent, k)
  {
    if k < n - 1 {
      ReceivedAt(sent, n - 1, k);
    }
  }

  // ----- the invariant of a keep-alive run -----

  /** `p` is where the parser stands after reading `current` since its last reset to `base`:
      either the bytes were left over and not looked at yet, or a call was left waiting. */
  predicate Stands(p: Parse, base: RequestValue, current: string) {
    var start := Parse(ExpectRequestLine, base, current);
    p.Open() && (p == start || Run(start) == (p, Good))
  }

  lemma {:induction false} StandsExtends(p: Parse, base: RequestValue, current: string, bytes: string)
    requires Stands(p, base, current)
    ensures Run(p.More(bytes)) == Run(Parse(ExpectRequestLine, base, current + bytes))
  {
    var start := Parse(ExpectRequestLine, base, current);
    assert start.More(bytes) == Parse(ExpectRequestLine, base, current + bytes);
    if p != start {
      RunExtends(start, bytes);
    }
  }

  /** With `k` requests dispatched, what was received is their bytes and then `current`, inside
      which the parser stands. */
  predicate KeepAlive(c: Connection, sent: seq<Sent>, received: string, current: string) {
    var k := |c.dispatched|;
    && c.rejections == 0
    && k <= |sent|
    && c.dispatched == ReceivedAll(sent, k)
    && received == BytesBefore(Texts(sent), k) + current
    && Stands(c.parse, BaseAt(sent, k), current)
  }

  /** A parser that stands inside a rendered request finishes exactly when all its bytes are in. */
  lemma {:induction false} CurrentRequest(s: Sent, base: RequestValue, text: string,
                                          current: string, to: string, after: string)
    requires WellFormed(s) && Fresh(base)
    requires text == Render(s) && current + to == text + after
    ensures var (p, v) := Run(Parse(ExpectRequestLine, base, current));
            v == Good
            && (p.Open() <==> |current| < |text|)
            && (!p.Open() ==> p.req == Received(s, base) && p.unread == current[|text|..])
  {
    var start := Parse(ExpectRequestLine, base, current);
    if |current| >= |text| {
      HeadTaken(text, current, to, after);
      ParseUndoesRender(s, base, current[|text|..]);
    } else {
      assert |current| + |to| == |text| + |after|;
      assert start.More(to) == Parse(ExpectRequestLine, base, text + after);
      ParseUndoesRender(s, base, after);
      RunExtends(start, to);
    }
  }

  lemma {:induction false} HeadTaken(text: string, current: string, to: string, after: string)
    requires current + to == text + after && |current| >= |text|
    ensures current == text + current[|text|..]
  {
    assert current[..|text|] == (current + to)[..|text|] == (text + after)[..|text|] == text;
  }

  lemma {:induction false} NoRequestsLeft(base: RequestValue)
    ensures Run(Parse(ExpectRequestLine, base, "")) == (Parse(ExpectRequestLine, base, ""), Good)
  {
  }

  /** The part of the stream after the dispatched requests that has arrived, once `bytes` are in. */
  lemma {:induction false} Arrived(sent: seq<Sent>, k: nat, received: string, current: string,
                                   bytes: string, to: string)
    requires k <= |sent| && received == BytesBefore(Texts(sent), k) + current
    requires received + bytes + to == Stream(sent)
    ensures current + bytes + to == BytesFrom(Texts(sent), k)
  {
    var before := BytesBefore(Texts(sent), k);
    BytesSplit(Texts(sent), k);
    Regroup(before, current, bytes);
    Regroup(before, current + bytes, to);
    SameHead(before, current + bytes + to, BytesFrom(Texts(sent), k));
  }

  lemma {:induction false} SameHead(head: string, a: string, b: string)
    requires head + a == head + b
    ensures a == b
  {
    assert a == (head + a)[|head|..] && b == (head + b)[|head|..];
  }

  /** The bytes of the request after the dispatched ones that are still part of `current`
      after a message: none of the dispatched request's bytes, all of the others. */
  function CurrentAfter(sent: seq<Sent>, k: nat, current: string): string
    requires k <= |sent|
  {
    if k < |sent| && |current| >= |Render(sent[k])| then current[|Render(sent[k])|..] else current
  }

  /** One message event keeps the invariant, and dispatches the next request exactly when all of
      its bytes have been received. */
  lemma {:induction false} KeepAliveStep(c: Connection, sent: seq<Sent>, received: string,
                                         current: string, bytes: string, to: string)
    requires forall s | s in sent :: WellFormed(s)
    requires KeepAlive(c, sent, received, current)
    requires received + bytes + to == Stream(sent)
    ensures var d, k, now := OnMessage(c, bytes), |c.dispatched|, current + bytes;
            KeepAlive(d, sent, received + bytes, CurrentAfter(sent, k, now))
            && (|d.dispatched| == if k < |sent| && |now| >= |Render(sent[k])| then k + 1 else k)
  {
    var k, now := |c.dispatched|, current + bytes;
    var base := BaseAt(sent, k);
    Arrived(sent, k, received, current, bytes, to);
    StandsExtends(c.parse, base, current, bytes);
    Regroup(BytesBefore(Texts(sent), k), current, bytes);
    if k == |sent| {
      assert now == "";
      NoRequestsLeft(base);
      StepWaits(c, sent, current, bytes);
    } else {
      BaseFresh(sent, k);
      RendersAt(sent, |sent|, k);
      CurrentRequest(sent[k], base, Render(sent[k]), now, to, BytesFrom(Texts(sent), k + 1));
      if |now| < |Render(sent[k])| {
        StepWaits(c, sent, current, bytes);
      } else {
        HeadTaken(Render(sent[k]), now, to, BytesFrom(Texts(sent), k + 1));
        StepDispatches(c, sent, current, bytes);
      }
    }
  }

  lemma {:induction false} StepWaits(c: Connection, sent: seq<Sent>, current: string, bytes: string)
    requires |c.dispatched| <= |sent|
    requires KeepAlive(c, sent, BytesBefore(Texts(sent), |c.dispatched|) + current, current)
    requires var next := Run(Parse(ExpectRequestLine, BaseAt(sent, |c.dispatched|), current + bytes));
             Run(c.parse.More(bytes)) == next && next.1 == Good && next.0.Open()
    ensures var d, k := OnMessage(c, bytes), |c.dispatched|;
            |d.dispatched| == k && KeepAlive(d, sent, BytesBefore(Texts(sent), k) + (current + bytes), current + bytes)
  {
  }

  lemma {:induction false} StepDispatches(c: Connection, sent: seq<Sent>, current: string, bytes: string)
    requires |c.dispatched| <= |sent|
    requires KeepAlive(c, sent, BytesBefore(Texts(sent), |c.dispatched|) + current, current)
    requires |c.dispatched| < |sent| && Render(sent[|c.dispatched|]) <= current + bytes
    requires var k := |c.dispatched|;
             var (p, v) := Run(c.parse.More(bytes));
             v == Good && !p.Open() && p.req == Received(sent[k], BaseAt(sent, k))
             && p.unread == (current + bytes)[|Render(sent[k])|..]
    ensures var d, k := OnMessage(c, bytes), |c.dispatched|;
            var rest := (current + bytes)[|Render(sent[k])|..];
            |d.dispatched| == k + 1 && KeepAlive(d, sent, BytesBefore(Texts(sent), k) + (current + bytes), rest)
  {
    var k, now := |c.dispatched|, current + bytes;
    var text := Render(sent[k]);
    RendersAt(sent, |sent|, k);
    assert now == text + now[|text|..];
    Regroup(BytesBefore(Texts(sent), k), text, now[|text|..]);
    assert ReceivedAll(sent, k + 1) == ReceivedAll(sent, k) + [ReceivedOne(sent, k)];
    assert BytesBefore(Texts(sent), k + 1) == BytesBefore(Texts(sent), k) + text;
  }

  /** Keep-alive safety over all runs: whatever the fragments, as long as they spell a beginning of
      the stream, nothing is rejected, the dispatched requests are the first of those sent and in
      order, there are at most as many as messages, and no byte is lost: what was received is the
      dispatched requests, then the bytes consumed from the current one, then the buffer. */
  lemma {:induction false} KeepAliveRun(sent: seq<Sent>, fragments: seq<string>, to: string)
    requires forall s | s in sent :: WellFormed(s)
    requires Flatten(fragments) + to == Stream(sent)
    ensures var c := OnMessages(ACCEPTED, fragments);
            var k := |c.dispatched|;
            && c.rejections == 0
            && k <= |sent| && k <= |fragments|
            && c.dispatched == ReceivedAll(sent, k)
            && exists consumed :: Flatten(fragments) == BytesBefore(Texts(sent), k) + consumed + c.parse.unread
  {
    var current := KeepAliveReached(sent, fragments, to);
    var c := OnMessages(ACCEPTED, fragments);
    var consumed := NothingLost(c.parse, BaseAt(sent, |c.dispatched|), current);
    Regroup(BytesBefore(Texts(sent), |c.dispatched|), consumed, c.parse.unread);
  }

  lemma {:induction false} KeepAliveStarts(sent: seq<Sent>)
    ensures KeepAlive(ACCEPTED, sent, "", "")
  {
    assert "" + "" == "";
  }

  lemma {:induction false} OneMoreReached(sent: seq<Sent>, earlier: seq<string>, bytes: string, to: string,
                                          c: Connection, current: string)
    returns (after: string)
    requires forall s | s in sent :: WellFormed(s)
    requires Flatten(earlier) + bytes + to == Stream(sent)
    requires c == OnMessages(ACCEPTED, earlier) && KeepAlive(c, sent, Flatten(earlier), current)
    ensures var d := OnMessages(ACCEPTED, earlier + [bytes]);
            KeepAlive(d, sent, Flatten(earlier + [bytes]), after) && |d.dispatched| <= |c.dispatched| + 1
  {
    FlattenAppend(earlier, bytes);
    OnOneMore(ACCEPTED, earlier, bytes);
    KeepAliveStep(c, sent, Flatten(earlier), current, bytes, to);
    after := CurrentAfter(sent, |c.dispatched|, current + bytes);
  }

  lemma {:induction false} KeepAliveReached(sent: seq<Sent>, fragments: seq<string>, to: string)
    returns (current: string)
    requires forall s | s in sent :: WellFormed(s)
    requires Flatten(fragments) + to == Stream(sent)
    ensures var c := OnMessages(ACCEPTED, fragments);
            KeepAlive(c, sent, Flatten(fragments), current) && |c.dispatched| <= |fragments|
    decreases |fragments|
  {
    if fragments == [] {
      current := "";
      KeepAliveStarts(sent);
    } else {
      var n := |fragments| - 1;
      var earlier, bytes := fragments[..n], fragments[n];
      assert fragments == earlier + [bytes];
      FlattenAppend(earlier, bytes);
      Regroup(Flatten(earlier), bytes, to);
      current := KeepAliveReached(sent, earlier, bytes + to);
      current := OneMoreReached(sent, earlier, bytes, to, OnMessages(ACCEPTED, earlier), current);
    }
  }

  lemma {:induction false} NothingLost(p: Parse, base: RequestValue, current: string) returns (consumed: string)
    requires Stands(p, base, current)
    ensures current == consumed + p.unread
  {
    RunLeavesTail(Parse(ExpectRequestLine, base, current));
    consumed := current[..|current| - |p.unread|];
  }

  // ----- when complete requests wait -----

  /** A request that has arrived whole is left in the buffer. */
  predicate CompleteWaits(sent: seq<Sent>, k: nat, current: string) {
    k < |sent| && |current| >= |Render(sent[k])|
  }

  /** After one message event a complete request waits iff the event left two whole ones to be
      served. */
  lemma {:induction false} WaitsAfterStep(c: Connection, sent: seq<Sent>, received: string,
                                          current: string, bytes: string, to: string)
    requires forall s | s in sent :: WellFormed(s)
    requires KeepAlive(c, sent, received, current)
    requires received + bytes + to == Stream(sent)
    ensures var d, k, now := OnMessage(c, bytes), |c.dispatched|, current + bytes;
            && KeepAlive(d, sent, received + bytes, CurrentAfter(sent, k, now))
            && (CompleteWaits(sent, |d.dispatched|, CurrentAfter(sent, k, now))
                <==> k + 1 < |sent| && |now| >= |Render(sent[k])| + |Render(sent[k + 1])|)
  {
    KeepAliveStep(c, sent, received, current, bytes, to);
  }

  /** Where each text ends in the stream of all. */
  function Ends(texts: seq<string>): (r: seq<nat>)
    ensures |r| == |texts| + 1
  {
    seq(|texts| + 1, k requires 0 <= k <= |texts| => |BytesBefore(texts, k)|)
  }

  lemma {:induction false} BytesGrow(texts: seq<string>, j: nat, k: nat)
    requires j <= k <= |texts|
    ensures |BytesBefore(texts, j)| <= |BytesBefore(texts, k)|
  {
    if j < k {
      BytesGrow(texts, j, k - 1);
    }
  }

  lemma {:induction false} EndsGrow(texts: seq<string>)
    ensures Growing(Ends(texts))
  {
    forall i, j | 0 <= i < j < |Ends(texts)| ensures Ends(texts)[i] <= Ends(texts)[j] {
      BytesGrow(texts, i, j);
    }
  }

  /** How many requests are complete in the first `length` bytes. */
  function CompleteIn(sent: seq<Sent>, length: nat): (n: nat)
    ensures n <= |sent|
  {
    CountBelow(Ends(Texts(sent)), length, |sent|)
  }

  lemma {:induction false} CompleteInExactly(sent: seq<Sent>, length: nat, j: nat)
    requires j <= |sent|
    ensures j <= CompleteIn(sent, length) <==> |BytesBefore(Texts(sent), j)| <= length
  {
    EndsGrow(Texts(sent));
    CountExactly(Ends(Texts(sent)), length, |sent|, j);
  }

  /** How many requests are complete in the bytes of the first `m` messages. */
  function Complete(sent: seq<Sent>, fragments: seq<string>, m: nat): (n: nat)
    requires m <= |fragments|
    ensures n <= |sent|
  {
    CompleteIn(sent, |Flatten(fragments[..m])|)
  }

  lemma {:induction false} NextEnd(sent: seq<Sent>, k: nat)
    requires k < |sent|
    ensures |BytesBefore(Texts(sent), k + 1)| == |BytesBefore(Texts(sent), k)| + |Render(sent[k])|
  {
    RendersAt(sent, |sent|, k);
  }

  /** Behind the first `k` texts the next is complete when its own bytes are in. */
  lemma {:induction false} NextCompletes(texts: seq<string>, k: nat, length: nat, rest: nat)
    requires k <= |texts| && length == |BytesBefore(texts, k)| + rest
    ensures k < |texts| && rest >= |texts[k]| <==> CountBelow(Ends(texts), length, |texts|) > k
  {
    if k < |texts| {
      EndsGrow(texts);
      CountExactly(Ends(texts), length, |texts|, k + 1);
    }
  }

  lemma {:induction false} DispatchCount(c: Connection, sent: seq<Sent>, received: string,
                                         current: string, bytes: string, to: string)
    requires forall s | s in sent :: WellFormed(s)
    requires KeepAlive(c, sent, received, current)
    requires received + bytes + to == Stream(sent)
    ensures var k := |c.dispatched|;
            && k <= |sent| && |received| == |BytesBefore(Texts(sent), k)| + |current|
            && |OnMessage(c, bytes).dispatched|
               == if k < |sent| && |current| + |bytes| >= |Texts(sent)[k]| then k + 1 else k
  {
    KeepAliveStep(c, sent, received, current, bytes, to);
    if |c.dispatched| < |sent| {
      RendersAt(sent, |sent|, |c.dispatched|);
    }
  }

  /** A message event dispatches one more request iff more are complete than were dispatched. */
  lemma {:induction false} AfterMessage(sent: seq<Sent>, earlier: seq<string>, bytes: string, to: string)
    requires forall s | s in sent :: WellFormed(s)
    requires Flatten(earlier) + bytes + to == Stream(sent)
    ensures var c, complete := OnMessages(ACCEPTED, earlier), CompleteIn(sent, |Flatten(earlier) + bytes|);
            |OnMessage(c, bytes).dispatched| == if complete > |c.dispatched| then |c.dispatched| + 1 else |c.dispatched|
  {
    Regroup(Flatten(earlier), bytes, to);
    var current := KeepAliveReached(sent, earlier, bytes + to);
    var c := OnMessages(ACCEPTED, earlier);
    DispatchCount(c, sent, Flatten(earlier), current, bytes, to);
    NextCompletes(Texts(sent), |c.dispatched|, |Flatten(earlier) + bytes|, |current| + |bytes|);
  }

  /** What is complete after each message, none before the first. */
  function Completes(sent: seq<Sent>, fragments: seq<string>): (r: seq<nat>)
    ensures |r| == |fragments| + 1
  {
    seq(|fragments| + 1, m requires 0 <= m <= |fragments| => Complete(sent, fragments, m))
  }

  lemma {:induction false} SamePast(sent: seq<Sent>, earlier: seq<string>, later: seq<string>)
    ensures Served(Completes(sent, earlier + later), |earlier|) == Served(Completes(sent, earlier), |earlier|)
  {
    var a, b := Completes(sent, earlier + later), Completes(sent, earlier);
    forall i | 0 <= i <= |earlier| ensures a[i] == b[i] {
      assert (earlier + later)[..i] == earlier[..i];
    }
    ServedPrefix(a, b, |earlier|);
  }

  lemma {:induction false} OneMoreServed(sent: seq<Sent>, earlier: seq<string>, bytes: string, to: string,
                                         c: Connection)
    requires forall s | s in sent :: WellFormed(s)
    requires Flatten(earlier) + bytes + to == Stream(sent) && c == OnMessages(ACCEPTED, earlier)
    requires |c.dispatched| == Served(Completes(sent, earlier), |earlier|)
    ensures var all := earlier + [bytes];
            |OnMessages(ACCEPTED, all).dispatched| == Served(Completes(sent, all), |all|)
  {
    var all := earlier + [bytes];
    assert all[..|all|] == all;
    FlattenAppend(earlier, bytes);
    SamePast(sent, earlier, [bytes]);
    AfterMessage(sent, earlier, bytes, to);
    OnOneMore(ACCEPTED, earlier, bytes);
  }

  /** A keep-alive connection is a queue from which each message event serves one complete request. */
  lemma {:induction false} DispatchedIsServed(sent: seq<Sent>, fragments: seq<string>, to: string)
    requires forall s | s in sent :: WellFormed(s)
    requires Flatten(fragments) + to == Stream(sent)
    ensures |OnMessages(ACCEPTED, fragments).dispatched| == Served(Completes(sent, fragments), |fragments|)
    decreases |fragments|
  {
    var n := |fragments|;
    if n > 0 {
      var earlier, bytes := fragments[..n - 1], fragments[n - 1];
      assert fragments == earlier + [bytes];
      FlattenAppend(earlier, bytes);
      Regroup(Flatten(earlier), bytes, to);
      DispatchedIsServed(sent, earlier, bytes + to);
      OneMoreServed(sent, earlier, bytes, to, OnMessages(ACCEPTED, earlier));
    }
  }

  lemma {:induction false} CompletesGrow(sent: seq<Sent>, fragments: seq<string>)
    ensures Growing(Completes(sent, fragments))
  {
    var r := Completes(sent, fragments);
    assert fragments[..0] == [];
    if sent != [] {
      CompleteInExactly(sent, 0, 1);
      NextEnd(sent, 0);
    }
    forall i, j | 0 <= i < j < |r| ensures r[i] <= r[j] {
      FlattenGrows(fragments, i, j);
      CompleteInExactly(sent, |Flatten(fragments[..i])|, r[i]);
      CompleteInExactly(sent, |Flatten(fragments[..j])|, r[i]);
    }
  }

  lemma {:induction false} FlattenGrows(fragments: seq<string>, i: nat, j: nat)
    requires i <= j <= |fragments|
    ensures |Flatten(fragments[..i])| <= |Flatten(fragments[..j])|
  {
    if i < j {
      FlattenGrows(fragments, i, j - 1);
      assert fragments[..j] == fragments[..j - 1] + [fragments[j - 1]];
      FlattenAppend(fragments[..j - 1], fragments[j - 1]);
    }
  }

  /** The backlog of a keep-alive connection, exactly: over any fragments every complete request
      has been dispatched iff, for every `m`, the messages after the first `m` completed no more
      requests than there are of them. In general the number dispatched is the least, over `m`, of
      what was complete after `m` messages plus the messages since. */
  lemma {:induction false} BurstWaitsExactly(sent: seq<Sent>, fragments: seq<string>, to: string)
    requires forall s | s in sent :: WellFormed(s)
    requires Flatten(fragments) + to == Stream(sent)
    ensures var n, complete := |fragments|, Completes(sent, fragments);
            var dispatched := |OnMessages(ACCEPTED, fragments).dispatched|;
            && (dispatched == complete[n] <==> forall m | 0 <= m <= n :: complete[n] - complete[m] <= n - m)
            && (exists m | 0 <= m <= n :: dispatched == complete[m] + (n - m))
            && (forall m | 0 <= m <= n :: dispatched <= complete[m] + (n - m))
  {
    DispatchedIsServed(sent, fragments, to);
    CompletesGrow(sent, fragments);
    var m := ServedIsLeast(Completes(sent, fragments), |fragments|);
  }

  // ----- every request is dispatched in the end -----

  function Least(a: nat, b: nat): nat {
    if a < b then a else b
  }

  /** Message events that bring no bytes. */
  function Empties(n: nat): seq<string> {
    seq(n, i => "")
  }

  lemma {:induction false} OneMoreIdle(sent: seq<Sent>, earlier: seq<string>, c: Connection, d: Connection)
    requires forall s | s in sent :: WellFormed(s)
    requires Flatten(earlier) == Stream(sent)
    requires c == OnMessages(ACCEPTED, earlier) && d == OnMessages(ACCEPTED, earlier + [""])
    requires |c.dispatched| <= |sent|
    ensures |d.dispatched| == Least(|c.dispatched| + 1, |sent|)
  {
    assert Stream(sent) + "" == Stream(sent);
    OnOneMore(ACCEPTED, earlier, "");
    AfterMessage(sent, earlier, "", "");
    CompleteInExactly(sent, |Stream(sent)|, |sent|);
  }

  lemma {:induction false} OneMoreEmpty(fragments: seq<string>, n: nat)
    requires n > 0
    ensures var earlier := fragments + Empties(n - 1);
            fragments + Empties(n) == earlier + [""] && Flatten(earlier + [""]) == Flatten(earlier)
  {
    var earlier := fragments + Empties(n - 1);
    FlattenAppend(earlier, "");
    assert Flatten(earlier) + "" == Flatten(earlier);
  }

  lemma {:induction false} IdleRun(sent: seq<Sent>, fragments: seq<string>, n: nat, c: Connection)
    returns (d: Connection)
    requires forall s | s in sent :: WellFormed(s)
    requires Flatten(fragments) == Stream(sent) && c == OnMessages(ACCEPTED, fragments) && |c.dispatched| <= |sent|
    ensures d == OnMessages(ACCEPTED, fragments + Empties(n)) && Flatten(fragments + Empties(n)) == Stream(sent)
    ensures |d.dispatched| == Least(|c.dispatched| + n, |sent|)
  {
    if n == 0 {
      d := c;
      assert fragments + Empties(0) == fragments;
    } else {
      var earlier := fragments + Empties(n - 1);
      var before := IdleRun(sent, fragments, n - 1, c);
      OneMoreEmpty(fragments, n);
      d := OnMessages(ACCEPTED, earlier + [""]);
      OneMoreIdle(sent, earlier, before, d);
    }
  }

  /** Once the whole stream has arrived, each further message event dispatches one more request
      until all have been. Here those events bring no bytes: a plain connection raises none of that
      kind, only a TLS connection calls on while its buffer of decrypted bytes is filled. */
  lemma {:induction false} LeftoversDrain(sent: seq<Sent>, fragments: seq<string>, n: nat, c: Connection, d: Connection)
    requires forall s | s in sent :: WellFormed(s)
    requires Flatten(fragments) == Stream(sent)
    requires c == OnMessages(ACCEPTED, fragments) && d == OnMessages(ACCEPTED, fragments + Empties(n))
    ensures var m := Least(|c.dispatched| + n, |sent|); m <= |sent| && d.dispatched == ReceivedAll(sent, m)
  {
    assert Stream(sent) + "" == Stream(sent);
    KeepAliveRun(sent, fragments, "");
    var e := IdleRun(sent, fragments, n, c);
    KeepAliveRun(sent, fragments + Empties(n), "");
  }

  lemma {:induction false} NothingAfter(texts: seq<string>, k: nat)
    requires k < |texts|
    ensures BytesBefore(texts, k) + texts[k] + BytesFrom(texts, k + 1) == BytesBefore(texts, |texts|)
    ensures BytesBefore(texts, k + 1) == BytesBefore(texts, k) + texts[k]
    ensures "" + texts[k] == texts[k] && texts[k][|texts[k]|..] == ""
  {
    BytesSplit(texts, k + 1);
  }

  /** A request that arrives whole at a connection with nothing unread is dispatched at once. */
  lemma {:induction false} WholeMessage(c: Connection, sent: seq<Sent>, k: nat, text: string)
    requires k < |sent| && forall s | s in sent :: WellFormed(s)
    requires |c.dispatched| == k && KeepAlive(c, sent, BytesBefore(Texts(sent), k), "") && text == Render(sent[k])
    ensures var d := OnMessage(c, text);
            |d.dispatched| == k + 1 && KeepAlive(d, sent, BytesBefore(Texts(sent), k + 1), "")
  {
    RendersAt(sent, |sent|, k);
    NothingAfter(Texts(sent), k);
    KeepAliveStep(c, sent, BytesBefore(Texts(sent), k), "", text, BytesFrom(Texts(sent), k + 1));
  }

  /** Clients that send one request per message event have each dispatched at once, in order. */
  lemma {:induction false} RequestPerMessage(sent: seq<Sent>, k: nat)
    requires k <= |sent| && forall s | s in sent :: WellFormed(s)
    ensures var c := OnMessages(ACCEPTED, Renders(sent, k));
            |c.dispatched| == k && KeepAlive(c, sent, BytesBefore(Texts(sent), k), "")
  {
    if k > 0 {
      RequestPerMessage(sent, k - 1);
      WholeMessage(OnMessages(ACCEPTED, Renders(sent, k - 1)), sent, k - 1, Render(sent[k - 1]));
      OnOneMore(ACCEPTED, Renders(sent, k - 1), Render(sent[k - 1]));
    }
  }

  // ----- requests that are refused -----

  /** A line the parser refuses stays in the buffer. */
  lemma {:induction false} IllegalTurn(c: Connection, bytes: string, line: string, rest: string)
    requires c.parse.stage == ExpectRequestLine && '\r' !in line && !LegalLine(line)
    requires c.parse.unread + bytes == line + "\r\n" + rest
    ensures var d := OnMessage(c, bytes);
            && d.parse.stage == ExpectRequestLine && d.parse.unread == line + "\r\n" + rest
            && d.dispatched == c.dispatched && d.rejections == c.rejections + 1
  {
    LineTaken(line, rest);
    LineExactly(c.parse.req, line);
  }

  /** The parser stands before the refused line, after so many messages from it on. */
  predicate StuckAt(c: Connection, d: Connection, n: nat, line: string, after: string) {
    && d.dispatched == c.dispatched && d.rejections == c.rejections + n
    && d.parse.stage == ExpectRequestLine && d.parse.unread == line + "\r\n" + after
  }

  lemma {:induction false} OneMoreStuck(c: Connection, earlier: seq<string>, bytes: string, line: string,
                                        after: string, d: Connection)
    requires '\r' !in line && !LegalLine(line) && c.parse.Open() && d == OnMessages(c, earlier)
    requires StuckAt(c, d, |earlier|, line, after)
    ensures StuckAt(c, OnMessages(c, earlier + [bytes]), |earlier| + 1, line, after + bytes)
  {
    OnOneMore(c, earlier, bytes);
    Regroup(line + "\r\n", after, bytes);
    IllegalTurn(d, bytes, line, after + bytes);
  }

  lemma {:induction false} FirstStuck(c: Connection, bytes: string, line: string, rest: string)
    requires c.parse.stage == ExpectRequestLine && '\r' !in line && !LegalLine(line)
    requires c.parse.unread + bytes == line + "\r\n" + rest
    ensures StuckAt(c, OnMessages(c, [bytes]), 1, line, rest)
  {
    OnOneMore(c, [], bytes);
    assert [] + [bytes] == [bytes];
    IllegalTurn(c, bytes, line, rest);
  }

  /** From a line that is no legal request line on, every message event is answered with a 400 and
      nothing is dispatched any more. */
  lemma {:induction false} IllegalLineRun(c: Connection, fragments: seq<string>, line: string, rest: string)
    returns (after: string)
    requires c.parse.stage == ExpectRequestLine && '\r' !in line && !LegalLine(line)
    requires fragments != [] && c.parse.unread + fragments[0] == line + "\r\n" + rest
    ensures StuckAt(c, OnMessages(c, fragments), |fragments|, line, after)
    decreases |fragments|
  {
    var n := |fragments| - 1;
    var earlier, bytes := fragments[..n], fragments[n];
    assert fragments == earlier + [bytes];
    if n == 0 {
      after := rest;
      assert fragments == [bytes];
      FirstStuck(c, bytes, line, rest);
    } else {
      after := IllegalLineRun(c, earlier, line, rest);
      OneMoreStuck(c, earlier, bytes, line, after, OnMessages(c, earlier));
      after := after + bytes;
    }
  }

  lemma {:induction false} OnMore(c: Connection, a: seq<string>, b: seq<string>)
    requires c.parse.Open()
    ensures OnMessages(c, a + b) == OnMessages(OnMessages(c, a), b)
    decreases |b|
  {
    if b == [] {
      assert a + b == a;
    } else {
      var n := |b| - 1;
      assert b == b[..n] + [b[n]];
      Regroup(a, b[..n], [b[n]]);
      OnMore(c, a, b[..n]);
      OnOneMore(c, a + b[..n], b[n]);
      OnOneMore(OnMessages(c, a), b[..n], b[n]);
    }
  }

  /** Legal requests before an illegal line are all served and each message from it on is refused:
      the messages are the requests one by one and then anything that begins with such a line. */
  lemma {:induction false} RefusedFromThere(sent: seq<Sent>, more: seq<string>, line: string, rest: string)
    requires forall s | s in sent :: WellFormed(s)
    requires '\r' !in line && !LegalLine(line) && more != [] && more[0] == line + "\r\n" + rest
    ensures var c := OnMessages(ACCEPTED, Renders(sent, |sent|) + more);
            c.dispatched == ReceivedAll(sent, |sent|) && c.rejections == |more|
  {
    var c := OnMessages(ACCEPTED, Renders(sent, |sent|));
    RequestPerMessage(sent, |sent|);
    NoRequestsLeft(BaseAt(sent, |sent|));
    OnMore(ACCEPTED, Renders(sent, |sent|), more);
    assert c.parse.unread + more[0] == more[0];
    var after := IllegalLineRun(c, more, line, rest);
  }

  /** A request is complete, refused or still waited for once its head is in, as what it declares of
      its body says; `after` is what came with it. */
  lemma {:induction false} HeadAnswered(c: Connection, s: Sent, after: string, bytes: string)
    requires c.parse == Parse(ExpectRequestLine, c.parse.req, "") && Fresh(c.parse.req) && WellSpelled(s)
    requires bytes == LineText(s) + "\r\n" + HeadersText(s.headers, after)
    ensures var d := OnMessage(c, bytes);
            && (d.rejections == if CarriesBody(s) && Stoi(Declared(s)).None? then c.rejections + 1 else c.rejections)
            && (|d.dispatched| > |c.dispatched|
                <==> !CarriesBody(s) || (Stoi(Declared(s)).Some? && BodyLength(s) <= |after|))
            && c.dispatched <= d.dispatched
            && (|d.dispatched| > |c.dispatched| ==>
                  d.dispatched[|c.dispatched|].content
                  == if CarriesBody(s) && BodyLength(s) > 0 then after[..BodyLength(s)] else c.parse.req.content)
  {
    assert c.parse.unread + bytes == bytes;
    HeadDecides(s, c.parse.req, after);
    NoEmptyNumber();
  }

  /** A dispatch that throws shows the handler the same request and is answered with one 400 more. */
  lemma {:induction false} ThrowingDispatch(c: Connection, bytes: string)
    requires c.parse.Open()
    ensures var d, e := OnMessage(c, bytes), OnMessageThrowing(c, bytes);
            && e.dispatched == d.dispatched && e.parse.unread == d.parse.unread
            && e.rejections == d.rejections + (|d.dispatched| - |c.dispatched|)
            && (e.parse.Open() <==> |d.dispatched| == |c.dispatched|)
  {
  }

  // ----- the body that reset leaves behind -----

  /** The body of the last of the first `k` requests that carried one. */
  function LastBody(sent: seq<Sent>, k: nat): string
    requires k <= |sent|
  {
    if k == 0 then "" else if HasBody(sent[k - 1]) then sent[k - 1].body else LastBody(sent, k - 1)
  }

  lemma {:induction false} BaseContent(sent: seq<Sent>, k: nat)
    requires k <= |sent|
    ensures BaseAt(sent, k).content == LastBody(sent, k)
  {
    if k > 0 {
      BaseContent(sent, k - 1);
    }
  }

  lemma {:induction false} NoBodyYet(sent: seq<Sent>, k: nat)
    requires k <= |sent|
    ensures LastBody(sent, k) == "" <==> forall i | 0 <= i < k :: !HasBody(sent[i])
  {
    if k > 0 {
      NoBodyYet(sent, k - 1);
    }
  }

  /** Over any keep-alive run the handler of request `k` sees the body sent iff that request carries
      one or no earlier request did; otherwise it sees the last body that came before. */
  lemma {:induction false} StaleBodyExactly(sent: seq<Sent>, fragments: seq<string>, to: string, k: nat)
    requires forall s | s in sent :: WellFormed(s)
    requires Flatten(fragments) + to == Stream(sent)
    requires k < |OnMessages(ACCEPTED, fragments).dispatched|
    ensures k < |sent|
    ensures var shown := OnMessages(ACCEPTED, fragments).dispatched[k].content;
            && shown == (if HasBody(sent[k]) then sent[k].body else LastBody(sent, k))
            && (shown == sent[k].body <==> HasBody(sent[k]) || forall i | 0 <= i < k :: !HasBody(sent[i]))
  {
    var current := KeepAliveReached(sent, fragments, to);
    var n := |OnMessages(ACCEPTED, fragments).dispatched|;
    ReceivedAt(sent, n, k);
    BaseContent(sent, k);
    NoBodyYet(sent, k);
    assert WellFormed(sent[k]);
  }

  // ----- the imperative connection -----

  class ServerConnection {
    const context: HttpContext
    const inbox: Buffer
    var dispatched: seq<RequestValue>
    var rejections: nat

    constructor ()
      ensures Valid() && fresh(context) && fresh(context.request) && fresh(inbox)
      ensures View() == ACCEPTED
    {
      context := new HttpContext();
      inbox := new Buffer();
      dispatched, rejections := [], 0;
    }

    /** The connection outlives every call in a state `parseRequest` may be entered in. */
    predicate Valid()
      reads context
    {
      context.state != GotAll
    }

    function View(): Connection
      reads this, context, context.request, inbox
    {
      Connection(context.View(inbox), dispatched, rejections)
    }

    /** `onMessage`: a false return, an exception of the parser and one that leaves the dispatch all
        answer 400. After the last the parser is not reset: `Valid` says when it may be called again. */
    method Receive(bytes: string, receiveTime: int, dispatchThrows: bool)
      requires Valid()
      modifies this, context, context.request, inbox
      ensures View() == if dispatchThrows then OnMessageThrowing(old(View()), bytes) else OnMessage(old(View()), bytes)
      ensures Valid() <==> !dispatchThrows || |dispatched| == |old(dispatched)|
    {
      inbox.Append(bytes);
      assert context.View(inbox) == old(View()).parse.More(bytes);
      var verdict := context.ParseRequest(inbox, receiveTime);
      if verdict != Good {
        rejections := rejections + 1;
      }
      if context.state == GotAll {
        dispatched := dispatched + [context.request.Value()];
        if dispatchThrows {
          rejections := rejections + 1;
          return;
        }
        context.Reset();
      }
    }
  }
}

/** The resumable request parser: one call per network fragment. */
module HttpContextModel {
  import opened Text
  import opened HttpRequestModel

  datatype Stage = ExpectRequestLine | ExpectHeaders | ExpectBody | GotAll

  /** `Good` is a true return, `Bad` a false one, `Threw` the exception `stoi` raises. */
  datatype Verdict = Good | Bad | Threw

  /** The parser's fields together with the bytes it has not consumed. */
  datatype Parse = Parse(stage: Stage, req: RequestValue, unread: string) {
    function More(bytes: string): Parse {
      this.(unread := unread + bytes)
    }

    /** Waiting for bytes, as opposed to finished. */
    predicate Open() {
      stage != GotAll
    }
  }

  /** One turn of the parse loop either goes round again or leaves it. */
  datatype Turn = Again(next: Parse) | Leave(next: Parse, verdict: Verdict)

  const OPENING := Parse(ExpectRequestLine, BLANK, "")

  // ----- the request line -----

  function Target(r: RequestValue, target: string): RequestValue {
    var q := Find(target, '?');
    if q < |target| then
      r.(path := target[..q], query := AddPairs(r.query, Split(target[q + 1..], '&')))
    else
      r.(path := target)
  }

  function Version(r: RequestValue, text: string): (RequestValue, bool) {
    if text == "HTTP/1.1" || text == "HTTP/1.0" then (r.(version := text), true) else (r, false)
  }

  /** Method, target and version; what was set before a failure stays set. */
  function RequestLine(r: RequestValue, line: string): (RequestValue, bool) {
    var space := Find(line, ' ');
    if space == |line| then (r, false)
    else
      var r1 := r.(verb := MethodOf(line[..space]));
      var rest := line[space + 1..];
      var space2 := Find(rest, ' ');
      if r1.verb == Invalid || space2 == |rest| then (r1, false)
      else Version(Target(r1, rest[..space2]), rest[space2 + 1..])
  }

  // ----- one turn of the loop -----

  /** Assigning an `int` to the unsigned 64-bit length. */
  function ToUint64(v: int): (r: nat)
    requires INT_MIN <= v <= INT_MAX
  {
    if v < 0 then v + 0x1_0000_0000_0000_0000 else v
  }

  predicate TakesBody(m: Method) {
    m == Post || m == Put
  }

  function EndOfHeaders(p: Parse, rest: string): Turn {
    var length := Header(p.req.headers, "Content-Length");
    if !TakesBody(p.req.verb) then Leave(Parse(GotAll, p.req, rest), Good)
    else if length == "" then Leave(p.(unread := rest), Bad)
    else match Stoi(length)
      case None => Leave(p, Threw)
      case Some(v) =>
        var req := p.req.(contentLength := ToUint64(v));
        if req.contentLength > 0 then Again(Parse(ExpectBody, req, rest))
        else Leave(Parse(GotAll, req, rest), Good)
  }

  function HeaderLine(p: Parse, line: string, rest: string): Turn {
    var colon := Find(line, ':');
    if colon < |line| then
      Again(Parse(ExpectHeaders,
                  p.req.(headers := p.req.headers[line[..colon] := Trim(line[colon + 1..])]),
                  rest))
    else if line == "" then EndOfHeaders(p, rest)
    else Leave(p.(unread := rest), Bad)
  }

  function Advance(p: Parse): Turn
    requires p.Open()
  {
    if p.stage == ExpectBody then
      if |p.unread| < p.req.contentLength then Leave(p, Good)
      else
        var n := p.req.contentLength;
        Leave(Parse(GotAll, p.req.(content := p.unread[..n]), p.unread[n..]), Good)
    else
      var n := FindCRLF(p.unread);
      if n == |p.unread| then Leave(p, Good)
      else
        var line, rest := p.unread[..n], p.unread[n + 2..];
        if p.stage == ExpectRequestLine then
          var (req, ok) := RequestLine(p.req, line);
          if ok then Again(Parse(ExpectHeaders, req, rest)) else Leave(p.(req := req), Bad)
        else HeaderLine(p, line, rest)
  }

  /** A turn that goes round again has consumed bytes: the measure that ends the loop. */
  lemma AdvanceShrinks(p: Parse)
    requires p.Open()
    ensures var t := Advance(p);
            |t.next.unread| <= |p.unread|
            && (t.Again? ==> t.next.Open() && |t.next.unread| < |p.unread|)
  {
  }

  /** One call: turns until the loop is left. */
  function Run(p: Parse): (Parse, Verdict)
    requires p.Open()
    decreases |p.unread|
  {
    AdvanceShrinks(p);
    match Advance(p)
    case Again(next) => Run(next)
    case Leave(next, verdict) => (next, verdict)
  }

  // ----- fragmentation -----

  predicate Settled(next: Parse, verdict: Verdict) {
    verdict != Good || !next.Open()
  }

  lemma SliceExtends(x: string, y: string, n: nat)
    requires n <= |x|
    ensures (x + y)[..n] == x[..n] && (x + y)[n..] == x[n..] + y
  {
  }

  /** More input changes no decision already taken; it only follows the unread bytes. */
  lemma {:induction false} AdvanceExtends(p: Parse, y: string)
    requires p.Open()
    ensures var t, u := Advance(p), Advance(p.More(y));
            match t
            case Again(next) => u == Again(next.More(y))
            case Leave(next, v) => if Settled(next, v) then u == Leave(next.More(y), v) else next == p
  {
    var x := p.unread;
    if p.stage == ExpectBody {
      if p.req.contentLength <= |x| {
        SliceExtends(x, y, p.req.contentLength);
      }
    } else if FindCRLF(x) < |x| {
      var n := FindCRLF(x);
      FindCRLFExtends(x, y);
      SliceExtends(x, y, n);
      SliceExtends(x, y, n + 2);
      if p.stage == ExpectHeaders {
        HeaderLineExtends(p, x[..n], x[n + 2..], y);
      }
    }
  }

  lemma HeaderLineExtends(p: Parse, line: string, rest: string, y: string)
    ensures var t, u := HeaderLine(p, line, rest), HeaderLine(p.More(y), line, rest + y);
            match t
            case Again(next) => u == Again(next.More(y))
            case Leave(next, v) => Settled(next, v) && u == Leave(next.More(y), v)
  {
  }

  lemma {:induction false} RunExtends(p: Parse, y: string)
    requires p.Open()
    ensures var (next, v) := Run(p);
            Run(p.More(y)) == if Settled(next, v) then (next.More(y), v) else Run(next.More(y))
    decreases |p.unread|
  {
    AdvanceExtends(p, y);
    AdvanceShrinks(p);
    match Advance(p)
    case Again(next) => RunExtends(next, y);
    case Leave(next, v) =>
  }

  /** What one call leaves unread is the tail of what it was given. */
  lemma {:induction false} RunLeavesTail(p: Parse)
    requires p.Open()
    ensures TailOf(Run(p).0.unread, p.unread)
    decreases |p.unread|
  {
    AdvanceShrinks(p);
    AdvanceLeavesTail(p);
    match Advance(p)
    case Again(next) =>
      RunLeavesTail(next);
      TailOfTail(Run(next).0.unread, next.unread, p.unread);
    case Leave(next, v) =>
  }

  lemma AdvanceLeavesTail(p: Parse)
    requires p.Open()
    ensures TailOf(Advance(p).next.unread, p.unread)
  {
    var x := p.unread;
    assert x == x[|x| - |x|..];
    if p.stage != ExpectBody && FindCRLF(x) < |x| {
      var n := FindCRLF(x);
      HeaderLineLeaves(p, x[..n], x[n + 2..]);
    }
  }

  lemma HeaderLineLeaves(p: Parse, line: string, rest: string)
    ensures HeaderLine(p, line, rest).next.unread in [p.unread, rest]
  {
  }

  lemma MoreNothing(p: Parse)
    ensures p.More("") == p
  {
    assert p.unread + "" == p.unread;
  }

  /** `parseRequest` after each fragment, up to the first completed request or first failure;
      fragments that come later stay unread. */
  function RunEach(p: Parse, fragments: seq<string>): (Parse, Verdict)
    requires p.Open() && fragments != []
    decreases |fragments|
  {
    var (next, v) := Run(p.More(fragments[0]));
    if Settled(next, v) || |fragments| == 1 then (next.More(Flatten(fragments[1..])), v)
    else RunEach(next, fragments[1..])
  }

  /** Fragmentation independence: however the bytes are cut, the stage, the request, the verdict
      and the unread bytes are those of a single call on all of them. */
  lemma {:induction false} FragmentationIndependence(p: Parse, fragments: seq<string>)
    requires p.Open() && fragments != []
    ensures RunEach(p, fragments) == Run(p.More(Flatten(fragments)))
    decreases |fragments|
  {
    var first, later := fragments[0], fragments[1..];
    var q, bytes := p.More(first), Flatten(fragments);
    if |fragments| == 1 {
      assert Flatten(later) == "" && bytes == first + "" == first;
      MoreNothing(Run(q).0);
    } else {
      var (next, v) := Run(q);
      assert q.More(Flatten(later)) == p.More(bytes) by {
        assert p.unread + first + Flatten(later) == p.unread + (first + Flatten(later));
      }
      RunExtends(q, Flatten(later));
      if !Settled(next, v) {
        FragmentationIndependence(next, later);
      }
    }
  }

  /** A call that is left waiting has done all it can: calling again without bytes does nothing. */
  lemma {:induction false} RunIdle(p: Parse)
    requires p.Open() && !Settled(Run(p).0, Run(p).1)
    ensures Run(Run(p).0) == Run(p)
    decreases |p.unread|
  {
    AdvanceShrinks(p);
    AdvanceExtends(p, "");
    match Advance(p)
    case Again(next) => RunIdle(next);
    case Leave(next, v) =>
  }

  // ----- the imperative parser -----

  /** The readable part of a network buffer. */
  class Buffer {
    var readable: string

    constructor ()
      ensures readable == ""
    {
      readable := "";
    }

    method Append(bytes: string)
      modifies this
      ensures readable == old(readable) + bytes
    {
      readable := readable + bytes;
    }

    method Retrieve(n: nat)
      requires n <= |readable|
      modifies this
      ensures readable == old(readable)[n..]
    {
      readable := readable[n..];
    }
  }

  class HttpContext {
    var state: Stage
    const request: HttpRequest

    constructor ()
      ensures state == ExpectRequestLine && fresh(request) && request.Value() == BLANK
    {
      state := ExpectRequestLine;
      request := new HttpRequest();
    }

    function View(buf: Buffer): Parse
      reads this, request, buf
    {
      Parse(state, request.Value(), buf.readable)
    }

    method Reset()
      modifies this, request
      ensures state == ExpectRequestLine
      ensures request.Value() == ResetValue(old(request.Value())) && request.receiveTime == 0
    {
      state := ExpectRequestLine;
      var dummy := new HttpRequest();
      request.Swap(dummy);
    }

    method ProcessRequestLine(line: string) returns (ok: bool)
      modifies request
      ensures (request.Value(), ok) == RequestLine(old(request.Value()), line)
      ensures request.receiveTime == old(request.receiveTime)
    {
      ok := false;
      ghost var r := request.Value();
      var space := Find(line, ' ');
      if space != |line| {
        var known := request.SetMethod(line[..space]);
        ghost var r1 := request.Value();
        assert r1 == r.(verb := MethodOf(line[..space]));
        if known {
          var rest := line[space + 1..];
          var space2 := Find(rest, ' ');
          if space2 != |rest| {
            SetTarget(rest[..space2]);
            ghost var r2 := request.Value();
            assert r2 == Target(r1, rest[..space2]);
            ok := SetVersion(rest[space2 + 1..]);
            assert (request.Value(), ok) == Version(r2, rest[space2 + 1..]);
          }
        }
      }
    }

    /** Eight bytes, `HTTP/1.` and then `1` or `0`. */
    method SetVersion(text: string) returns (ok: bool)
      modifies request`version
      ensures (request.Value(), ok) == Version(old(request.Value()), text)
    {
      ok := false;
      if |text| == 8 && text[..7] == "HTTP/1." {
        assert text == text[..7] + [text[7]];
        if text[7] == '1' {
          request.version := "HTTP/1.1";
          ok := true;
        } else if text[7] == '0' {
          request.version := "HTTP/1.0";
          ok := true;
        }
      }
    }

    method SetTarget(target: string)
      modifies request
      ensures request.Value() == Target(old(request.Value()), target)
      ensures request.receiveTime == old(request.receiveTime)
    {
      var mark := Find(target, '?');
      if mark != |target| {
        request.path := target[..mark];
        request.SetQueryParameters(target[mark + 1..]);
      } else {
        request.path := target;
      }
    }

    /** The loop over the buffer. Entered in `GotAll` it would never end, so callers must not. */
    method ParseRequest(buf: Buffer, receiveTime: int) returns (verdict: Verdict)
      requires state != GotAll
      modifies this, request, buf
      ensures (View(buf), verdict) == Run(old(View(buf)))
      ensures request.receiveTime
              == if old(state) == ExpectRequestLine && state != ExpectRequestLine
                 then receiveTime else old(request.receiveTime)
    {
      verdict := Good;
      var hasMore := true;
      ghost var start := View(buf);
      while hasMore
        invariant hasMore ==> state != GotAll && Run(View(buf)) == Run(start) && verdict == Good
        invariant !hasMore ==> (View(buf), verdict) == Run(start)
        invariant request.receiveTime
                  == if old(state) == ExpectRequestLine && state != ExpectRequestLine
                     then receiveTime else old(request.receiveTime)
        invariant state == ExpectRequestLine ==> old(state) == ExpectRequestLine
        decreases hasMore, |buf.readable|
      {
        AdvanceShrinks(View(buf));
        if state == ExpectRequestLine {
          hasMore, verdict := RequestLineTurn(buf, receiveTime);
        } else if state == ExpectHeaders {
          hasMore, verdict := HeadersTurn(buf);
        } else {
          if |buf.readable| < request.contentLength {
            hasMore := false;
          } else {
            request.content := buf.readable[..request.contentLength];
            buf.Retrieve(request.contentLength);
            state := GotAll;
            hasMore := false;
          }
        }
      }
    }

    method RequestLineTurn(buf: Buffer, receiveTime: int) returns (hasMore: bool, verdict: Verdict)
      requires state == ExpectRequestLine
      modifies this, request, buf
      ensures hasMore ==> verdict == Good && Advance(old(View(buf))) == Again(View(buf))
      ensures !hasMore ==> Advance(old(View(buf))) == Leave(View(buf), verdict)
      ensures request.receiveTime
              == if state != ExpectRequestLine then receiveTime else old(request.receiveTime)
    {
      hasMore, verdict := false, Good;
      var crlf := FindCRLF(buf.readable);
      if crlf < |buf.readable| {
        var ok := ProcessRequestLine(buf.readable[..crlf]);
        if ok {
          request.receiveTime := receiveTime;
          buf.Retrieve(crlf + 2);
          state := ExpectHeaders;
          hasMore := true;
        } else {
          verdict := Bad;
        }
      }
    }

    /** The empty line: whether a body follows is decided by the method and `Content-Length`. */
    method EmptyLine(ghost unread: string, ghost rest: string) returns (hasMore: bool, verdict: Verdict)
      requires state == ExpectHeaders
      modifies this, request
      ensures match EndOfHeaders(Parse(ExpectHeaders, old(request.Value()), unread), rest)
              case Again(next) => hasMore && verdict == Good && next == Parse(state, request.Value(), rest)
              case Leave(next, v) =>
                !hasMore && verdict == v
                && next == Parse(state, request.Value(), if v == Threw then unread else rest)
      ensures state != ExpectRequestLine && request.receiveTime == old(request.receiveTime)
    {
      hasMore, verdict := false, Good;
      if request.verb == Post || request.verb == Put {
        var contentLength := Header(request.headers, "Content-Length");
        if contentLength != "" {
          var number := Stoi(contentLength);
          if number.None? {
            return false, Threw;
          }
          request.contentLength := ToUint64(number.value);
          if request.contentLength > 0 {
            state := ExpectBody;
            hasMore := true;
          } else {
            state := GotAll;
          }
        } else {
          verdict := Bad;
        }
      } else {
        state := GotAll;
      }
    }

    method HeadersTurn(buf: Buffer) returns (hasMore: bool, verdict: Verdict)
      requires state == ExpectHeaders
      modifies this, request, buf
      ensures hasMore ==> verdict == Good && Advance(old(View(buf))) == Again(View(buf))
      ensures !hasMore ==> Advance(old(View(buf))) == Leave(View(buf), verdict)
      ensures state != ExpectRequestLine && request.receiveTime == old(request.receiveTime)
    {
      hasMore, verdict := false, Good;
      var crlf := FindCRLF(buf.readable);
      if crlf < |buf.readable| {
        var line := buf.readable[..crlf];
        var colon := Find(line, ':');
        if colon < crlf {
          request.AddHeader(line, colon);
          hasMore := true;
        } else if crlf == 0 {
          hasMore, verdict := EmptyLine(buf.readable, buf.readable[crlf + 2..]);
          if verdict == Threw {
            return;
          }
        } else {
          verdict := Bad;
        }
        buf.Retrieve(crlf + 2);
      }
    }
  }
}

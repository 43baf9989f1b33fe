/** Requests as a client writes them, and the proof that parsing undoes the writing. */
module HttpRender {
  import opened Text
  import opened HttpRequestModel
  import opened HttpContextModel

  type Pair = (string, string)

  /** What a client sends: `METHOD path?k=v&k=v VERSION`, header lines, an empty line, a body. */
  datatype Sent = Sent(
    verb: Method,
    path: string,
    query: seq<Pair>,
    version: string,
    headers: seq<Pair>,
    body: string)

  function Name(m: Method): string {
    match m
    case Get => "GET"
    case Post => "POST"
    case Head => "HEAD"
    case Put => "PUT"
    case Delete => "DELETE"
    case Options => "OPTIONS"
    case Invalid => ""
  }

  /** The methods the server takes; HEAD is not among them. */
  predicate Accepted(m: Method) {
    m != Invalid && m != Head
  }

  function PairText(kv: Pair): string {
    kv.0 + "=" + kv.1
  }

  function PairTexts(query: seq<Pair>): (r: seq<string>)
    ensures |r| == |query|
  {
    if query == [] then [] else [PairText(query[0])] + PairTexts(query[1..])
  }

  function TargetText(s: Sent): string {
    if s.query == [] then s.path else s.path + "?" + Join(PairTexts(s.query), '&')
  }

  function LineText(s: Sent): string {
    Name(s.verb) + " " + (TargetText(s) + " " + s.version)
  }

  function HeaderText(kv: Pair): string {
    kv.0 + ": " + kv.1
  }

  /** Header lines, the empty line and whatever follows. */
  function HeadersText(headers: seq<Pair>, after: string): string {
    if headers == [] then "" + "\r\n" + after
    else HeaderText(headers[0]) + "\r\n" + HeadersText(headers[1..], after)
  }

  function Render(s: Sent): string {
    LineText(s) + "\r\n" + HeadersText(s.headers, s.body)
  }

  /** Later entries win, as when the parser assigns into its maps. */
  function ToMap(m: map<string, string>, pairs: seq<Pair>): map<string, string>
    decreases |pairs|
  {
    if pairs == [] then m else ToMap(m[pairs[0].0 := pairs[0].1], pairs[1..])
  }

  predicate Free(s: string, bad: string) {
    forall c | c in bad :: c !in s
  }

  predicate CleanPair(kv: Pair) {
    Free(kv.0, "=& \r") && Free(kv.1, "& \r")
  }

  predicate CleanHeader(kv: Pair) {
    && Free(kv.0, ":\r")
    && '\r' !in kv.1
    && (kv.1 == "" || (!IsSpace(kv.1[0]) && !IsSpace(kv.1[|kv.1| - 1])))
  }

  /** Clients send a body with POST and PUT only. */
  predicate CarriesBody(s: Sent) {
    s.verb == Post || s.verb == Put
  }

  function Declared(s: Sent): string {
    Header(ToMap(map[], s.headers), "Content-Length")
  }

  /** The declared length agrees with the body. */
  predicate BodyDeclared(s: Sent) {
    if CarriesBody(s) then Stoi(Declared(s)) == Some(|s.body|) else s.body == ""
  }

  predicate WellFormed(s: Sent) {
    WellSpelled(s) && BodyDeclared(s)
  }

  /** Request line and headers are in order, whatever they declare of a body. */
  predicate WellSpelled(s: Sent) {
    && Accepted(s.verb)
    && Free(s.path, " ?\r")
    && (forall kv | kv in s.query :: CleanPair(kv))
    && (s.version == "HTTP/1.1" || s.version == "HTTP/1.0")
    && (forall kv | kv in s.headers :: CleanHeader(kv))
  }

  predicate HasBody(s: Sent) {
    CarriesBody(s) && s.body != ""
  }

  /** The request handed to the handlers, for a parser last reset to `base`. */
  function Received(s: Sent, base: RequestValue): RequestValue {
    RequestValue(
      s.verb, s.version, s.path, base.pathParameters,
      ToMap(base.query, s.query), ToMap(base.headers, s.headers),
      if HasBody(s) then s.body else base.content,
      if CarriesBody(s) then |s.body| else base.contentLength)
  }

  /** A parser fresh from construction or from `reset`. */
  predicate Fresh(r: RequestValue) {
    r == ResetValue(r)
  }

  // ----- the query string -----

  lemma PairTextFree(kv: Pair)
    requires CleanPair(kv)
    ensures Free(PairText(kv), "& \r")
  {
    forall c | c in "& \r" ensures c !in PairText(kv) {
      assert c in "=& \r" && c != '=';
    }
  }

  lemma {:induction false} CleanPairTexts(query: seq<Pair>)
    requires forall kv | kv in query :: CleanPair(kv)
    ensures forall t | t in PairTexts(query) :: Free(t, "& \r")
  {
    if query != [] {
      PairTextFree(query[0]);
      CleanPairTexts(query[1..]);
    }
  }

  lemma AddPairText(m: map<string, string>, kv: Pair)
    requires CleanPair(kv)
    ensures AddPair(m, PairText(kv)) == m[kv.0 := kv.1]
  {
    FindAt(kv.0, '=', kv.1);
    var t := PairText(kv);
    assert t == kv.0 + ['='] + kv.1;
    assert t[..|kv.0|] == kv.0 && t[|kv.0| + 1..] == kv.1;
  }

  lemma {:induction false} AddPairTexts(m: map<string, string>, query: seq<Pair>)
    requires forall kv | kv in query :: CleanPair(kv)
    ensures AddPairs(m, PairTexts(query)) == ToMap(m, query)
    decreases |query|
  {
    if query != [] {
      AddPairText(m, query[0]);
      AddPairsCons(m, PairText(query[0]), PairTexts(query[1..]));
      AddPairTexts(m[query[0].0 := query[0].1], query[1..]);
    }
  }

  lemma QueryRoundTrip(m: map<string, string>, query: seq<Pair>)
    requires query != []
    requires forall kv | kv in query :: CleanPair(kv)
    ensures AddPairs(m, Split(Join(PairTexts(query), '&'), '&')) == ToMap(m, query)
  {
    var texts := PairTexts(query);
    CleanPairTexts(query);
    SplitJoin(texts, '&');
    AddPairTexts(m, query);
  }

  /** A piece of the query string without an equals sign changes nothing. */
  lemma {:induction false} BarePieceDropped(m: map<string, string>, a: seq<string>, piece: string, b: seq<string>)
    requires '=' !in piece
    ensures AddPairs(m, a + [piece] + b) == AddPairs(m, a + b)
    decreases |a|
  {
    if a == [] {
      FindNone(piece, '=');
      assert a + [piece] + b == [piece] + b && a + b == b;
      AddPairsCons(m, piece, b);
    } else {
      BarePieceDropped(AddPair(m, a[0]), a[1..], piece, b);
      assert a + [piece] + b == [a[0]] + (a[1..] + [piece] + b) && a + b == [a[0]] + (a[1..] + b);
      AddPairsCons(m, a[0], a[1..] + [piece] + b);
      AddPairsCons(m, a[0], a[1..] + b);
    }
  }

  lemma {:induction false} JoinFree(texts: seq<string>, c: char, bad: char)
    requires |texts| >= 1 && c != bad
    requires forall t | t in texts :: bad !in t
    ensures bad !in Join(texts, c)
  {
    if |texts| > 1 {
      JoinFree(texts[1..], c, bad);
    }
  }

  // ----- the request line -----

  /** The parser knows exactly the names of the methods served. */
  lemma NamesRead(m: Method)
    ensures MethodOf(Name(m)) == if Accepted(m) then m else Invalid
    ensures ' ' !in Name(m) && '\r' !in Name(m)
  {
  }

  lemma TargetFree(s: Sent)
    requires WellSpelled(s)
    ensures ' ' !in TargetText(s) && '\r' !in TargetText(s)
  {
    assert ' ' in " ?\r" && '\r' in " ?\r";
    if s.query != [] {
      CleanPairTexts(s.query);
      assert ' ' in "& \r" && '\r' in "& \r";
      JoinFree(PairTexts(s.query), '&', ' ');
      JoinFree(PairTexts(s.query), '&', '\r');
    }
  }

  lemma TargetRoundTrip(s: Sent, r: RequestValue)
    requires WellSpelled(s)
    ensures Target(r, TargetText(s)) == r.(path := s.path, query := ToMap(r.query, s.query))
  {
    var t := TargetText(s);
    assert '?' in " ?\r";
    if s.query == [] {
      FindNone(t, '?');
    } else {
      var q := Join(PairTexts(s.query), '&');
      assert t == s.path + ['?'] + q;
      FindAt(s.path, '?', q);
      assert t[..|s.path|] == s.path && t[|s.path| + 1..] == q;
      QueryRoundTrip(r.query, s.query);
    }
  }

  lemma LineRoundTrip(s: Sent, r: RequestValue)
    requires WellSpelled(s)
    ensures RequestLine(r, LineText(s))
            == (r.(verb := s.verb, path := s.path,
                   query := ToMap(r.query, s.query), version := s.version), true)
  {
    var rest := TargetText(s) + " " + s.version;
    NamesRead(s.verb);
    TargetFree(s);
    BlankTaken(Name(s.verb), rest);
    BlankTaken(TargetText(s), s.version);
    TargetRoundTrip(s, r.(verb := s.verb));
  }

  lemma BlankTaken(word: string, rest: string)
    requires ' ' !in word
    ensures var s := word + " " + rest;
            Find(s, ' ') == |word| < |s| && s[..|word|] == word && s[|word| + 1..] == rest
  {
    FindAt(word, ' ', rest);
  }

  /** A method the server takes, a target without blanks and one of the two versions. */
  ghost predicate LegalLine(line: string) {
    exists m, target, version ::
      && Accepted(m) && ' ' !in target && (version == "HTTP/1.1" || version == "HTTP/1.0")
      && line == Words(m, target, version)
  }

  function Words(m: Method, target: string, version: string): string {
    Name(m) + " " + (target + " " + version)
  }

  lemma NameBack(name: string)
    requires MethodOf(name) != Invalid
    ensures Name(MethodOf(name)) == name && Accepted(MethodOf(name))
  {
  }

  /** Three words: where the first two blanks stand decides which. */
  predicate LegalWords(name: string, target: string, version: string) {
    MethodOf(name) != Invalid && (version == "HTTP/1.1" || version == "HTTP/1.0")
  }

  lemma ThreeWords(r: RequestValue, name: string, target: string, version: string)
    requires ' ' !in name && ' ' !in target
    ensures RequestLine(r, name + " " + (target + " " + version)).1 == LegalWords(name, target, version)
  {
    BlankTaken(name, target + " " + version);
    BlankTaken(target, version);
  }

  lemma FewerWords(r: RequestValue, name: string, rest: string)
    requires ' ' !in name && ' ' !in rest
    ensures !RequestLine(r, name).1 && !RequestLine(r, name + " " + rest).1
  {
    FindNone(name, ' ');
    FindNone(rest, ' ');
    BlankTaken(name, rest);
  }

  lemma FirstWord(line: string) returns (word: string, rest: string)
    ensures ' ' !in word && if ' ' in line then line == word + " " + rest else line == word
  {
    var n := Find(line, ' ');
    FindIsFirst(line, ' ');
    word, rest := line[..n], if n < |line| then line[n + 1..] else "";
  }

  /** Exactly the legal request lines are accepted. */
  lemma LineExactly(r: RequestValue, line: string)
    ensures RequestLine(r, line).1 <==> LegalLine(line)
  {
    if LegalLine(line) {
      LegalAccepted(r, line);
    }
    var name, rest := FirstWord(line);
    var target, version := FirstWord(rest);
    if ' ' !in line || ' ' !in rest {
      FewerWords(r, name, if ' ' in line then rest else "");
    } else {
      ThreeWords(r, name, target, version);
      if LegalWords(name, target, version) {
        NameBack(name);
        assert line == Words(MethodOf(name), target, version);
      }
    }
  }

  lemma LegalAccepted(r: RequestValue, line: string)
    requires LegalLine(line)
    ensures RequestLine(r, line).1
  {
    var m, target, version :|
      && Accepted(m) && ' ' !in target && (version == "HTTP/1.1" || version == "HTTP/1.0")
      && line == Words(m, target, version);
    NamesRead(m);
    ThreeWords(r, Name(m), target, version);
  }

  // ----- the header lines -----

  /** A header line that is not empty is refused iff it has no colon. */
  lemma ColonNeeded(p: Parse, line: string, rest: string)
    requires p.stage == ExpectHeaders && '\r' !in line && line != "" && p.unread == line + "\r\n" + rest
    ensures Advance(p) == Leave(p.(unread := rest), Bad) <==> ':' !in line
  {
    LineTaken(line, rest);
    if ':' in line {
      FindIsFirst(line, ':');
    }
  }

  lemma HeaderRoundTrip(p: Parse, kv: Pair, rest: string)
    requires p.stage == ExpectHeaders && CleanHeader(kv)
    requires p.unread == HeaderText(kv) + "\r\n" + rest
    ensures Advance(p)
            == Again(Parse(ExpectHeaders, p.req.(headers := p.req.headers[kv.0 := kv.1]), rest))
  {
    var line := HeaderText(kv);
    assert ':' in ":\r" && '\r' in ":\r";
    assert line == kv.0 + [':'] + (" " + kv.1);
    LineTaken(line, rest);
    FindAt(kv.0, ':', " " + kv.1);
    assert line[..|kv.0|] == kv.0 && line[|kv.0| + 1..] == " " + kv.1 + "";
    TrimPadded(" ", kv.1, "");
  }

  lemma LineTaken(line: string, rest: string)
    requires '\r' !in line
    ensures var s := line + "\r\n" + rest;
            FindCRLF(s) == |line| < |s| && s[..|line|] == line && s[|line| + 2..] == rest
  {
    FindCRLFAt(line, rest);
  }

  lemma {:induction false} HeadersRoundTrip(p: Parse, headers: seq<Pair>, after: string)
    requires p.stage == ExpectHeaders && p.unread == HeadersText(headers, after)
    requires forall kv | kv in headers :: CleanHeader(kv)
    ensures Run(p) == Run(Parse(ExpectHeaders, p.req.(headers := ToMap(p.req.headers, headers)), "" + "\r\n" + after))
    decreases |headers|
  {
    if headers == [] {
      assert p.req.(headers := p.req.headers) == p.req;
    } else {
      var kv, rest := headers[0], HeadersText(headers[1..], after);
      HeaderRoundTrip(p, kv, rest);
      var next := Parse(ExpectHeaders, p.req.(headers := p.req.headers[kv.0 := kv.1]), rest);
      HeadersRoundTrip(next, headers[1..], after);
    }
  }

  // ----- the empty line and the body -----

  /** A parser that waits for a body takes it once all of it is there. */
  lemma BodyTaken(q: Parse)
    requires q.stage == ExpectBody
    ensures var n := q.req.contentLength;
            Run(q) == if |q.unread| < n then (q, Good)
                      else (Parse(GotAll, q.req.(content := q.unread[..n]), q.unread[n..]), Good)
  {
  }

  lemma EmptyLineTaken(p: Parse, after: string)
    requires p.stage == ExpectHeaders && p.unread == "" + "\r\n" + after
    ensures match EndOfHeaders(p, after)
            case Leave(next, v) => Run(p) == (next, v)
            case Again(next) => next.stage == ExpectBody && Run(p) == Run(next)
  {
    LineTaken("", after);
    assert Advance(p) == EndOfHeaders(p, after);
  }

  lemma LengthAssigned(s: Sent)
    requires Stoi(Declared(s)).Some?
    ensures ToUint64(Stoi(Declared(s)).value) == BodyLength(s) && Declared(s) != ""
  {
    NoEmptyNumber();
  }

  /** The end of the headers decides: a request without body is complete, one with a body waits for
      the bytes declared, and one that does not declare them is refused. */
  lemma EndDecides(s: Sent, p: Parse, after: string)
    requires p.stage == ExpectHeaders && p.unread == "" + "\r\n" + after && p.req.verb == s.verb
    requires p.req.headers == ToMap(map[], s.headers)
    ensures Decided(s, p.req, after, Run(p))
  {
    EmptyLineTaken(p, after);
    assert CarriesBody(s) <==> TakesBody(p.req.verb);
    if CarriesBody(s) && Stoi(Declared(s)).Some? {
      LengthAssigned(s);
      BodyTaken(Parse(ExpectBody, p.req.(contentLength := BodyLength(s)), after));
    }
  }

  lemma {:induction false} HeadersTextAfter(headers: seq<Pair>, a: string, b: string)
    ensures HeadersText(headers, a) + b == HeadersText(headers, a + b)
  {
    if headers == [] {
      assert "" + "\r\n" + a + b == "" + "\r\n" + (a + b);
    } else {
      HeadersTextAfter(headers[1..], a, b);
      var h := HeaderText(headers[0]) + "\r\n";
      assert h + HeadersText(headers[1..], a) + b == h + (HeadersText(headers[1..], a) + b);
    }
  }

  /** The request after its first line. */
  function AfterLine(s: Sent, base: RequestValue): RequestValue {
    base.(verb := s.verb, path := s.path, query := ToMap(base.query, s.query), version := s.version)
  }

  lemma LineTurn(s: Sent, base: RequestValue, rest: string)
    requires WellSpelled(s)
    ensures Advance(Parse(ExpectRequestLine, base, LineText(s) + "\r\n" + rest))
            == Again(Parse(ExpectHeaders, AfterLine(s, base), rest))
  {
    LineUnbroken(s);
    LineRoundTrip(s, base);
    LineAccepted(Parse(ExpectRequestLine, base, LineText(s) + "\r\n" + rest), LineText(s), rest);
  }

  lemma LineUnbroken(s: Sent)
    requires WellSpelled(s)
    ensures '\r' !in LineText(s)
  {
    NamesRead(s.verb);
    TargetFree(s);
  }

  lemma LineAccepted(p: Parse, line: string, rest: string)
    requires p.stage == ExpectRequestLine && p.unread == line + "\r\n" + rest && '\r' !in line
    requires RequestLine(p.req, line).1
    ensures Advance(p) == Again(Parse(ExpectHeaders, RequestLine(p.req, line).0, rest))
  {
    LineTaken(line, rest);
  }

  lemma RenderThen(s: Sent, suffix: string)
    ensures Render(s) + suffix == LineText(s) + "\r\n" + HeadersText(s.headers, s.body + suffix)
  {
    HeadersTextAfter(s.headers, s.body, suffix);
    var line, rest := LineText(s) + "\r\n", HeadersText(s.headers, s.body);
    assert (line + rest) + suffix == line + (rest + suffix);
  }

  /** What becomes of a request whose head left `req`, with `after` behind it. */
  predicate Decided(s: Sent, req: RequestValue, after: string, outcome: (Parse, Verdict)) {
    if !CarriesBody(s) then outcome == (Parse(GotAll, req, after), Good)
    else if Declared(s) == "" then outcome == (Parse(ExpectHeaders, req, after), Bad)
    else match Stoi(Declared(s))
      case None => outcome == (Parse(ExpectHeaders, req, "" + "\r\n" + after), Threw)
      case Some(_) =>
        var n, framed := BodyLength(s), req.(contentLength := BodyLength(s));
        && outcome.1 == Good
        && (n == 0 ==> outcome.0 == Parse(GotAll, framed, after))
        && (0 < n <= |after| ==> outcome.0 == Parse(GotAll, framed.(content := after[..n]), after[n..]))
        && (|after| < n ==> outcome.0 == Parse(ExpectBody, framed, after))
  }

  /** The bytes a declared body takes: a number below zero counts down from two to the 64th. */
  function BodyLength(s: Sent): nat
    requires Stoi(Declared(s)).Some?
  {
    var n := Stoi(Declared(s)).value;
    if n >= 0 then n else 0x1_0000_0000_0000_0000 + n
  }

  function AfterHead(s: Sent, base: RequestValue): RequestValue {
    AfterLine(s, base).(headers := ToMap(map[], s.headers))
  }

  /** Any head in order, whatever it declares: only POST and PUT take a body, of exactly the length
      declared; without one they are refused, and an unreadable one throws. */
  lemma HeadDecides(s: Sent, base: RequestValue, after: string)
    requires WellSpelled(s) && Fresh(base)
    ensures Decided(s, AfterHead(s, base), after,
                    Run(Parse(ExpectRequestLine, base, LineText(s) + "\r\n" + HeadersText(s.headers, after))))
  {
    var rest, req := HeadersText(s.headers, after), AfterLine(s, base);
    LineTurn(s, base, rest);
    HeadersRoundTrip(Parse(ExpectHeaders, req, rest), s.headers, after);
    EndDecides(s, Parse(ExpectHeaders, AfterHead(s, base), "" + "\r\n" + after), after);
  }

  /** Parsing undoes rendering: one call on a rendered request followed by anything yields what
      was sent and leaves exactly what followed. */
  lemma ParseUndoesRender(s: Sent, base: RequestValue, suffix: string)
    requires WellFormed(s) && Fresh(base)
    ensures Run(Parse(ExpectRequestLine, base, Render(s) + suffix))
            == (Parse(GotAll, Received(s, base), suffix), Good)
  {
    var after := s.body + suffix;
    RenderThen(s, suffix);
    HeadDecides(s, base, after);
    if s.body == "" {
      assert after == suffix;
    } else {
      assert after[..|s.body|] == s.body && after[|s.body|..] == suffix;
    }
    if CarriesBody(s) {
      NoEmptyNumber();
    }
  }

  lemma NoEmptyNumber()
    ensures Stoi("").None?
  {
  }

  /** A body length written by `to_string` satisfies the parser's own test of `WellFormed`. */
  lemma DeclaredByDecimal(s: Sent)
    requires CarriesBody(s) && |s.body| <= INT_MAX && Declared(s) == Decimal(|s.body|)
    ensures BodyDeclared(s)
  {
    StoiDecimal(|s.body|);
  }
}

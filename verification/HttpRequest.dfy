/** The parsed request: a value for specifications and the mutable object the parser fills. */
module HttpRequestModel {
  import opened Text

  datatype Method = Invalid | Get | Post | Head | Put | Delete | Options

  datatype RequestValue = RequestValue(
    verb: Method,
    version: string,
    path: string,
    pathParameters: map<string, string>,
    query: map<string, string>,
    headers: map<string, string>,
    content: string,
    contentLength: nat)

  const BLANK := RequestValue(Invalid, "Unknown", "", map[], map[], map[], "", 0)

  /** The methods the parser recognises; HEAD is not among them. */
  function MethodOf(name: string): Method {
    if name == "GET" then Get
    else if name == "POST" then Post
    else if name == "PUT" then Put
    else if name == "DELETE" then Delete
    else if name == "OPTIONS" then Options
    else Invalid
  }

  /** One `key=value` piece of a query string; a piece without `=` is dropped. */
  function AddPair(m: map<string, string>, pair: string): map<string, string> {
    var n := Find(pair, '=');
    if n == |pair| then m else m[pair[..n] := pair[n + 1..]]
  }

  function AddPairs(m: map<string, string>, pairs: seq<string>): map<string, string>
    decreases |pairs|
  {
    if pairs == [] then m else AddPairs(AddPair(m, pairs[0]), pairs[1..])
  }

  function Trim(s: string): string {
    TrimRight(TrimLeft(s))
  }

  function Header(headers: map<string, string>, field: string): string {
    if field in headers then headers[field] else ""
  }

  /** What `reset` leaves: everything is blank except the body and its length,
      which `swap` does not exchange. */
  function ResetValue(r: RequestValue): RequestValue {
    BLANK.(content := r.content, contentLength := r.contentLength)
  }

  lemma {:induction false} TrimLeftSkips(left: string, s: string)
    requires forall i | 0 <= i < |left| :: IsSpace(left[i])
    ensures TrimLeft(left + s) == TrimLeft(s)
  {
    if left == "" {
      assert left + s == s;
    } else {
      assert (left + s)[1..] == left[1..] + s;
      TrimLeftSkips(left[1..], s);
    }
  }

  lemma {:induction false} TrimRightSkips(s: string, right: string)
    requires forall i | 0 <= i < |right| :: IsSpace(right[i])
    ensures TrimRight(s + right) == TrimRight(s)
  {
    if right == "" {
      assert s + right == s;
    } else {
      var n := |right| - 1;
      assert (s + right)[..|s| + n] == s + right[..n];
      TrimRightSkips(s, right[..n]);
    }
  }

  /** Trimming removes exactly the outer blanks: a text with clean ends survives any padding. */
  lemma TrimPadded(left: string, core: string, right: string)
    requires forall i | 0 <= i < |left| :: IsSpace(left[i])
    requires forall i | 0 <= i < |right| :: IsSpace(right[i])
    requires core == "" || (!IsSpace(core[0]) && !IsSpace(core[|core| - 1]))
    ensures Trim(left + core + right) == core
  {
    assert left + core + right == left + (core + right);
    TrimLeftSkips(left, core + right);
    if core == "" {
      assert core + right == right + "";
      TrimLeftSkips(right, "");
    } else {
      TrimRightSkips(core, right);
    }
  }

  lemma AddPairsCons(m: map<string, string>, pair: string, pairs: seq<string>)
    ensures AddPairs(m, [pair] + pairs) == AddPairs(AddPair(m, pair), pairs)
  {
    assert ([pair] + pairs)[1..] == pairs;
  }

  lemma AddFirstPiece(m: map<string, string>, s: string, prev: nat)
    requires prev <= |s|
    ensures var pos := FindFrom(s, '&', prev);
            AddPairs(m, PiecesFrom(s, '&', prev))
            == if pos == |s| then AddPair(m, s[prev..])
               else AddPairs(AddPair(m, s[prev..pos]), PiecesFrom(s, '&', pos + 1))
  {
    var pos := FindFrom(s, '&', prev);
    if pos < |s| {
      AddPairsCons(m, s[prev..pos], PiecesFrom(s, '&', pos + 1));
    } else {
      AddPairsCons(m, s[prev..], []);
    }
  }

  class HttpRequest {
    var verb: Method
    var version: string
    var path: string
    var pathParameters: map<string, string>
    var query: map<string, string>
    var headers: map<string, string>
    var receiveTime: int
    var content: string
    var contentLength: nat

    function Value(): RequestValue
      reads this
    {
      RequestValue(verb, version, path, pathParameters, query, headers, content, contentLength)
    }

    constructor ()
      ensures Value() == BLANK && receiveTime == 0
    {
      verb, version, path := Invalid, "Unknown", "";
      pathParameters, query, headers := map[], map[], map[];
      receiveTime, content, contentLength := 0, "", 0;
    }

    method SetMethod(name: string) returns (ok: bool)
      modifies this`verb
      ensures Value() == old(Value()).(verb := MethodOf(name))
      ensures ok == (MethodOf(name) != Invalid)
    {
      if name == "GET" {
        verb := Get;
      } else if name == "POST" {
        verb := Post;
      } else if name == "PUT" {
        verb := Put;
      } else if name == "DELETE" {
        verb := Delete;
      } else if name == "OPTIONS" {
        verb := Options;
      } else {
        verb := Invalid;
      }
      ok := verb != Invalid;
    }

    /** The split loop over `&`: every piece with an `=` lands in the map, in order. */
    method SetQueryParameters(argument: string)
      modifies this`query
      ensures query == AddPairs(old(query), Split(argument, '&'))
    {
      ghost var goal := AddPairs(query, Split(argument, '&'));
      PiecesAreSplit(argument, '&', 0);
      assert argument[0..] == argument;
      var prev, pos := 0, FindFrom(argument, '&', 0);
      while pos < |argument|
        invariant prev <= |argument| && pos == FindFrom(argument, '&', prev)
        invariant AddPairs(query, PiecesFrom(argument, '&', prev)) == goal
      {
        AddFirstPiece(query, argument, prev);
        AddPiece(argument[prev..pos]);
        prev := pos + 1;
        pos := FindFrom(argument, '&', prev);
      }
      AddFirstPiece(query, argument, prev);
      AddPiece(argument[prev..]);
    }

    method AddPiece(pair: string)
      modifies this`query
      ensures query == AddPair(old(query), pair)
    {
      var equal := Find(pair, '=');
      if equal < |pair| {
        query := query[pair[..equal] := pair[equal + 1..]];
      }
    }

    /** The two trim loops around a header value. */
    method AddHeader(line: string, colon: nat)
      requires colon < |line|
      modifies this`headers
      ensures headers == old(headers)[line[..colon] := Trim(line[colon + 1..])]
    {
      var key := line[..colon];
      var at := colon + 1;
      while at < |line| && IsSpace(line[at])
        invariant colon + 1 <= at <= |line|
        invariant TrimLeft(line[at..]) == TrimLeft(line[colon + 1..])
      {
        assert line[at..][1..] == line[at + 1..];
        at := at + 1;
      }
      var value := line[at..];
      while value != "" && IsSpace(value[|value| - 1])
        invariant TrimRight(value) == Trim(line[colon + 1..])
        decreases |value|
      {
        value := value[..|value| - 1];
      }
      headers := headers[key := value];
    }

    /** Exchanges every field except the body and its length. */
    method Swap(that: HttpRequest)
      modifies this, that
      ensures Value() == old(that.Value()).(content := old(content), contentLength := old(contentLength))
      ensures that.Value() ==
              old(Value()).(content := old(that.content), contentLength := old(that.contentLength))
      ensures receiveTime == old(that.receiveTime) && that.receiveTime == old(receiveTime)
    {
      verb, that.verb := that.verb, verb;
      path, that.path := that.path, path;
      pathParameters, that.pathParameters := that.pathParameters, pathParameters;
      query, that.query := that.query, query;
      version, that.version := that.version, version;
      headers, that.headers := that.headers, headers;
      receiveTime, that.receiveTime := that.receiveTime, receiveTime;
    }
  }
}

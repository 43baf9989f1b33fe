/** Route templates compiled to patterns, their matching, and the order in which `route` tries its
    tables. */
module RouterModel {
  import opened Text
  import opened HttpRequestModel

  // ----- the compiled pattern -----

  /** A literal byte, or the group `([^/]+)` a template parameter is replaced by. */
  datatype Token = Literal(c: char) | Capture

  /** `convertToRegex`: each `/:name` with a nonempty name becomes `/([^/]+)`; the rest is literal. */
  function Compile(template: string): seq<Token>
    decreases |template|
  {
    if template == "" then []
    else if IsParameterAt(template) then
      [Literal('/'), Capture] + Compile(template[2 + Find(template[2..], '/')..])
    else [Literal(template[0])] + Compile(template[1..])
  }

  predicate IsParameterAt(s: string) {
    |s| > 2 && s[0] == '/' && s[1] == ':' && s[2] != '/'
  }

  /** A backtracking match of a whole path: a group tries its longest nonempty slash-free run first
      and gives bytes back one at a time. */
  function Match(tokens: seq<Token>, path: string): Option<seq<string>>
    decreases |tokens|, |path| + 1
  {
    if tokens == [] then (if path == "" then Some([]) else None)
    else match tokens[0]
      case Literal(c) => if path != "" && path[0] == c then Match(tokens[1..], path[1..]) else None
      case Capture => MatchGroup(tokens[1..], path, Find(path, '/'))
  }

  /** The group at the front takes `n` bytes or, failing that, fewer. */
  function MatchGroup(tokens: seq<Token>, path: string, n: nat): Option<seq<string>>
    requires n <= |path|
    decreases |tokens| + 1, n
  {
    if n == 0 then None
    else match Match(tokens, path[n..])
      case Some(groups) => Some([path[..n]] + groups)
      case None => MatchGroup(tokens, path, n - 1)
  }

  // ----- segment by segment -----

  /** A template segment after a slash is a parameter when it is a colon and a name. */
  predicate IsParameter(segment: string) {
    |segment| > 1 && segment[0] == ':'
  }

  predicate SegmentFits(template: string, path: string) {
    if IsParameter(template) then path != "" else template == path
  }

  /** Same number of segments, each parameter against a nonempty segment, the others equal. */
  predicate SegmentsFit(templates: seq<string>, paths: seq<string>) {
    |templates| == |paths| && forall i | 0 <= i < |templates| :: SegmentFits(templates[i], paths[i])
  }

  /** The path segments that stand against parameters, in order. */
  function Captured(templates: seq<string>, paths: seq<string>): seq<string>
    requires |templates| == |paths|
  {
    if templates == [] then []
    else (if IsParameter(templates[0]) then [paths[0]] else []) + Captured(templates[1..], paths[1..])
  }

  /** The segments after the first slash; the text before it is compared as it stands. */
  predicate Fits(template: string, path: string) {
    var t, p := Split(template, '/'), Split(path, '/');
    t[0] == p[0] && SegmentsFit(t[1..], p[1..])
  }

  function CapturedBy(template: string, path: string): seq<string>
    requires Fits(template, path)
  {
    Captured(Split(template, '/')[1..], Split(path, '/')[1..])
  }

  // ----- compiling by segments -----

  function Literals(s: string): (r: seq<Token>)
    ensures |r| == |s|
  {
    if s == "" then [] else [Literal(s[0])] + Literals(s[1..])
  }

  function SegmentTokens(segment: string): seq<Token> {
    if IsParameter(segment) then [Capture] else Literals(segment)
  }

  function SegmentsTokens(segments: seq<string>): seq<Token> {
    if segments == [] then [] else [Literal('/')] + (SegmentTokens(segments[0]) + SegmentsTokens(segments[1..]))
  }

  /** A slash-free beginning is compiled byte by byte. */
  lemma {:induction false} CompileLiterals(head: string, tail: string)
    requires '/' !in head
    ensures Compile(head + tail) == Literals(head) + Compile(tail)
  {
    if head == "" {
      assert head + tail == tail;
    } else {
      assert (head + tail)[0] == head[0] && (head + tail)[1..] == head[1..] + tail;
      CompileLiterals(head[1..], tail);
    }
  }

  lemma CompileParameter(segment: string, tail: string)
    requires '/' !in segment && IsParameter(segment) && (tail == "" || tail[0] == '/')
    ensures Compile("/" + segment + tail) == [Literal('/')] + ([Capture] + Compile(tail))
  {
    var s := "/" + segment + tail;
    var name := segment[1..];
    assert s[2..] == name + tail;
    assert '/' !in name;
    FindIsFirst(name + tail, '/');
    assert tail != "" ==> (name + tail)[|name|] == '/';
    assert forall i | 0 <= i < |name| :: (name + tail)[i] == name[i];
    assert Find(name + tail, '/') == |name|;
    assert s[2 + |name|..] == tail;
    assert s[2] == name[0];
  }

  lemma CompilePlain(segment: string, tail: string)
    requires '/' !in segment && !IsParameter(segment) && (tail == "" || tail[0] == '/')
    ensures Compile("/" + segment + tail) == [Literal('/')] + (Literals(segment) + Compile(tail))
  {
    var s := "/" + segment + tail;
    assert s[1..] == segment + tail;
    assert !IsParameterAt(s) by {
      if |segment| == 1 && tail != "" {
        assert s[2] == tail[0];
      }
    }
    CompileLiterals(segment, tail);
  }

  function Slashed(segments: seq<string>): string {
    if segments == [] then "" else "/" + segments[0] + Slashed(segments[1..])
  }

  lemma {:induction false} CompileSegments(segments: seq<string>)
    requires forall s | s in segments :: '/' !in s
    ensures Compile(Slashed(segments)) == SegmentsTokens(segments)
  {
    if segments != [] {
      var first, tail := segments[0], Slashed(segments[1..]);
      CompileSegments(segments[1..]);
      assert tail == "" || tail[0] == '/';
      if IsParameter(first) {
        CompileParameter(first, tail);
      } else {
        CompilePlain(first, tail);
      }
    }
  }

  // ----- matching by segments -----

  lemma {:induction false} MatchLiterals(head: string, tokens: seq<Token>, path: string)
    ensures Match(Literals(head) + tokens, path)
            == if head <= path then Match(tokens, path[|head|..]) else None
  {
    var all := Literals(head) + tokens;
    if head == "" {
      assert all == tokens && path[0..] == path;
    } else {
      assert all[0] == Literal(head[0]) && all[1..] == Literals(head[1..]) + tokens;
      MatchLiterals(head[1..], tokens, if path == "" then "" else path[1..]);
      if path != "" && path[0] == head[0] {
        assert head <= path <==> head[1..] <= path[1..] by {
          assert head == [head[0]] + head[1..] && path == [path[0]] + path[1..];
        }
        if head[1..] <= path[1..] {
          assert path[1..][|head[1..]|..] == path[|head|..];
        }
      }
    }
  }

  /** What follows a group starts with a slash or is the end, so giving bytes back never helps. */
  predicate Delimited(tokens: seq<Token>) {
    tokens == [] || tokens[0] == Literal('/')
  }

  lemma {:induction false} ShorterGroupFails(tokens: seq<Token>, path: string, n: nat)
    requires Delimited(tokens) && n < Find(path, '/')
    ensures MatchGroup(tokens, path, n) == None
    decreases n
  {
    if n > 0 {
      FindIsFirst(path, '/');
      assert path[n..] != "" && path[n..][0] == path[n];
      ShorterGroupFails(tokens, path, n - 1);
    }
  }

  /** The decomposition is unique: a group matches its whole segment or the match fails. */
  lemma GroupTakesSegment(tokens: seq<Token>, path: string)
    requires Delimited(tokens)
    ensures var n := Find(path, '/');
            Match([Capture] + tokens, path)
            == if n == 0 then None
               else match Match(tokens, path[n..])
                 case Some(groups) => Some([path[..n]] + groups)
                 case None => None
  {
    var n := Find(path, '/');
    assert ([Capture] + tokens)[1..] == tokens;
    if n > 0 {
      ShorterGroupFails(tokens, path, n - 1);
    }
  }

  /** Matching a path beyond its first slash, by segments. */
  lemma {:induction false} MatchSegments(templates: seq<string>, paths: seq<string>)
    requires forall s | s in templates :: '/' !in s
    requires forall s | s in paths :: '/' !in s
    ensures Match(SegmentsTokens(templates), Slashed(paths))
            == if SegmentsFit(templates, paths) then Some(Captured(templates, paths)) else None
    decreases |templates|
  {
    var tokens, path := SegmentsTokens(templates), Slashed(paths);
    if templates == [] {
      assert paths != [] ==> path[0] == '/';
    } else if paths == [] {
      assert tokens[0] == Literal('/');
    } else {
      MatchSegments(templates[1..], paths[1..]);
      FitsByParts(templates, paths);
      MatchFirst(templates[0], paths[0], SegmentsTokens(templates[1..]), Slashed(paths[1..]));
    }
  }

  lemma MatchFirst(t: string, p: string, more: seq<Token>, after: string)
    requires '/' !in t && '/' !in p && Delimited(more) && (after == "" || after[0] == '/')
    ensures Match([Literal('/')] + (SegmentTokens(t) + more), "/" + p + after)
            == if !SegmentFits(t, p) then None
               else match Match(more, after)
                 case None => None
                 case Some(groups) => Some((if IsParameter(t) then [p] else []) + groups)
  {
    var tokens, path := [Literal('/')] + (SegmentTokens(t) + more), "/" + p + after;
    assert tokens[1..] == SegmentTokens(t) + more && path[1..] == p + after;
    OneSegment(t, p, more, after);
    NothingBefore(match Match(more, after) case None => [] case Some(groups) => groups);
  }

  lemma NothingBefore(groups: seq<string>)
    ensures [] + groups == groups
  {
  }

  lemma FitsByParts(templates: seq<string>, paths: seq<string>)
    requires templates != [] && paths != []
    ensures SegmentsFit(templates, paths)
            <==> SegmentFits(templates[0], paths[0]) && SegmentsFit(templates[1..], paths[1..])
  {
    if SegmentFits(templates[0], paths[0]) && SegmentsFit(templates[1..], paths[1..]) {
      forall i | 0 <= i < |templates| ensures SegmentFits(templates[i], paths[i]) {
        if i > 0 {
          assert SegmentFits(templates[1..][i - 1], paths[1..][i - 1]);
        }
      }
    }
    if SegmentsFit(templates, paths) {
      forall i | 0 <= i < |templates[1..]| ensures SegmentFits(templates[1..][i], paths[1..][i]) {
        assert SegmentFits(templates[i + 1], paths[i + 1]);
      }
    }
  }

  lemma SegmentFound(p: string, after: string)
    requires '/' !in p && (after == "" || after[0] == '/')
    ensures Find(p + after, '/') == |p| && (p + after)[..|p|] == p && (p + after)[|p|..] == after
  {
    FindIsFirst(p + after, '/');
    assert after != "" ==> (p + after)[|p|] == '/';
    assert forall i | 0 <= i < |p| :: (p + after)[i] == p[i];
  }

  lemma OneSegment(t: string, p: string, more: seq<Token>, after: string)
    requires '/' !in t && '/' !in p && Delimited(more) && (after == "" || after[0] == '/')
    ensures Match(SegmentTokens(t) + more, p + after)
            == if !SegmentFits(t, p) then None
               else match Match(more, after)
                 case None => None
                 case Some(groups) => Some(if IsParameter(t) then [p] + groups else groups)
  {
    SegmentFound(p, after);
    if IsParameter(t) {
      GroupTakesSegment(more, p + after);
    } else {
      MatchLiterals(t, more, p + after);
      if t <= p + after {
        LiteralWithin(t, p, after);
        if |t| < |p| {
          LiteralTooShort(t, p, more, after);
        }
      }
    }
  }

  /** A slash-free text at the front lies within the first segment. */
  lemma LiteralWithin(t: string, p: string, after: string)
    requires '/' !in t && t <= p + after && (after == "" || after[0] == '/')
    ensures |t| <= |p| && t == p[..|t|]
  {
    assert forall i | 0 <= i < |t| :: t[i] == (p + after)[i] && t[i] != '/';
    assert after != "" ==> (p + after)[|p|] == '/';
    if |t| > |p| {
      assert false;
    }
  }

  lemma LiteralTooShort(t: string, p: string, more: seq<Token>, after: string)
    requires '/' !in p && Delimited(more) && |t| < |p|
    ensures Match(more, (p + after)[|t|..]) == None
  {
    var rest := (p + after)[|t|..];
    assert rest[0] == p[|t|] && p[|t|] in p;
  }

  lemma {:induction false} SlashedJoin(segments: seq<string>)
    requires segments != []
    ensures Join(segments, '/') == segments[0] + Slashed(segments[1..])
  {
    if |segments| > 1 {
      SlashedJoin(segments[1..]);
      assert "/" + segments[1] + Slashed(segments[1..][1..]) == ['/'] + (segments[1] + Slashed(segments[1..][1..]));
    } else {
      assert segments[0] + "" == segments[0];
    }
  }

  /** Full matching of the compiled pattern is agreement segment by segment, and the groups are the
      parameter segments in order. */
  lemma RouteTemplates(template: string, path: string)
    ensures Match(Compile(template), path)
            == if Fits(template, path) then Some(CapturedBy(template, path)) else None
  {
    var t, p := Split(template, '/'), Split(path, '/');
    JoinSplit(template, '/');
    JoinSplit(path, '/');
    SlashedJoin(t);
    SlashedJoin(p);
    var ts, ps := t[1..], p[1..];
    CompileLiterals(t[0], Slashed(ts));
    CompileSegments(ts);
    MatchSegments(ts, ps);
    FirstSegment(t[0], p[0], SegmentsTokens(ts), Slashed(ps));
  }

  lemma FirstSegment(t: string, p: string, more: seq<Token>, after: string)
    requires '/' !in t && '/' !in p && Delimited(more) && (after == "" || after[0] == '/')
    ensures Match(Literals(t) + more, p + after) == if t == p then Match(more, after) else None
  {
    SegmentFound(p, after);
    MatchLiterals(t, more, p + after);
    if t <= p + after {
      LiteralWithin(t, p, after);
      if |t| < |p| {
        LiteralTooShort(t, p, more, after);
      }
    }
  }

  // ----- the tables -----

  type HandlerId = nat

  datatype RouteKey = RouteKey(verb: Method, path: string)

  datatype DynamicRoute = DynamicRoute(verb: Method, template: string, target: HandlerId)

  /** Who answers, and with which path parameters. */
  datatype Routed =
    | NotFound
    | ToHandler(id: HandlerId, parameters: map<string, string>)
    | ToCallback(id: HandlerId, parameters: map<string, string>)

  function ParameterName(i: nat): string {
    "param" + Decimal(i + 1)
  }

  /** `extractPathParameters`: the groups under `param1`, `param2`, and so on. */
  function Parameters(base: map<string, string>, groups: seq<string>): map<string, string> {
    if groups == [] then base
    else
      var n := |groups| - 1;
      Parameters(base, groups[..n])[ParameterName(n) := groups[n]]
  }

  lemma NamesDiffer(i: nat, j: nat)
    requires ParameterName(i) == ParameterName(j)
    ensures i == j
  {
    assert Decimal(i + 1) == ParameterName(i)[5..] && Decimal(j + 1) == ParameterName(j)[5..];
    DecimalInjective(i + 1, j + 1);
  }

  /** Every group is found under its number, and no other name is touched. */
  lemma {:induction false} ParametersExactly(base: map<string, string>, groups: seq<string>, i: nat)
    requires i < |groups|
    ensures var name := "param" + Decimal(i + 1);
            name in Parameters(base, groups) && Parameters(base, groups)[name] == groups[i]
  {
    var n := |groups| - 1;
    if i < n {
      ParametersExactly(base, groups[..n], i);
      if ParameterName(i) == ParameterName(n) {
        NamesDiffer(i, n);
      }
    }
  }

  lemma {:induction false} OtherParametersKept(base: map<string, string>, groups: seq<string>, name: string)
    requires forall i: nat | i < |groups| :: name != ParameterName(i)
    ensures name in Parameters(base, groups) <==> name in base
    ensures name in base ==> Parameters(base, groups)[name] == base[name]
  {
    if groups != [] {
      OtherParametersKept(base, groups[..|groups| - 1], name);
    }
  }

  predicate Answers(r: DynamicRoute, verb: Method, path: string) {
    r.verb == verb && Fits(r.template, path)
  }

  /** The first route of a table that answers, or the table's length. */
  function FirstAnswer(routes: seq<DynamicRoute>, verb: Method, path: string): (i: nat)
    ensures i <= |routes| && (i < |routes| ==> Answers(routes[i], verb, path))
    ensures forall j | 0 <= j < i :: !Answers(routes[j], verb, path)
  {
    if routes == [] || Answers(routes[0], verb, path) then 0 else 1 + FirstAnswer(routes[1..], verb, path)
  }

  class Router {
    var handlers: map<RouteKey, HandlerId>
    var callbacks: map<RouteKey, HandlerId>
    var regexHandlers: seq<DynamicRoute>
    var regexCallbacks: seq<DynamicRoute>

    constructor ()
      ensures handlers == map[] && callbacks == map[] && regexHandlers == [] && regexCallbacks == []
    {
      handlers, callbacks, regexHandlers, regexCallbacks := map[], map[], [], [];
    }

    method RegisterHandler(verb: Method, path: string, id: HandlerId)
      modifies this`handlers
      ensures handlers == old(handlers)[RouteKey(verb, path) := id]
    {
      handlers := handlers[RouteKey(verb, path) := id];
    }

    method RegisterCallback(verb: Method, path: string, id: HandlerId)
      modifies this`callbacks
      ensures callbacks == old(callbacks)[RouteKey(verb, path) := id]
    {
      callbacks := callbacks[RouteKey(verb, path) := id];
    }

    method AddRegexHandler(verb: Method, path: string, id: HandlerId)
      modifies this`regexHandlers
      ensures regexHandlers == old(regexHandlers) + [DynamicRoute(verb, path, id)]
    {
      regexHandlers := regexHandlers + [DynamicRoute(verb, path, id)];
    }

    method AddRegexCallback(verb: Method, path: string, id: HandlerId)
      modifies this`regexCallbacks
      ensures regexCallbacks == old(regexCallbacks) + [DynamicRoute(verb, path, id)]
    {
      regexCallbacks := regexCallbacks + [DynamicRoute(verb, path, id)];
    }

    /** Exact handler, exact callback, first dynamic handler, first dynamic callback. A dynamic
        handler gets the captured parameters; a dynamic callback gets the request as it came. */
    method Route(verb: Method, path: string, given: map<string, string>) returns (r: Routed)
      ensures var key, h, c := RouteKey(verb, path),
                FirstAnswer(regexHandlers, verb, path), FirstAnswer(regexCallbacks, verb, path);
              r == if key in handlers then ToHandler(handlers[key], given)
                   else if key in callbacks then ToCallback(callbacks[key], given)
                   else if h < |regexHandlers| then
                     ToHandler(regexHandlers[h].target, Parameters(given, CapturedBy(regexHandlers[h].template, path)))
                   else if c < |regexCallbacks| then ToCallback(regexCallbacks[c].target, given)
                   else NotFound
    {
      var key := RouteKey(verb, path);
      if key in handlers {
        return ToHandler(handlers[key], given);
      }
      if key in callbacks {
        return ToCallback(callbacks[key], given);
      }
      var h, groups := FirstMatch(regexHandlers, verb, path);
      if h < |regexHandlers| {
        var parameters := ExtractPathParameters(given, groups);
        return ToHandler(regexHandlers[h].target, parameters);
      }
      var c, _ := FirstMatch(regexCallbacks, verb, path);
      if c < |regexCallbacks| {
        return ToCallback(regexCallbacks[c].target, given);
      }
      r := NotFound;
    }

    /** The search loop over a table of compiled patterns. */
    static method FirstMatch(routes: seq<DynamicRoute>, verb: Method, path: string)
      returns (i: nat, groups: seq<string>)
      ensures i == FirstAnswer(routes, verb, path)
      ensures i < |routes| ==> groups == CapturedBy(routes[i].template, path)
    {
      i, groups := 0, [];
      while i < |routes|
        invariant i <= |routes|
        invariant forall j | 0 <= j < i :: !Answers(routes[j], verb, path)
      {
        RouteTemplates(routes[i].template, path);
        var matched := Match(Compile(routes[i].template), path);
        if routes[i].verb == verb && matched.Some? {
          groups := matched.value;
          return;
        }
        i := i + 1;
      }
    }

    static method ExtractPathParameters(given: map<string, string>, groups: seq<string>)
      returns (parameters: map<string, string>)
      ensures parameters == Parameters(given, groups)
    {
      parameters := given;
      for i := 0 to |groups|
        invariant parameters == Parameters(given, groups[..i])
      {
        assert groups[..i + 1][..i] == groups[..i];
        parameters := parameters[ParameterName(i) := groups[i]];
      }
      assert groups[..|groups|] == groups;
    }
  }
}

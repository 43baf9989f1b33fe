/** Cutting names by characters: UTF-8 lead bytes, truncation, trimming (RFC 3629, section 3). */
module Utf8 {
  type Bytes = seq<bv8>

  const SPACE: bv8 := 0x20
  const TAB: bv8 := 0x09
  const LF: bv8 := 0x0A
  const CR: bv8 := 0x0D

  /** How many bytes the loop steps over for a first byte; a byte that starts nothing counts alone. */
  function Step(c: bv8): (n: nat)
    ensures 1 <= n <= 4
  {
    if c & 0x80 == 0 then 1
    else if c & 0xE0 == 0xC0 then 2
    else if c & 0xF0 == 0xE0 then 3
    else if c & 0xF8 == 0xF0 then 4
    else 1
  }

  /** The loop from position `at` with `chars` characters taken. */
  function Cut(s: Bytes, maxChars: nat, at: nat, chars: nat): (r: nat)
    requires at <= |s|
    ensures at <= r <= |s|
    decreases |s| - at
  {
    if at == |s| || chars >= maxChars || at + Step(s[at]) > |s| then at
    else Cut(s, maxChars, at + Step(s[at]), chars + 1)
  }

  function Truncate(s: Bytes, maxChars: nat): (r: nat)
    ensures r <= |s|
  {
    Cut(s, maxChars, 0, 0)
  }

  method Utf8TruncateToChars(s: Bytes, maxChars: nat) returns (bytes: nat)
    ensures bytes <= |s| && bytes == Truncate(s, maxChars)
  {
    var chars := 0;
    bytes := 0;
    while bytes < |s| && chars < maxChars
      invariant bytes <= |s|
      invariant Cut(s, maxChars, bytes, chars) == Truncate(s, maxChars)
      decreases |s| - bytes
    {
      var c := s[bytes];
      var step;
      if c & 0x80 == 0 {
        step := 1;
      } else if c & 0xE0 == 0xC0 {
        step := 2;
      } else if c & 0xF0 == 0xE0 {
        step := 3;
      } else if c & 0xF8 == 0xF0 {
        step := 4;
      } else {
        step := 1;
      }
      if bytes + step > |s| {
        break;
      }
      bytes := bytes + step;
      chars := chars + 1;
    }
  }

  // ----- valid UTF-8 -----

  predicate Tail(c: bv8) {
    0x80 <= c <= 0xBF
  }

  /** One encoded character, by the table of RFC 3629, section 4. */
  predicate CodePoint(p: Bytes) {
    if |p| == 1 then p[0] <= 0x7F
    else if |p| == 2 then 0xC2 <= p[0] <= 0xDF && Tail(p[1])
    else if |p| == 3 then
      && Tail(p[2])
      && ((p[0] == 0xE0 && 0xA0 <= p[1] <= 0xBF) || (0xE1 <= p[0] <= 0xEC && Tail(p[1]))
          || (p[0] == 0xED && 0x80 <= p[1] <= 0x9F) || (0xEE <= p[0] <= 0xEF && Tail(p[1])))
    else if |p| == 4 then
      && Tail(p[2]) && Tail(p[3])
      && ((p[0] == 0xF0 && 0x90 <= p[1] <= 0xBF) || (0xF1 <= p[0] <= 0xF3 && Tail(p[1]))
          || (p[0] == 0xF4 && 0x80 <= p[1] <= 0x8F))
    else false
  }

  function Flat(ps: seq<Bytes>): Bytes {
    if ps == [] then [] else ps[0] + Flat(ps[1..])
  }

  predicate CodePoints(ps: seq<Bytes>) {
    forall p | p in ps :: CodePoint(p)
  }

  /** The first byte of a character tells its length. */
  lemma LeadByte(p: Bytes)
    requires CodePoint(p)
    ensures p != [] && Step(p[0]) == |p|
  {
    LeadBits(p[0]);
  }

  lemma LeadBits(c: bv8)
    ensures c <= 0x7F ==> c & 0x80 == 0
    ensures 0x80 <= c ==> c & 0x80 != 0
    ensures 0xC0 <= c <= 0xDF ==> c & 0xE0 == 0xC0
    ensures 0xE0 <= c <= 0xEF ==> c & 0xE0 != 0xC0 && c & 0xF0 == 0xE0
    ensures 0xF0 <= c <= 0xF7 ==> c & 0xE0 != 0xC0 && c & 0xF0 != 0xE0 && c & 0xF8 == 0xF0
  {
  }

  function Min(a: nat, b: nat): nat {
    if a < b then a else b
  }

  lemma {:induction false} FlatConcat(a: seq<Bytes>, b: seq<Bytes>)
    ensures Flat(a + b) == Flat(a) + Flat(b)
  {
    if a == [] {
      assert a + b == b;
    } else {
      assert (a + b)[1..] == a[1..] + b;
      FlatConcat(a[1..], b);
    }
  }

  /** The bytes the loop takes in one turn. */
  predicate Stepped(p: Bytes) {
    p != [] && Step(p[0]) == |p|
  }

  predicate AllStepped(ps: seq<Bytes>) {
    forall p | p in ps :: Stepped(p)
  }

  /** Nothing, or fewer bytes than the first of them announces. */
  predicate Unfinished(q: Bytes) {
    q == [] || |q| < Step(q[0])
  }

  lemma CodePointsStepped(ps: seq<Bytes>)
    requires CodePoints(ps)
    ensures AllStepped(ps)
  {
    forall p | p in ps ensures Stepped(p) {
      LeadByte(p);
    }
  }

  lemma {:induction false} FlatTake(p: Bytes, rest: seq<Bytes>, n: nat)
    requires n <= |rest|
    ensures Flat(([p] + rest)[..n + 1]) == p + Flat(rest[..n])
  {
    assert ([p] + rest)[..n + 1] == [p] + rest[..n];
    assert ([p] + rest[..n])[1..] == rest[..n];
  }

  lemma {:induction false} CutStep(before: Bytes, p: Bytes, tail: Bytes, maxChars: nat, chars: nat)
    requires Stepped(p) && chars < maxChars
    ensures Cut(before + (p + tail), maxChars, |before|, chars)
            == Cut(before + p + tail, maxChars, |before + p|, chars + 1)
  {
    assert before + (p + tail) == before + p + tail;
    assert (before + p + tail)[|before|] == p[0];
  }

  lemma {:induction false} CutStops(before: Bytes, q: Bytes, maxChars: nat, chars: nat)
    requires Unfinished(q)
    ensures Cut(before + q, maxChars, |before|, chars) == |before|
  {
    assert q != [] ==> (before + q)[|before|] == q[0];
  }

  /** The loop steps over whole pieces and stops at an unfinished one. */
  lemma {:induction false} CutWhole(before: Bytes, ps: seq<Bytes>, q: Bytes, maxChars: nat, chars: nat)
    requires AllStepped(ps) && Unfinished(q) && chars <= maxChars
    ensures Cut(before + (Flat(ps) + q), maxChars, |before|, chars)
            == |before| + |Flat(ps[..Min(maxChars - chars, |ps|)])|
    decreases |ps|
  {
    if ps == [] {
      assert Flat(ps) + q == q;
      CutStops(before, q, maxChars, chars);
    } else if chars < maxChars {
      var p, rest := ps[0], ps[1..];
      var n := Min(maxChars - chars - 1, |rest|);
      assert Stepped(p) && ps == [p] + rest && |before + p| == |before| + |p|;
      assert Flat(ps) + q == p + (Flat(rest) + q);
      CutStep(before, p, Flat(rest) + q, maxChars, chars);
      CutWhole(before + p, rest, q, maxChars, chars + 1);
      FlatTake(p, rest, n);
      assert |Flat(ps[..n + 1])| == |p| + |Flat(rest[..n])|;
    } else {
      assert ps[..0] == [];
    }
  }

  /** On valid UTF-8 the result is the byte length of the first `min(n, count)` characters: the
      kept prefix is valid and no longer one of at most `n` characters exists. */
  lemma TruncateValid(ps: seq<Bytes>, maxChars: nat)
    requires CodePoints(ps)
    ensures var kept := ps[..Min(maxChars, |ps|)];
            Truncate(Flat(ps), maxChars) == |Flat(kept)| && Flat(ps)[..Truncate(Flat(ps), maxChars)] == Flat(kept)
  {
    var n := Min(maxChars, |ps|);
    CodePointsStepped(ps);
    CutWhole([], ps, [], maxChars, 0);
    assert [] + (Flat(ps) + []) == Flat(ps);
    assert ps == ps[..n] + ps[n..];
    FlatConcat(ps[..n], ps[n..]);
  }

  /** Nothing is cut exactly when there are at most `n` characters. */
  lemma TruncateKeepsAll(ps: seq<Bytes>, maxChars: nat)
    requires CodePoints(ps)
    ensures Truncate(Flat(ps), maxChars) == |Flat(ps)| <==> |ps| <= maxChars
  {
    TruncateValid(ps, maxChars);
    var n := Min(maxChars, |ps|);
    assert ps == ps[..n] + ps[n..];
    FlatConcat(ps[..n], ps[n..]);
    if |ps| <= maxChars {
      assert ps[..n] == ps;
    } else {
      assert CodePoint(ps[n..][0]);
    }
  }

  // ----- the rename handler -----

  predicate Blank(c: bv8) {
    c == SPACE || c == TAB
  }

  function TrimBack(s: Bytes): Bytes {
    if s != [] && Blank(s[|s| - 1]) then TrimBack(s[..|s| - 1]) else s
  }

  function TrimFront(s: Bytes): Bytes {
    if s != [] && Blank(s[0]) then TrimFront(s[1..]) else s
  }

  const NAME_CHARS := 60

  function NormalName(name: Bytes): Bytes {
    TrimFront(TrimBack(name[..Truncate(name, NAME_CHARS)]))
  }

  /** The rename loop, written out in the handler: the same function at sixty characters, then
      the two trim loops. */
  method NormalizeName(raw: Bytes) returns (name: Bytes)
    ensures name == NormalName(raw)
  {
    var charCount, bytes := 0, 0;
    while bytes < |raw| && charCount < 60
      invariant bytes <= |raw|
      invariant Cut(raw, NAME_CHARS, bytes, charCount) == Truncate(raw, NAME_CHARS)
      decreases |raw| - bytes
    {
      var c := raw[bytes];
      var step;
      if c & 0x80 == 0 {
        step := 1;
      } else if c & 0xE0 == 0xC0 {
        step := 2;
      } else if c & 0xF0 == 0xE0 {
        step := 3;
      } else if c & 0xF8 == 0xF0 {
        step := 4;
      } else {
        step := 1;
      }
      if bytes + step > |raw| {
        break;
      }
      bytes := bytes + step;
      charCount := charCount + 1;
    }
    name := raw[..bytes];
    while name != [] && Blank(name[|name| - 1])
      invariant TrimBack(name) == TrimBack(raw[..Truncate(raw, NAME_CHARS)])
      decreases |name|
    {
      name := name[..|name| - 1];
    }
    while name != [] && Blank(name[0])
      invariant TrimFront(name) == NormalName(raw)
      decreases |name|
    {
      name := name[1..];
    }
  }

  /** Trimming whole characters. */
  function TrimPointsBack(ps: seq<Bytes>): (r: seq<Bytes>)
    ensures r <= ps
  {
    if ps != [] && (ps[|ps| - 1] == [SPACE] || ps[|ps| - 1] == [TAB]) then TrimPointsBack(ps[..|ps| - 1]) else ps
  }

  function TrimPointsFront(ps: seq<Bytes>): (r: seq<Bytes>)
    ensures |r| <= |ps| && r == ps[|ps| - |r|..]
  {
    if ps != [] && (ps[0] == [SPACE] || ps[0] == [TAB]) then TrimPointsFront(ps[1..]) else ps
  }

  /** The first and the last byte of a character are blank only when it is a blank. */
  lemma BlankEnds(p: Bytes)
    requires CodePoint(p)
    ensures Blank(p[0]) <==> p == [SPACE] || p == [TAB]
    ensures Blank(p[|p| - 1]) <==> p == [SPACE] || p == [TAB]
  {
    if |p| == 1 {
      assert p == [p[0]];
    }
  }

  lemma FlatLast(ps: seq<Bytes>)
    requires ps != []
    ensures Flat(ps) == Flat(ps[..|ps| - 1]) + ps[|ps| - 1]
  {
    var n := |ps| - 1;
    assert ps == ps[..n] + [ps[n]];
    FlatConcat(ps[..n], [ps[n]]);
    assert Flat([ps[n]]) == ps[n] + Flat([ps[n]][1..]) == ps[n];
  }

  lemma {:induction false} TrimBackWhole(ps: seq<Bytes>)
    requires CodePoints(ps)
    ensures TrimBack(Flat(ps)) == Flat(TrimPointsBack(ps))
    decreases |ps|
  {
    if ps != [] {
      var n := |ps| - 1;
      var p, init := ps[n], ps[..n];
      assert CodePoint(p);
      FlatLast(ps);
      BlankEnds(p);
      LeadByte(p);
      assert Flat(ps)[|Flat(ps)| - 1] == p[|p| - 1];
      if p == [SPACE] || p == [TAB] {
        assert Flat(ps)[..|Flat(ps)| - 1] == Flat(init);
        TrimBackWhole(init);
      }
    }
  }

  lemma {:induction false} TrimFrontWhole(ps: seq<Bytes>)
    requires CodePoints(ps)
    ensures TrimFront(Flat(ps)) == Flat(TrimPointsFront(ps))
    decreases |ps|
  {
    if ps != [] {
      var p, rest := ps[0], ps[1..];
      BlankEnds(p);
      LeadByte(p);
      assert Flat(ps)[0] == p[0];
      if p == [SPACE] || p == [TAB] {
        assert Flat(ps)[1..] == Flat(rest);
        TrimFrontWhole(rest);
      }
    }
  }

  lemma {:induction false} TrimBackClean(s: Bytes)
    ensures TrimBack(s) == [] || !Blank(TrimBack(s)[|TrimBack(s)| - 1])
    ensures TrimBack(s) <= s
  {
    if s != [] && Blank(s[|s| - 1]) {
      TrimBackClean(s[..|s| - 1]);
    }
  }

  lemma {:induction false} TrimFrontClean(s: Bytes)
    ensures TrimFront(s) == [] || !Blank(TrimFront(s)[0])
    ensures |TrimFront(s)| <= |s| && TrimFront(s) == s[|s| - |TrimFront(s)|..]
  {
    if s != [] && Blank(s[0]) {
      TrimFrontClean(s[1..]);
    }
  }

  /** The characters of a normalised name. */
  function NamePoints(ps: seq<Bytes>): seq<Bytes> {
    TrimPointsFront(TrimPointsBack(ps[..Min(60, |ps|)]))
  }

  /** A valid name stays valid, has at most sixty characters and no blank at either end. */
  lemma {:induction false} NormalNameValid(ps: seq<Bytes>)
    requires CodePoints(ps)
    ensures var name := NormalName(Flat(ps));
            && name == Flat(NamePoints(ps)) && CodePoints(NamePoints(ps)) && |NamePoints(ps)| <= NAME_CHARS
            && (name == [] || (!Blank(name[0]) && !Blank(name[|name| - 1])))
  {
    var kept := ps[..Min(NAME_CHARS, |ps|)];
    TruncateValid(ps, NAME_CHARS);
    TrimBackWhole(kept);
    var t := TrimPointsBack(kept);
    assert forall p | p in t :: p in kept;
    TrimFrontWhole(t);
    assert forall p | p in TrimPointsFront(t) :: p in t;
    TrimBackClean(Flat(kept));
    TrimFrontClean(Flat(t));
  }

  lemma TrimNothing(s: Bytes)
    requires s == [] || (!Blank(s[0]) && !Blank(s[|s| - 1]))
    ensures TrimFront(TrimBack(s)) == s
  {
  }

  /** Renaming to an already normalised name changes nothing. */
  lemma NormalNameIdempotent(ps: seq<Bytes>)
    requires CodePoints(ps)
    ensures NormalName(NormalName(Flat(ps))) == NormalName(Flat(ps))
  {
    var name := NormalName(Flat(ps));
    NormalNameValid(ps);
    TruncateKeepsAll(NamePoints(ps), NAME_CHARS);
    assert name[..|name|] == name;
    TrimNothing(name);
  }

  // ----- the same on any bytes -----

  /** What the loop takes, turn by turn. */
  function PiecesFrom(s: Bytes, maxChars: nat, at: nat, chars: nat): seq<Bytes>
    requires at <= |s|
    decreases |s| - at
  {
    if at == |s| || chars >= maxChars || at + Step(s[at]) > |s| then []
    else [s[at..at + Step(s[at])]] + PiecesFrom(s, maxChars, at + Step(s[at]), chars + 1)
  }

  lemma {:induction false} PiecesTaken(s: Bytes, maxChars: nat, at: nat, chars: nat)
    requires at <= |s| && chars <= maxChars
    ensures var ps := PiecesFrom(s, maxChars, at, chars);
            Flat(ps) == s[at..Cut(s, maxChars, at, chars)] && AllStepped(ps) && |ps| <= maxChars - chars
    decreases |s| - at
  {
    if at == |s| || chars >= maxChars || at + Step(s[at]) > |s| {
    } else {
      var next := at + Step(s[at]);
      var p, rest := s[at..next], PiecesFrom(s, maxChars, next, chars + 1);
      PiecesTaken(s, maxChars, next, chars + 1);
      assert ([p] + rest)[1..] == rest && Stepped(p);
      assert s[at..next] + s[next..Cut(s, maxChars, next, chars + 1)] == s[at..Cut(s, maxChars, next, chars + 1)];
    }
  }

  /** The last piece that is not a blank itself ends in one: its lead byte swallowed it. */
  predicate SwallowsBlank(ps: seq<Bytes>)
    requires AllStepped(ps)
  {
    ps != [] &&
    var p := ps[|ps| - 1];
    if p == [SPACE] || p == [TAB] then SwallowsBlank(ps[..|ps| - 1]) else Stepped(p) && Blank(p[|p| - 1])
  }

  lemma BlankLead(p: Bytes)
    requires Stepped(p)
    ensures Blank(p[0]) ==> p == [SPACE] || p == [TAB]
    ensures |p| == 1 && Blank(p[|p| - 1]) ==> p == [SPACE] || p == [TAB]
  {
    LeadBits(p[0]);
    if |p| == 1 {
      assert p == [p[0]];
    }
  }

  lemma {:induction false} TrimBackTail(a: Bytes, b: Bytes)
    requires b != [] && !Blank(b[0])
    ensures TrimBack(a + b) == a + TrimBack(b) && TrimBack(b) != [] && TrimBack(b)[0] == b[0]
    decreases |b|
  {
    var s := a + b;
    assert s[|s| - 1] == b[|b| - 1];
    if Blank(b[|b| - 1]) {
      assert s[..|s| - 1] == a + b[..|b| - 1];
      TrimBackTail(a, b[..|b| - 1]);
    }
  }

  /** Trimming the end leaves whole pieces, and a piece cut short exactly where one swallowed a
      blank. */
  lemma {:induction false} TrimBackPieces(ps: seq<Bytes>) returns (whole: seq<Bytes>, q: Bytes)
    requires AllStepped(ps)
    ensures TrimBack(Flat(ps)) == Flat(whole) + q && whole <= ps && Unfinished(q)
    ensures q != [] ==> !Blank(q[0]) && |whole| < |ps|
    ensures q != [] <==> SwallowsBlank(ps)
    decreases |ps|
  {
    whole, q := ps, [];
    assert Flat(ps) + [] == Flat(ps);
    if ps != [] {
      var n := |ps| - 1;
      var p, init := ps[n], ps[..n];
      assert Stepped(p);
      BlankLead(p);
      FlatLast(ps);
      assert Flat(ps)[|Flat(ps)| - 1] == p[|p| - 1];
      if p == [SPACE] || p == [TAB] {
        assert Flat(ps)[..|Flat(ps)| - 1] == Flat(init);
        whole, q := TrimBackPieces(init);
      } else if Blank(p[|p| - 1]) {
        TrimBackTail(Flat(init), p);
        TrimBackClean(p);
        whole, q := init, TrimBack(p);
      }
    }
  }

  lemma {:induction false} TrimFrontPieces(ps: seq<Bytes>, q: Bytes) returns (whole: seq<Bytes>)
    requires AllStepped(ps) && (q != [] ==> !Blank(q[0]))
    ensures TrimFront(Flat(ps) + q) == Flat(whole) + q && AllStepped(whole) && |whole| <= |ps|
    decreases |ps|
  {
    whole := ps;
    if ps == [] {
      assert Flat(ps) + q == q;
    } else {
      var p, rest := ps[0], ps[1..];
      assert Stepped(p) && Flat(ps) == p + Flat(rest);
      BlankLead(p);
      assert (Flat(ps) + q)[0] == p[0];
      if Blank(p[0]) {
        assert (Flat(ps) + q)[1..] == Flat(rest) + q;
        whole := TrimFrontPieces(rest, q);
      }
    }
  }

  /** Where a normalised name ends: whole pieces, at most sixty, then possibly one cut short. */
  lemma {:induction false} NamePieces(s: Bytes) returns (whole: seq<Bytes>, q: Bytes)
    ensures NormalName(s) == Flat(whole) + q && AllStepped(whole) && Unfinished(q)
    ensures |whole| + (if q != [] then 1 else 0) <= NAME_CHARS
    ensures var ps := PiecesFrom(s, NAME_CHARS, 0, 0); AllStepped(ps) && (q != [] <==> SwallowsBlank(ps))
  {
    var ps := PiecesFrom(s, NAME_CHARS, 0, 0);
    PiecesTaken(s, NAME_CHARS, 0, 0);
    assert Flat(ps) == s[..Truncate(s, NAME_CHARS)];
    var kept;
    kept, q := TrimBackPieces(ps);
    assert forall p | p in kept :: p in ps;
    whole := TrimFrontPieces(kept, q);
  }

  lemma {:induction false} NameTrimmed(s: Bytes)
    ensures var name := NormalName(s); TrimFront(TrimBack(name)) == name
  {
    var kept := s[..Truncate(s, NAME_CHARS)];
    TrimBackClean(kept);
    TrimFrontClean(TrimBack(kept));
    TrimNothing(NormalName(s));
  }

  lemma {:induction false} TrimShortens(s: Bytes)
    ensures |TrimFront(TrimBack(s))| <= |s|
  {
    TrimBackClean(s);
    TrimFrontClean(TrimBack(s));
  }

  lemma {:induction false} SecondCut(whole: seq<Bytes>, q: Bytes)
    requires AllStepped(whole) && Unfinished(q) && |whole| <= NAME_CHARS
    ensures Truncate(Flat(whole) + q, NAME_CHARS) == |Flat(whole)|
  {
    CutWhole([], whole, q, NAME_CHARS, 0);
    assert [] + (Flat(whole) + q) == Flat(whole) + q;
    assert whole[..|whole|] == whole;
  }

  /** Renaming to a normalised name, on any bytes: it changes nothing iff no lead byte at the end of
      what was kept had swallowed a blank. On valid text none can (`NormalNameIdempotent`). */
  lemma {:induction false} NormalNameAgain(s: Bytes)
    ensures var ps := PiecesFrom(s, NAME_CHARS, 0, 0);
            AllStepped(ps) && (NormalName(NormalName(s)) == NormalName(s) <==> !SwallowsBlank(ps))
  {
    var name := NormalName(s);
    var whole, q := NamePieces(s);
    SecondCut(whole, q);
    if q == [] {
      assert name[..|Flat(whole)|] == name;
      NameTrimmed(s);
    } else {
      TrimShortens(name[..|Flat(whole)|]);
    }
  }

  // ----- automatic names -----

  function Without(s: Bytes, c: bv8): Bytes {
    if s == [] then [] else if s[0] == c then Without(s[1..], c) else [s[0]] + Without(s[1..], c)
  }

  const AUTO_CHARS := 12
  const ELLIPSIS: Bytes := [0xE2, 0x80, 0xA6]

  function AutoName(content: Bytes): Bytes {
    var c := Without(Without(Without(content, LF), CR), TAB);
    if Truncate(c, AUTO_CHARS) < |c| then c[..Truncate(c, AUTO_CHARS)] + ELLIPSIS else c
  }

  function WithoutPoint(ps: seq<Bytes>, c: bv8): (r: seq<Bytes>)
    ensures |r| <= |ps| && forall p | p in r :: p in ps && p != [c]
  {
    if ps == [] then [] else if ps[0] == [c] then WithoutPoint(ps[1..], c) else [ps[0]] + WithoutPoint(ps[1..], c)
  }

  lemma {:induction false} WithoutConcat(a: Bytes, b: Bytes, c: bv8)
    ensures Without(a + b, c) == Without(a, c) + Without(b, c)
  {
    if a == [] {
      assert a + b == b;
    } else {
      assert (a + b)[1..] == a[1..] + b;
      WithoutConcat(a[1..], b, c);
    }
  }

  lemma {:induction false} WithoutAbsent(s: Bytes, c: bv8)
    requires c !in s
    ensures Without(s, c) == s
  {
    if s != [] {
      WithoutAbsent(s[1..], c);
    }
  }

  /** An ASCII byte occurs only as a character of its own. */
  lemma AsciiAlone(p: Bytes, c: bv8)
    requires CodePoint(p) && c <= 0x7F && p != [c]
    ensures c !in p
  {
    if |p| == 1 {
      assert p == [p[0]];
    } else {
      assert forall i | 0 <= i < |p| :: p[i] >= 0x80;
    }
  }

  /** Removing an ASCII byte removes exactly the characters it is. */
  lemma {:induction false} WithoutWhole(ps: seq<Bytes>, c: bv8)
    requires CodePoints(ps) && c <= 0x7F
    ensures Without(Flat(ps), c) == Flat(WithoutPoint(ps, c))
  {
    if ps != [] {
      var p, rest := ps[0], ps[1..];
      WithoutWhole(rest, c);
      WithoutConcat(p, Flat(rest), c);
      if p == [c] {
        assert Without(p, c) == Without(p[1..], c) == [];
      } else {
        AsciiAlone(p, c);
        WithoutAbsent(p, c);
      }
    }
  }

  /** A message without its line ends and tabs. */
  function Flattened(ps: seq<Bytes>): seq<Bytes> {
    WithoutPoint(WithoutPoint(WithoutPoint(ps, LF), CR), TAB)
  }

  function AutoPoints(ps: seq<Bytes>): seq<Bytes> {
    var qs := Flattened(ps);
    if |qs| > 12 then qs[..12] + [ELLIPSIS] else qs
  }

  lemma {:induction false} FlattenedWhole(ps: seq<Bytes>)
    requires CodePoints(ps)
    ensures Without(Without(Without(Flat(ps), LF), CR), TAB) == Flat(Flattened(ps)) && CodePoints(Flattened(ps))
    ensures forall p | p in Flattened(ps) :: p != [LF] && p != [CR] && p != [TAB]
  {
    var a := WithoutPoint(ps, LF);
    var b := WithoutPoint(a, CR);
    WithoutWhole(ps, LF);
    assert CodePoints(a);
    WithoutWhole(a, CR);
    assert CodePoints(b);
    WithoutWhole(b, TAB);
  }

  /** The automatic name of a valid message is valid: at most twelve characters of it, with an
      ellipsis exactly when something was cut, and no line end or tab. */
  lemma {:induction false} AutoNameValid(ps: seq<Bytes>)
    requires CodePoints(ps)
    ensures AutoName(Flat(ps)) == Flat(AutoPoints(ps))
    ensures CodePoints(AutoPoints(ps)) && |AutoPoints(ps)| <= AUTO_CHARS + 1
    ensures [LF] !in AutoPoints(ps) && [CR] !in AutoPoints(ps) && [TAB] !in AutoPoints(ps)
  {
    var qs := Flattened(ps);
    FlattenedWhole(ps);
    TruncateKeepsAll(qs, AUTO_CHARS);
    if |qs| > AUTO_CHARS {
      TruncateValid(qs, AUTO_CHARS);
      FlatConcat(qs[..AUTO_CHARS], [ELLIPSIS]);
      assert Flat([ELLIPSIS]) == ELLIPSIS + Flat([ELLIPSIS][1..]) == ELLIPSIS;
      assert forall p | p in qs[..AUTO_CHARS] :: p in qs;
      assert CodePoint(ELLIPSIS);
    }
  }

  const DEFAULT_NAME: Bytes := [0xE6, 0x96, 0xB0, 0xE5, 0xAF, 0xB9, 0xE8, 0xAF, 0x9D]

  predicate AllSpaces(s: Bytes) {
    forall c | c in s :: c == SPACE
  }

  /** The name listed for a session without a custom one, from its first message. */
  function ListedName(message: Bytes): Bytes {
    if AllSpaces(AutoName(message)) then DEFAULT_NAME else AutoName(message)
  }

  method NameFromMessage(message: Bytes) returns (name: Bytes)
    ensures name == ListedName(message)
  {
    name := DEFAULT_NAME;
    var content := Without(message, LF);
    content := Without(content, CR);
    content := Without(content, TAB);
    var kept := Utf8TruncateToChars(content, 12);
    if kept < |content| {
      content := content[..kept] + ELLIPSIS;
    }
    if !AllSpaces(content) {
      name := content;
    }
  }

  const DEFAULT_POINTS: seq<Bytes> := [DEFAULT_NAME[..3], DEFAULT_NAME[3..6], DEFAULT_NAME[6..]]

  lemma DefaultNameValid()
    ensures CodePoints(DEFAULT_POINTS) && Flat(DEFAULT_POINTS) == DEFAULT_NAME && !AllSpaces(DEFAULT_NAME)
  {
    var a, b, c := DEFAULT_NAME[..3], DEFAULT_NAME[3..6], DEFAULT_NAME[6..];
    var ps := [a, b, c];
    assert CodePoint(a) && CodePoint(b) && CodePoint(c);
    assert ps[1..] == [b, c] && [b, c][1..] == [c] && [c][1..] == [];
    assert Flat([c]) == c + [] == c;
    assert Flat(ps) == a + (b + c);
    assert DEFAULT_NAME[0] in DEFAULT_NAME;
  }

  /** The listed name of a valid message is valid, never invisible, and at most twelve characters
      and an ellipsis long. */
  lemma ListedNameValid(ps: seq<Bytes>)
    requires CodePoints(ps)
    ensures var name := ListedName(Flat(ps));
            var points := if AllSpaces(AutoName(Flat(ps))) then DEFAULT_POINTS else AutoPoints(ps);
            name == Flat(points) && CodePoints(points) && !AllSpaces(name) && |points| <= AUTO_CHARS + 1
  {
    AutoNameValid(ps);
    DefaultNameValid();
  }
}

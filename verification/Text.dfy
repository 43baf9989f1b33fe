/** Byte strings and the library searches the server's C++ code relies on.
    A byte is a `char`; nothing below depends on an upper bound. */
module Text {
  datatype Option<+T> = None | Some(value: T)

  /** The bytes of several fragments, one after the other. */
  function Flatten(parts: seq<string>): string {
    if parts == [] then "" else parts[0] + Flatten(parts[1..])
  }

  lemma {:induction false} FlattenAppend(parts: seq<string>, last: string)
    ensures Flatten(parts + [last]) == Flatten(parts) + last
  {
    if parts == [] {
      assert parts + [last] == [last];
    } else {
      assert (parts + [last])[0] == parts[0] && (parts + [last])[1..] == parts[1..] + [last];
      FlattenAppend(parts[1..], last);
    }
  }

  lemma Regroup<T>(a: seq<T>, b: seq<T>, c: seq<T>)
    ensures (a + b) + c == a + (b + c)
  {
  }

  lemma TailsPermuted<T>(a: seq<T>, b: seq<T>)
    requires a != [] && b != [] && a[0] == b[0] && multiset(a) == multiset(b)
    ensures multiset(a[1..]) == multiset(b[1..])
  {
    assert a == [a[0]] + a[1..] && b == [b[0]] + b[1..];
    assert multiset(a[1..]) == multiset(a) - multiset{a[0]};
    assert multiset(b[1..]) == multiset(b) - multiset{b[0]};
  }

  predicate TailOf(rest: string, all: string) {
    |rest| <= |all| && rest == all[|all| - |rest|..]
  }

  lemma TailOfTail(a: string, b: string, c: string)
    requires TailOf(a, b) && TailOf(b, c)
    ensures TailOf(a, c)
  {
  }

  /** `string::find(c, from)`, with the length standing for `npos`. */
  function FindFrom(s: string, c: char, from: nat): (r: nat)
    requires from <= |s|
    ensures from <= r <= |s|
    ensures r < |s| ==> s[r] == c
    decreases |s| - from
  {
    if from == |s| || s[from] == c then from else FindFrom(s, c, from + 1)
  }

  lemma {:induction false} FindFromIsFirst(s: string, c: char, from: nat)
    requires from <= |s|
    ensures forall i | from <= i < FindFrom(s, c, from) :: s[i] != c
    decreases |s| - from
  {
    if from < |s| && s[from] != c {
      FindFromIsFirst(s, c, from + 1);
    }
  }

  /** `std::find`: the first index holding `c`, or the length. */
  function Find(s: string, c: char): (r: nat)
    ensures r <= |s|
    ensures r < |s| ==> s[r] == c
  {
    FindFrom(s, c, 0)
  }

  lemma FindIsFirst(s: string, c: char)
    ensures forall i | 0 <= i < Find(s, c) :: s[i] != c
  {
    FindFromIsFirst(s, c, 0);
  }

  /** A byte that does not occur before position `k` and does at `k` is found at `k`. */
  lemma FindAt(a: string, c: char, b: string)
    requires c !in a
    ensures Find(a + [c] + b, c) == |a|
  {
    var s := a + [c] + b;
    FindIsFirst(s, c);
    assert s[|a|] == c;
    assert forall i | 0 <= i < |a| :: s[i] == a[i];
  }

  lemma FindNone(s: string, c: char)
    requires c !in s
    ensures Find(s, c) == |s|
  {
    assert forall i | 0 <= i < |s| :: s[i] != c;
  }

  predicate CrlfAt(s: string, i: int) {
    0 <= i && i + 1 < |s| && s[i] == '\r' && s[i + 1] == '\n'
  }

  function FindCRLFFrom(s: string, from: nat): (r: nat)
    requires from <= |s|
    ensures from <= r <= |s|
    ensures r < |s| ==> CrlfAt(s, r)
    decreases |s| - from
  {
    if from == |s| || CrlfAt(s, from) then from else FindCRLFFrom(s, from + 1)
  }

  lemma {:induction false} FindCRLFFromIsFirst(s: string, from: nat)
    requires from <= |s|
    ensures forall i | from <= i < FindCRLFFrom(s, from) :: !CrlfAt(s, i)
    decreases |s| - from
  {
    if from < |s| && !CrlfAt(s, from) {
      FindCRLFFromIsFirst(s, from + 1);
    }
  }

  /** `Buffer::findCRLF`: where the first CR LF starts, or the length when there is none. */
  function FindCRLF(s: string): (r: nat)
    ensures r <= |s|
    ensures r < |s| ==> CrlfAt(s, r)
  {
    FindCRLFFrom(s, 0)
  }

  lemma FindCRLFIsFirst(s: string)
    ensures forall i | 0 <= i < FindCRLF(s) :: !CrlfAt(s, i)
  {
    FindCRLFFromIsFirst(s, 0);
  }

  /** More input never moves a line end that was already found. */
  lemma FindCRLFExtends(x: string, y: string)
    requires FindCRLF(x) < |x|
    ensures FindCRLF(x + y) == FindCRLF(x)
  {
    var r := FindCRLF(x);
    FindCRLFIsFirst(x);
    FindCRLFIsFirst(x + y);
    assert CrlfAt(x + y, r);
    assert forall i | 0 <= i < r :: CrlfAt(x + y, i) == CrlfAt(x, i);
  }

  lemma FindCRLFAt(line: string, rest: string)
    requires '\r' !in line
    ensures FindCRLF(line + "\r\n" + rest) == |line|
  {
    var s := line + "\r\n" + rest;
    FindCRLFIsFirst(s);
    assert CrlfAt(s, |line|);
    assert forall i | 0 <= i < |line| :: s[i] == line[i] && !CrlfAt(s, i);
  }

  /** The pieces of `s` between occurrences of `c`; always at least one. */
  function Split(s: string, c: char): (r: seq<string>)
    ensures |r| >= 1
    decreases |s|
  {
    var n := Find(s, c);
    if n == |s| then [s] else [s[..n]] + Split(s[n + 1..], c)
  }

  /** The pieces of `s` from position `prev` on, as a `find` loop meets them. */
  function PiecesFrom(s: string, c: char, prev: nat): seq<string>
    requires prev <= |s|
    decreases |s| - prev
  {
    var pos := FindFrom(s, c, prev);
    if pos == |s| then [s[prev..]] else [s[prev..pos]] + PiecesFrom(s, c, pos + 1)
  }

  lemma SplitAt(s: string, c: char, first: string, later: string)
    requires c !in first && s == first + [c] + later
    ensures Split(s, c) == [first] + Split(later, c)
  {
    FindAt(first, c, later);
    assert s[..|first|] == first && s[|first| + 1..] == later;
  }

  /** Pieces on both sides of a separator. */
  lemma {:induction false} SplitBoth(a: string, c: char, b: string)
    ensures Split(a + [c] + b, c) == Split(a, c) + Split(b, c)
    decreases |a|
  {
    var n := Find(a, c);
    FindIsFirst(a, c);
    if n == |a| {
      SplitAt(a + [c] + b, c, a, b);
    } else {
      var first, later := a[..n], a[n + 1..];
      assert a == first + [c] + later;
      assert a + [c] + b == first + [c] + (later + [c] + b);
      SplitAt(a + [c] + b, c, first, later + [c] + b);
      SplitBoth(later, c, b);
      Regroup([first], Split(later, c), Split(b, c));
    }
  }

  lemma PieceFound(s: string, c: char, prev: nat) returns (first: string)
    requires prev <= |s|
    ensures var pos := FindFrom(s, c, prev);
            && c !in first && first == s[prev..pos]
            && (pos < |s| ==> s[prev..] == first + [c] + s[pos + 1..])
  {
    FindFromIsFirst(s, c, prev);
    first := s[prev..FindFrom(s, c, prev)];
  }

  lemma NextPiece(s: string, c: char, prev: nat, pos: nat)
    requires prev <= |s| && pos == FindFrom(s, c, prev) < |s|
    requires PiecesFrom(s, c, pos + 1) == Split(s[pos + 1..], c)
    ensures PiecesFrom(s, c, prev) == Split(s[prev..], c)
  {
    var first := PieceFound(s, c, prev);
    SplitAt(s[prev..], c, first, s[pos + 1..]);
  }

  lemma {:induction false} PiecesAreSplit(s: string, c: char, prev: nat)
    requires prev <= |s|
    ensures PiecesFrom(s, c, prev) == Split(s[prev..], c)
    decreases |s| - prev
  {
    var pos := FindFrom(s, c, prev);
    if pos == |s| {
      var first := PieceFound(s, c, prev);
      FindNone(first, c);
    } else {
      PiecesAreSplit(s, c, pos + 1);
      NextPiece(s, c, prev, pos);
    }
  }

  function Join(parts: seq<string>, c: char): string
    requires |parts| >= 1
  {
    if |parts| == 1 then parts[0] else parts[0] + [c] + Join(parts[1..], c)
  }

  /** Splitting and joining are inverse when no piece holds the separator. */
  lemma {:induction false} SplitJoin(parts: seq<string>, c: char)
    requires |parts| >= 1
    requires forall p | p in parts :: c !in p
    ensures Split(Join(parts, c), c) == parts
  {
    var s := Join(parts, c);
    if |parts| == 1 {
      FindNone(s, c);
    } else {
      var rest := Join(parts[1..], c);
      FindAt(parts[0], c, rest);
      assert s[..|parts[0]|] == parts[0];
      assert s[|parts[0]| + 1..] == rest;
      SplitJoin(parts[1..], c);
    }
  }

  lemma {:induction false} JoinSplit(s: string, c: char)
    ensures Join(Split(s, c), c) == s
    ensures forall p | p in Split(s, c) :: c !in p
    decreases |s|
  {
    var n := Find(s, c);
    FindIsFirst(s, c);
    if n < |s| {
      JoinSplit(s[n + 1..], c);
      assert Split(s, c)[1..] == Split(s[n + 1..], c);
      assert s == s[..n] + [c] + s[n + 1..];
    }
  }

  /** C `isspace` in the default locale. */
  predicate IsSpace(c: char) {
    c == ' ' || '\t' <= c <= '\r'
  }

  function TrimLeft(s: string): string {
    if s != "" && IsSpace(s[0]) then TrimLeft(s[1..]) else s
  }

  function TrimRight(s: string): string {
    if s != "" && IsSpace(s[|s| - 1]) then TrimRight(s[..|s| - 1]) else s
  }

  predicate IsDigit(c: char) {
    '0' <= c <= '9'
  }

  function DigitsPrefix(s: string): (n: nat)
    ensures n <= |s|
    ensures forall i | 0 <= i < n :: IsDigit(s[i])
    ensures n < |s| ==> !IsDigit(s[n])
  {
    if s == "" || !IsDigit(s[0]) then 0 else 1 + DigitsPrefix(s[1..])
  }

  function DecimalValue(ds: string): nat
    requires forall i | 0 <= i < |ds| :: IsDigit(ds[i])
  {
    if ds == "" then 0
    else
      assert IsDigit(ds[|ds| - 1]);
      DecimalValue(ds[..|ds| - 1]) * 10 + (ds[|ds| - 1] as int - '0' as int)
  }

  const INT_MAX := 0x7fff_ffff
  const INT_MIN := -0x8000_0000

  /** `std::stoi`: blanks, an optional sign, then digits up to the first other byte.
      `None` is a thrown `invalid_argument` (no digit) or `out_of_range`. */
  function Stoi(s: string): (r: Option<int>)
    ensures r.Some? ==> INT_MIN <= r.value <= INT_MAX
  {
    var t := TrimLeft(s);
    var negative := t != "" && t[0] == '-';
    var u := if t != "" && (t[0] == '-' || t[0] == '+') then t[1..] else t;
    var n := DigitsPrefix(u);
    if n == 0 then None
    else
      var v: int := if negative then -(DecimalValue(u[..n]) as int) else DecimalValue(u[..n]);
      if INT_MIN <= v <= INT_MAX then Some(v) else None
  }

  /** `std::to_string` of a non-negative number. */
  function Decimal(n: nat): (s: string)
    ensures s != "" && forall i | 0 <= i < |s| :: IsDigit(s[i])
  {
    var digit := ['0' + (n % 10) as char];
    if n < 10 then digit else Decimal(n / 10) + digit
  }

  lemma {:induction false} DecimalRoundTrip(n: nat)
    ensures DecimalValue(Decimal(n)) == n
  {
    var s := Decimal(n);
    assert s[|s| - 1] == '0' + (n % 10) as char;
    if n >= 10 {
      assert s[..|s| - 1] == Decimal(n / 10);
      DecimalRoundTrip(n / 10);
    } else {
      assert s[..|s| - 1] == "";
    }
  }

  lemma DecimalInjective(m: nat, n: nat)
    requires Decimal(m) == Decimal(n)
    ensures m == n
  {
    DecimalRoundTrip(m);
    DecimalRoundTrip(n);
  }

  /** A length written by `to_string` is read back by `stoi` whenever it fits an `int`,
      and is refused (the exception) when it does not. */
  lemma StoiDecimal(n: nat)
    ensures Stoi(Decimal(n)) == if n <= INT_MAX then Some(n) else None
  {
    var s := Decimal(n);
    assert IsDigit(s[0]);
    assert TrimLeft(s) == s;
    assert s[..DigitsPrefix(s)] == s;
    DecimalRoundTrip(n);
  }
}

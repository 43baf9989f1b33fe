/** The INSERT statements the chat helper publishes, and a reader for them
    (MySQL 8.0 Reference Manual, section 9.1.1, with backslash escapes on). */
module Sql {
  import opened Text

  function EscapeChar(c: char): string {
    if c == '\\' then "\\\\"
    else if c == '\'' then "\\'"
    else if c == '"' then "\\\""
    else if c == '\n' then "\\n"
    else if c == '\r' then "\\r"
    else if c == '\t' then "\\t"
    else [c]
  }

  function Escape(s: string): string {
    if s == "" then "" else EscapeChar(s[0]) + Escape(s[1..])
  }

  method EscapeString(input: string) returns (output: string)
    ensures output == Escape(input)
  {
    output := "";
    assert input[0..] == input;
    for i := 0 to |input|
      invariant output + Escape(input[i..]) == Escape(input)
    {
      assert input[i..][1..] == input[i + 1..];
      assert output + (EscapeChar(input[i]) + Escape(input[i + 1..]))
          == output + EscapeChar(input[i]) + Escape(input[i + 1..]);
      var c := input[i];
      if c == '\\' {
        output := output + "\\\\";
      } else if c == '\'' {
        output := output + "\\'";
      } else if c == '"' {
        output := output + "\\\"";
      } else if c == '\n' {
        output := output + "\\n";
      } else if c == '\r' {
        output := output + "\\r";
      } else if c == '\t' {
        output := output + "\\t";
      } else {
        output := output + [c];
      }
    }
  }

  // ----- the server's reading of a quoted literal -----

  /** The character an escape sequence stands for; unknown ones stand for themselves. The two
      pattern escapes keep their backslash and are handled by the scanner. */
  function Unescaped(c: char): char {
    if c == '0' then 0 as char
    else if c == 'b' then 0x08 as char
    else if c == 'n' then '\n'
    else if c == 'r' then '\r'
    else if c == 't' then '\t'
    else if c == 'Z' then 0x1A as char
    else c
  }

  type Scanned = Option<(string, string)>

  function Prepend(text: string, r: Scanned): Scanned {
    match r
    case None => None
    case Some((more, rest)) => Some((text + more, rest))
  }

  /** Reads from just after an opening single quote; a doubled quote is one quote. */
  function ScanLiteral(s: string): Scanned
    decreases |s|
  {
    if s == "" then None
    else if s[0] == '\'' then
      if |s| >= 2 && s[1] == '\'' then Prepend("'", ScanLiteral(s[2..])) else Some(("", s[1..]))
    else if s[0] == '\\' then
      if |s| < 2 then None
      else if s[1] == '%' || s[1] == '_' then Prepend(s[..2], ScanLiteral(s[2..]))
      else Prepend([Unescaped(s[1])], ScanLiteral(s[2..]))
    else Prepend([s[0]], ScanLiteral(s[1..]))
  }

  lemma ScanEscapedChar(c: char, tail: string)
    ensures ScanLiteral(EscapeChar(c) + tail) == Prepend([c], ScanLiteral(tail))
  {
    var e := EscapeChar(c);
    var s := e + tail;
    assert s[|e|..] == tail && s[0] == e[0];
    if |e| == 2 {
      assert s[1] == e[1];
      if c == '\n' || c == '\r' || c == '\t' {
        assert Unescaped(s[1]) == c;
      } else {
        assert s[1] == c && Unescaped(c) == c;
      }
    } else {
      assert s[0] == c;
    }
  }

  /** The literal ends exactly at the quote after an escaped text and denotes the text, as long
      as the statement does not go on with another quote. */
  lemma {:induction false} ScanUndoesEscape(t: string, rest: string)
    requires rest == "" || rest[0] != '\''
    ensures ScanLiteral(Escape(t) + "'" + rest) == Some((t, rest))
  {
    if t != "" {
      var tail := Escape(t[1..]) + "'" + rest;
      assert Escape(t) + "'" + rest == EscapeChar(t[0]) + tail;
      ScanEscapedChar(t[0], tail);
      ScanUndoesEscape(t[1..], rest);
      assert [t[0]] + t[1..] == t;
    }
  }

  // ----- the session id -----

  const BIGINT_MAX := 0x7fff_ffff_ffff_ffff
  const BIGINT_MIN := -0x8000_0000_0000_0000

  predicate Digits(s: string) {
    s != "" && forall i | 0 <= i < |s| :: IsDigit(s[i])
  }

  function NumberOf(d: string): nat {
    if Digits(d) then DecimalValue(d) else 0
  }

  predicate IsSign(c: char) {
    c == '-' || c == '+'
  }

  /** How many bytes of a signed number stand at the front; zero when there is no digit. */
  function NumberPrefix(s: string): (n: nat)
    ensures n <= |s|
  {
    var sign := if s != "" && IsSign(s[0]) then 1 else 0;
    var n := DigitsPrefix(s[sign..]);
    if n == 0 then 0 else sign + n
  }

  /** A signed decimal number as an expression denotes it. */
  function SignedValue(number: string): int {
    if number != "" && number[0] == '-' then -(NumberOf(number[1..]) as int)
    else if number != "" && number[0] == '+' then NumberOf(number[1..])
    else NumberOf(number)
  }

  /** A number as the database prints it. */
  function IntText(v: int): string {
    if v < 0 then "-" + Decimal(-v) else Decimal(v)
  }

  /** The id is a decimal number, possibly signed: all the text is read as that one value. */
  predicate SignedDecimal(id: string) {
    id != "" && NumberPrefix(id) == |id|
  }

  /** What the BIGINT column gives back for a signed decimal number put into a statement: the
      number's own text, or nothing for one out of range, which is refused. */
  function ColumnText(id: string): Option<string> {
    if !SignedDecimal(id) then None
    else if BIGINT_MIN <= SignedValue(id) <= BIGINT_MAX then Some(IntText(SignedValue(id)))
    else None
  }

  /** The id is the text the column would print. */
  predicate Canonical(id: string) {
    ColumnText(id) == Some(id)
  }

  lemma DigitsWhole(d: string)
    requires Digits(d)
    ensures NumberPrefix(d) == |d| && SignedValue(d) == NumberOf(d)
  {
    assert d[0..] == d && IsDigit(d[0]);
  }

  /** Printing and reading a number are inverse. */
  lemma IntTextRoundTrip(v: int)
    ensures NumberPrefix(IntText(v)) == |IntText(v)| > 0 && SignedValue(IntText(v)) == v
  {
    var d := Decimal(if v < 0 then -v else v);
    NumberOfDecimal(if v < 0 then -v else v);
    DigitsWhole(d);
    if v < 0 {
      assert IntText(v)[1..] == d && IntText(v)[0] == '-';
    } else {
      assert IntText(v) == d;
    }
  }

  /** What comes out of the column goes in again unchanged. */
  lemma ColumnTextCanonical(id: string)
    ensures ColumnText(id).Some? ==> Canonical(ColumnText(id).value)
  {
    IntTextRoundTrip(SignedValue(id));
  }

  /** Two spellings of one number: the rows of session 007 come back as rows of session 7. */
  lemma LeadingZerosMerge()
    ensures ColumnText("007") == Some("7") == ColumnText("7")
  {
    assert Digits("7") && Digits("007");
    DigitsWhole("7");
    DigitsWhole("007");
    assert "7"[..0] == "" && "00"[..1] == "0" && "0"[..0] == "" && "007"[..2] == "00";
    assert DecimalValue("7") == 7;
    assert DecimalValue("0") == 0;
    assert DecimalValue("00") == 0;
    assert DecimalValue("007") == 7;
    assert Decimal(7) == "7";
  }

  // ----- whole statements -----

  /** A row of `chat_message`, with the session id as a text. */
  datatype Row = Row(userId: nat, userName: string, sessionId: string, isUser: bool, content: string, ts: nat)

  const HEAD := "INSERT INTO chat_message (id, username, session_id, is_user, content, ts) VALUES ("

  /** `pushMessageToMysql`: strings are quoted and escaped, the session id is put in bare. */
  function InsertStatement(r: Row): string {
    HEAD + (Decimal(r.userId) + (", '" + (Escape(r.userName) + "'" + (", " + (r.sessionId + AfterId(r))))))
  }

  /** From the separator behind the session id on. */
  function AfterId(r: Row): string {
    ", " + (Decimal(if r.isUser then 1 else 0) + (", '" + (Escape(r.content) + "'" + (", " + (Decimal(r.ts) + ")")))))
  }

  function Expect(s: string, prefix: string): Option<string> {
    if prefix <= s then Some(s[|prefix|..]) else None
  }

  function ScanDigits(s: string): Scanned {
    var n := DigitsPrefix(s);
    if n == 0 then None else Some((s[..n], s[n..]))
  }

  function ScanSigned(s: string): Scanned {
    var n := NumberPrefix(s);
    if n == 0 then None else Some((s[..n], s[n..]))
  }

  lemma DigitsTaken(d: string, rest: string)
    requires Digits(d) && (rest == "" || !IsDigit(rest[0]))
    ensures ScanDigits(d + rest) == Some((d, rest))
  {
    assert forall i | 0 <= i < |d| :: (d + rest)[i] == d[i];
    assert rest != "" ==> (d + rest)[|d|] == rest[0];
    assert (d + rest)[..|d|] == d && (d + rest)[|d|..] == rest;
  }

  lemma Expected(prefix: string, rest: string)
    ensures Expect(prefix + rest, prefix) == Some(rest)
  {
    assert (prefix + rest)[|prefix|..] == rest;
  }

  /** `", '" text "'"`: a separator and a quoted literal. */
  function ScanText(s: string): Scanned {
    match Expect(s, ", '")
    case None => None
    case Some(t) => ScanLiteral(t)
  }

  function ScanNumber(s: string): Scanned {
    match Expect(s, ", ")
    case None => None
    case Some(t) => ScanDigits(t)
  }

  lemma TextTaken(text: string, rest: string)
    requires rest == "" || rest[0] != '\''
    ensures ScanText(", '" + (Escape(text) + "'" + rest)) == Some((text, rest))
  {
    Expected(", '", Escape(text) + "'" + rest);
    ScanUndoesEscape(text, rest);
  }

  lemma NumberTaken(d: string, rest: string)
    requires Digits(d) && (rest == "" || !IsDigit(rest[0]))
    ensures ScanNumber(", " + (d + rest)) == Some((d, rest))
  {
    Expected(", ", d + rest);
    DigitsTaken(d, rest);
  }

  /** What a statement says behind the session id: sender, text, time and the closing bracket. */
  function ReadRest(s: string): Option<(bool, string, nat)> {
    match ScanNumber(s)
    case None => None
    case Some((flag, e)) => match ScanText(e)
      case None => None
      case Some((content, f)) => match ScanNumber(f)
        case None => None
        case Some((ts, end)) => if end == ")" then Some((NumberOf(flag) == 1, content, NumberOf(ts))) else None
  }

  /** The values from the session id on. */
  function ReadValues(s: string): Option<(string, bool, string, nat)> {
    match ScanSigned(s)
    case None => None
    case Some((id, d)) => match ReadRest(d)
      case None => None
      case Some((isUser, content, ts)) => Some((id, isUser, content, ts))
  }

  /** A statement of the plain form, with a signed decimal number for the session id, stores one
      row or is refused. What any other statement does is for the server's evaluation to say. */
  datatype Reading = Stores(row: Row) | Refused | NotPlain

  function ReadInsert(s: string): Reading {
    match Expect(s, HEAD)
    case None => NotPlain
    case Some(a) => match ScanDigits(a)
      case None => NotPlain
      case Some((userId, b)) => match ScanText(b)
        case None => NotPlain
        case Some((userName, c)) => match Expect(c, ", ")
          case None => NotPlain
          case Some(d) => match ReadValues(d)
            case None => NotPlain
            case Some((id, isUser, content, ts)) =>
              if ColumnText(id).None? then Refused
              else Stores(Row(NumberOf(userId), userName, ColumnText(id).value, isUser, content, ts))
  }

  lemma NumberOfDecimal(n: nat)
    ensures Digits(Decimal(n)) && NumberOf(Decimal(n)) == n
  {
    DecimalRoundTrip(n);
  }

  lemma RestRead(r: Row)
    ensures ReadRest(AfterId(r)) == Some((r.isUser, r.content, r.ts))
  {
    var flag := if r.isUser then 1 else 0;
    var f := ", " + (Decimal(r.ts) + ")");
    var e := ", '" + (Escape(r.content) + "'" + f);
    NumberOfDecimal(flag);
    NumberOfDecimal(r.ts);
    NumberTaken(Decimal(flag), e);
    TextTaken(r.content, f);
    NumberTaken(Decimal(r.ts), ")");
  }

  // ----- an id that is not a number -----

  lemma {:induction false} NoQuoteNoEnd(s: string)
    requires '\'' !in s
    ensures ScanLiteral(s) == None
    decreases |s|
  {
    if s != "" {
      if s[0] != '\\' {
        NoQuoteNoEnd(s[1..]);
      } else if |s| >= 2 {
        NoQuoteNoEnd(s[2..]);
      }
    }
  }

  /** What follows a literal is a tail of the text it was read from. */
  lemma {:induction false} LiteralLeaves(s: string)
    ensures ScanLiteral(s).Some? ==> TailOf(ScanLiteral(s).value.1, s)
    decreases |s|
  {
    if s != "" {
      if (s[0] == '\'' && |s| >= 2 && s[1] == '\'') || (s[0] == '\\' && |s| >= 2) {
        LiteralLeaves(s[2..]);
      } else if s[0] != '\'' && s[0] != '\\' {
        LiteralLeaves(s[1..]);
      }
    }
  }

  /** A quote behind a blank ends any literal that reaches it, unless it is doubled. */
  lemma {:induction false} QuoteEnds(a: string, w: string)
    requires w == "" || w[0] != '\'' || ScanLiteral(w[1..]) == None
    ensures var r := ScanLiteral(a + (" '" + w)); r.Some? ==> |r.value.1| >= |w|
    decreases |a|
  {
    var z := " '" + w;
    var s := a + z;
    assert z[1..] == "'" + w && z[2..] == w;
    if a == "" {
      assert s == z;
      QuoteAhead(w);
    } else if |a| == 1 {
      assert s[1..] == z && s[2..] == "'" + w;
      QuoteAhead(w);
      QuoteEnds("", w);
      assert "" + z == z;
    } else {
      assert s[0] == a[0] && s[1] == a[1];
      if a[0] == '\\' || (a[0] == '\'' && a[1] == '\'') {
        assert s[2..] == a[2..] + z;
        QuoteEnds(a[2..], w);
      } else if a[0] != '\'' {
        assert s[1..] == a[1..] + z;
        QuoteEnds(a[1..], w);
      }
    }
  }

  lemma QuoteAhead(w: string)
    requires w == "" || w[0] != '\'' || ScanLiteral(w[1..]) == None
    ensures var r := ScanLiteral("'" + w); r.Some? ==> r.value.1 == w
  {
    var s := "'" + w;
    assert s[1..] == w && (w != "" ==> s[2..] == w[1..]);
  }

  lemma {:induction false} DigitsStop(a: string, z: string)
    requires z != "" && !IsDigit(z[0])
    ensures DigitsPrefix(a + z) == DigitsPrefix(a)
  {
    if a == "" {
      assert a + z == z;
    } else {
      assert (a + z)[1..] == a[1..] + z;
      DigitsStop(a[1..], z);
    }
  }

  lemma NumberStops(id: string, z: string)
    requires z != "" && !IsDigit(z[0]) && !IsSign(z[0])
    ensures NumberPrefix(id + z) == NumberPrefix(id)
  {
    var s := id + z;
    DigitsStop(id, z);
    assert s[0..] == s && id[0..] == id;
    if id != "" {
      assert s[1..] == id[1..] + z;
      DigitsStop(id[1..], z);
    }
  }

  /** A pattern whose only comma is its first byte is met inside `a` or not before it. */
  lemma ExpectWithin(a: string, z: string, pattern: string)
    requires a != "" && z != "" && z[0] == ','
    requires forall i | 0 < i < |pattern| :: pattern[i] != ','
    ensures Expect(a + z, pattern)
            == if pattern <= a then Some(a[|pattern|..] + z) else None
  {
    assert (a + z)[|a|] == ',';
    if |a| < |pattern| {
      assert pattern[|a|] != ',';
    } else {
      assert (a + z)[..|pattern|] == a[..|pattern|];
      assert (a + z)[|pattern|..] == a[|pattern|..] + z;
    }
  }

  lemma NumberThenBracket(f: string)
    requires ScanNumber(f).Some? && ScanNumber(f).value.1 == ")"
    ensures '\'' !in f
  {
    var t := f[2..];
    var n := DigitsPrefix(t);
    assert f == ", " + (t[..n] + ")");
    assert forall i | 0 <= i < n :: t[..n][i] == t[i] && IsDigit(t[i]);
  }

  /** From the first letter of the message on. */
  function FromText(r: Row): string {
    Escape(r.content) + "'" + (", " + (Decimal(r.ts) + ")"))
  }

  lemma DecimalUnquoted(n: nat)
    ensures '\'' !in Decimal(n) && ',' !in Decimal(n)
  {
    assert forall i | 0 <= i < |Decimal(n)| :: IsDigit(Decimal(n)[i]);
  }

  lemma TextNotDoubled(r: Row)
    ensures var w := FromText(r); w[0] != '\'' || ScanLiteral(w[1..]) == None
  {
    var w, end := FromText(r), ", " + (Decimal(r.ts) + ")");
    if r.content == "" {
      DecimalUnquoted(r.ts);
      assert w == "'" + end && w[1..] == end;
      NoQuoteNoEnd(end);
    } else {
      assert w[0] == EscapeChar(r.content[0])[0];
    }
  }

  /** A literal opened inside the id runs into the message's own quotes. */
  lemma LiteralRunsOn(a: string, r: Row)
    ensures var f := ScanLiteral(a + AfterId(r));
            f.Some? ==> ScanNumber(f.value.1) == None || ScanNumber(f.value.1).value.1 != ")"
  {
    var flag, w := Decimal(if r.isUser then 1 else 0), FromText(r);
    var b := a + (", " + (flag + ","));
    var s := b + (" '" + w);
    assert AfterId(r) == ", " + (flag + (", '" + w));
    assert s == a + AfterId(r);
    TextNotDoubled(r);
    QuoteEnds(b, w);
    LiteralLeaves(s);
    if ScanLiteral(s).Some? {
      var f := ScanLiteral(s).value.1;
      assert w[|Escape(r.content)|] == '\'';
      assert f[|f| - |w| + |Escape(r.content)|] == '\'';
      if ScanNumber(f).Some? && ScanNumber(f).value.1 == ")" {
        NumberThenBracket(f);
        assert false;
      }
    }
  }

  /** A statement does not go on as the published ones do when anything but a number stood in
      the place of the id. */
  lemma BrokenRest(tail: string, r: Row)
    requires tail != ""
    ensures ReadRest(tail + AfterId(r)) == None
  {
    var z := AfterId(r);
    ExpectWithin(tail, z, ", ");
    if ", " <= tail {
      var t := tail[2..];
      var m := DigitsPrefix(t + z);
      DigitsStop(t, z);
      if m > 0 {
        var u := t[m..];
        assert (t + z)[m..] == u + z;
        if u == "" {
          assert u + z == z;
          assert z[2] == Decimal(if r.isUser then 1 else 0)[0];
          assert Expect(z, ", '") == None;
        } else {
          ExpectWithin(u, z, ", '");
          if ", '" <= u {
            LiteralRunsOn(u[3..], r);
          }
        }
      }
    }
  }

  /** The row as the table holds it: under the column's spelling of its session id. */
  function StoredRow(r: Row): Option<Row> {
    if ColumnText(r.sessionId).Some? then Some(r.(sessionId := ColumnText(r.sessionId).value)) else None
  }

  lemma ValuesRead(r: Row)
    ensures ReadValues(r.sessionId + AfterId(r))
            == if SignedDecimal(r.sessionId) then Some((r.sessionId, r.isUser, r.content, r.ts)) else None
  {
    var id, z := r.sessionId, AfterId(r);
    var n := NumberPrefix(id);
    NumberStops(id, z);
    assert (id + z)[..n] == id[..n] && (id + z)[n..] == id[n..] + z;
    if n == |id| {
      assert id[..n] == id && id[n..] + z == z;
      RestRead(r);
    } else {
      BrokenRest(id[n..], r);
    }
  }

  /** Whatever name and message contain: a row whose session id is a signed decimal number is stored
      under the column's spelling of it, or refused when out of range; with any other id the
      statement does not have the plain form at all. */
  lemma InsertStores(r: Row)
    ensures ReadInsert(InsertStatement(r))
            == if !SignedDecimal(r.sessionId) then NotPlain
               else if StoredRow(r).None? then Refused
               else Stores(StoredRow(r).value)
  {
    var d := r.sessionId + AfterId(r);
    var c := ", " + d;
    var b := ", '" + (Escape(r.userName) + "'" + c);
    var a := Decimal(r.userId) + b;
    assert InsertStatement(r) == HEAD + a;
    Expected(HEAD, a);
    NumberOfDecimal(r.userId);
    DigitsTaken(Decimal(r.userId), b);
    TextTaken(r.userName, c);
    Expected(", ", d);
    ValuesRead(r);
  }

  /** The very row is read back iff its session id is spelled as the column prints it; user name
      and message may contain anything. */
  lemma InsertRoundTrip(r: Row)
    ensures ReadInsert(InsertStatement(r)) == Stores(r) <==> Canonical(r.sessionId)
  {
    InsertStores(r);
    if Canonical(r.sessionId) {
      assert r.(sessionId := r.sessionId) == r;
    }
  }

  // ----- statements of any form -----

  /** What the server does with a statement whose session id is some other text: it evaluates the
      text as part of the statement, which may fail, or store any rows under any user. */
  type Evaluation = Row -> seq<Row>

  /** Whatever is stored went through the numeric column. */
  ghost predicate Numeric(eval: Evaluation) {
    forall r, x | x in eval(r) :: Canonical(x.sessionId)
  }

  /** The rows a published insert stores. */
  function RowsOf(eval: Evaluation, r: Row): seq<Row> {
    if !SignedDecimal(r.sessionId) then eval(r)
    else if StoredRow(r).Some? then [StoredRow(r).value]
    else []
  }

  /** Reading a statement gives exactly the rows it stores wherever it can be read. */
  lemma ReadingIsStoring(eval: Evaluation, r: Row)
    ensures match ReadInsert(InsertStatement(r))
            case Stores(row) => RowsOf(eval, r) == [row]
            case Refused => RowsOf(eval, r) == []
            case NotPlain => RowsOf(eval, r) == eval(r)
  {
    InsertStores(r);
  }
}

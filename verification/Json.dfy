/** The JSON string escaper of the stream handler and the reader that undoes it
    (RFC 8259, section 7). */
module Json {
  import opened Text

  const BACKSPACE := 0x08 as char
  const FORM_FEED := 0x0C as char

  function HexDigit(n: nat): char
    requires n < 16
  {
    if n < 10 then '0' + n as char else 'a' + (n - 10) as char
  }

  /** One byte of `escapeForJson`; only control bytes need the six-byte form. */
  function EscapeChar(c: char): string {
    if c == '"' then "\\\""
    else if c == '\\' then "\\\\"
    else if c == '\n' then "\\n"
    else if c == '\r' then "\\r"
    else if c == '\t' then "\\t"
    else if c == BACKSPACE then "\\b"
    else if c == FORM_FEED then "\\f"
    else if c as int < 0x20 then ['\\', 'u', '0', '0', HexDigit(c as int / 16), HexDigit(c as int % 16)]
    else [c]
  }

  function Escape(s: string): string {
    if s == "" then "" else EscapeChar(s[0]) + Escape(s[1..])
  }

  method EscapeForJson(s: string) returns (escaped: string)
    ensures escaped == Escape(s)
  {
    escaped := "";
    assert s[0..] == s;
    for i := 0 to |s|
      invariant escaped + Escape(s[i..]) == Escape(s)
    {
      assert s[i..][1..] == s[i + 1..];
      assert escaped + (EscapeChar(s[i]) + Escape(s[i + 1..]))
          == escaped + EscapeChar(s[i]) + Escape(s[i + 1..]);
      var c := s[i];
      if c == '"' {
        escaped := escaped + "\\\"";
      } else if c == '\\' {
        escaped := escaped + "\\\\";
      } else if c == '\n' {
        escaped := escaped + "\\n";
      } else if c == '\r' {
        escaped := escaped + "\\r";
      } else if c == '\t' {
        escaped := escaped + "\\t";
      } else if c == BACKSPACE {
        escaped := escaped + "\\b";
      } else if c == FORM_FEED {
        escaped := escaped + "\\f";
      } else if c as int < 0x20 {
        escaped := escaped + ['\\', 'u', '0', '0', HexDigit(c as int / 16), HexDigit(c as int % 16)];
      } else {
        escaped := escaped + [c];
      }
    }
  }

  // ----- the reader -----

  function HexValue(c: char): Option<nat> {
    if '0' <= c <= '9' then Some(c as int - '0' as int)
    else if 'a' <= c <= 'f' then Some(c as int - 'a' as int + 10)
    else if 'A' <= c <= 'F' then Some(c as int - 'A' as int + 10)
    else None
  }

  function HexNumber(s: string): Option<nat> {
    if s == "" then Some(0)
    else
      var n := |s| - 1;
      match (HexNumber(s[..n]), HexValue(s[n]))
      case (Some(hi), Some(lo)) => Some(hi * 16 + lo)
      case _ => None
  }

  function ShortEscape(c: char): Option<char> {
    if c == '"' || c == '\\' || c == '/' then Some(c)
    else if c == 'n' then Some('\n')
    else if c == 'r' then Some('\r')
    else if c == 't' then Some('\t')
    else if c == 'b' then Some(BACKSPACE)
    else if c == 'f' then Some(FORM_FEED)
    else None
  }

  type Scanned = Option<(string, string)>

  function Prepend(c: char, r: Scanned): Scanned {
    match r
    case None => None
    case Some((text, rest)) => Some(([c] + text, rest))
  }

  /** Reads a string from just after its opening quote: the decoded text and what follows the
      closing quote. Raw control bytes are errors. A six-byte escape is read when it names a
      character on its own; surrogate halves, which the escaper never writes, are refused. */
  function ScanString(s: string): Scanned
    decreases |s|
  {
    if s == "" then None
    else if s[0] == '"' then Some(("", s[1..]))
    else if s[0] as int < 0x20 then None
    else if s[0] != '\\' then Prepend(s[0], ScanString(s[1..]))
    else if |s| >= 6 && s[1] == 'u' then
      match HexNumber(s[2..6])
      case Some(n) => if n < 0xD800 || 0xE000 <= n < 0x1_0000 then Prepend(n as char, ScanString(s[6..])) else None
      case None => None
    else if |s| >= 2 then
      match ShortEscape(s[1])
      case Some(c) => Prepend(c, ScanString(s[2..]))
      case None => None
    else None
  }

  lemma HexPair(n: nat)
    requires n < 0x20
    ensures HexNumber(['0', '0', HexDigit(n / 16), HexDigit(n % 16)]) == Some(n)
  {
    var s := ['0', '0', HexDigit(n / 16), HexDigit(n % 16)];
    assert s[..3][..2][..1] == ['0'] && s[..3][..2] == ['0', '0'];
    assert HexNumber(['0'][..0]) == Some(0);
    assert HexNumber(s[..3][..2]) == Some(0);
    assert HexNumber(s[..3]) == Some(n / 16);
  }

  lemma ScanEscapedChar(c: char, tail: string)
    ensures ScanString(EscapeChar(c) + tail) == Prepend(c, ScanString(tail))
  {
    var e := EscapeChar(c);
    var s := e + tail;
    assert s[|e|..] == tail;
    if |e| == 6 {
      HexPair(c as int);
      assert s[2..6] == e[2..6];
    }
  }

  /** The reader stops exactly at the quote after an escaped text and gives the text back. */
  lemma {:induction false} ScanUndoesEscape(t: string, rest: string)
    ensures ScanString(Escape(t) + "\"" + rest) == Some((t, rest))
  {
    if t != "" {
      var tail := Escape(t[1..]) + "\"" + rest;
      assert Escape(t) + "\"" + rest == EscapeChar(t[0]) + tail;
      ScanEscapedChar(t[0], tail);
      ScanUndoesEscape(t[1..], rest);
      assert [t[0]] + t[1..] == t;
    }
  }

  predicate NoControl(s: string) {
    forall c | c in s :: c as int >= 0x20
  }

  /** Escaped text holds no control byte, so in particular no line end. */
  lemma {:induction false} EscapeNoControl(t: string)
    ensures NoControl(Escape(t))
  {
    if t != "" {
      EscapeNoControl(t[1..]);
      assert NoControl(EscapeChar(t[0]));
    }
  }

  /** Decoding never lengthens, and keeps the length only where nothing was escaped. */
  lemma {:induction false} ScanTight(s: string)
    ensures match ScanString(s)
            case None => true
            case Some((t, rest)) =>
              |t| + 1 + |rest| <= |s| && (|t| + 1 + |rest| == |s| ==> Plain(t))
    decreases |s|
  {
    if s != "" && s[0] != '"' {
      if s[0] != '\\' {
        ScanTight(s[1..]);
      } else if |s| >= 6 && s[1] == 'u' {
        ScanTight(s[6..]);
      } else if |s| >= 2 {
        ScanTight(s[2..]);
      }
    }
  }

  // ----- objects whose members are strings -----

  function SkipBlanks(s: string): (r: string)
    ensures |r| <= |s|
  {
    if s != "" && (s[0] == ' ' || s[0] == '\t' || s[0] == '\n' || s[0] == '\r') then SkipBlanks(s[1..]) else s
  }

  /** Drops blanks and then the token `c`. */
  function Token(s: string, c: char): (r: Option<string>)
    ensures r.Some? ==> |r.value| < |s|
  {
    var t := SkipBlanks(s);
    if t != "" && t[0] == c then Some(t[1..]) else None
  }

  function StringToken(s: string): Scanned {
    match Token(s, '"')
    case None => None
    case Some(t) => ScanString(t)
  }

  type Member = (string, string)

  /** `"key": "value"`, and what follows it. */
  function ParseMember(s: string): Option<(Member, string)> {
    match StringToken(s)
    case None => None
    case Some((key, b)) => match Token(b, ':')
      case None => None
      case Some(c) => match StringToken(c)
        case None => None
        case Some((value, d)) => Some(((key, value), d))
  }

  /** A member takes at least its four quotes and its colon. */
  lemma {:induction false} MemberLength(s: string)
    ensures match ParseMember(s)
            case None => true
            case Some((m, d)) => |m.0| + |m.1| + 5 + |d| <= |s|
  {
    if ParseMember(s).Some? {
      ScanTight(Token(s, '"').value);
      var b := StringToken(s).value.1;
      var c := Token(b, ':').value;
      ScanTight(Token(c, '"').value);
    }
  }

  /** Members separated by commas up to the closing brace, and what follows that. */
  function ParseMembers(s: string): Option<(seq<Member>, string)>
    decreases |s|, 1
  {
    match ParseMember(s)
    case None => None
    case Some((m, d)) => MemberLength(s); AfterMember(m, d)
  }

  function AfterMember(m: Member, d: string): Option<(seq<Member>, string)>
    decreases |d|, 2
  {
    if Token(d, ',').Some? then
      match ParseMembers(Token(d, ',').value)
      case None => None
      case Some((more, rest)) => Some(([m] + more, rest))
    else
      match Token(d, '}')
      case None => None
      case Some(e) => Some(([m], e))
  }

  function Ended(r: Option<(seq<Member>, string)>): Option<seq<Member>> {
    match r
    case None => None
    case Some((members, rest)) => if SkipBlanks(rest) == "" then Some(members) else None
  }

  /** `JSON.parse` on an object whose members are strings; the later of two members with one key
      wins, as `Get` looks them up. */
  function ParseObject(s: string): Option<seq<Member>> {
    match Token(s, '{')
    case None => None
    case Some(a) => if Token(a, '}').Some? then Ended(Some(([], Token(a, '}').value))) else Ended(ParseMembers(a))
  }

  /** A member that is missing reads like an empty one: both are falsy. */
  function Get(members: seq<Member>, key: string): string {
    if members == [] then ""
    else if members[|members| - 1].0 == key then members[|members| - 1].1
    else Get(members[..|members| - 1], key)
  }

  lemma {:induction false} GetIsMember(members: seq<Member>, key: string)
    ensures Get(members, key) != "" ==> (key, Get(members, key)) in members
  {
    if members != [] {
      var n := |members| - 1;
      if members[n].0 != key {
        GetIsMember(members[..n], key);
      } else {
        assert members[n] in members && members[n] == (key, members[n].1);
      }
    }
  }

  /** The bytes the members take at least, each with its comma or brace. */
  function Weight(members: seq<Member>): nat {
    if members == [] then 0 else |members[0].0| + |members[0].1| + 6 + Weight(members[1..])
  }

  lemma {:induction false} WeightOne(members: seq<Member>, m: Member)
    requires m in members
    ensures |m.0| + |m.1| + 6 * |members| <= Weight(members)
  {
    if m == members[0] {
      WeightMany(members[1..]);
    } else {
      WeightOne(members[1..], m);
    }
  }

  lemma {:induction false} WeightMany(members: seq<Member>)
    ensures 6 * |members| <= Weight(members)
  {
    if members != [] {
      WeightMany(members[1..]);
    }
  }

  lemma {:induction false} MembersLength(s: string)
    ensures match ParseMembers(s)
            case None => true
            case Some((members, rest)) => Weight(members) + |rest| <= |s|
    decreases |s|
  {
    if ParseMember(s).Some? {
      var (m, d) := ParseMember(s).value;
      MemberLength(s);
      if Token(d, ',').Some? {
        MembersLength(Token(d, ',').value);
        if ParseMembers(Token(d, ',').value).Some? {
          var more := ParseMembers(Token(d, ',').value).value.0;
          assert ([m] + more)[1..] == more;
        }
      } else {
        assert [m][1..] == [];
      }
    }
  }

  lemma {:induction false} ObjectLength(s: string)
    ensures ParseObject(s).Some? ==> Weight(ParseObject(s).value) + 1 <= |s|
  {
    if Token(s, '{').Some? {
      MembersLength(Token(s, '{').value);
    }
  }

  predicate Plain(s: string) {
    forall c | c in s :: c as int >= 0x20 && c != '"' && c != '\\'
  }

  function MemberText(key: string, raw: string): string {
    "{\"" + key + "\": \"" + raw + "\"}"
  }

  lemma {:induction false} EscapePlain(s: string)
    requires Plain(s)
    ensures Escape(s) == s
  {
    if s != "" {
      PlainTail(s);
      EscapePlain(s[1..]);
      assert EscapeChar(s[0]) + s[1..] == s;
    }
  }

  lemma PlainTail(s: string)
    requires Plain(s) && s != ""
    ensures Plain(s[1..]) && EscapeChar(s[0]) == [s[0]]
  {
    assert s[0] in s && forall c | c in s[1..] :: c in s;
  }

  lemma TokenFirst(c: char, t: string)
    requires c > ' '
    ensures Token([c] + t, c) == Some(t)
  {
    assert ([c] + t)[1..] == t;
  }

  lemma MemberHead(key: string, b: string)
    requires Plain(key)
    ensures Token("{\"" + key + "\"" + b, '{') == Some("\"" + key + "\"" + b)
    ensures StringToken("\"" + key + "\"" + b) == Some((key, b))
  {
    var t := key + "\"" + b;
    assert "\"" + key + "\"" + b == ['"'] + t;
    assert "{\"" + key + "\"" + b == ['{'] + (['"'] + t);
    TokenFirst('{', ['"'] + t);
    TokenFirst('"', t);
    EscapePlain(key);
    ScanUndoesEscape(key, b);
  }

  lemma MemberMiddle(c: string)
    ensures Token(": \"" + c, ':') == Some(" \"" + c)
    ensures StringToken(" \"" + c) == ScanString(c)
  {
    assert (": \"" + c)[1..] == " \"" + c;
    assert (" \"" + c)[1..] == "\"" + c && ("\"" + c)[1..] == c;
    assert SkipBlanks(" \"" + c) == "\"" + c;
  }

  /** With a plain key what is read depends only on how the value is scanned. */
  lemma {:induction false} ParseObjectText(key: string, raw: string)
    requires Plain(key)
    ensures ParseObject(MemberText(key, raw))
            == match ScanString(raw + "\"}")
               case None => None
               case Some((value, d)) => Ended(AfterMember((key, value), d))
  {
    var c := raw + "\"}";
    var a := "\"" + key + "\"" + (": \"" + c);
    assert MemberText(key, raw) == "{\"" + key + "\"" + (": \"" + c);
    MemberHead(key, ": \"" + c);
    MemberMiddle(c);
    NoBrace(a);
  }

  lemma {:induction false} NoBrace(a: string)
    requires a != "" && a[0] == '"'
    ensures Token(a, '}') == None
  {
  }

  lemma {:induction false} LastMember(m: Member)
    ensures Ended(AfterMember(m, "}")) == Some([m])
  {
    TokenFirst('}', "");
    assert ['}'] + "" == "}" && SkipBlanks("") == "" && SkipBlanks("}") == "}";
  }

  /** Parsing an escaped member gives back key and text. */
  lemma ParseEscapedMember(key: string, text: string)
    requires Plain(key)
    ensures ParseObject(MemberText(key, Escape(text))) == Some([(key, text)])
  {
    ParseObjectText(key, Escape(text));
    assert Escape(text) + "\"}" == Escape(text) + "\"" + "}";
    ScanUndoesEscape(text, "}");
    LastMember((key, text));
  }

  /** A text put into a member without escaping is read back iff it needs no escaping. */
  lemma {:induction false} RawMemberExactly(key: string, raw: string)
    requires Plain(key)
    ensures ParseObject(MemberText(key, raw)) == Some([(key, raw)]) <==> Plain(raw)
  {
    var data := MemberText(key, raw);
    ParseObjectText(key, raw);
    if Plain(raw) {
      EscapePlain(raw);
      ParseEscapedMember(key, raw);
    } else if ParseObject(data) == Some([(key, raw)]) {
      ScanTight(raw + "\"}");
      OnlyMember(key, raw);
    }
  }

  /** Reading back the raw text leaves room for nothing but the closing brace. */
  lemma {:induction false} OnlyMember(key: string, raw: string)
    requires Plain(key) && ParseObject(MemberText(key, raw)) == Some([(key, raw)])
    ensures ScanString(raw + "\"}").Some? && ScanString(raw + "\"}").value.0 == raw
    ensures ScanString(raw + "\"}").value.1 != ""
  {
    ParseObjectText(key, raw);
    var (value, d) := ScanString(raw + "\"}").value;
    if Token(d, ',').Some? && ParseMembers(Token(d, ',').value).Some? {
      var more := ParseMembers(Token(d, ',').value).value.0;
      assert ([(key, value)] + more)[0] == (key, value);
    }
  }

  /** A text with no quote keeps to its member: what follows the value is the closing brace. */
  lemma {:induction false} QuoteEnds(s: string)
    ensures match ScanString(s)
            case None => true
            case Some((_, rest)) => |rest| < |s| && s[|s| - |rest| - 1] == '"' && rest == s[|s| - |rest|..]
    decreases |s|
  {
    if s != "" && s[0] != '"' {
      if s[0] != '\\' {
        QuoteEnds(s[1..]);
      } else if |s| >= 6 && s[1] == 'u' {
        QuoteEnds(s[6..]);
      } else if |s| >= 2 {
        QuoteEnds(s[2..]);
      }
    }
  }

  lemma {:induction false} QuotelessMember(key: string, raw: string)
    requires Plain(key) && '"' !in raw
    ensures match ParseObject(MemberText(key, raw))
            case None => true
            case Some(members) => |members| == 1 && members[0].0 == key
  {
    var s := raw + "\"}";
    ParseObjectText(key, raw);
    QuoteEnds(s);
    if ScanString(s).Some? {
      var (value, rest) := ScanString(s).value;
      assert forall i | 0 <= i < |raw| :: s[i] == raw[i];
      assert rest == "}";
      LastMember((key, value));
    }
  }

  /** The value of the first member ended by a quote, and a second member behind it. */
  function TwoValues(first: string, key: string, text: string): string {
    first + "\", \"" + key + "\": \"" + Escape(text)
  }

  lemma {:induction false} TwoValuesText(first: string, key: string, text: string)
    ensures TwoValues(first, key, text) + "\"}"
            == first + "\"" + (", " + ("\"" + key + "\"" + (": \"" + (Escape(text) + "\"}"))))
  {
    var c := Escape(text) + "\"}";
    assert TwoValues(first, key, text) + "\"}" == first + "\", \"" + key + "\": \"" + c;
    assert first + "\", \"" == first + "\"" + (", " + "\"");
    assert "\": \"" + c == "\"" + (": \"" + c);
    Regroup(first + "\"" + (", " + "\""), key, "\"" + (": \"" + c));
  }

  lemma {:induction false} FirstValue(first: string, rest: string)
    requires Plain(first)
    ensures ScanString(first + "\"" + rest) == Some((first, rest))
  {
    EscapePlain(first);
    ScanUndoesEscape(first, rest);
  }

  /** An escaped text after a quote and a comma is a member of its own. */
  lemma {:induction false} SecondMember(first: string, key: string, text: string)
    requires Plain(first) && Plain(key)
    ensures ParseObject(MemberText("error", TwoValues(first, key, text))) == Some([("error", first), (key, text)])
  {
    var tail := "\"" + key + "\"" + (": \"" + (Escape(text) + "\"}"));
    var raw := TwoValues(first, key, text);
    TwoValuesText(first, key, text);
    ParseObjectText("error", raw);
    FirstValue(first, ", " + tail);
    MemberAlone(key, text, tail);
    assert SkipBlanks("") == "";
    CommaThen(("error", first), tail);
    assert [("error", first)] + [(key, text)] == [("error", first), (key, text)];
  }

  lemma {:induction false} MemberAlone(key: string, text: string, tail: string)
    requires Plain(key) && tail == "\"" + key + "\"" + (": \"" + (Escape(text) + "\"}"))
    ensures ParseMembers(" " + tail) == Some(([(key, text)], ""))
  {
    var c := Escape(text) + "\"}";
    assert c == Escape(text) + "\"" + "}";
    MemberHead(key, ": \"" + c);
    MemberMiddle(c);
    ScanUndoesEscape(text, "}");
    assert (" " + tail)[1..] == tail && SkipBlanks(" " + tail) == tail;
    assert ParseMember(" " + tail) == Some(((key, text), "}"));
    TokenFirst('}', "");
    assert ['}'] + "" == "}" && Token("}", ',') == None;
  }

  lemma {:induction false} CommaThen(m: Member, tail: string)
    requires ParseMembers(" " + tail).Some? && SkipBlanks(ParseMembers(" " + tail).value.1) == ""
    ensures Ended(AfterMember(m, ", " + tail)) == Some([m] + ParseMembers(" " + tail).value.0)
  {
    assert ", " + tail == [','] + (" " + tail);
    TokenFirst(',', " " + tail);
  }
}

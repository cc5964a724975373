/**
 The JSON line codec of the spool: one entry per line, written by the JSON
 serializer and read back by its deserializer (string escapes as in section 7
 of RFC 8259).

 The reader is a recursive-descent parser over what is left of the line. It
 accepts white space between tokens and every escape of RFC 8259; object keys
 come in the order the writer uses.
 */
module EntryJson {
  import opened Results
  import opened Text

  datatype Entry = Entry(seqNo: nat, adif: string, receivedAt: nat)

  /** What a parser made of the front of its input, and the input left over. */
  datatype Parsed<+T> = Fail | Parsed(value: T, rest: string) {
    predicate IsFailure() { Fail? }

    function PropagateFailure<U>(): Parsed<U>
      requires Fail?
    {
      Fail
    }

    function Extract(): (T, string)
      requires Parsed?
    {
      (value, rest)
    }
  }

  // ---------------------------------------------------------------- numbers

  /** An unsigned JSON integer: digits without a leading zero. */
  function ParseNumber(s: string): (r: Parsed<nat>)
    ensures r.Parsed? ==> |r.rest| < |s|
  {
    var k := DigitRun(s);
    if k == 0 || (k > 1 && s[0] == '0') then Fail
    else
      DigitRunDigits(s);
      Parsed(NumberValue(s[..k]), s[k..])
  }

  lemma NumberRoundTrip(n: nat, rest: string)
    requires rest == "" || !IsDigit(rest[0])
    ensures ParseNumber(Digits(n) + rest) == Parsed(n, rest)
  {
    DigitsRoundTrip(n);
    DigitRunOfRun(Digits(n), rest);
    assert (Digits(n) + rest)[..|Digits(n)|] == Digits(n);
    assert (Digits(n) + rest)[|Digits(n)|..] == rest;
  }

  // ---------------------------------------------------------------- strings

  function HexChar(d: nat): char
    requires d < 16
  {
    if d < 10 then (d + '0' as int) as char else (d - 10 + 'a' as int) as char
  }

  function HexValue(c: char): Option<nat> {
    if '0' <= c <= '9' then Some(c as int - '0' as int)
    else if 'a' <= c <= 'f' then Some(c as int - 'a' as int + 10)
    else if 'A' <= c <= 'F' then Some(c as int - 'A' as int + 10)
    else None
  }

  /** How the writer renders one character inside a string. */
  function EscapeChar(c: char): string {
    if c == '\"' then "\\\""
    else if c == '\\' then "\\\\"
    else if c as int == 8 then "\\b"
    else if c as int == 9 then "\\t"
    else if c as int == 10 then "\\n"
    else if c as int == 12 then "\\f"
    else if c as int == 13 then "\\r"
    else if c as int < 32 then "\\u00" + [HexChar(c as int / 16), HexChar(c as int % 16)]
    else [c]
  }

  function Escape(s: string): string {
    if s == "" then "" else EscapeChar(s[0]) + Escape(s[1..])
  }

  function ParseHex4(s: string): (r: Parsed<nat>)
    ensures r.Parsed? ==> |r.rest| + 4 == |s| && r.value < 0x10000
  {
    if |s| < 4 then Fail
    else
      match (HexValue(s[0]), HexValue(s[1]), HexValue(s[2]), HexValue(s[3]))
      case (Some(a), Some(b), Some(c), Some(d)) => Parsed(4096 * a + 256 * b + 16 * c + d, s[4..])
      case _ => Fail
  }

  /** The character after a backslash; `s` starts behind the backslash. */
  function ParseEscape(s: string): (r: Parsed<char>)
    ensures r.Parsed? ==> |r.rest| < |s|
  {
    if s == "" then Fail
    else if s[0] == '\"' || s[0] == '\\' || s[0] == '/' then Parsed(s[0], s[1..])
    else if s[0] == 'b' then Parsed(8 as char, s[1..])
    else if s[0] == 'f' then Parsed(12 as char, s[1..])
    else if s[0] == 'n' then Parsed('\n', s[1..])
    else if s[0] == 'r' then Parsed('\r', s[1..])
    else if s[0] == 't' then Parsed('\t', s[1..])
    else if s[0] == 'u' then ParseUnicodeEscape(s)
    else Fail
  }

  /** Behind `\u`: a plain code unit, or a surrogate pair spread over two escapes. */
  function ParseUnicodeEscape(s: string): (r: Parsed<char>)
    requires s != "" && s[0] == 'u'
    ensures r.Parsed? ==> |r.rest| < |s|
  {
    var (hi, rest) :- ParseHex4(s[1..]);
    if hi < 0xD800 || 0xE000 <= hi then Parsed(hi as char, rest)
    else if hi >= 0xDC00 || |rest| < 2 || rest[0] != '\\' || rest[1] != 'u' then Fail
    else
      var (lo, rest') :- ParseHex4(rest[2..]);
      if lo < 0xDC00 || 0xE000 <= lo then Fail
      else Parsed((0x10000 + (hi - 0xD800) * 0x400 + (lo - 0xDC00)) as char, rest')
  }

  /** The rest of a string, from behind its opening quote through its closing quote. */
  function ParseString(s: string): (r: Parsed<string>)
    decreases |s|
  {
    if s == "" || s[0] as int < 32 then Fail
    else if s[0] == '\"' then Parsed("", s[1..])
    else if s[0] == '\\' then
      var (c, afterEscape) :- ParseEscape(s[1..]);
      var (text, rest) :- ParseString(afterEscape);
      Parsed([c] + text, rest)
    else
      var (text, rest) :- ParseString(s[1..]);
      Parsed([s[0]] + text, rest)
  }

  lemma EscapeCharParses(c: char, t: string)
    requires c as int < 32 || c == '\"' || c == '\\'
    ensures EscapeChar(c)[0] == '\\'
    ensures ParseEscape((EscapeChar(c) + t)[1..]) == Parsed(c, t)
  {
    var e := EscapeChar(c);
    assert (e + t)[1..] == e[1..] + t;
    if |e| == 2 {
      assert (e[1..] + t)[1..] == t;
    } else {
      assert (e[1..] + t)[1..] == e[2..] + t;
      assert (e[2..] + t)[4..] == t;
    }
  }

  lemma {:induction false} StringRoundTrip(s: string, t: string)
    ensures ParseString(Escape(s) + "\"" + t) == Parsed(s, t)
  {
    if s == "" {
      assert Escape(s) + "\"" + t == "\"" + t;
    } else {
      var tail := Escape(s[1..]) + "\"" + t;
      assert Escape(s) + "\"" + t == EscapeChar(s[0]) + tail;
      StringRoundTrip(s[1..], t);
      if s[0] as int < 32 || s[0] == '\"' || s[0] == '\\' {
        EscapeCharParses(s[0], tail);
      } else {
        assert ([s[0]] + tail)[1..] == tail;
      }
      assert s == [s[0]] + s[1..];
    }
  }

  // ---------------------------------------------------------------- entries

  predicate IsJsonSpace(c: char) { c == ' ' || c == '\t' || c == '\n' || c == '\r' }

  function SkipSpace(s: string): (r: string)
    ensures |r| <= |s|
    ensures r != "" ==> !IsJsonSpace(r[0])
  {
    if s != "" && IsJsonSpace(s[0]) then SkipSpace(s[1..]) else s
  }

  /** Skip white space, then the literal token. */
  function Expect(token: string, s: string): (r: Parsed<()>)
    requires token != ""
  {
    var t := SkipSpace(s);
    if token <= t then Parsed((), t[|token|..]) else Fail
  }

  function ExpectAll(tokens: seq<string>, s: string): (r: Parsed<()>)
    requires "" !in tokens
  {
    if tokens == [] then Parsed((), s)
    else
      var (_, rest) :- Expect(tokens[0], s);
      ExpectAll(tokens[1..], rest)
  }

  const UP_TO_SEQ := ["{", "\"seq\"", ":"]
  const UP_TO_ADIF := [",", "\"adif\"", ":", "\""]
  const UP_TO_RECEIVED_AT := [",", "\"received_at\"", ":"]
  const CLOSING := ["}"]

  /** An object whose fixed text is the four token lists. */
  function ParseShape(s: string, upToSeq: seq<string>, upToAdif: seq<string>, upToReceivedAt: seq<string>,
                      closing: seq<string>): Parsed<Entry>
    requires "" !in upToSeq && "" !in upToAdif && "" !in upToReceivedAt && "" !in closing
  {
    var (_, s1) :- ExpectAll(upToSeq, s);
    var (seqNo, s2) :- ParseNumber(SkipSpace(s1));
    var (_, s3) :- ExpectAll(upToAdif, s2);
    var (adif, s4) :- ParseString(s3);
    var (_, s5) :- ExpectAll(upToReceivedAt, s4);
    var (receivedAt, s6) :- ParseNumber(SkipSpace(s5));
    var (_, s7) :- ExpectAll(closing, s6);
    Parsed(Entry(seqNo, adif, receivedAt), s7)
  }

  function ParseObject(s: string): Parsed<Entry> {
    ParseShape(s, UP_TO_SEQ, UP_TO_ADIF, UP_TO_RECEIVED_AT, CLOSING)
  }

  /** Decode one line: an object and nothing but white space behind it. */
  function DecodeLine(line: string): Option<Entry> {
    match ParseObject(line)
    case Parsed(e, rest) => if SkipSpace(rest) == "" then Some(e) else None
    case Fail => None
  }

  function EncodeLine(e: Entry): string {
    "{\"seq\":" + Digits(e.seqNo) + ",\"adif\":\"" + Escape(e.adif) + "\"" + ",\"received_at\":"
    + Digits(e.receivedAt) + "}"
  }

  // ------------------------------------------------------------- other spellings

  /** Text without control characters, quotes and backslashes is written as it is, whatever its alphabet. */
  lemma {:induction false} PlainTextIsVerbatim(s: string)
    requires forall i :: 0 <= i < |s| ==> s[i] as int >= 32 && s[i] != '\"' && s[i] != '\\'
    ensures Escape(s) == s
  {
    if s != "" {
      PlainTextIsVerbatim(s[1..]);
      assert s == [s[0]] + s[1..];
    }
  }

  /** The escapes the reader takes besides those the writer uses. */
  lemma EscapesRead(t: string)
    ensures ParseEscape("\"" + t) == Parsed('\"', t) && ParseEscape("\\" + t) == Parsed('\\', t)
    ensures ParseEscape("/" + t) == Parsed('/', t)
    ensures ParseEscape("b" + t) == Parsed(8 as char, t) && ParseEscape("t" + t) == Parsed(9 as char, t)
    ensures ParseEscape("n" + t) == Parsed(10 as char, t) && ParseEscape("f" + t) == Parsed(12 as char, t)
    ensures ParseEscape("r" + t) == Parsed(13 as char, t)
    ensures ParseEscape("x" + t) == Fail && ParseEscape("") == Fail
  {
    hide ParseUnicodeEscape;
    assert ("\"" + t)[1..] == t && ("\\" + t)[1..] == t && ("/" + t)[1..] == t && ("b" + t)[1..] == t;
    assert ("t" + t)[1..] == t && ("n" + t)[1..] == t && ("f" + t)[1..] == t && ("r" + t)[1..] == t;
  }

  /** Four hexadecimal digits. */
  function Hex4(n: nat): (h: string)
    requires n < 0x1_0000
    ensures |h| == 4
  {
    [HexChar(n / 0x1000), HexChar(n / 0x100 % 0x10), HexChar(n / 0x10 % 0x10), HexChar(n % 0x10)]
  }

  lemma HexDigits(d: nat)
    requires d < 16
    ensures HexValue(HexChar(d)) == Some(d)
    ensures d >= 10 ==> HexValue((d - 10 + 65) as char) == Some(d) && HexValue((d - 10 + 97) as char) == Some(d)
    ensures HexValue('G') == HexValue('g') == HexValue('/') == HexValue(':') == HexValue('@') == HexValue('`') == None
  {
  }

  lemma Hex4Reads(n: nat, t: string)
    requires n < 0x1_0000
    ensures ParseHex4(Hex4(n) + t) == Parsed(n, t)
  {
    hide HexChar, HexValue;
    HexDigits(n / 0x1000);
    HexDigits(n / 0x100 % 0x10);
    HexDigits(n / 0x10 % 0x10);
    HexDigits(n % 0x10);
    assert (Hex4(n) + t)[4..] == t;
    var a, b, c := n / 0x10, n / 0x100, n / 0x1000;
    assert b == a / 0x10 && c == b / 0x10;
  }

  /** A code unit that is no half of a pair is a character; a half alone is none. */
  lemma UnicodeEscapeReads(n: nat, t: string)
    requires n < 0x1_0000
    ensures n < 0xD800 || n >= 0xE000 ==> ParseUnicodeEscape("u" + Hex4(n) + t) == Parsed(n as char, t)
    ensures 0xD800 <= n < 0xE000 && !("\\u" <= t) ==> ParseUnicodeEscape("u" + Hex4(n) + t) == Fail
    ensures 0xDC00 <= n < 0xE000 ==> ParseUnicodeEscape("u" + Hex4(n) + t) == Fail
  {
    hide ParseHex4, Hex4;
    Hex4Reads(n, t);
    assert ("u" + Hex4(n) + t)[1..] == Hex4(n) + t;
    assert |t| >= 2 && t[0] == '\\' && t[1] == 'u' ==> t[..2] == "\\u";
  }

  /** Every character above U+FFFF reads from its surrogate pair. */
  lemma SurrogatePairReads(n: nat, t: string)
    requires 0x1_0000 <= n < 0x11_0000
    ensures var hi, lo := 0xD800 + (n - 0x1_0000) / 0x400, 0xDC00 + (n - 0x1_0000) % 0x400;
            ParseUnicodeEscape("u" + Hex4(hi) + ("\\u" + Hex4(lo) + t)) == Parsed(n as char, t)
  {
    hide ParseHex4, Hex4;
    var hi, lo := 0xD800 + (n - 0x1_0000) / 0x400, 0xDC00 + (n - 0x1_0000) % 0x400;
    var second := "\\u" + Hex4(lo) + t;
    Hex4Reads(hi, second);
    Hex4Reads(lo, t);
    assert ("u" + Hex4(hi) + second)[1..] == Hex4(hi) + second;
    assert second[2..] == Hex4(lo) + t && second[0] == '\\' && second[1] == 'u';
  }

  /** White space in front of a token is skipped: spaces, tabs, line feeds and carriage returns. */
  lemma {:induction false} SpaceIsSkipped(space: string, token: string, t: string)
    requires forall i :: 0 <= i < |space| ==>
               space[i] == ' ' || space[i] == '\t' || space[i] == '\n' || space[i] == '\r'
    requires token != "" && !IsJsonSpace(token[0])
    ensures Expect(token, space + token + t) == Parsed((), t)
  {
    if space == "" {
      assert space + token + t == token + t;
      assert SkipSpace(token + t) == token + t;
    } else {
      assert (space + token + t)[1..] == space[1..] + token + t;
      SpaceIsSkipped(space[1..], token, t);
    }
  }

  /** A number has no sign and no leading zero; a string has no raw control character. */
  lemma NotJson(t: string, c: char)
    requires c as int < 32
    ensures ParseNumber("-1" + t) == ParseNumber("+1" + t) == ParseNumber("01" + t) == ParseNumber("") == Fail
    ensures ParseString([c] + t) == Fail && ParseString("") == Fail
  {
    assert ("01" + t)[0] == '0' && ("01" + t)[1..][0] == '1';
    assert DigitRun(("01" + t)[1..]) >= 1;
    assert ("-1" + t)[0] == '-' && ("+1" + t)[0] == '+';
  }

  // ------------------------------------------------------------- round trip

  function Join(tokens: seq<string>): string {
    if tokens == [] then "" else tokens[0] + Join(tokens[1..])
  }

  lemma {:induction false} TokensParse(tokens: seq<string>, t: string)
    requires forall k :: k in tokens ==> k != "" && !IsJsonSpace(k[0])
    ensures ExpectAll(tokens, Join(tokens) + t) == Parsed((), t)
  {
    if tokens == [] {
      assert Join(tokens) + t == t;
    } else {
      var rest := Join(tokens[1..]) + t;
      assert Join(tokens) + t == tokens[0] + rest;
      assert (tokens[0] + rest)[|tokens[0]|..] == rest;
      assert forall k :: k in tokens[1..] ==> k in tokens;
      TokensParse(tokens[1..], t);
    }
  }

  lemma Reassociate(a: string, b: string, c: string, d: string, q: string, f: string, g: string, h: string, t: string)
    ensures a + b + c + d + q + f + g + h + t == a + (b + (c + (d + q + (f + (g + (h + t))))))
  {
  }

  lemma StartAndEnd(a: string, b: string, c: string, d: string, q: string, f: string, g: string, h: string)
    requires a != "" && h != ""
    ensures a <= a + b + c + d + q + f + g + h
    ensures var l := a + b + c + d + q + f + g + h; l[|l| - 1] == h[|h| - 1]
  {
  }

  lemma LineLayout(e: Entry)
    ensures "{\"s" <= EncodeLine(e)
    ensures EncodeLine(e)[|EncodeLine(e)| - 1] == '}'
  {
    var open := "{\"seq\":";
    StartAndEnd(open, Digits(e.seqNo), ",\"adif\":\"", Escape(e.adif), "\"", ",\"received_at\":",
                Digits(e.receivedAt), "}");
    assert "{\"s" <= open;
  }

  lemma NumberThenToken(n: nat, rest: string)
    requires rest == "" || !IsDigit(rest[0])
    ensures ParseNumber(SkipSpace(Digits(n) + rest)) == Parsed(n, rest)
  {
    DigitsRoundTrip(n);
    assert (Digits(n) + rest)[0] == Digits(n)[0] && Digits(n)[0] in Digits(n);
    NumberRoundTrip(n, rest);
  }

  /** Where the parser stands in an encoded line with `t` behind it: in front of the second number, ... */
  function FromReceivedAt(e: Entry, t: string): string { Digits(e.receivedAt) + (Join(CLOSING) + t) }

  /** ... behind the quote that opens the ADIF, ... */
  function FromAdif(e: Entry, t: string): string {
    Escape(e.adif) + "\"" + (Join(UP_TO_RECEIVED_AT) + FromReceivedAt(e, t))
  }

  /** ... and in front of the first number. */
  function FromSeq(e: Entry, t: string): string { Digits(e.seqNo) + (Join(UP_TO_ADIF) + FromAdif(e, t)) }

  lemma LineIsJoined(e: Entry, t: string)
    ensures EncodeLine(e) + t == Join(UP_TO_SEQ) + FromSeq(e, t)
  {
    LiteralsAreTokens();
    Reassociate(Join(UP_TO_SEQ), Digits(e.seqNo), Join(UP_TO_ADIF), Escape(e.adif), "\"", Join(UP_TO_RECEIVED_AT),
                Digits(e.receivedAt), Join(CLOSING), t);
  }

  lemma SeqParses(e: Entry, t: string)
    ensures ParseNumber(SkipSpace(FromSeq(e, t))) == Parsed(e.seqNo, Join(UP_TO_ADIF) + FromAdif(e, t))
  {
    LiteralsAreTokens();
    NumberThenToken(e.seqNo, Join(UP_TO_ADIF) + FromAdif(e, t));
  }

  lemma AdifParses(e: Entry, t: string)
    ensures ParseString(FromAdif(e, t)) == Parsed(e.adif, Join(UP_TO_RECEIVED_AT) + FromReceivedAt(e, t))
  {
    StringRoundTrip(e.adif, Join(UP_TO_RECEIVED_AT) + FromReceivedAt(e, t));
  }

  lemma ReceivedAtParses(e: Entry, t: string)
    ensures ParseNumber(SkipSpace(FromReceivedAt(e, t))) == Parsed(e.receivedAt, Join(CLOSING) + t)
  {
    LiteralsAreTokens();
    NumberThenToken(e.receivedAt, Join(CLOSING) + t);
  }

  /** Reading back what was written yields the entry and leaves what follows it alone. */
  lemma ObjectRoundTrip(e: Entry, t: string)
    ensures ParseObject(EncodeLine(e) + t) == Parsed(e, t)
  {
    LineIsJoined(e, t);
    UpToSeqParses(FromSeq(e, t));
    UpToAdifParses(FromAdif(e, t));
    UpToReceivedAtParses(FromReceivedAt(e, t));
    ClosingParses(t);
    ShapeParses(EncodeLine(e) + t, UP_TO_SEQ, UP_TO_ADIF, UP_TO_RECEIVED_AT, CLOSING, e, t);
  }

  lemma ShapeParses(s: string, upToSeq: seq<string>, upToAdif: seq<string>, upToReceivedAt: seq<string>,
                    closing: seq<string>, e: Entry, t: string)
    requires "" !in upToSeq && "" !in upToAdif && "" !in upToReceivedAt && "" !in closing
    requires ExpectAll(upToSeq, s) == Parsed((), FromSeq(e, t))
    requires ExpectAll(upToAdif, Join(UP_TO_ADIF) + FromAdif(e, t)) == Parsed((), FromAdif(e, t))
    requires ExpectAll(upToReceivedAt, Join(UP_TO_RECEIVED_AT) + FromReceivedAt(e, t))
          == Parsed((), FromReceivedAt(e, t))
    requires ExpectAll(closing, Join(CLOSING) + t) == Parsed((), t)
    ensures ParseShape(s, upToSeq, upToAdif, upToReceivedAt, closing) == Parsed(e, t)
  {
    SeqParses(e, t);
    AdifParses(e, t);
    ReceivedAtParses(e, t);
  }

  lemma UpToSeqParses(t: string)
    ensures ExpectAll(UP_TO_SEQ, Join(UP_TO_SEQ) + t) == Parsed((), t)
  {
    TokensParse(UP_TO_SEQ, t);
  }

  lemma UpToAdifParses(t: string)
    ensures ExpectAll(UP_TO_ADIF, Join(UP_TO_ADIF) + t) == Parsed((), t)
  {
    TokensParse(UP_TO_ADIF, t);
  }

  lemma UpToReceivedAtParses(t: string)
    ensures ExpectAll(UP_TO_RECEIVED_AT, Join(UP_TO_RECEIVED_AT) + t) == Parsed((), t)
  {
    TokensParse(UP_TO_RECEIVED_AT, t);
  }

  lemma ClosingParses(t: string)
    ensures ExpectAll(CLOSING, Join(CLOSING) + t) == Parsed((), t)
  {
    TokensParse(CLOSING, t);
  }

  lemma LiteralsAreTokens()
    ensures Join(UP_TO_SEQ) == "{\"seq\":"
    ensures Join(UP_TO_ADIF) == ",\"adif\":\""
    ensures Join(UP_TO_RECEIVED_AT) == ",\"received_at\":"
    ensures Join(CLOSING) == "}"
  {
  }

  lemma LineRoundTrip(e: Entry)
    ensures DecodeLine(EncodeLine(e)) == Some(e)
  {
    ObjectRoundTrip(e, "");
    assert EncodeLine(e) + "" == EncodeLine(e);
  }

  lemma {:induction false} SpaceGoes(space: string, t: string)
    requires forall i :: 0 <= i < |space| ==> IsJsonSpace(space[i])
    requires t == "" || !IsJsonSpace(t[0])
    ensures SkipSpace(space + t) == t
  {
    if space == "" {
      assert space + t == t;
    } else {
      assert (space + t)[1..] == space[1..] + t;
      SpaceGoes(space[1..], t);
    }
  }

  /** White space behind a line does no harm, and anything else behind it does. */
  lemma BehindLine(e: Entry, space: string, c: char, t: string)
    requires forall i :: 0 <= i < |space| ==> IsJsonSpace(space[i])
    requires !IsJsonSpace(c)
    ensures DecodeLine(EncodeLine(e) + space) == Some(e)
    ensures DecodeLine(EncodeLine(e) + space + ([c] + t)) == None
  {
    hide ParseObject, EncodeLine;
    ObjectRoundTrip(e, space);
    ObjectRoundTrip(e, space + ([c] + t));
    assert EncodeLine(e) + space + ([c] + t) == EncodeLine(e) + (space + ([c] + t));
    SpaceGoes(space, "");
    assert space + "" == space;
    SpaceGoes(space, [c] + t);
  }

  predicate Printable(s: string) { forall c :: c in s ==> 32 <= c as int }

  lemma {:induction false} EscapeIsPrintable(s: string)
    ensures Printable(Escape(s))
  {
    if s != "" {
      EscapeIsPrintable(s[1..]);
    }
  }

  lemma DigitsArePrintable(n: nat)
    ensures Printable(Digits(n))
  {
    DigitsRoundTrip(n);
  }

  lemma PrintableJoins(a: string, b: string, c: string)
    requires Printable(a) && Printable(b) && Printable(c)
    ensures Printable(a + b + c)
  {
  }

  /** No control character, hence neither `\n` nor `\r`, occurs in an encoded line. */
  lemma LineIsPrintable(e: Entry)
    ensures Printable(EncodeLine(e))
  {
    DigitsArePrintable(e.seqNo);
    DigitsArePrintable(e.receivedAt);
    EscapeIsPrintable(e.adif);
    PrintableJoins("{\"seq\":", Digits(e.seqNo), ",\"adif\":\"");
    var front := "{\"seq\":" + Digits(e.seqNo) + ",\"adif\":\"";
    PrintableJoins(front, Escape(e.adif), "\"");
    PrintableJoins(front + Escape(e.adif) + "\"", ",\"received_at\":", Digits(e.receivedAt));
    PrintableJoins(front + Escape(e.adif) + "\"" + ",\"received_at\":" + Digits(e.receivedAt), "}", "");
    assert EncodeLine(e) + "" == EncodeLine(e);
  }

  // ------------------------------------------- a parse does not look past its end

  lemma SkipSpaceExtends(s: string, t: string)
    requires SkipSpace(s) != ""
    ensures SkipSpace(s + t) == SkipSpace(s) + t
  {
    if IsJsonSpace(s[0]) {
      assert (s + t)[1..] == s[1..] + t;
      SkipSpaceExtends(s[1..], t);
    }
  }

  lemma {:induction false} TokensExtend(tokens: seq<string>, s: string, t: string)
    requires "" !in tokens
    requires ExpectAll(tokens, s).Parsed?
    ensures ExpectAll(tokens, s + t) == Parsed((), ExpectAll(tokens, s).rest + t)
  {
    if tokens != [] {
      SkipSpaceExtends(s, t);
      var u := SkipSpace(s);
      assert tokens[0] <= u + t;
      assert (u + t)[|tokens[0]|..] == u[|tokens[0]|..] + t;
      TokensExtend(tokens[1..], Expect(tokens[0], s).rest, t);
    }
  }

  lemma NumberExtends(s: string, t: string)
    requires ParseNumber(s).Parsed? && ParseNumber(s).rest != ""
    ensures ParseNumber(s + t) == Parsed(ParseNumber(s).value, ParseNumber(s).rest + t)
  {
    DigitRunExtends(s, t);
    var k := DigitRun(s);
    assert (s + t)[..k] == s[..k];
    assert (s + t)[k..] == s[k..] + t;
  }

  lemma HexExtends(s: string, t: string)
    requires ParseHex4(s).Parsed?
    ensures ParseHex4(s + t) == Parsed(ParseHex4(s).value, ParseHex4(s).rest + t)
  {
    assert (s + t)[4..] == s[4..] + t;
  }

  lemma UnicodeEscapeExtends(s: string, t: string)
    requires s != "" && s[0] == 'u' && ParseUnicodeEscape(s).Parsed?
    ensures ParseUnicodeEscape(s + t) == Parsed(ParseUnicodeEscape(s).value, ParseUnicodeEscape(s).rest + t)
  {
    hide ParseHex4;
    assert (s + t)[1..] == s[1..] + t;
    HexExtends(s[1..], t);
    var rest := ParseHex4(s[1..]).rest;
    if |rest| >= 2 && ParseHex4(rest[2..]).Parsed? {
      assert (rest + t)[2..] == rest[2..] + t;
      HexExtends(rest[2..], t);
    }
  }

  lemma EscapeExtends(s: string, t: string)
    requires ParseEscape(s).Parsed?
    ensures ParseEscape(s + t) == Parsed(ParseEscape(s).value, ParseEscape(s).rest + t)
  {
    hide ParseUnicodeEscape;
    if s[0] == 'u' {
      UnicodeEscapeExtends(s, t);
    } else {
      assert (s + t)[1..] == s[1..] + t;
    }
  }

  lemma {:induction false} StringExtends(s: string, t: string)
    requires ParseString(s).Parsed?
    ensures ParseString(s + t) == Parsed(ParseString(s).value, ParseString(s).rest + t)
    decreases |s|
  {
    assert (s + t)[1..] == s[1..] + t;
    if s[0] == '\\' {
      EscapeExtends(s[1..], t);
      StringExtends(ParseEscape(s[1..]).rest, t);
    } else if s[0] != '\"' {
      StringExtends(s[1..], t);
    }
  }

  lemma SpacedNumberExtends(s: string, t: string)
    requires ParseNumber(SkipSpace(s)).Parsed? && ParseNumber(SkipSpace(s)).rest != ""
    ensures var r := ParseNumber(SkipSpace(s)); ParseNumber(SkipSpace(s + t)) == Parsed(r.value, r.rest + t)
  {
    SkipSpaceExtends(s, t);
    NumberExtends(SkipSpace(s), t);
  }

  lemma ObjectExtends(s: string, t: string)
    requires ParseObject(s).Parsed?
    ensures ParseObject(s + t) == Parsed(ParseObject(s).value, ParseObject(s).rest + t)
  {
    var s1 := ExpectAll(UP_TO_SEQ, s).rest;
    var s2 := ParseNumber(SkipSpace(s1)).rest;
    var s3 := ExpectAll(UP_TO_ADIF, s2).rest;
    var s4 := ParseString(s3).rest;
    var s5 := ExpectAll(UP_TO_RECEIVED_AT, s4).rest;
    var s6 := ParseNumber(SkipSpace(s5)).rest;
    TokensExtend(UP_TO_SEQ, s, t);
    SpacedNumberExtends(s1, t);
    TokensExtend(UP_TO_ADIF, s2, t);
    StringExtends(s3, t);
    TokensExtend(UP_TO_RECEIVED_AT, s4, t);
    SpacedNumberExtends(s5, t);
    TokensExtend(CLOSING, s6, t);
  }

  /** A line that decodes stops decoding as soon as anything but white space follows it. */
  lemma DecodedLineIsMaximal(s: string, t: string)
    requires DecodeLine(s).Some? && t != "" && !IsJsonSpace(t[|t| - 1])
    ensures DecodeLine(s + t) == None
  {
    ObjectExtends(s, t);
    SpaceOnlySkips(ParseObject(s).rest + t);
  }

  lemma {:induction false} SpaceOnlySkips(s: string)
    requires s != "" && !IsJsonSpace(s[|s| - 1])
    ensures SkipSpace(s) != ""
  {
    if IsJsonSpace(s[0]) {
      SpaceOnlySkips(s[1..]);
    }
  }

  /** No proper prefix of an encoded line decodes. */
  lemma ProperPrefixFails(e: Entry, p: string)
    requires p < EncodeLine(e)
    ensures DecodeLine(p) == None
  {
    var line := EncodeLine(e);
    LineLayout(e);
    if DecodeLine(p).Some? {
      assert p + line[|p|..] == line;
      DecodedLineIsMaximal(p, line[|p|..]);
      LineRoundTrip(e);
    }
  }

  /** Two encoded lines glued together do not decode. */
  lemma GluedLinesFail(d: Entry, e: Entry)
    ensures DecodeLine(EncodeLine(d) + EncodeLine(e)) == None
  {
    LineRoundTrip(d);
    LineLayout(e);
    DecodedLineIsMaximal(EncodeLine(d), EncodeLine(e));
  }

  // ------------------------------------------------ lines with a scar in them

  /**
   A brace where no object can start a line: at the very end, or with the opening of
   a line (or a cut of it) behind it. This is what an append leaves in the middle of a
   line that was not finished with a newline.
   */
  predicate ScarAt(s: string, i: int) {
    && 0 <= i < |s| && s[i] == '{'
    && (i + 1 == |s| || (s[i + 1] == '\"' && (i + 2 == |s| || s[i + 2] == 's')))
  }

  ghost predicate Scarred(s: string) { exists i :: ScarAt(s, i) }

  lemma DropKeepsScar(s: string, k: nat)
    requires Scarred(s) && k <= |s| && '{' !in s[..k]
    ensures Scarred(s[k..])
  {
    var i :| ScarAt(s, i);
    forall j | 0 <= j < k
      ensures s[j] != '{'
    {
      assert s[..k][j] == s[j];
    }
    assert ScarAt(s[k..], i - k);
  }

  lemma SkipSpaceKeepsScar(s: string)
    requires Scarred(s)
    ensures Scarred(SkipSpace(s))
  {
    if s != "" && IsJsonSpace(s[0]) {
      DropKeepsScar(s, 1);
      SkipSpaceKeepsScar(s[1..]);
    }
  }

  predicate BraceFree(tokens: seq<string>) { forall k :: k in tokens ==> k != "" && '{' !in k }

  lemma {:induction false} TokensKeepScar(tokens: seq<string>, s: string)
    requires BraceFree(tokens)
    requires Scarred(s) && ExpectAll(tokens, s).Parsed?
    ensures Scarred(ExpectAll(tokens, s).rest)
  {
    if tokens != [] {
      SkipSpaceKeepsScar(s);
      var t := SkipSpace(s);
      assert tokens[0] in tokens;
      assert t[..|tokens[0]|] == tokens[0];
      DropKeepsScar(t, |tokens[0]|);
      assert forall k :: k in tokens[1..] ==> k in tokens;
      TokensKeepScar(tokens[1..], t[|tokens[0]|..]);
    }
  }

  lemma NumberKeepsScar(s: string)
    requires Scarred(s) && ParseNumber(SkipSpace(s)).Parsed?
    ensures Scarred(ParseNumber(SkipSpace(s)).rest)
  {
    SkipSpaceKeepsScar(s);
    var t := SkipSpace(s);
    DigitRunDigits(t);
    DropKeepsScar(t, DigitRun(t));
  }

  lemma HexKeepsScar(s: string)
    requires Scarred(s) && ParseHex4(s).Parsed?
    ensures Scarred(ParseHex4(s).rest)
  {
    DropKeepsScar(s, 4);
  }

  lemma UnicodeEscapeKeepsScar(s: string)
    requires s != "" && s[0] == 'u' && Scarred(s) && ParseUnicodeEscape(s).Parsed?
    ensures Scarred(ParseUnicodeEscape(s).rest)
  {
    DropKeepsScar(s, 1);
    HexKeepsScar(s[1..]);
    var rest := ParseHex4(s[1..]).rest;
    if rest != ParseUnicodeEscape(s).rest {
      DropKeepsScar(rest, 2);
      HexKeepsScar(rest[2..]);
    }
  }

  lemma EscapeKeepsScar(s: string)
    requires Scarred(s) && ParseEscape(s).Parsed?
    ensures Scarred(ParseEscape(s).rest)
  {
    if s[0] == 'u' {
      UnicodeEscapeKeepsScar(s);
    } else {
      DropKeepsScar(s, 1);
    }
  }

  lemma {:induction false} StringKeepsScar(s: string)
    requires Scarred(s) && ParseString(s).Parsed?
    ensures var r := ParseString(s).rest; Scarred(r) || r == "" || r[0] == 's'
    decreases |s|
  {
    if s[0] == '\\' {
      DropKeepsScar(s, 1);
      EscapeKeepsScar(s[1..]);
      StringKeepsScar(ParseEscape(s[1..]).rest);
    } else if s[0] == '\"' {
      DropKeepsScar(s, 1);
    } else {
      var i :| ScarAt(s, i);
      if i == 0 {
        assert s[1..][1..] == s[2..];
      } else {
        assert ScarAt(s[1..], i - 1);
        StringKeepsScar(s[1..]);
      }
    }
  }

  lemma ShapeKeepsScar(s: string, upToSeq: seq<string>, upToAdif: seq<string>, upToReceivedAt: seq<string>,
                       closing: seq<string>)
    requires BraceFree(upToAdif) && BraceFree(upToReceivedAt) && BraceFree(closing)
    requires "" !in upToSeq && upToReceivedAt != [] && upToReceivedAt[0] == ","
    requires ParseShape(s, upToSeq, upToAdif, upToReceivedAt, closing).Parsed?
    requires Scarred(ExpectAll(upToSeq, s).rest)
    ensures Scarred(ParseShape(s, upToSeq, upToAdif, upToReceivedAt, closing).rest)
  {
    var s1 := ExpectAll(upToSeq, s).rest;
    NumberKeepsScar(s1);
    var s2 := ParseNumber(SkipSpace(s1)).rest;
    TokensKeepScar(upToAdif, s2);
    var s3 := ExpectAll(upToAdif, s2).rest;
    StringKeepsScar(s3);
    var s4 := ParseString(s3).rest;
    assert Expect(upToReceivedAt[0], s4).Parsed?;
    TokensKeepScar(upToReceivedAt, s4);
    var s5 := ExpectAll(upToReceivedAt, s4).rest;
    NumberKeepsScar(s5);
    TokensKeepScar(closing, ParseNumber(SkipSpace(s5)).rest);
  }

  lemma OpeningKeepsScar(s: string)
    requires s != "" && s[0] == '{' && Scarred(s[1..]) && ExpectAll(UP_TO_SEQ, s).Parsed?
    ensures Scarred(ExpectAll(UP_TO_SEQ, s).rest)
  {
    assert UP_TO_SEQ[1..] == ["\"seq\"", ":"];
    TokensKeepScar(UP_TO_SEQ[1..], s[1..]);
  }

  lemma ShapeStartsWithTokens(s: string, upToSeq: seq<string>, upToAdif: seq<string>, upToReceivedAt: seq<string>,
                              closing: seq<string>)
    requires "" !in upToSeq && "" !in upToAdif && "" !in upToReceivedAt && "" !in closing
    requires ParseShape(s, upToSeq, upToAdif, upToReceivedAt, closing).Parsed?
    ensures ExpectAll(upToSeq, s).Parsed?
  {
  }

  lemma FixedTextIsBraceFree()
    ensures BraceFree(UP_TO_ADIF) && BraceFree(UP_TO_RECEIVED_AT) && BraceFree(CLOSING)
  {
  }

  /** A line with a scar behind its opening brace is not an entry. */
  lemma ScarFails(s: string)
    requires s != "" && s[0] == '{' && Scarred(s[1..])
    ensures DecodeLine(s) == None
  {
    hide BraceFree, ExpectAll, ParseShape;
    if ParseObject(s).Parsed? {
      ShapeStartsWithTokens(s, UP_TO_SEQ, UP_TO_ADIF, UP_TO_RECEIVED_AT, CLOSING);
      OpeningKeepsScar(s);
      FixedTextIsBraceFree();
      ShapeKeepsScar(s, UP_TO_SEQ, UP_TO_ADIF, UP_TO_RECEIVED_AT, CLOSING);
      SkipSpaceKeepsScar(ParseObject(s).rest);
    }
  }

  /** A cut written behind unfinished text leaves a scar. */
  lemma GlueScars(tail: string, e: Entry, part: string)
    requires tail != "" && tail[0] == '{' && part != "" && part <= EncodeLine(e)
    ensures Scarred((tail + part)[1..])
  {
    hide EncodeLine;
    LineLayout(e);
    assert part[0] == "{\"s"[0];
    assert |part| > 1 ==> part[1] == "{\"s"[1];
    assert |part| > 2 ==> part[2] == "{\"s"[2];
    assert ScarAt((tail + part)[1..], |tail| - 1);
  }
}

/** Text handling shared by the parsers: decimal numbers and white space, as Rust's standard library has them. */
module Text {
  import opened Results

  // ----------------------------------------------------------------- decimals

  predicate IsDigit(c: char) { '0' <= c <= '9' }

  function Digits(n: nat): string {
    if n < 10 then [(n + '0' as int) as char] else Digits(n / 10) + [(n % 10 + '0' as int) as char]
  }

  /** The length of the longest run of digits in front of `s`. */
  function DigitRun(s: string): (k: nat)
    ensures k <= |s|
  {
    if s != "" && IsDigit(s[0]) then 1 + DigitRun(s[1..]) else 0
  }

  function DigitValue(c: char): nat
    requires IsDigit(c)
  {
    c as int - '0' as int
  }

  function NumberValue(ds: string): nat
    requires forall c :: c in ds ==> IsDigit(c)
  {
    if ds == "" then 0 else 10 * NumberValue(ds[..|ds| - 1]) + DigitValue(ds[|ds| - 1])
  }

  lemma {:induction false} DigitRunDigits(s: string)
    ensures forall c :: c in s[..DigitRun(s)] ==> IsDigit(c)
    ensures DigitRun(s) < |s| ==> !IsDigit(s[DigitRun(s)])
  {
    if s != "" && IsDigit(s[0]) {
      var k := DigitRun(s[1..]);
      DigitRunDigits(s[1..]);
      assert s[..1 + k] == [s[0]] + s[1..][..k];
      forall c | c in s[..1 + k]
        ensures IsDigit(c)
      {
        assert c == s[0] || c in s[1..][..k];
      }
    }
  }

  lemma {:induction false} DigitsRoundTrip(n: nat)
    ensures Digits(n) != ""
    ensures forall c :: c in Digits(n) ==> IsDigit(c)
    ensures NumberValue(Digits(n)) == n
    ensures n > 0 ==> Digits(n)[0] != '0'
    ensures |Digits(n)| > 1 ==> n > 0
  {
    if n >= 10 {
      DigitsRoundTrip(n / 10);
      assert Digits(n)[..|Digits(n)| - 1] == Digits(n / 10);
    } else {
      assert Digits(n)[..0] == "";
    }
  }

  lemma {:induction false} DigitRunOfRun(ds: string, rest: string)
    requires forall c :: c in ds ==> IsDigit(c)
    requires rest == "" || !IsDigit(rest[0])
    ensures DigitRun(ds + rest) == |ds|
  {
    if ds == "" {
      assert ds + rest == rest;
    } else {
      assert (ds + rest)[1..] == ds[1..] + rest;
      DigitRunOfRun(ds[1..], rest);
    }
  }

  lemma {:induction false} DigitRunExtends(s: string, t: string)
    requires DigitRun(s) < |s|
    ensures DigitRun(s + t) == DigitRun(s)
  {
    if IsDigit(s[0]) {
      assert (s + t)[1..] == s[1..] + t;
      DigitRunExtends(s[1..], t);
    }
  }

  const U64_MAX: nat := 0xFFFF_FFFF_FFFF_FFFF

  predicate AllDigits(s: string) { s != "" && DigitRun(s) == |s| }

  /** An unsigned integer up to `max`: digits, with a plus sign allowed in front. */
  function ParseUnsigned(s: string, max: nat): Option<nat> {
    var digits := if s != "" && s[0] == '+' then s[1..] else s;
    if !AllDigits(digits) then None
    else
      DigitRunDigits(digits);
      assert digits[..|digits|] == digits;
      var n := NumberValue(digits);
      if n <= max then Some(n) else None
  }

  /** A signed 32-bit integer. */
  function ParseI32(s: string): Option<int> {
    if s != "" && s[0] == '-' then
      var magnitude := if |s| > 1 && s[1] == '+' then None else ParseUnsigned(s[1..], 0x8000_0000);
      if magnitude.None? then None else Some(0 - magnitude.value as int)
    else ParseUnsigned(s, 0x7FFF_FFFF)
  }

  lemma UnsignedRoundTrip(n: nat, max: nat)
    requires n <= max
    ensures ParseUnsigned(Digits(n), max) == Some(n)
  {
    DigitsRoundTrip(n);
    DigitRunOfRun(Digits(n), "");
    assert Digits(n) + "" == Digits(n);
    assert Digits(n)[0] in Digits(n);
  }

  lemma NumberValueOf(ds: string, c: char)
    requires forall d :: d in ds ==> IsDigit(d)
    requires IsDigit(c)
    ensures NumberValue(ds + [c]) == 10 * NumberValue(ds) + DigitValue(c)
  {
    assert (ds + [c])[..|ds|] == ds;
  }

  lemma {:induction false} LeadingZero(ds: string)
    requires forall d :: d in ds ==> IsDigit(d)
    ensures forall d :: d in "0" + ds ==> IsDigit(d)
    ensures NumberValue("0" + ds) == NumberValue(ds)
  {
    if ds == "" {
      assert "0" + ds == [] + ['0'];
      NumberValueOf([], '0');
    } else {
      var front, c := ds[..|ds| - 1], ds[|ds| - 1];
      LeadingZero(front);
      assert "0" + ds == ("0" + front) + [c] && ds == front + [c];
      NumberValueOf("0" + front, c);
    }
  }

  lemma AllDigitsIff(s: string)
    ensures AllDigits(s) <==> s != "" && forall i :: 0 <= i < |s| ==> '0' <= s[i] <= '9'
  {
    DigitRunDigits(s);
    if s != "" && forall i :: 0 <= i < |s| ==> '0' <= s[i] <= '9' {
      DigitRunOfRun(s, "");
      assert s + "" == s;
    }
    if AllDigits(s) {
      assert s[..|s|] == s;
      assert forall i :: 0 <= i < |s| ==> s[i] in s;
    }
  }

  /** Decimals, with a plus sign or zeros in front, read as their number up to the limit, and not beyond it. */
  lemma NumbersRead(n: nat, max: nat)
    ensures var r := if n <= max then Some(n) else None;
            ParseUnsigned(Digits(n), max) == ParseUnsigned("+" + Digits(n), max) == ParseUnsigned("0" + Digits(n), max)
            == r
  {
    hide Digits, DigitRun, NumberValue;
    DigitsRoundTrip(n);
    var ds := Digits(n);
    LeadingZero(ds);
    assert forall i :: 0 <= i < |ds| ==> ds[i] in ds;
    AllDigitsIff(ds);
    AllDigitsIff("0" + ds);
    assert ("+" + ds)[1..] == ds;
    assert ds[0] in ds;
  }

  /** Nothing else reads: a character other than the ten digits, behind one plus sign, or no digit at all. */
  lemma OnlyDigitsRead(s: string, max: nat)
    requires var ds := if s != "" && s[0] == '+' then s[1..] else s;
             ds == "" || exists i :: 0 <= i < |ds| && !('0' <= ds[i] <= '9')
    ensures ParseUnsigned(s, max) == None
  {
    AllDigitsIff(if s != "" && s[0] == '+' then s[1..] else s);
  }

  /** Signed 32-bit numbers read up to their two limits, and nothing reads behind two signs. */
  lemma SignedNumbersRead(n: nat, s: string)
    ensures ParseI32(Digits(n)) == ParseI32("+" + Digits(n)) == if n <= 0x7FFF_FFFF then Some(n) else None
    ensures ParseI32("-" + Digits(n)) == if n <= 0x8000_0000 then Some(0 - n as int) else None
    ensures ParseI32("-+" + s) == ParseI32("--" + s) == ParseI32("+-" + s) == None
  {
    hide Digits, ParseUnsigned;
    NumbersRead(n, 0x7FFF_FFFF);
    NumbersRead(n, 0x8000_0000);
    DigitsRoundTrip(n);
    var ds := Digits(n);
    assert ds[0] in ds;
    assert ("-" + ds)[1..] == ds;
    assert |ds| > 1 ==> ds[1] in ds;
    assert ("-+" + s)[1] == '+';
    assert ("--" + s)[1..] == "-" + s && ("+-" + s)[1..] == "-" + s;
    assert ("-" + s)[0] == '-';
    OnlyDigitsRead("-" + s, 0x8000_0000);
    OnlyDigitsRead("+-" + s, 0x7FFF_FFFF);
  }

  // -------------------------------------------------------------- white space

  /** Unicode white space. */
  predicate IsWhitespace(c: char) {
    var n := c as int;
    || 9 <= n <= 13 || n == 32 || n == 0x85 || n == 0xA0 || n == 0x1680 || 0x2000 <= n <= 0x200A
    || n == 0x2028 || n == 0x2029 || n == 0x202F || n == 0x205F || n == 0x3000
  }

  predicate Blank(line: string) { forall c :: c in line ==> IsWhitespace(c) }

  function TrimStart(s: string): string {
    if s != "" && IsWhitespace(s[0]) then TrimStart(s[1..]) else s
  }

  function TrimEnd(s: string): string {
    if s != "" && IsWhitespace(s[|s| - 1]) then TrimEnd(s[..|s| - 1]) else s
  }

  function UpToWhitespace(s: string): string {
    if s == "" || IsWhitespace(s[0]) then "" else [s[0]] + UpToWhitespace(s[1..])
  }

  /** The first run of non-white-space characters, empty if there is none. */
  function FirstToken(s: string): string { UpToWhitespace(TrimStart(s)) }

  lemma {:induction false} FirstTokenEmptyIffBlank(s: string)
    ensures FirstToken(s) == "" <==> Blank(s)
  {
    if s != "" {
      if IsWhitespace(s[0]) {
        FirstTokenEmptyIffBlank(s[1..]);
        assert s == [s[0]] + s[1..];
      } else {
        assert s[0] in s;
      }
    }
  }

  /** Among the ASCII characters, white space is the tab, the line ends and the like, and the space. */
  lemma AsciiWhitespace(c: char)
    requires c as int < 0x80
    ensures IsWhitespace(c) <==> c as int in {9, 10, 11, 12, 13, 32}
  {
  }

  /** The others, as Unicode has them: next line, the no-break and Ogham spaces, the typographic ones. */
  lemma UnicodeWhitespace(c: char)
    requires c as int >= 0x80
    ensures IsWhitespace(c) <==>
            || c as int in {0x85, 0xA0, 0x1680, 0x2028, 0x2029, 0x202F, 0x205F, 0x3000}
            || 0x2000 <= c as int <= 0x200A
  {
  }

  lemma {:induction false} TrimStartIs(a: string, t: string)
    requires Blank(a) && (t == "" || !IsWhitespace(t[0]))
    ensures TrimStart(a + t) == t
  {
    if a == "" {
      assert a + t == t;
    } else {
      assert a[0] in a;
      assert (a + t)[1..] == a[1..] + t;
      TrimStartIs(a[1..], t);
    }
  }

  lemma {:induction false} TrimEndIs(t: string, b: string)
    requires Blank(b) && (t == "" || !IsWhitespace(t[|t| - 1]))
    ensures TrimEnd(t + b) == t
  {
    if b == "" {
      assert t + b == t;
    } else {
      assert b[|b| - 1] in b;
      assert (t + b)[..|t + b| - 1] == t + b[..|b| - 1];
      TrimEndIs(t, b[..|b| - 1]);
    }
  }

  /** Trimming takes white space off both ends, and nothing else. */
  lemma TrimIs(a: string, t: string, b: string)
    requires Blank(a) && Blank(b) && t != "" && !IsWhitespace(t[0]) && !IsWhitespace(t[|t| - 1])
    ensures TrimEnd(TrimStart(a + t + b)) == t
  {
    assert a + t + b == a + (t + b);
    TrimStartIs(a, t + b);
    TrimEndIs(t, b);
  }

  lemma {:induction false} TokenEnds(t: string, b: string)
    requires forall i :: 0 <= i < |t| ==> !IsWhitespace(t[i])
    requires b == "" || IsWhitespace(b[0])
    ensures UpToWhitespace(t + b) == t
  {
    if t == "" {
      assert t + b == b;
    } else {
      assert (t + b)[1..] == t[1..] + b;
      TokenEnds(t[1..], b);
    }
  }

  /** The first token is all of the first run without white space, whatever stands around it. */
  lemma FirstTokenIs(a: string, t: string, b: string)
    requires Blank(a) && t != "" && (forall i :: 0 <= i < |t| ==> !IsWhitespace(t[i]))
    requires b == "" || IsWhitespace(b[0])
    ensures FirstToken(a + t + b) == t
  {
    assert a + t + b == a + (t + b);
    TrimStartIs(a, t + b);
    TokenEnds(t, b);
  }
}

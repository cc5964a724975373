/** UTF-8 as in section 3 of RFC 3629: shortest forms only, no surrogates, nothing above U+10FFFF. */
module Utf8 {
  import opened Results

  type byte = n: nat | n < 256

  /** A continuation byte carries the low six bits. */
  function Tail(n: nat): byte { 0x80 + n % 0x40 }

  function EncodeChar(c: char): seq<byte> {
    var n := c as int;
    if n < 0x80 then [n]
    else if n < 0x800 then [0xC0 + n / 0x40, Tail(n)]
    else if n < 0x10000 then [0xE0 + n / 0x40 / 0x40, Tail(n / 0x40), Tail(n)]
    else [0xF0 + n / 0x40 / 0x40 / 0x40, Tail(n / 0x40 / 0x40), Tail(n / 0x40), Tail(n)]
  }

  function Encode(s: string): seq<byte> {
    if s == "" then [] else EncodeChar(s[0]) + Encode(s[1..])
  }

  predicate IsTail(b: byte) { 0x80 <= b < 0xC0 }

  function Join(high: nat, b: byte): nat
    requires IsTail(b)
  {
    high * 0x40 + (b - 0x80)
  }

  predicate IsScalar(n: nat) { n < 0xD800 || 0xE000 <= n < 0x11_0000 }

  /** The code point in front of the bytes, and how many bytes it takes. */
  function DecodePoint(bs: seq<byte>): (r: Option<(nat, nat)>)
    ensures r.Some? ==> 0 < r.value.1 <= |bs| && IsScalar(r.value.0)
  {
    if bs == [] then None
    else if bs[0] < 0x80 then Some((bs[0], 1))
    else if 0xC2 <= bs[0] < 0xE0 then
      if |bs| < 2 || !IsTail(bs[1]) then None else Some((Join(bs[0] - 0xC0, bs[1]), 2))
    else if 0xE0 <= bs[0] < 0xF0 then
      if |bs| < 3 || !IsTail(bs[1]) || !IsTail(bs[2]) then None
      else
        var n := Join(Join(bs[0] - 0xE0, bs[1]), bs[2]);
        if n < 0x800 || !IsScalar(n) then None else Some((n, 3))
    else if 0xF0 <= bs[0] < 0xF5 then
      if |bs| < 4 || !IsTail(bs[1]) || !IsTail(bs[2]) || !IsTail(bs[3]) then None
      else
        var n := Join(Join(Join(bs[0] - 0xF0, bs[1]), bs[2]), bs[3]);
        if n < 0x10000 || !IsScalar(n) then None else Some((n, 4))
    else None
  }

  function DecodeChar(bs: seq<byte>): (r: Option<(char, nat)>)
    ensures r.Some? ==> 0 < r.value.1 <= |bs|
  {
    match DecodePoint(bs)
    case None => None
    case Some((n, len)) => Some((n as char, len))
  }

  function Decode(bs: seq<byte>): Option<string> {
    if bs == [] then Some("")
    else
      match DecodeChar(bs)
      case None => None
      case Some((c, n)) =>
        match Decode(bs[n..])
        case None => None
        case Some(rest) => Some([c] + rest)
  }

  lemma JoinTail(n: nat)
    ensures Join(n / 0x40, Tail(n)) == n
  {
  }

  lemma SplitJoin(high: nat, b: byte)
    requires IsTail(b)
    ensures Join(high, b) / 0x40 == high && Tail(Join(high, b)) == b
  {
  }

  lemma CharRoundTrip(c: char, t: seq<byte>)
    ensures DecodeChar(EncodeChar(c) + t) == Some((c, |EncodeChar(c)|))
  {
    var n: nat := c as int;
    JoinTail(n);
    JoinTail(n / 0x40);
    JoinTail(n / 0x40 / 0x40);
    hide Join, Tail;
    TailIsTail(n);
    TailIsTail(n / 0x40);
    TailIsTail(n / 0x40 / 0x40);
  }

  lemma TailIsTail(n: nat)
    ensures IsTail(Tail(n))
  {
  }

  /** Encoded text decodes to itself. */
  lemma {:induction false} RoundTrip(s: string)
    ensures Decode(Encode(s)) == Some(s)
  {
    if s != "" {
      hide DecodeChar, EncodeChar;
      CharRoundTrip(s[0], Encode(s[1..]));
      RoundTrip(s[1..]);
      assert Encode(s)[|EncodeChar(s[0])|..] == Encode(s[1..]);
      assert s == [s[0]] + s[1..];
    }
  }

  lemma JoinGrows(high: nat, b: byte)
    requires IsTail(b)
    ensures high * 0x40 <= Join(high, b) < (high + 1) * 0x40
  {
  }

  lemma TwoBytesAreShortest(high: nat, b: byte)
    requires IsTail(b) && 2 <= high < 0x20
    ensures EncodeChar(Join(high, b) as char) == [0xC0 + high, b]
  {
    hide Tail;
    JoinGrows(high, b);
    SplitJoin(high, b);
  }

  lemma ThreeBytesAreShortest(high: nat, b: byte, c: byte)
    requires IsTail(b) && IsTail(c) && high < 0x10
    requires var n := Join(Join(high, b), c); 0x800 <= n && IsScalar(n)
    ensures EncodeChar(Join(Join(high, b), c) as char) == [0xE0 + high, b, c]
  {
    hide Tail;
    JoinGrows(high, b);
    JoinGrows(Join(high, b), c);
    SplitJoin(high, b);
    SplitJoin(Join(high, b), c);
  }

  lemma FourBytesAreShortest(high: nat, b: byte, c: byte, d: byte)
    requires IsTail(b) && IsTail(c) && IsTail(d) && high < 5
    requires var n := Join(Join(Join(high, b), c), d); 0x10000 <= n && IsScalar(n)
    ensures EncodeChar(Join(Join(Join(high, b), c), d) as char) == [0xF0 + high, b, c, d]
  {
    hide Tail, Join;
    SplitJoin(high, b);
    SplitJoin(Join(high, b), c);
    SplitJoin(Join(Join(high, b), c), d);
  }

  /** Only the shortest form of a character decodes. */
  lemma CharIsShortest(bs: seq<byte>)
    requires DecodeChar(bs).Some?
    ensures EncodeChar(DecodeChar(bs).value.0) == bs[..DecodeChar(bs).value.1]
  {
    var (n, len) := DecodePoint(bs).value;
    hide Tail, Join, EncodeChar;
    if len == 1 {
      OneByteIsShortest(n);
      assert bs[..1] == [bs[0]];
    } else if len == 2 {
      TwoBytesAreShortest(bs[0] - 0xC0, bs[1]);
      assert bs[..2] == [bs[0], bs[1]];
    } else if len == 3 {
      ThreeBytesAreShortest(bs[0] - 0xE0, bs[1], bs[2]);
      assert bs[..3] == [bs[0], bs[1], bs[2]];
    } else {
      FourBytesAreShortest(bs[0] - 0xF0, bs[1], bs[2], bs[3]);
      assert bs[..4] == [bs[0], bs[1], bs[2], bs[3]];
    }
  }

  lemma OneByteIsShortest(n: nat)
    requires n < 0x80
    ensures EncodeChar(n as char) == [n]
  {
  }

  lemma EncodeConcat(c: char, rest: string)
    ensures Encode([c] + rest) == EncodeChar(c) + Encode(rest)
  {
    assert ([c] + rest)[1..] == rest;
  }

  lemma DecodeSplits(bs: seq<byte>)
    requires bs != [] && Decode(bs).Some?
    ensures DecodeChar(bs).Some?
    ensures var (c, n) := DecodeChar(bs).value;
            Decode(bs[n..]).Some? && Decode(bs).value == [c] + Decode(bs[n..]).value
  {
    hide DecodeChar;
  }

  lemma NothingIsEmpty()
    ensures Decode([]) == Some("") && Encode("") == []
  {
  }

  /** Only the encoding of a text decodes to it. */
  lemma {:induction false} DecodedIsEncoded(bs: seq<byte>)
    requires Decode(bs).Some?
    ensures Encode(Decode(bs).value) == bs
    decreases |bs|
  {
    hide DecodeChar, EncodeChar, Encode, Decode;
    if bs == [] {
      NothingIsEmpty();
    } else {
      DecodeSplits(bs);
      var (c, n) := DecodeChar(bs).value;
      CharIsShortest(bs);
      DecodedIsEncoded(bs[n..]);
      EncodeConcat(c, Decode(bs[n..]).value);
      assert bs == bs[..n] + bs[n..];
    }
  }

  // ------------------------------------------------------- character boundaries

  /** The first byte of a character is no continuation byte, and all others are. */
  lemma CharLayout(c: char)
    ensures var bs := EncodeChar(c);
            bs != [] && !IsTail(bs[0]) && forall i :: 0 < i < |bs| ==> IsTail(bs[i])
  {
    var n: nat := c as int;
    TailIsTail(n);
    TailIsTail(n / 0x40);
    TailIsTail(n / 0x40 / 0x40);
    hide Tail;
  }

  lemma {:induction false} EncodeJoins(s: string, t: string)
    ensures Encode(s + t) == Encode(s) + Encode(t)
  {
    hide EncodeChar;
    if s == "" {
      assert s + t == t;
    } else {
      assert (s + t)[1..] == s[1..] + t;
      EncodeJoins(s[1..], t);
    }
  }

  lemma EncodeHead(s: string)
    requires s != ""
    ensures Encode(s) == EncodeChar(s[0]) + Encode(s[1..])
  {
  }

  lemma EncodeNothing()
    ensures Encode("") == []
  {
  }

  /** A position that is not inside a character. */
  predicate IsBoundary(bs: seq<byte>, k: nat) { k == |bs| || (k < |bs| && !IsTail(bs[k])) }

  /** The bytes of a text can be cut exactly where a character begins, or at the end. */
  lemma {:induction false} BoundarySplits(s: string, k: nat) returns (j: nat)
    requires IsBoundary(Encode(s), k)
    ensures j <= |s| && Encode(s[..j]) == Encode(s)[..k] && Encode(s[j..]) == Encode(s)[k..]
  {
    hide EncodeChar, Encode;
    EncodeNothing();
    if k == 0 {
      j := 0;
    } else {
      var n := |EncodeChar(s[0])|;
      CharLayout(s[0]);
      EncodeHead(s);
      assert k >= n && k < |Encode(s)| ==> Encode(s[1..])[k - n] == Encode(s)[k];
      j := BoundarySplits(s[1..], k - n);
      assert s[..1 + j] == [s[0]] + s[1..][..j];
      EncodeConcat(s[0], s[1..][..j]);
      j := 1 + j;
    }
  }

  /** A cut at a boundary is never inside a character: every prefix of a text ends at one. */
  lemma PrefixEndsAtBoundary(s: string, j: nat)
    requires j <= |s|
    ensures IsBoundary(Encode(s), |Encode(s[..j])|)
  {
    hide EncodeChar;
    assert s == s[..j] + s[j..];
    EncodeJoins(s[..j], s[j..]);
    if j < |s| {
      CharLayout(s[j]);
      assert Encode(s[j..])[0] == EncodeChar(s[j])[0];
    }
  }

  lemma AsciiIsOneByte(c: char)
    ensures EncodeChar(c)[0] < 0x80 ==> |EncodeChar(c)| == 1
  {
  }

  /** A byte below 0x80 is a whole character. */
  lemma AsciiEndsAtBoundary(s: string, k: nat)
    requires k < |Encode(s)| && Encode(s)[k] < 0x80
    ensures IsBoundary(Encode(s), k + 1)
  {
    hide EncodeChar;
    var j := BoundarySplits(s, k);
    var c, rest := s[j], s[j..][1..];
    assert Encode(s[j..]) == EncodeChar(c) + Encode(rest);
    CharLayout(c);
    AsciiIsOneByte(c);
    assert Encode(s)[k..][0] == EncodeChar(c)[0];
    assert Encode(s)[k..][1..] == Encode(rest);
    if rest != "" {
      CharLayout(rest[0]);
      assert Encode(rest)[0] == EncodeChar(rest[0])[0];
      assert Encode(s)[k + 1] == Encode(rest)[0];
    }
  }

  /** One text of each length: U+0041, U+00E9, U+20AC, U+1F600. */
  lemma SomeEncodings()
    ensures EncodeChar(0x41 as char) == [0x41]
    ensures EncodeChar(0xE9 as char) == [0xC3, 0xA9]
    ensures EncodeChar(0x20AC as char) == [0xE2, 0x82, 0xAC]
    ensures EncodeChar(0x1F600 as char) == [0xF0, 0x9F, 0x98, 0x80]
  {
  }

  /** No overlong form, surrogate, lone continuation byte or number above U+10FFFF is accepted. */
  lemma NotUtf8(t: seq<byte>)
    ensures Decode([0xC0, 0x80] + t) == Decode([0xE0, 0x80, 0x80] + t) == Decode([0xF0, 0x80, 0x80, 0x80] + t) == None
    ensures Decode([0xED, 0xA0, 0x80] + t) == Decode([0xF4, 0x90, 0x80, 0x80] + t) == Decode([0x80] + t) == None
    ensures Decode([0xFF, 0xFE] + t) == None
  {
  }
}

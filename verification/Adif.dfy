/**
 The field scanner used for log lines: find a field of an ADIF record by its tag. A field is a
 length-tagged item `<TAG:LEN>value` or `<TAG:LEN:TYPE>value` (ADIF specification, section
 IV.A, ADI File Format). Lengths count bytes of UTF-8, so the scanner works on the byte view of a
 text, and a length that ends inside a character makes it panic.
 */
module Adif {
  import opened Results
  import opened Text
  import opened Utf8

  // ------------------------------------------------------- texts as bytes

  function CharsOf(bs: seq<byte>): (v: string)
    ensures |v| == |bs| && forall i :: 0 <= i < |bs| ==> v[i] == bs[i] as char
  {
    seq(|bs|, i requires 0 <= i < |bs| => bs[i] as char)
  }

  /** A text as its UTF-8 bytes, each byte written as the character of that number. */
  function View(text: string): string { CharsOf(Encode(text)) }

  predicate IsTailChar(c: char) { 0x80 <= c as int < 0xC0 }

  /** The position is inside a character. */
  predicate Splits(s: string, k: nat) { k < |s| && IsTailChar(s[k]) }

  // ---------------------------------------------------------- pieces of text

  /** The index of the first `c` in `s`, or the length of `s`. */
  function Find(s: string, c: char): (k: nat)
    ensures k <= |s| && c !in s[..k] && (k < |s| ==> s[k] == c)
  {
    if s == "" || s[0] == c then 0
    else
      var k := Find(s[1..], c);
      assert s[..1 + k] == [s[0]] + s[1..][..k];
      1 + k
  }

  /** What stands in front of the first colon, and the piece behind it up to the next one, if any. */
  function TagOf(header: string): string { header[..Find(header, ':')] }

  function LengthText(header: string): Option<string> {
    var k := Find(header, ':');
    if k == |header| then None
    else
      var rest := header[k + 1..];
      Some(rest[..Find(rest, ':')])
  }

  function FieldLength(header: string): Option<nat> {
    var text := LengthText(header);
    if text.None? then None else ParseUnsigned(text.value, U64_MAX)
  }

  function LowerChar(c: char): char { if 'A' <= c <= 'Z' then (c as int + 32) as char else c }

  predicate EqualIgnoringCase(a: string, b: string) {
    |a| == |b| && forall i :: 0 <= i < |a| ==> LowerChar(a[i]) == LowerChar(b[i])
  }

  /** Two tags match if they differ at most in the case of the letters A to Z. */
  lemma CaseIsIgnored(a: string, b: string)
    ensures EqualIgnoringCase(a, b) <==>
            && |a| == |b|
            && forall i :: 0 <= i < |a| ==>
                 || a[i] == b[i]
                 || ('A' <= a[i] <= 'Z' && b[i] as int == a[i] as int + 32)
                 || ('A' <= b[i] <= 'Z' && a[i] as int == b[i] as int + 32)
  {
    if |a| == |b| {
      forall i | 0 <= i < |a|
        ensures LowerChar(a[i]) == LowerChar(b[i]) <==>
                || a[i] == b[i]
                || ('A' <= a[i] <= 'Z' && b[i] as int == a[i] as int + 32)
                || ('A' <= b[i] <= 'Z' && a[i] as int == b[i] as int + 32)
      {
        SameLetter(a[i], b[i]);
      }
    }
  }

  /** For example. */
  lemma CallMatches()
    ensures EqualIgnoringCase("call", "CALL") && EqualIgnoringCase("Mode", "MODE") && !EqualIgnoringCase("cell", "CALL")
  {
    CaseIsIgnored("call", "CALL");
    CaseIsIgnored("Mode", "MODE");
    CaseIsIgnored("cell", "CALL");
    assert "cell"[1] == 'e' && "CALL"[1] == 'A';
  }

  lemma SameLetter(c: char, d: char)
    ensures LowerChar(c) == LowerChar(d) <==>
            || c == d
            || ('A' <= c <= 'Z' && d as int == c as int + 32)
            || ('A' <= d <= 'Z' && c as int == d as int + 32)
  {
  }

  // ----------------------------------------------------------------- the scan

  datatype Step =
    | Stop                              // no further header, or a value that runs out of the text
    | Skip(rest: string)                // a header without a usable length
    | Field(tag: string, value: string, rest: string)   // `rest` may begin inside a character

  /** The first item of a text. */
  function NextItem(s: string): (r: Step)
    ensures r.Skip? || r.Field? ==> |r.rest| < |s|
  {
    var open := Find(s, '<');
    if open == |s| then Stop
    else
      var inner := s[open + 1..];
      var close := Find(inner, '>');
      if close == |inner| then Stop
      else
        var header, behind := inner[..close], inner[close + 1..];
        match FieldLength(header)
        case None => Skip(behind)
        case Some(len) =>
          if len > |behind| then Stop else Field(TagOf(header), behind[..len], behind[len..])
  }

  datatype Outcome = Panic | Missing | Found(value: string)

  /** The value of the first field with this tag; slicing inside a character panics. */
  function Lookup(s: string, name: string): Outcome
    decreases |s|
  {
    match NextItem(s)
    case Stop => Missing
    case Skip(rest) => Lookup(rest, name)
    case Field(tag, value, rest) =>
      if Splits(rest, 0) then Panic
      else if EqualIgnoringCase(tag, name) then Found(value)
      else Lookup(rest, name)
  }

  /** The first item from a position on, by positions in the whole text. */
  lemma NextItemAt(s: string, cursor: nat, headerStart: nat, headerEnd: nat)
    requires headerStart <= |s| && cursor < headerStart <= headerEnd < |s|
    requires headerStart == cursor + Find(s[cursor..], '<') + 1
    requires headerEnd == headerStart + Find(s[headerStart..], '>')
    ensures var header := s[headerStart..headerEnd];
            NextItem(s[cursor..])
            == match FieldLength(header)
               case None => Skip(s[headerEnd + 1..])
               case Some(len) =>
                 if headerEnd + 1 + len > |s| then Stop
                 else Field(TagOf(header), s[headerEnd + 1..headerEnd + 1 + len], s[headerEnd + 1 + len..])
  {
    hide Find, FieldLength, TagOf;
    var tail, off, close := s[cursor..], headerStart - cursor - 1, headerEnd - headerStart;
    assert tail[off + 1..] == s[headerStart..];
    assert s[headerStart..][..close] == s[headerStart..headerEnd];
    assert s[headerStart..][close + 1..] == s[headerEnd + 1..];
    var behind := s[headerEnd + 1..];
    match FieldLength(s[headerStart..headerEnd]) {
      case None =>
      case Some(len) =>
        if len <= |behind| {
          assert behind[..len] == s[headerEnd + 1..headerEnd + 1 + len];
          assert behind[len..] == s[headerEnd + 1 + len..];
        }
    }
  }

  lemma NoItemAt(s: string, cursor: nat)
    requires cursor <= |s|
    requires var off := Find(s[cursor..], '<');
             off == |s| - cursor || Find(s[cursor + off + 1..], '>') == |s| - (cursor + off + 1)
    ensures NextItem(s[cursor..]) == Stop
  {
    hide Find, FieldLength, TagOf;
    var off := Find(s[cursor..], '<');
    if off < |s| - cursor {
      assert s[cursor..][off + 1..] == s[cursor + off + 1..];
    }
  }

  /** What the scan yields from a position on. */
  function LookupFrom(s: string, cursor: nat, name: string): Outcome
    requires cursor <= |s|
  {
    if Splits(s, cursor) then Panic else Lookup(s[cursor..], name)
  }

  lemma ViewBegins(text: string)
    ensures !Splits(View(text), 0)
  {
    PrefixEndsAtBoundary(text, 0);
    assert text[..0] == "";
  }

  /** The position behind an ASCII character is inside none. */
  lemma AsciiEndsCharacter(text: string, k: nat)
    requires k < |View(text)| && View(text)[k] as int < 0x80
    ensures !Splits(View(text), k + 1)
  {
    AsciiEndsAtBoundary(text, k);
  }

  /** The scanner: a cursor that jumps from item to item. It ends on every text. */
  method AdifField(text: string, name: string) returns (r: Outcome)
    ensures r == Lookup(View(text), name)
  {
    hide FieldLength, TagOf, EqualIgnoringCase, Find, NextItem, IsTailChar, View;
    var adif := View(text);
    var cursor := 0;
    ViewBegins(text);
    assert adif[0..] == adif;
    while true
      invariant cursor <= |adif| && Lookup(adif, name) == LookupFrom(adif, cursor, name)
      decreases |adif| - cursor
    {
      if Splits(adif, cursor) {
        return Panic;
      }
      var off := Find(adif[cursor..], '<');
      if off == |adif| - cursor {
        NoItemAt(adif, cursor);
        return Missing;
      }
      var headerStart := cursor + off + 1;
      var close := Find(adif[headerStart..], '>');
      if close == |adif| - headerStart {
        NoItemAt(adif, cursor);
        return Missing;
      }
      var headerEnd := headerStart + close;
      NextItemAt(adif, cursor, headerStart, headerEnd);
      var header := adif[headerStart..headerEnd];
      var length := FieldLength(header);
      if length.None? {
        AsciiEndsCharacter(text, headerEnd);
        cursor := headerEnd + 1;
        continue;
      }
      var valueStart := headerEnd + 1;
      var valueEnd := valueStart + length.value;
      if valueEnd > |adif| {
        return Missing;
      }
      if EqualIgnoringCase(TagOf(header), name) {
        return if Splits(adif, valueEnd) then Panic else Found(adif[valueStart..valueEnd]);
      }
      cursor := valueEnd;
    }
  }

  // ---------------------------------------------------------- well-formed records

  datatype Item =
    | Filler(text: string)
    | Sentinel(header: string)
    | Tagged(tag: string, length: string, suffix: string, value: string)

  /**
   Filler has no opening bracket and does not begin inside a character; a sentinel such as `<EOR>`
   has no usable length; the length of a tagged item is that of its value, which may hold
   anything, brackets and fake tags included.
   */
  predicate WellFormed(item: Item) {
    match item
    case Filler(text) => '<' !in text && !Splits(text, 0)
    case Sentinel(header) => '>' !in header && FieldLength(header).None?
    case Tagged(tag, length, suffix, value) =>
      && '>' !in tag && ':' !in tag && '>' !in suffix && (suffix == "" || suffix[0] == ':')
      && ':' !in length && '>' !in length && ParseUnsigned(length, U64_MAX) == Some(|value|)
  }

  function HeaderOf(item: Item): string
    requires item.Tagged?
  {
    item.tag + ":" + item.length + item.suffix
  }

  function RenderItem(item: Item): string {
    match item
    case Filler(text) => text
    case Sentinel(header) => "<" + header + ">"
    case Tagged(_, _, _, value) => "<" + HeaderOf(item) + ">" + value
  }

  function Render(items: seq<Item>): string {
    if items == [] then "" else RenderItem(items[0]) + Render(items[1..])
  }

  /** The value of the first tagged item with this tag, whatever stands between the items. */
  function FirstMatch(items: seq<Item>, name: string): Outcome {
    if items == [] then Missing
    else if items[0].Tagged? && EqualIgnoringCase(items[0].tag, name) then Found(items[0].value)
    else FirstMatch(items[1..], name)
  }

  lemma FindPasses(s: string, c: char, t: string)
    requires c !in s
    ensures Find(s + [c] + t, c) == |s|
  {
    var u := s + [c] + t;
    var k := Find(u, c);
    assert u[|s|] == c;
    assert forall j :: 0 <= j < |s| ==> u[j] == s[j];
    assert forall j :: 0 <= j < k ==> u[..k][j] == u[j];
  }

  lemma FindMisses(s: string, c: char)
    requires c !in s
    ensures Find(s, c) == |s|
  {
    assert forall j :: 0 <= j < |s| ==> s[j] in s;
  }

  /** Reading a header back: tag and length text are what was put in. */
  lemma HeaderReadsBack(tag: string, length: string, suffix: string)
    requires ':' !in tag && ':' !in length && (suffix == "" || suffix[0] == ':')
    ensures var header := tag + ":" + length + suffix;
            TagOf(header) == tag && LengthText(header) == Some(length)
  {
    hide Find;
    var header := tag + ":" + length + suffix;
    var behind := length + suffix;
    assert header == tag + [':'] + behind;
    FindPasses(tag, ':', behind);
    assert header[|tag| + 1..] == behind;
    if suffix == "" {
      assert behind == length;
      FindMisses(length, ':');
    } else {
      FindPasses(length, ':', suffix[1..]);
      assert behind == length + [':'] + suffix[1..];
    }
  }

  lemma ItemScans(header: string, behind: string)
    requires '>' !in header
    ensures NextItem("<" + header + ">" + behind)
         == match FieldLength(header)
            case None => Skip(behind)
            case Some(len) => if len > |behind| then Stop else Field(TagOf(header), behind[..len], behind[len..])
  {
    hide Find, FieldLength, TagOf;
    var s := "<" + header + ">" + behind;
    assert s == "" + ['<'] + (header + ">" + behind);
    FindPasses("", '<', header + ">" + behind);
    var inner := s[1..];
    assert inner == header + ['>'] + behind;
    FindPasses(header, '>', behind);
    assert inner[..|header|] == header && inner[|header| + 1..] == behind;
  }

  lemma FillerScans(text: string, rest: string)
    requires '<' !in text
    ensures NextItem(text + rest) == NextItem(rest)
  {
    hide FieldLength, TagOf, Find;
    FindBehind(text, '<', rest);
    var open := Find(rest, '<');
    if open < |rest| {
      assert (text + rest)[|text| + open + 1..] == rest[open + 1..];
    }
  }

  lemma FindBehind(text: string, c: char, rest: string)
    requires c !in text
    ensures Find(text + rest, c) == |text| + Find(rest, c)
  {
    var k, u := Find(rest, c), text + rest;
    if k < |rest| {
      assert u == (text + rest[..k]) + [c] + rest[k + 1..];
      FindPasses(text + rest[..k], c, rest[k + 1..]);
    } else {
      assert rest[..k] == rest;
      FindMisses(u, c);
    }
  }

  lemma TaggedLooksUp(item: Item, rest: string, name: string)
    requires item.Tagged? && WellFormed(item) && !Splits(rest, 0)
    ensures Lookup(RenderItem(item) + rest, name)
         == if EqualIgnoringCase(item.tag, name) then Found(item.value) else Lookup(rest, name)
  {
    hide EqualIgnoringCase, TagOf, LengthText, ParseUnsigned;
    HeaderReadsBack(item.tag, item.length, item.suffix);
    HeaderHasNoClose(item);
    var behind := item.value + rest;
    ItemScans(HeaderOf(item), behind);
    assert RenderItem(item) + rest == "<" + HeaderOf(item) + ">" + behind;
    assert behind[..|item.value|] == item.value && behind[|item.value|..] == rest;
  }

  lemma HeaderHasNoClose(item: Item)
    requires item.Tagged? && WellFormed(item)
    ensures '>' !in HeaderOf(item)
  {
  }

  /** A header without a colon, such as that of `<EOR>` and `<EOH>`, is a sentinel. */
  lemma PlainTagIsSentinel(tag: string)
    requires '>' !in tag && ':' !in tag
    ensures WellFormed(Sentinel(tag))
  {
    FindMisses(tag, ':');
  }

  lemma {:induction false} RecordBegins(items: seq<Item>)
    requires forall item <- items :: WellFormed(item)
    ensures !Splits(Render(items), 0)
  {
    hide FieldLength, HeaderOf;
    if items != [] {
      assert items[0] in items;
      RecordBegins(items[1..]);
    }
  }

  /**
   On a well-formed record, as bytes, the scanner is first-match lookup, whatever the values
   contain, and does not panic.
   */
  lemma {:induction false} LookupIsFirstMatch(items: seq<Item>, name: string)
    requires forall item <- items :: WellFormed(item)
    ensures Lookup(Render(items), name) == FirstMatch(items, name)
  {
    hide EqualIgnoringCase, NextItem, WellFormed, RenderItem;
    if items != [] {
      var rest := Render(items[1..]);
      assert items[0] in items;
      LookupIsFirstMatch(items[1..], name);
      RecordBegins(items[1..]);
      match items[0] {
        case Tagged(_, _, _, _) => TaggedLooksUp(items[0], rest, name);
        case Sentinel(_) => SentinelLooksUp(items[0], rest, name);
        case Filler(text) => FillerLooksUp(items[0], rest, name);
      }
    } else {
      EmptyLooksUp(name);
    }
  }

  /** A field that gives the length of its value in decimals is well-formed, whatever the value holds. */
  lemma DecimalLengthIsWellFormed(tag: string, value: string, suffix: string)
    requires '>' !in tag && ':' !in tag && '>' !in suffix && (suffix == "" || suffix[0] == ':')
    requires |value| <= 0xFFFF_FFFF_FFFF_FFFF
    ensures WellFormed(Tagged(tag, Digits(|value|), suffix, value))
  {
    hide Digits, ParseUnsigned;
    UnsignedRoundTrip(|value|, U64_MAX);
    DigitsRoundTrip(|value|);
  }

  /**
   One field, behind any header line: it is found whatever the case of its tag, a type behind its
   length, or its value.
   */
  lemma FieldIsFound(before: string, tag: string, suffix: string, value: string, name: string)
    requires '>' !in before && FieldLength(before).None?
    requires '>' !in tag && ':' !in tag && '>' !in suffix && (suffix == "" || suffix[0] == ':')
    requires |value| <= 0xFFFF_FFFF_FFFF_FFFF && EqualIgnoringCase(tag, name)
    ensures var field := "<" + (tag + ":" + Digits(|value|) + suffix) + ">" + value;
            && Lookup(field, name) == Found(value)
            && Lookup("<" + before + ">" + field, name) == Found(value)
  {
    hide Lookup, EqualIgnoringCase, WellFormed, Digits, FieldLength, RenderItem;
    var item := Tagged(tag, Digits(|value|), suffix, value);
    DecimalLengthIsWellFormed(tag, value, suffix);
    SentinelIsWellFormed(before);
    RenderedField(before, tag, suffix, value);
    LookupIsFirstMatch([item], name);
    LookupIsFirstMatch([Sentinel(before), item], name);
    assert [Sentinel(before), item][1..] == [item] && [item][1..] == [];
    assert Render([item]) == RenderItem(item) + Render([]) == RenderItem(item);
    assert Render([Sentinel(before), item]) == RenderItem(Sentinel(before)) + Render([item]);
  }

  lemma SentinelIsWellFormed(header: string)
    requires '>' !in header && FieldLength(header).None?
    ensures WellFormed(Sentinel(header))
  {
  }

  lemma RenderedField(before: string, tag: string, suffix: string, value: string)
    ensures RenderItem(Sentinel(before)) == "<" + before + ">"
    ensures RenderItem(Tagged(tag, Digits(|value|), suffix, value))
         == "<" + (tag + ":" + Digits(|value|) + suffix) + ">" + value
  {
    hide Digits;
  }

  lemma EmptyLooksUp(name: string)
    ensures Lookup("", name) == Missing
  {
  }

  lemma SentinelLooksUp(item: Item, rest: string, name: string)
    requires item.Sentinel? && WellFormed(item)
    ensures Lookup(RenderItem(item) + rest, name) == Lookup(rest, name)
  {
    hide EqualIgnoringCase, TagOf, FieldLength, NextItem;
    ItemScans(item.header, rest);
  }

  lemma FillerLooksUp(item: Item, rest: string, name: string)
    requires item.Filler? && WellFormed(item)
    ensures Lookup(RenderItem(item) + rest, name) == Lookup(rest, name)
  {
    hide EqualIgnoringCase, NextItem;
    FillerScans(item.text, rest);
  }

  // ---------------------------------------------------------- records of any characters

  /** An item of a text, as bytes. */
  function ViewItem(item: Item): Item {
    match item
    case Filler(text) => Filler(View(text))
    case Sentinel(header) => Sentinel(View(header))
    case Tagged(tag, length, suffix, value) => Tagged(View(tag), View(length), View(suffix), View(value))
  }

  function ViewItems(items: seq<Item>): (views: seq<Item>)
    ensures |views| == |items| && forall i :: 0 <= i < |items| ==> views[i] == ViewItem(items[i])
  {
    seq(|items|, i requires 0 <= i < |items| => ViewItem(items[i]))
  }

  lemma ViewJoins(a: string, b: string)
    ensures View(a + b) == View(a) + View(b)
  {
    EncodeJoins(a, b);
  }

  lemma ViewOfAscii(c: char)
    requires c as int < 0x80
    ensures View([c]) == [c]
  {
    assert [c][1..] == "";
    assert Encode([c]) == [c as int] + [];
  }

  lemma RenderItemViews(item: Item)
    ensures RenderItem(ViewItem(item)) == View(RenderItem(item))
  {
    hide View;
    ViewOfAscii('<');
    ViewOfAscii('>');
    ViewOfAscii(':');
    match item {
      case Filler(_) =>
      case Sentinel(header) =>
        ViewJoins("<" + header, ">");
        ViewJoins("<", header);
      case Tagged(tag, length, suffix, value) =>
        ViewJoins("<" + HeaderOf(item) + ">", value);
        ViewJoins("<" + HeaderOf(item), ">");
        ViewJoins("<", HeaderOf(item));
        ViewJoins(tag + ":" + length, suffix);
        ViewJoins(tag + ":", length);
        ViewJoins(tag, ":");
    }
  }

  lemma {:induction false} RenderViews(items: seq<Item>)
    ensures Render(ViewItems(items)) == View(Render(items))
  {
    hide View, RenderItem, ViewItem;
    if items == [] {
      NothingViews();
    } else {
      RenderItemViews(items[0]);
      RenderViews(items[1..]);
      assert ViewItems(items)[1..] == ViewItems(items[1..]);
      ViewJoins(RenderItem(items[0]), Render(items[1..]));
    }
  }

  lemma NothingViews()
    ensures View("") == ""
  {
  }

  /** What makes an item of a text well-formed: its length is that of its value in UTF-8. */
  predicate WellFormedText(item: Item) {
    match ViewItem(item)
    case Filler(text) => '<' !in text
    case Sentinel(header) => WellFormed(Sentinel(header))
    case Tagged(tag, length, suffix, value) => WellFormed(Tagged(tag, length, suffix, value))
  }

  /** On a well-formed record of any characters the scanner is first-match lookup, and does not panic. */
  lemma RecordIsFirstMatch(items: seq<Item>, name: string)
    requires forall item <- items :: WellFormedText(item)
    ensures Lookup(View(Render(items)), name) == FirstMatch(ViewItems(items), name)
  {
    hide View, Lookup, FirstMatch, WellFormed, WellFormedText, ViewItem;
    RenderViews(items);
    forall view <- ViewItems(items)
      ensures WellFormed(view)
    {
      var i :| 0 <= i < |items| && view == ViewItem(items[i]);
      TextIsWellFormed(items[i]);
    }
    LookupIsFirstMatch(ViewItems(items), name);
  }

  lemma TextIsWellFormed(item: Item)
    requires WellFormedText(item)
    ensures WellFormed(ViewItem(item))
  {
    hide View, Splits;
    if item.Filler? {
      ViewBegins(item.text);
    }
  }

  // ---------------------------------------------------------- when the scanner panics

  /** The header of a field, and the bytes behind its declared length. */
  datatype Declared = Declared(tag: string, rest: string)

  /** All fields that a scan by bytes would visit, whatever their tags. */
  function Fields(s: string): seq<Declared>
    decreases |s|
  {
    match NextItem(s)
    case Stop => []
    case Skip(rest) => Fields(rest)
    case Field(tag, _, rest) => [Declared(tag, rest)] + Fields(rest)
  }

  /** Some declared length ends inside a character, in or in front of the first field with this tag. */
  ghost predicate SplitUpTo(fields: seq<Declared>, name: string) {
    exists i :: 0 <= i < |fields| && Splits(fields[i].rest, 0) && NoneMatches(fields, i, name)
  }

  ghost predicate NoneMatches(fields: seq<Declared>, i: nat, name: string)
    requires i <= |fields|
  {
    forall j :: 0 <= j < i ==> !EqualIgnoringCase(fields[j].tag, name)
  }

  lemma NoneMatchesCons(f: Declared, fields: seq<Declared>, i: nat, name: string)
    requires i <= |fields|
    ensures NoneMatches([f] + fields, i + 1, name) <==> !EqualIgnoringCase(f.tag, name) && NoneMatches(fields, i, name)
  {
    hide EqualIgnoringCase;
    var all := [f] + fields;
    assert all[0] == f && forall j :: 0 <= j < |fields| ==> all[j + 1] == fields[j];
    if NoneMatches(all, i + 1, name) {
      forall j | 0 <= j < i
        ensures !EqualIgnoringCase(fields[j].tag, name)
      {
        assert !EqualIgnoringCase(all[j + 1].tag, name);
      }
    }
    if !EqualIgnoringCase(f.tag, name) && NoneMatches(fields, i, name) {
      forall j | 0 <= j < i + 1
        ensures !EqualIgnoringCase(all[j].tag, name)
      {
        if j > 0 {
          assert all[j] == fields[j - 1];
        }
      }
    }
  }

  lemma SplitUpToCons(f: Declared, fields: seq<Declared>, name: string)
    ensures SplitUpTo([f] + fields, name)
       <==> Splits(f.rest, 0) || (!EqualIgnoringCase(f.tag, name) && SplitUpTo(fields, name))
  {
    hide EqualIgnoringCase, Splits, NoneMatches;
    var all := [f] + fields;
    if Splits(f.rest, 0) {
      NothingInFront(all, name);
      assert Splits(all[0].rest, 0);
    }
    if !EqualIgnoringCase(f.tag, name) && SplitUpTo(fields, name) {
      var i :| 0 <= i < |fields| && Splits(fields[i].rest, 0) && NoneMatches(fields, i, name);
      NoneMatchesCons(f, fields, i, name);
      assert all[i + 1] == fields[i];
    }
    if SplitUpTo(all, name) && !Splits(f.rest, 0) {
      var i :| 0 <= i < |all| && Splits(all[i].rest, 0) && NoneMatches(all, i, name);
      assert i > 0 && fields[i - 1] == all[i];
      NoneMatchesCons(f, fields, i - 1, name);
    }
  }

  lemma NothingInFront(fields: seq<Declared>, name: string)
    ensures NoneMatches(fields, 0, name)
  {
  }

  /**
   The scanner panics if and only if a declared length ends inside a character, in the first field
   with the tag or in a field in front of it.
   */
  lemma {:induction false} PanicsIffLengthSplits(s: string, name: string)
    ensures Lookup(s, name).Panic? <==> SplitUpTo(Fields(s), name)
    decreases |s|
  {
    hide EqualIgnoringCase, Splits, SplitUpTo;
    match NextItem(s) {
      case Stop => NoFieldSplits(name);
      case Skip(rest) => PanicsIffLengthSplits(rest, name);
      case Field(tag, _, rest) =>
        PanicsIffLengthSplits(rest, name);
        SplitUpToCons(Declared(tag, rest), Fields(rest), name);
    }
  }

  lemma NoFieldSplits(name: string)
    ensures !SplitUpTo([], name)
  {
  }

  /** Where a step stands in its text. */
  lemma NextItemPositions(s: string)
    ensures match NextItem(s)
            case Stop => true
            case Skip(rest) => var k := |s| - |rest|; k > 0 && rest == s[k..] && s[k - 1] == '>'
            case Field(_, value, rest) =>
              var k := |s| - |rest|;
              && |value| < k <= |s| && value == s[k - |value|..k] && rest == s[k..] && s[k - |value| - 1] == '>'
  {
    hide Find, FieldLength, TagOf;
  }

  /** On ASCII it never panics. */
  lemma {:induction false} AsciiNeverPanics(s: string, name: string)
    requires forall i :: 0 <= i < |s| ==> s[i] as int < 0x80
    ensures !Lookup(s, name).Panic?
    decreases |s|
  {
    hide EqualIgnoringCase;
    NextItemPositions(s);
    hide NextItem;
    match NextItem(s) {
      case Stop =>
      case Skip(rest) => AsciiNeverPanics(rest, name);
      case Field(_, _, rest) => AsciiNeverPanics(rest, name);
    }
  }

  /** One field whose length is one byte, in front of any character that takes more: the scan panics. */
  lemma SplitCharacterPanics(tag: string, c: char, text: string, name: string)
    requires '>' !in View(tag) && ':' !in View(tag) && c as int >= 0x80
    ensures Lookup(View("<" + tag + ":1>" + [c] + text), name) == Panic
  {
    hide View, Find, TagOf, LengthText, ParseUnsigned, EqualIgnoringCase;
    var header, behind := View(tag) + ":1", View([c] + text);
    ViewOfHeader(tag);
    ViewJoins("<" + tag + ":1>", [c] + text);
    assert "<" + tag + ":1>" + ([c] + text) == "<" + tag + ":1>" + [c] + text;
    HeaderReadsBack(View(tag), "1", "");
    assert View(tag) + ":" + "1" + "" == header;
    OneIsOne();
    ItemScans(header, behind);
    ManyBytes(c, text);
  }

  lemma ViewOfHeader(tag: string)
    ensures View("<" + tag + ":1>") == "<" + (View(tag) + ":1") + ">"
  {
    hide View;
    ViewOfAscii('<');
    ViewOfAscii(':');
    ViewOfAscii('1');
    ViewOfAscii('>');
    assert "<" + tag + ":1>" == "<" + tag + ":" + "1" + ">";
    ViewJoins("<" + tag + ":" + "1", ">");
    ViewJoins("<" + tag + ":", "1");
    ViewJoins("<" + tag, ":");
    ViewJoins("<", tag);
  }

  lemma OneIsOne()
    ensures ParseUnsigned("1", U64_MAX) == Some(1)
  {
    assert Digits(1) == "1";
    UnsignedRoundTrip(1, U64_MAX);
  }

  lemma ManyBytes(c: char, text: string)
    requires c as int >= 0x80
    ensures |View([c] + text)| > 1 && Splits(View([c] + text)[1..], 0)
  {
    EncodeConcat(c, text);
    CharLayout(c);
    assert |EncodeChar(c)| > 1;
    assert Encode([c] + text)[1] == EncodeChar(c)[1];
  }

  // ---------------------------------------------------------- what it returns is text

  lemma TailIsView(text: string, k: nat) returns (j: nat)
    requires k <= |View(text)| && !Splits(View(text), k)
    ensures j <= |text| && View(text[j..]) == View(text)[k..] && View(text[..j]) == View(text)[..k]
  {
    j := BoundarySplits(text, k);
  }

  /** A value that is found is a piece of the text, cut at whole characters. */
  lemma {:induction false} FoundIsText(text: string, name: string) returns (i: nat, j: nat)
    requires Lookup(View(text), name).Found?
    ensures i <= j <= |text| && Lookup(View(text), name).value == View(text[i..j])
    decreases |View(text)|
  {
    hide EqualIgnoringCase, View, NextItem, Splits;
    var s := View(text);
    NextItemPositions(s);
    match NextItem(s) {
      case Skip(rest) =>
        var k := |s| - |rest|;
        AsciiEndsCharacter(text, k - 1);
        var n := TailIsView(text, k);
        i, j := FoundIsText(text[n..], name);
        assert text[n..][i..j] == text[n + i..n + j];
        i, j := n + i, n + j;
      case Field(tag, value, rest) =>
        var k := |s| - |rest|;
        SplitsBehind(s, k);
        var n := TailIsView(text, k);
        if EqualIgnoringCase(tag, name) {
          var front := text[..n];
          AsciiEndsCharacter(text, k - |value| - 1);
          SplitsInFront(s, k, k - |value|);
          i := TailIsView(front, k - |value|);
          j := n;
          assert front[i..] == text[i..j];
          assert s[..k][k - |value|..] == value;
        } else {
          i, j := FoundIsText(text[n..], name);
          assert text[n..][i..j] == text[n + i..n + j];
          i, j := n + i, n + j;
        }
    }
  }

  lemma SplitsBehind(s: string, k: nat)
    requires k <= |s|
    ensures Splits(s[k..], 0) <==> Splits(s, k)
  {
  }

  lemma SplitsInFront(s: string, k: nat, i: nat)
    requires i <= k <= |s| && !Splits(s, i)
    ensures !Splits(s[..k], i)
  {
  }
}

/** The text of the spool file: one encoded entry per line, and the parser that recovers it. */
module SpoolFile {
  import opened Results
  import opened Text
  import opened EntryJson

  // ------------------------------------------------------------- the format

  /** What a rewrite puts into the file. */
  function EncodeAll(es: seq<Entry>): string {
    if es == [] then "" else EncodeLine(es[0]) + "\n" + EncodeAll(es[1..])
  }

  function FirstNewline(s: string): (k: nat)
    ensures k <= |s| && '\n' !in s[..k]
    ensures k < |s| ==> s[k] == '\n'
  {
    if s == "" || s[0] == '\n' then 0
    else
      var k := FirstNewline(s[1..]);
      assert s[..1 + k] == [s[0]] + s[1..][..k];
      1 + k
  }

  function StripReturn(line: string): string {
    if line != "" && line[|line| - 1] == '\r' then line[..|line| - 1] else line
  }

  /** The lines of a text; a last line needs no newline, and an empty one does not count. */
  function Lines(s: string): seq<string> {
    var k := FirstNewline(s);
    if s == "" then []
    else if k == |s| then [s]
    else [StripReturn(s[..k])] + Lines(s[k + 1..])
  }

  function NonBlank(lines: seq<string>): seq<string> {
    if lines == [] then []
    else (if Blank(lines[0]) then [] else [lines[0]]) + NonBlank(lines[1..])
  }

  // ------------------------------------------------------------ the recovery

  datatype ParseOutcome = ParseOutcome(entries: seq<Entry>, trailingDropped: bool)

  /** Every line must decode, except that a bad last line is dropped. */
  function ParseLines(lines: seq<string>): Option<ParseOutcome> {
    if lines == [] then Some(ParseOutcome([], false))
    else
      match DecodeLine(lines[0])
      case None => if |lines| == 1 then Some(ParseOutcome([], true)) else None
      case Some(e) =>
        Onto([e], ParseLines(lines[1..]))
  }

  function Parse(contents: string): Option<ParseOutcome> { ParseLines(NonBlank(Lines(contents))) }

  /** The outcome of a parse that already has `es` in hand. */
  function Onto(es: seq<Entry>, rest: Option<ParseOutcome>): Option<ParseOutcome> {
    if rest.None? then None else Some(rest.value.(entries := es + rest.value.entries))
  }

  method ParseEntries(contents: string) returns (r: Option<ParseOutcome>)
    ensures r == Parse(contents)
  {
    hide DecodeLine, Lines, NonBlank;
    var nonEmpty := NonBlank(Lines(contents));
    var entries := [];
    assert nonEmpty[0..] == nonEmpty;
    OntoNothing(ParseLines(nonEmpty));
    for i := 0 to |nonEmpty|
      invariant Parse(contents) == Onto(entries, ParseLines(nonEmpty[i..]))
    {
      assert nonEmpty[i..][1..] == nonEmpty[i + 1..];
      match DecodeLine(nonEmpty[i]) {
        case Some(e) =>
          OntoTwice(entries, [e], ParseLines(nonEmpty[i + 1..]));
          entries := entries + [e];
        case None =>
          if i == |nonEmpty| - 1 {
            assert entries + [] == entries;
            return Some(ParseOutcome(entries, true));
          }
          return None;
      }
    }
    assert entries + [] == entries;
    return Some(ParseOutcome(entries, false));
  }

  lemma OntoNothing(r: Option<ParseOutcome>)
    ensures Onto([], r) == r
  {
    if r.Some? {
      assert [] + r.value.entries == r.value.entries;
    }
  }

  lemma OntoTwice(es: seq<Entry>, ds: seq<Entry>, r: Option<ParseOutcome>)
    ensures Onto(es, Onto(ds, r)) == Onto(es + ds, r)
  {
    if r.Some? {
      assert es + (ds + r.value.entries) == es + ds + r.value.entries;
    }
  }

  /** The entries a restart replays from a file with these contents. */
  function RecoverText(contents: string): seq<Entry> {
    match Parse(contents)
    case Some(outcome) => outcome.entries
    case None => []
  }

  // --------------------------------------------------- lines of written files

  lemma EncodedLineStands(e: Entry)
    ensures '\n' !in EncodeLine(e)
    ensures StripReturn(EncodeLine(e)) == EncodeLine(e)
    ensures !Blank(EncodeLine(e))
  {
    LineIsPrintable(e);
    LineLayout(e);
    assert EncodeLine(e)[0] in EncodeLine(e);
  }

  lemma FirstLine(line: string, rest: string)
    requires '\n' !in line
    ensures FirstNewline(line + "\n" + rest) == |line|
    ensures Lines(line + "\n" + rest) == [StripReturn(line)] + Lines(rest)
  {
    var s := line + "\n" + rest;
    var k := FirstNewline(s);
    assert s[|line|] == '\n';
    assert k <= |line| by {
      assert forall j :: 0 <= j < k ==> s[..k][j] == s[j];
    }
    assert forall j :: 0 <= j < |line| ==> s[j] == line[j];
    assert s[..|line|] == line;
    assert s[|line| + 1..] == rest;
  }

  lemma LastLine(t: string)
    requires '\n' !in t
    ensures Lines(t) == if t == "" then [] else [t]
  {
    var k := FirstNewline(t);
    assert k == |t| by {
      assert forall j :: 0 <= j < |t| ==> t[j] in t;
    }
  }

  lemma EncodedLineParses(e: Entry, tail: string)
    ensures Parse(EncodeLine(e) + "\n" + tail) == Onto([e], Parse(tail))
  {
    hide EncodeLine, DecodeLine;
    var line := EncodeLine(e);
    EncodedLineStands(e);
    FirstLine(line, tail);
    LineRoundTrip(e);
    assert Lines(line + "\n" + tail)[1..] == Lines(tail);
    var lines := [line] + NonBlank(Lines(tail));
    assert lines[1..] == NonBlank(Lines(tail));
  }

  /** A written file is cut into lines exactly where entries end. */
  lemma {:induction false} EncodedPrefixParses(es: seq<Entry>, s: string)
    ensures Parse(EncodeAll(es) + s) == Onto(es, Parse(s))
  {
    hide EncodeLine, Parse;
    if es == [] {
      assert EncodeAll(es) + s == s;
      OntoNothing(Parse(s));
    } else {
      var tail := EncodeAll(es[1..]) + s;
      assert EncodeAll(es) + s == EncodeLine(es[0]) + "\n" + tail;
      EncodedLineParses(es[0], tail);
      EncodedPrefixParses(es[1..], s);
      OntoTwice([es[0]], es[1..], Parse(s));
      assert es == [es[0]] + es[1..];
    }
  }

  lemma EmptyParses()
    ensures Parse("") == Some(ParseOutcome([], false))
  {
  }

  /** Splitting a rewritten file into lines recovers the list it was written from. */
  lemma FileRoundTrip(es: seq<Entry>)
    ensures Parse(EncodeAll(es)) == Some(ParseOutcome(es, false))
  {
    hide EncodeLine, Parse;
    EncodedPrefixParses(es, "");
    EmptyParses();
    assert EncodeAll(es) + "" == EncodeAll(es);
    assert es + [] == es;
  }

  lemma TailParses(t: string)
    requires '\n' !in t && !Blank(t)
    ensures Parse(t) == if DecodeLine(t).Some? then Some(ParseOutcome([DecodeLine(t).value], false))
                        else Some(ParseOutcome([], true))
  {
    hide DecodeLine;
    LastLine(t);
    assert [t][1..] == [];
    assert NonBlank([t]) == [t];
    if DecodeLine(t).Some? {
      assert ParseLines([t]) == Onto([DecodeLine(t).value], ParseLines([t][1..]));
      assert [DecodeLine(t).value] + [] == [DecodeLine(t).value];
    }
  }

  lemma CutLineStands(e: Entry, p: string)
    requires p <= EncodeLine(e) && p != ""
    ensures '\n' !in p && !Blank(p) && p[0] == '{'
  {
    hide EncodeLine, DecodeLine;
    EncodedLineStands(e);
    LineLayout(e);
    assert forall c :: c in p ==> c in EncodeLine(e);
    assert p[0] in p;
  }

  /**
   Recovery at every cut of an append: a file of whole lines followed by a prefix `p` of
   one more line replays the old entries until the line is complete, and the old entries
   and the new one from then on, newline or not.
   */
  lemma RecoveryAtEveryCut(es: seq<Entry>, e: Entry, p: string)
    requires p <= EncodeLine(e) + "\n"
    ensures p == "" ==> Parse(EncodeAll(es) + p) == Some(ParseOutcome(es, false))
    ensures p != "" && p < EncodeLine(e) ==> Parse(EncodeAll(es) + p) == Some(ParseOutcome(es, true))
    ensures EncodeLine(e) <= p ==> Parse(EncodeAll(es) + p) == Some(ParseOutcome(es + [e], false))
  {
    hide EncodeLine, DecodeLine, Parse;
    var line := EncodeLine(e);
    EncodedLineStands(e);
    EncodedPrefixParses(es, p);
    assert es + [] == es;
    if p == "" {
      EmptyParses();
    } else if |p| <= |line| {
      assert p <= line;
      CutLineStands(e, p);
      TailParses(p);
      if p != line {
        ProperPrefixFails(e, p);
      } else {
        LineRoundTrip(e);
      }
    } else {
      assert p == line + "\n" == EncodeAll([e]);
      FileRoundTrip([e]);
    }
  }

  lemma {:induction false} EncodeAllAppends(es: seq<Entry>, fs: seq<Entry>)
    ensures EncodeAll(es + fs) == EncodeAll(es) + EncodeAll(fs)
  {
    hide EncodeLine, DecodeLine;
    if es == [] {
      assert es + fs == fs;
    } else {
      assert (es + fs)[1..] == es[1..] + fs;
      EncodeAllAppends(es[1..], fs);
      assert EncodeAll(es) + EncodeAll(fs) == EncodeLine(es[0]) + "\n" + (EncodeAll(es[1..]) + EncodeAll(fs));
    }
  }

  lemma EncodeAllSnoc(es: seq<Entry>, e: Entry)
    ensures EncodeAll(es + [e]) == EncodeAll(es) + EncodeLine(e) + "\n"
  {
    hide EncodeLine, DecodeLine;
    EncodeAllAppends(es, [e]);
    assert EncodeAll([e]) == EncodeLine(e) + "\n";
    assert EncodeAll(es) + (EncodeLine(e) + "\n") == EncodeAll(es) + EncodeLine(e) + "\n";
  }

  // ------------------------------------------------- what makes a file corrupt

  lemma {:induction false} LinesOutcome(lines: seq<string>)
    ensures ParseLines(lines).None? <==> exists i :: 0 <= i < |lines| - 1 && DecodeLine(lines[i]).None?
    ensures ParseLines(lines).Some? ==>
              var o := ParseLines(lines).value;
              && (o.trailingDropped <==> lines != [] && DecodeLine(lines[|lines| - 1]).None?)
              && |o.entries| == |lines| - (if o.trailingDropped then 1 else 0)
              && forall i :: 0 <= i < |o.entries| ==> DecodeLine(lines[i]) == Some(o.entries[i])
  {
    hide DecodeLine;
    if lines != [] {
      var rest := lines[1..];
      LinesOutcome(rest);
      assert forall i :: 0 < i < |lines| ==> lines[i] == rest[i - 1];
      if DecodeLine(lines[0]).Some? {
        if i :| 0 <= i < |rest| - 1 && DecodeLine(rest[i]).None? {
          assert DecodeLine(lines[i + 1]).None?;
        }
        if i :| 0 <= i < |lines| - 1 && DecodeLine(lines[i]).None? {
          assert DecodeLine(rest[i - 1]).None?;
        }
      } else if |lines| > 1 {
        assert 0 < |lines| - 1 && DecodeLine(lines[0]).None?;
      }
    }
  }

  /**
   A file is corrupt if and only if some non-blank line in front of the last one does not decode.
   Otherwise its entries are those lines in order, and a last line that does not decode is dropped.
   */
  lemma CorruptIffBadLine(contents: string)
    ensures var lines := NonBlank(Lines(contents));
            && (Parse(contents).None? <==> exists i :: 0 <= i < |lines| - 1 && DecodeLine(lines[i]).None?)
            && (Parse(contents).Some? ==>
                  var o := Parse(contents).value;
                  && (o.trailingDropped <==> lines != [] && DecodeLine(lines[|lines| - 1]).None?)
                  && |o.entries| == |lines| - (if o.trailingDropped then 1 else 0)
                  && forall i :: 0 <= i < |o.entries| ==> DecodeLine(lines[i]) == Some(o.entries[i]))
  {
    hide ParseLines, DecodeLine, Lines, NonBlank;
    LinesOutcome(NonBlank(Lines(contents)));
  }

  /** Texts, each with its line end. */
  function WithEnds(texts: seq<string>, ends: seq<string>): string
    requires |texts| == |ends|
  {
    if texts == [] then "" else texts[0] + ends[0] + WithEnds(texts[1..], ends[1..])
  }

  lemma OneLineRead(text: string, end: string, rest: string)
    requires '\n' !in text && (text == "" || text[|text| - 1] != '\r') && (end == "\n" || end == "\r\n")
    ensures Lines(text + end + rest) == [text] + Lines(rest)
  {
    hide Lines;
    var line := if end == "\n" then text else text + "\r";
    FirstLine(line, rest);
    assert text + end + rest == line + "\n" + rest;
    assert StripReturn(line) == text;
  }

  predicate IsLine(text: string, end: string) {
    '\n' !in text && (text == "" || text[|text| - 1] != '\r') && (end == "\n" || end == "\r\n")
  }

  /** A line ends at a newline, with or without a carriage return in front; the last one may have no end. */
  lemma {:induction false} LinesRead(texts: seq<string>, ends: seq<string>, last: string)
    requires |texts| == |ends| && '\n' !in last && forall i :: 0 <= i < |texts| ==> IsLine(texts[i], ends[i])
    ensures Lines(WithEnds(texts, ends) + last) == texts + (if last == "" then [] else [last])
  {
    hide Lines;
    if texts == [] {
      LastLine(last);
      assert WithEnds(texts, ends) + last == last;
    } else {
      assert IsLine(texts[0], ends[0]);
      LinesRead(texts[1..], ends[1..], last);
      hide IsLine;
      WithEndsFirst(texts, ends, last);
      OneLineRead(texts[0], ends[0], WithEnds(texts[1..], ends[1..]) + last);
    }
  }

  lemma WithEndsFirst(texts: seq<string>, ends: seq<string>, last: string)
    requires |texts| == |ends| && texts != []
    ensures WithEnds(texts, ends) + last == texts[0] + ends[0] + (WithEnds(texts[1..], ends[1..]) + last)
  {
  }

  lemma {:induction false} NonBlankJoins(a: seq<string>, b: seq<string>)
    ensures NonBlank(a + b) == NonBlank(a) + NonBlank(b)
  {
    if a == [] {
      assert a + b == b;
    } else {
      assert (a + b)[1..] == a[1..] + b;
      NonBlankJoins(a[1..], b);
    }
  }

  /** Blank lines do not count, wherever they stand; all others do. */
  lemma BlankLinesDoNotCount(a: seq<string>, line: string, b: seq<string>)
    ensures NonBlank(a + [line] + b) == NonBlank(a) + (if Blank(line) then [] else [line]) + NonBlank(b)
  {
    NonBlankJoins(a + [line], b);
    NonBlankJoins(a, [line]);
    assert [line][1..] == [];
  }
}

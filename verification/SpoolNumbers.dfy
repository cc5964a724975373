/**
 Sequence numbers under arbitrary failures: with file errors at any operation, appends to
 unterminated files, and crashes at any point, what a restart replays still carries
 strictly increasing numbers, and every new number is above all of them.

 The argument follows the text of the file: it is always a concatenation of cuts of
 encoded lines with increasing numbers. A cut with more text glued to it never decodes.
 */
module SpoolNumbers {
  import opened Results
  import opened EntryJson
  import opened SpoolFile
  import opened Text
  import opened FileSystem
  import opened Spool

  // ------------------------------------------------------- lines of joined texts

  predicate WholeLines(head: string) { head == "" || head[|head| - 1] == '\n' }

  lemma {:induction false} LinesJoin(head: string, t: string)
    requires WholeLines(head)
    ensures Lines(head + t) == Lines(head) + Lines(t)
    decreases |head|
  {
    hide Lines, StripReturn;
    if head == "" {
      assert head + t == t;
      LastLine("");
      assert [] + Lines(t) == Lines(t);
    } else {
      var k := FirstNewline(head);
      forall j | 0 <= j < k
        ensures head[j] != '\n'
      {
        assert head[..k][j] == head[j];
      }
      var rest := head[k + 1..];
      FirstLine(head[..k], rest);
      FirstLine(head[..k], rest + t);
      assert head == head[..k] + "\n" + rest;
      assert head + t == head[..k] + "\n" + (rest + t);
      LinesJoin(rest, t);
      assert [StripReturn(head[..k])] + (Lines(rest) + Lines(t)) == [StripReturn(head[..k])] + Lines(rest) + Lines(t);
    }
  }

  /** The lines that decode, whatever stands between them. */
  function Decoded(lines: seq<string>): seq<Entry> {
    if lines == [] then []
    else
      (if Blank(lines[0]) || DecodeLine(lines[0]).None? then [] else [DecodeLine(lines[0]).value])
      + Decoded(lines[1..])
  }

  predicate AllDecode(lines: seq<string>) { forall l <- lines :: Blank(l) || DecodeLine(l).Some? }

  lemma {:induction false} DecodedJoins(a: seq<string>, b: seq<string>)
    ensures Decoded(a + b) == Decoded(a) + Decoded(b)
  {
    hide DecodeLine, Blank;
    if a == [] {
      assert a + b == b;
    } else {
      assert (a + b)[1..] == a[1..] + b;
      DecodedJoins(a[1..], b);
    }
  }

  lemma {:induction false} ParsedIsDecoded(lines: seq<string>)
    ensures ParseLines(NonBlank(lines)).Some? ==> ParseLines(NonBlank(lines)).value.entries == Decoded(lines)
    ensures ParseLines(NonBlank(lines)).Some? && !ParseLines(NonBlank(lines)).value.trailingDropped ==> AllDecode(lines)
  {
    hide DecodeLine, Blank;
    if lines != [] {
      ParsedIsDecoded(lines[1..]);
      var first, rest := lines[0], NonBlank(lines[1..]);
      assert lines == [first] + lines[1..];
      if Blank(first) {
        assert NonBlank(lines) == [] + rest == rest;
        assert Decoded(lines) == [] + Decoded(lines[1..]) == Decoded(lines[1..]);
      } else {
        assert NonBlank(lines) == [first] + rest;
        assert ([first] + rest)[1..] == rest;
        if DecodeLine(first).None? {
          assert Decoded(lines) == [] + Decoded(lines[1..]) == Decoded(lines[1..]);
          assert rest == [] ==> ParseLines(rest) == Some(ParseOutcome([], false));
        } else {
          assert Decoded(lines) == [DecodeLine(first).value] + Decoded(lines[1..]);
          assert ParseLines(NonBlank(lines)) == Onto([DecodeLine(first).value], ParseLines(rest));
        }
      }
    }
  }

  // ------------------------------------------------------------------ journals

  /** A piece of the file: a cut of the encoded entry and its newline. */
  datatype Chunk = Chunk(entry: Entry, text: string)

  function LogText(log: seq<Chunk>): string {
    if log == [] then "" else LogText(log[..|log| - 1]) + log[|log| - 1].text
  }

  ghost predicate ValidLog(log: seq<Chunk>, bound: nat) {
    && (forall i :: 0 <= i < |log| ==> log[i].text <= EncodeLine(log[i].entry) + "\n")
    && (forall i :: 0 <= i < |log| ==> log[i].entry.seqNo < bound)
    && (forall i, j :: 0 <= i < j < |log| ==> log[i].entry.seqNo < log[j].entry.seqNo)
  }

  ghost predicate Tame(text: string, bound: nat) { exists log :: ValidLog(log, bound) && LogText(log) == text }

  lemma ValidSnoc(log: seq<Chunk>, bound: nat, e: Entry, part: string)
    requires ValidLog(log, bound) && bound <= e.seqNo && part <= EncodeLine(e) + "\n"
    ensures ValidLog(log + [Chunk(e, part)], e.seqNo + 1)
    ensures LogText(log + [Chunk(e, part)]) == LogText(log) + part
  {
    hide EncodeLine;
    var log' := log + [Chunk(e, part)];
    assert log'[..|log' | - 1] == log;
  }

  lemma AppendStaysTame(text: string, bound: nat, e: Entry, part: string)
    requires Tame(text, bound) && bound <= e.seqNo && part <= EncodeLine(e) + "\n"
    ensures Tame(text + part, e.seqNo + 1)
  {
    hide EncodeLine, ValidLog, LogText;
    var log :| ValidLog(log, bound) && LogText(log) == text;
    ValidSnoc(log, bound, e, part);
  }

  lemma {:induction false} CutLogStaysValid(log: seq<Chunk>, bound: nat, text: string)
    requires ValidLog(log, bound) && text <= LogText(log)
    ensures Tame(text, bound)
  {
    hide EncodeLine;
    if log == [] {
      assert ValidLog([], bound) && LogText([]) == text;
    } else {
      var front, last := log[..|log| - 1], log[|log| - 1];
      if |text| <= |LogText(front)| {
        CutLogStaysValid(front, bound, text);
      } else {
        var part := text[|LogText(front)|..];
        var cut := front + [Chunk(last.entry, part)];
        assert cut[..|cut| - 1] == front;
        assert LogText(cut) == text;
        assert part <= last.text;
      }
    }
  }

  /** A crash may cut a tame file anywhere. */
  lemma CutStaysTame(text: string, cut: string, bound: nat)
    requires Tame(text, bound) && cut <= text
    ensures Tame(cut, bound)
  {
    hide ValidLog, LogText;
    var log :| ValidLog(log, bound) && LogText(log) == text;
    CutLogStaysValid(log, bound, cut);
  }

  lemma {:induction false} EncodedIsTame(es: seq<Entry>, bound: nat)
    requires Ascending(es) && Below(es, bound)
    ensures Tame(EncodeAll(es), bound)
  {
    hide EncodeLine, ValidLog, LogText;
    if es == [] {
      EmptyIsTame(bound);
    } else {
      var front, last := es[..|es| - 1], es[|es| - 1];
      EncodedIsTame(front, last.seqNo);
      AppendStaysTame(EncodeAll(front), last.seqNo, last, EncodeLine(last) + "\n");
      EncodeAllSnoc(front, last);
      assert es == front + [last];
      assert EncodeAll(front) + (EncodeLine(last) + "\n") == EncodeAll(front) + EncodeLine(last) + "\n";
      LoosenBound(EncodeAll(es), last.seqNo + 1, bound);
    }
  }

  lemma EmptyIsTame(bound: nat)
    ensures Tame("", bound)
  {
    assert ValidLog([], bound) && LogText([]) == "";
  }

  lemma LoosenBound(text: string, bound: nat, bound': nat)
    requires Tame(text, bound) && bound <= bound'
    ensures Tame(text, bound')
  {
    hide EncodeLine;
    var log :| ValidLog(log, bound) && LogText(log) == text;
    assert ValidLog(log, bound');
  }

  // ------------------------------------------------- what a journal decodes to

  /** The state of an unfinished last line: empty, a cut of one entry's line, or scarred. */
  ghost predicate GoodTail(tail: string, known: seq<Entry>, bound: nat) {
    || tail == ""
    || (tail[0] == '{' && Scarred(tail[1..]))
    || exists e: Entry :: tail <= EncodeLine(e) && Below(known, e.seqNo) && e.seqNo < bound
  }

  /** The finished lines: those that decode ascend, and if all do then the text is what a rewrite writes. */
  ghost predicate GoodHead(head: string, bound: nat) {
    var known := Decoded(Lines(head));
    && WholeLines(head) && Ascending(known) && Below(known, bound)
    && (AllDecode(Lines(head)) ==> head == EncodeAll(known))
  }

  ghost predicate Dissected(text: string, head: string, tail: string, bound: nat) {
    && text == head + tail && '\n' !in tail
    && GoodHead(head, bound) && GoodTail(tail, Decoded(Lines(head)), bound)
  }

  lemma TailOpens(tail: string, known: seq<Entry>, bound: nat)
    requires GoodTail(tail, known, bound) && tail != ""
    ensures tail[0] == '{'
  {
    hide EncodeLine;
    if e: Entry :| tail <= EncodeLine(e) && Below(known, e.seqNo) && e.seqNo < bound {
      LineLayout(e);
    }
  }

  lemma GrowTail(tail: string, known: seq<Entry>, bound: nat, e: Entry, part: string)
    requires GoodTail(tail, known, bound) && Below(known, bound) && bound <= e.seqNo && part <= EncodeLine(e)
    ensures GoodTail(tail + part, known, e.seqNo + 1)
  {
    hide EncodeLine, Scarred;
    if part == "" {
      assert tail + part == tail;
    } else if tail == "" {
      assert tail + part == part;
    } else {
      TailOpens(tail, known, bound);
      GlueScars(tail, e, part);
    }
  }

  lemma FinishedLines(head: string, line: string)
    requires WholeLines(head) && '\n' !in line && StripReturn(line) == line
    ensures Lines(head + (line + "\n")) == Lines(head) + [line]
    ensures Decoded(Lines(head + (line + "\n"))) == Decoded(Lines(head)) + Decoded([line])
  {
    hide Lines, StripReturn, DecodeLine, Decoded;
    FirstLine(line, "");
    assert line + "\n" + "" == line + "\n";
    LastLine("");
    assert [line] + [] == [line];
    LinesJoin(head, line + "\n");
    DecodedJoins(Lines(head), [line]);
  }

  lemma DecodedOne(line: string)
    requires !Blank(line)
    ensures Decoded([line]) == if DecodeLine(line).Some? then [DecodeLine(line).value] else []
  {
    hide DecodeLine, Blank;
    assert [line][1..] == [];
  }

  /** Finishing a line that started empty adds its entry. */
  lemma FinishFreshLine(head: string, bound: nat, e: Entry)
    requires GoodHead(head, bound) && bound <= e.seqNo
    ensures GoodHead(head + (EncodeLine(e) + "\n"), e.seqNo + 1)
  {
    hide EncodeLine, DecodeLine, Blank, Lines, EncodeAll, Decoded;
    var line := EncodeLine(e);
    var known := Decoded(Lines(head));
    EncodedLineStands(e);
    FinishedLines(head, line);
    DecodedOne(line);
    LineRoundTrip(e);
    EncodeAllSnoc(known, e);
    assert EncodeAll(known) + (line + "\n") == EncodeAll(known) + line + "\n";
    if AllDecode(Lines(head) + [line]) {
      AllDecodeSplits(Lines(head), [line]);
    }
    assert (head + (line + "\n"))[|head| + |line|] == '\n';
  }

  /** Finishing any other line adds nothing. */
  lemma FinishGluedLine(head: string, tail: string, bound: nat, e: Entry)
    requires GoodHead(head, bound) && '\n' !in tail && tail != "" && tail[0] == '{' && bound <= e.seqNo
    ensures GoodHead(head + (tail + EncodeLine(e) + "\n"), e.seqNo + 1)
  {
    hide EncodeLine, DecodeLine, Scarred, Blank, Lines, EncodeAll, Decoded;
    var line := tail + EncodeLine(e);
    EncodedLineStands(e);
    LineLayout(e);
    assert EncodeLine(e)[|EncodeLine(e)| - 1] == line[|line| - 1];
    FinishedLines(head, line);
    BraceIsNotBlank(line);
    DecodedOne(line);
    GlueScars(tail, e, EncodeLine(e));
    ScarFails(line);
    assert Decoded(Lines(head)) + [] == Decoded(Lines(head));
    assert line in Lines(head) + [line];
    assert (head + (line + "\n"))[|head| + |line|] == '\n';
  }

  lemma FinishLine(head: string, tail: string, bound: nat, e: Entry)
    requires GoodHead(head, bound) && GoodTail(tail, Decoded(Lines(head)), bound) && bound <= e.seqNo
    requires '\n' !in tail
    ensures GoodHead(head + (tail + EncodeLine(e) + "\n"), e.seqNo + 1)
  {
    hide EncodeLine, GoodHead, GoodTail;
    if tail == "" {
      assert tail + EncodeLine(e) == EncodeLine(e);
      FinishFreshLine(head, bound, e);
    } else {
      TailOpens(tail, Decoded(Lines(head)), bound);
      FinishGluedLine(head, tail, bound, e);
    }
  }

  lemma BraceIsNotBlank(line: string)
    requires line != "" && line[0] == '{'
    ensures !Blank(line)
  {
    assert line[0] in line;
  }

  /** A cut written behind a dissected text grows its tail. */
  lemma CutGrowsTail(text: string, head: string, tail: string, e: Entry, cut: string, bound: nat)
    requires Dissected(text, head, tail, e.seqNo) && cut <= EncodeLine(e) && e.seqNo < bound
    ensures Dissected(text + cut, head, tail + cut, bound)
  {
    hide EncodeLine, GoodTail, GoodHead, Lines, Decoded;
    var known := Decoded(Lines(head));
    GoodHeadBounds(head, e.seqNo, bound);
    GrowTail(tail, known, e.seqNo, e, cut);
    LoosenTail(tail + cut, known, e.seqNo + 1, bound);
    assert head + tail + cut == head + (tail + cut);
    EncodedLineStands(e);
    assert forall c <- cut :: c in EncodeLine(e);
  }

  /** A whole line written behind it finishes the tail. */
  lemma LineFinishesTail(text: string, head: string, tail: string, e: Entry, bound: nat)
    requires Dissected(text, head, tail, e.seqNo) && e.seqNo < bound
    ensures Dissected(text + (EncodeLine(e) + "\n"), head + (tail + EncodeLine(e) + "\n"), "", bound)
  {
    hide EncodeLine, GoodTail, GoodHead, Lines, Decoded;
    var head' := head + (tail + EncodeLine(e) + "\n");
    FinishLine(head, tail, e.seqNo, e);
    GoodHeadBounds(head', e.seqNo + 1, bound);
    NoTail(Decoded(Lines(head')), bound);
    assert text + (EncodeLine(e) + "\n") == head' + "";
  }

  lemma {:induction false} Dissect(log: seq<Chunk>, bound: nat) returns (head: string, tail: string)
    requires ValidLog(log, bound)
    ensures Dissected(LogText(log), head, tail, bound)
  {
    hide EncodeLine, Dissected;
    if log == [] {
      head, tail := "", "";
      NothingDissects(bound);
    } else {
      var front, last := log[..|log| - 1], log[|log| - 1];
      var e := last.entry;
      head, tail := Dissect(front, e.seqNo);
      if last.text <= EncodeLine(e) {
        CutGrowsTail(LogText(front), head, tail, e, last.text, bound);
        tail := tail + last.text;
      } else {
        assert last.text == EncodeLine(e) + "\n";
        LineFinishesTail(LogText(front), head, tail, e, bound);
        head, tail := head + (tail + EncodeLine(e) + "\n"), "";
      }
    }
  }

  lemma NothingDissects(bound: nat)
    ensures Dissected("", "", "", bound)
  {
    EmptyIsGood(bound);
  }

  lemma EmptyIsGood(bound: nat)
    ensures GoodHead("", bound) && GoodTail("", Decoded(Lines("")), bound)
  {
  }

  lemma NoTail(known: seq<Entry>, bound: nat)
    ensures GoodTail("", known, bound)
  {
  }

  lemma LoosenTail(tail: string, known: seq<Entry>, bound: nat, bound': nat)
    requires GoodTail(tail, known, bound) && bound <= bound'
    ensures GoodTail(tail, known, bound')
  {
    hide EncodeLine, Scarred;
  }

  lemma GoodHeadBounds(head: string, bound: nat, bound': nat)
    requires GoodHead(head, bound) && bound <= bound'
    ensures GoodHead(head, bound') && Below(Decoded(Lines(head)), bound)
  {
    hide EncodeAll, Lines, Decoded, AllDecode;
  }

  /** What the last line decodes to, if anything. */
  lemma TailDecodes(tail: string, known: seq<Entry>, bound: nat)
    requires GoodTail(tail, known, bound) && Ascending(known) && Below(known, bound) && '\n' !in tail
    ensures var es := known + Decoded(Lines(tail));
            && Ascending(es) && Below(es, bound)
            && (AllDecode(Lines(tail)) ==> tail == "" || exists e :: es == known + [e] && tail == EncodeLine(e))
  {
    hide EncodeLine, DecodeLine, Scarred, Blank;
    LastLine(tail);
    if tail == "" {
      assert known + [] == known;
    } else {
      TailOpens(tail, known, bound);
      BraceIsNotBlank(tail);
      assert [tail][1..] == [];
      assert tail in [tail];
      if Scarred(tail[1..]) {
        ScarFails(tail);
        assert known + [] == known;
      } else {
        var e: Entry :| tail <= EncodeLine(e) && Below(known, e.seqNo) && e.seqNo < bound;
        if tail == EncodeLine(e) {
          LineRoundTrip(e);
          assert Decoded([tail]) == [e];
        } else {
          ProperPrefixFails(e, tail);
          assert known + [] == known;
        }
      }
    }
  }

  /** A tame file replays ascending numbers below its bound; one that needs no repair is a stored list. */
  lemma TameRecovers(text: string, bound: nat)
    requires Tame(text, bound)
    ensures Ascending(RecoverText(text)) && Below(RecoverText(text), bound)
    ensures Parse(text).Some? && !Parse(text).value.trailingDropped ==> Stored(Some(text), RecoverText(text))
  {
    hide EncodeLine, DecodeLine, ValidLog, LogText, GoodTail, NonBlank, ParseLines, Lines, EncodeAll;
    hide AllDecode, Decoded;
    var log :| ValidLog(log, bound) && LogText(log) == text;
    var head, tail := Dissect(log, bound);
    var known := Decoded(Lines(head));
    TailDecodes(tail, known, bound);
    LinesJoin(head, tail);
    DecodedJoins(Lines(head), Lines(tail));
    ParsedIsDecoded(Lines(text));
    if Parse(text).Some? && !Parse(text).value.trailingDropped {
      AllDecodeSplits(Lines(head), Lines(tail));
      if tail == "" {
        LastLine(tail);
        DecodedNothing();
        assert known + [] == known;
        assert head + tail == head;
      } else {
        var e :| known + Decoded(Lines(tail)) == known + [e] && tail == EncodeLine(e);
        EncodeAllSnoc(known, e);
        assert text + "\n" == EncodeAll(known) + EncodeLine(e) + "\n";
      }
    }
  }

  lemma DecodedNothing()
    ensures Decoded([]) == []
  {
  }

  lemma AllDecodeSplits(a: seq<string>, b: seq<string>)
    requires AllDecode(a + b)
    ensures AllDecode(a) && AllDecode(b)
  {
    hide DecodeLine, Blank;
    assert forall l <- a :: l in a + b;
    assert forall l <- b :: l in a + b;
  }

  lemma StoredIsTame(image: Option<string>, es: seq<Entry>, bound: nat)
    requires image.Some? && Stored(image, es) && Ascending(es) && Below(es, bound)
    ensures Tame(image.value, bound)
  {
    hide EncodeAll, Tame;
    EncodedIsTame(es, bound);
    if image.value != EncodeAll(es) {
      assert image.value <= EncodeAll(es);
      CutStaysTame(EncodeAll(es), image.value, bound);
    }
  }

  // ------------------------------------------------- the machine under faults

  ghost predicate FileTame(file: Option<File>, bound: nat) { file.Some? ==> Tame(file.value.Contents(), bound) }

  ghost predicate AnyTame(file: Option<File>) { exists bound :: FileTame(file, bound) }

  ghost predicate OldTame(fs: Fs) { forall file <- fs.superseded :: AnyTame(file) }

  /** The file a running call found, by what the call will do to it. */
  ghost predicate FaultyCall(p: Phase)
    requires p.Busy?
  {
    var rewrite := RewriteOps(EncodeAll(p.mem.entries));
    match p.call
    case OpenCall =>
      && AnyTame(p.start.main) && p.mem == OpenMem(MainText(p.start)) && p.plan == OpenPlan(MainText(p.start))
    case AppendCall(e) =>
      && p.mem.nextSeq == e.seqNo + 1 && FileTame(p.start.main, e.seqNo)
      && (p.plan == rewrite || p.plan == AppendOps(EncodeLine(e)))
    case RemoveCall(_) =>
      FileTame(p.start.main, p.mem.nextSeq) && (p.plan == rewrite || p.plan == [])
  }

  ghost predicate Orderly(s: State) {
    match s.phase
    case Down => AnyTame(s.fs.main) && OldTame(s.fs)
    case Ready(mem) => Numbered(mem) && FileTame(s.fs.main, mem.nextSeq) && OldTame(s.fs)
    case Busy(_, _, mem, start, plan, done) =>
      && done <= |plan| && s.fs == After(start, plan, done)
      && Numbered(mem) && OldTame(start) && FaultyCall(s.phase)
  }

  lemma MainTextOf(file: Option<File>, bound: nat, fs: Fs)
    requires FileTame(file, bound) && fs.main == file
    ensures Ascending(Recover(MainText(fs))) && Below(Recover(MainText(fs)), bound)
  {
    hide Tame, RecoverText;
    if file.Some? {
      TameRecovers(file.value.Contents(), bound);
    }
  }

  lemma OpenIsOrderly(s: State)
    requires Orderly(s) && s.phase.Down?
    ensures Orderly(BeginOpen(s))
  {
    hide Tame, OpenPlan, Recover, EncodeAll;
    var bound :| FileTame(s.fs.main, bound);
    MainTextOf(s.fs.main, bound, s.fs);
    OpenIsNumbered(MainText(s.fs));
    NoOperations(s.fs, OpenPlan(MainText(s.fs)));
  }

  lemma AppendIsOrderly(s: State, adif: string, receivedAt: nat)
    requires Orderly(s) && s.phase.Ready?
    ensures Orderly(BeginAppend(s, adif, receivedAt))
  {
    hide Tame, EncodeAll, EncodeLine, RewriteOps, AppendOps, Capped;
    AppendKeepsNumbered(s.phase.mem, Entry(s.phase.mem.nextSeq, adif, receivedAt));
    NoOperations(s.fs, BeginAppend(s, adif, receivedAt).phase.plan);
  }

  lemma RemoveIsOrderly(s: State, seqNo: nat)
    requires Orderly(s) && s.phase.Ready?
    ensures Orderly(BeginRemove(s, seqNo))
  {
    hide Tame, EncodeAll, RewriteOps;
    RemoveKeepsNumbered(s.phase.mem, seqNo);
    NoOperations(s.fs, RemovePlan(s.phase.mem, seqNo));
  }

  lemma AdvanceIsOrderly(s: State)
    requires Orderly(s) && CanAdvance(s)
    ensures Orderly(Advance(s))
  {
    hide Apply, Numbered, OldTame, Tame, RewriteOps, AppendOps, OpenPlan, OpenMem, EncodeAll, EncodeLine;
  }

  /** The text of the file in the middle of an append, wherever it started. */
  lemma AppendTexts(fs: Fs, line: string, k: nat)
    requires k <= 4
    ensures var fs' := After(fs, AppendOps(line), k);
            var text := TextOrEmpty(MainText(fs));
            && fs'.superseded == fs.superseded
            && (k == 0 ==> fs' == fs)
            && (k > 0 ==> MainText(fs') == Some(text + if k == 1 then "" else if k == 2 then line else line + "\n"))
  {
    var plan := AppendOps(line);
    var text := TextOrEmpty(MainText(fs));
    assert After(fs, plan, 0) == fs;
    if k > 0 {
      assert After(fs, plan, 1) == Apply(fs, OpenAppend);
      assert text + "" == text;
    }
    if k > 1 {
      var file := After(fs, plan, 1).main.value;
      assert After(fs, plan, 2).main == Some(file.Write(line));
      WriteExtends(file, line);
    }
    if k > 2 {
      var file := After(fs, plan, 2).main.value;
      assert After(fs, plan, 3).main == Some(file.Write("\n"));
      WriteExtends(file, "\n");
      assert text + line + "\n" == text + (line + "\n");
    }
    if k > 3 {
      var file := After(fs, plan, 3).main.value;
      assert After(fs, plan, 4).main == Some(file.Sync());
      assert file.Contents() + "" == file.Contents();
    }
  }

  lemma WriteExtends(file: File, text: string)
    ensures file.Write(text).Contents() == file.Contents() + text
  {
  }

  /** A cut of the line being appended, put behind the file the append found. */
  lemma AppendedIsTame(start: Fs, e: Entry, part: string)
    requires FileTame(start.main, e.seqNo) && part <= EncodeLine(e) + "\n"
    ensures Tame(TextOrEmpty(MainText(start)) + part, e.seqNo + 1)
  {
    hide EncodeLine, Tame;
    if start.main.None? {
      EmptyIsTame(e.seqNo);
    }
    AppendStaysTame(TextOrEmpty(MainText(start)), e.seqNo, e, part);
  }

  lemma OldTameJoins(old1: seq<Option<File>>, file: Option<File>)
    requires (forall f <- old1 :: AnyTame(f)) && AnyTame(file)
    ensures forall f <- old1 + [file] :: AnyTame(f)
  {
  }

  /** The files in the middle of a call: tame throughout, and below the next number when it returns. */
  ghost predicate CallFiles(call: Call, mem: Mem, fs: Fs) {
    && OldTame(fs)
    && (if call.OpenCall? then AnyTame(fs.main) else FileTame(fs.main, mem.nextSeq))
  }

  lemma RewritingFiles(start: Fs, mem: Mem, k: nat)
    requires Numbered(mem) && OldTame(start) && AnyTame(start.main) && k <= 5
    ensures var fs := After(start, RewriteOps(EncodeAll(mem.entries)), k);
            && OldTame(fs) && AnyTame(fs.main)
            && if k <= 3 then fs.main == start.main else FileTame(fs.main, mem.nextSeq)
  {
    hide EncodeAll, Tame, RewriteOps, After;
    var text := EncodeAll(mem.entries);
    RewriteProgress(start, text, k);
    EncodedIsTame(mem.entries, mem.nextSeq);
    OldTameJoins(start.superseded, start.main);
    if k >= 4 {
      assert text + "" == text;
      assert FileTame(Some(File(text, "")), mem.nextSeq);
    }
  }

  lemma AppendingFiles(start: Fs, mem: Mem, e: Entry, k: nat)
    requires mem.nextSeq == e.seqNo + 1 && FileTame(start.main, e.seqNo) && OldTame(start) && k <= 4
    ensures CallFiles(AppendCall(e), mem, After(start, AppendOps(EncodeLine(e)), k))
  {
    hide EncodeLine, Tame, AppendOps, After;
    var line := EncodeLine(e);
    AppendTexts(start, line, k);
    if k == 0 {
      if start.main.Some? {
        LoosenBound(start.main.value.Contents(), e.seqNo, mem.nextSeq);
      }
    } else {
      AppendedIsTame(start, e, if k == 1 then "" else if k == 2 then line else line + "\n");
    }
  }

  /** Opening: the plan, and the files after each operation of it. */
  lemma OpeningFiles(start: Fs, k: nat)
    requires AnyTame(start.main) && OldTame(start) && Numbered(OpenMem(MainText(start)))
    requires k <= |OpenPlan(MainText(start))|
    ensures var fs := After(start, OpenPlan(MainText(start)), k);
            && OldTame(fs) && AnyTame(fs.main)
            && (k == |OpenPlan(MainText(start))| ==> FileTame(fs.main, OpenMem(MainText(start)).nextSeq))
  {
    hide EncodeAll, Tame, RewriteOps, Parse;
    var image := MainText(start);
    var mem := OpenMem(image);
    NoOperations(start, OpenPlan(image));
    if image.Some? {
      var bound :| FileTame(start.main, bound);
      TameRecovers(image.value, bound);
      match Parse(image.value) {
        case None =>
          assert OpenPlan(image) == [MoveAside];
          OldTameJoins(start.superseded, start.main);
          assert FileTame(None, 0);
          assert k == 1 ==> After(start, [MoveAside], 1) == Apply(start, MoveAside);
        case Some(outcome) =>
          if outcome.trailingDropped {
            RewriteLength(EncodeAll(mem.entries));
            RewritingFiles(start, mem, k);
          } else {
            StoredIsTame(image, mem.entries, mem.nextSeq);
          }
      }
    }
  }

  lemma RunningCallFiles(s: State)
    requires Orderly(s) && s.phase.Busy?
    ensures CallFiles(s.phase.call, s.phase.mem, s.fs)
    ensures CanFinish(s) ==> FileTame(s.fs.main, s.phase.mem.nextSeq)
  {
    hide EncodeAll, EncodeLine, Tame, RewriteOps, AppendOps, After, OpenPlan, OpenMem;
    var p := s.phase;
    match p.call {
      case OpenCall => OpeningFiles(p.start, p.done);
      case AppendCall(e) =>
        FoundFileIsTame(p);
        if p.plan == RewriteOps(EncodeAll(p.mem.entries)) {
          RewriteLength(EncodeAll(p.mem.entries));
          RewritingFiles(p.start, p.mem, p.done);
        } else {
          AppendLength(EncodeLine(e));
          AppendingFiles(p.start, p.mem, e, p.done);
        }
      case RemoveCall(_) =>
        if p.plan == RewriteOps(EncodeAll(p.mem.entries)) {
          RewriteLength(EncodeAll(p.mem.entries));
          RewritingFiles(p.start, p.mem, p.done);
        } else {
          NoOperations(p.start, p.plan);
        }
    }
  }

  lemma FoundFileIsTame(p: Phase)
    requires p.Busy? && p.call.AppendCall? && FaultyCall(p)
    ensures FileTame(p.start.main, p.mem.nextSeq)
  {
    hide EncodeAll, EncodeLine, Tame, RewriteOps, AppendOps;
    if p.start.main.Some? {
      LoosenBound(p.start.main.value.Contents(), p.call.entry.seqNo, p.mem.nextSeq);
    }
  }

  lemma FinishIsOrderly(s: State)
    requires Orderly(s) && CanFinish(s)
    ensures Orderly(Finish(s))
  {
    hide FaultyCall, After, Numbered, FileTame, AnyTame;
    RunningCallFiles(s);
  }

  /** A failed operation leaves files like those in front of it, or a cut of the appended line. */
  lemma FailedFiles(s: State, fs': Fs)
    requires Orderly(s) && CanAdvance(s) && FailedOp(s.fs, s.phase.plan[s.phase.done], fs')
    ensures CallFiles(s.phase.call, s.phase.mem, fs')
  {
    hide EncodeAll, EncodeLine, Tame, After, OpenPlan, OpenMem, Numbered;
    RunningCallFiles(s);
    var p := s.phase;
    if fs'.main != s.fs.main {
      var text :| p.plan[p.done] == AppendMain(text);
      var part :| part <= text && fs' == Apply(s.fs, AppendMain(part));
      PlansThatAppend(p);
      var e := p.call.entry;
      AppendTexts(p.start, EncodeLine(e), p.done);
      var found := TextOrEmpty(MainText(p.start));
      WriteExtends(s.fs.main.value, part);
      if p.done == 1 {
        assert found + "" + part == found + part;
        AppendedIsTame(p.start, e, part);
      } else {
        assert found + EncodeLine(e) + part == found + (EncodeLine(e) + part);
        AppendedIsTame(p.start, e, EncodeLine(e) + part);
      }
    }
  }

  lemma PlansThatAppend(p: Phase)
    requires p.Busy? && FaultyCall(p) && p.done < |p.plan| && p.plan[p.done].AppendMain?
    ensures p.call.AppendCall? && p.plan == AppendOps(EncodeLine(p.call.entry)) && 1 <= p.done <= 2
    ensures p.plan[p.done].text == if p.done == 1 then EncodeLine(p.call.entry) else "\n"
  {
    hide EncodeAll, EncodeLine, Tame, OpenMem, Parse, AnyTame;
  }

  lemma FaultIsOrderly(s: State, s': State)
    requires Orderly(s) && CanAdvance(s) && Fails(s, s')
    ensures Orderly(s')
  {
    hide FaultyCall, After, Numbered, FileTame, AnyTame, FailedOp;
    FailedFiles(s, s'.fs);
  }

  lemma SurvivorIsTame(file: Option<File>, image: Option<string>, fs': Fs)
    requires AnyTame(file) && Survives(file, image) && image == MainText(fs')
    ensures AnyTame(fs'.main)
  {
    hide Tame;
    if image.Some? {
      var bound :| FileTame(file, bound);
      CutStaysTame(file.value.Contents(), image.value, bound);
      assert FileTame(fs'.main, bound);
    } else {
      assert FileTame(None, 0);
    }
  }

  lemma CrashIsOrderly(s: State, s': State)
    requires Orderly(s) && Crashes(s, s')
    ensures Orderly(s')
  {
    hide FaultyCall, After, Numbered, Tame;
    if s.phase.Busy? {
      RunningCallFiles(s);
    }
    var image := MainText(s'.fs);
    if Survives(s.fs.main, image) {
      SurvivorIsTame(s.fs.main, image, s'.fs);
    } else {
      var file :| file in s.fs.superseded && Survives(file, image);
      SurvivorIsTame(file, image, s'.fs);
    }
  }

  lemma StepIsOrderly(s: State, ev: Event, s': State)
    requires Orderly(s) && Next(s, ev, s')
    ensures Orderly(s')
  {
    hide Orderly, Crashes, Fails, BeginOpen, BeginAppend, BeginRemove;
    match ev {
      case Open => OpenIsOrderly(s);
      case Append(adif, receivedAt) => AppendIsOrderly(s, adif, receivedAt);
      case Remove(seqNo) => RemoveIsOrderly(s, seqNo);
      case Operate => AdvanceIsOrderly(s);
      case Return => FinishIsOrderly(s);
      case Crash => CrashIsOrderly(s, s');
      case Fault => FaultIsOrderly(s, s');
    }
  }

  /**
   In every state of every run, with any crashes and any file errors, the entries in memory
   carry strictly increasing numbers below the next one.
   */
  lemma {:induction false} RunKeepsNumbers(states: seq<State>, events: seq<Event>, i: nat)
    requires IsRun(states, events) && i < |states|
    ensures Orderly(states[i])
    ensures !states[i].phase.Down? ==> Numbered(states[i].phase.mem)
  {
    if i == 0 {
      assert FileTame(None, 0);
    } else {
      hide Next, FaultyCall, After, FileTame, AnyTame, OldTame, Numbered;
      RunKeepsNumbers(states, events, i - 1);
      assert Next(states[i - 1], events[i - 1], states[i - 1 + 1]);
      StepIsOrderly(states[i - 1], events[i - 1], states[i]);
    }
  }
}

/**
 The crash-recoverable spool as a state machine: the queue in memory, the file behind it,
 and the plan of file operations each call carries out. A crash may come between any two
 of them.
 */
module Spool {
  import opened Results
  import opened EntryJson
  import opened SpoolFile
  import opened Text
  import opened FileSystem

  const MAX_QUEUE_LEN: nat := 1000

  /** What the queue keeps in memory. */
  datatype Mem = Mem(entries: seq<Entry>, nextSeq: nat)

  // ----------------------------------------------------- effect of each call

  /** The newest entries, at most the cap. */
  function Capped(es: seq<Entry>): (r: seq<Entry>)
    ensures |r| <= |es| && |r| <= MAX_QUEUE_LEN && r == es[|es| - |r|..]
    ensures |r| < |es| ==> |r| == MAX_QUEUE_LEN
  {
    if |es| > MAX_QUEUE_LEN then es[|es| - MAX_QUEUE_LEN..] else es
  }

  /** That is, all of them up to a thousand, and the last thousand of more. */
  lemma CapIsThousand(es: seq<Entry>)
    ensures Capped(es) == if |es| <= 1000 then es else es[|es| - 1000..]
  {
  }

  function AppendMem(m: Mem, e: Entry): Mem { Mem(Capped(m.entries + [e]), m.nextSeq + 1) }

  predicate Overflows(m: Mem) { |m.entries| + 1 > MAX_QUEUE_LEN }

  function AppendPlan(m: Mem, e: Entry): seq<FileOp> {
    if Overflows(m) then RewriteOps(EncodeAll(AppendMem(m, e).entries)) else AppendOps(EncodeLine(e))
  }

  function Without(es: seq<Entry>, seqNo: nat): seq<Entry> {
    if es == [] then []
    else (if es[0].seqNo == seqNo then [] else [es[0]]) + Without(es[1..], seqNo)
  }

  function RemoveMem(m: Mem, seqNo: nat): Mem { m.(entries := Without(m.entries, seqNo)) }

  function RemovePlan(m: Mem, seqNo: nat): seq<FileOp> {
    var kept := Without(m.entries, seqNo);
    if |kept| == |m.entries| then [] else RewriteOps(EncodeAll(kept))
  }

  function Recover(image: Option<string>): seq<Entry> {
    if image.None? then [] else RecoverText(image.value)
  }

  function MaxSeq(es: seq<Entry>): nat
    requires es != []
  {
    if |es| == 1 || es[0].seqNo >= MaxSeq(es[1..]) then es[0].seqNo else MaxSeq(es[1..])
  }

  function NextSeq(es: seq<Entry>): nat { if es == [] then 1 else MaxSeq(es) + 1 }

  function OpenMem(image: Option<string>): Mem { Mem(Recover(image), NextSeq(Recover(image))) }

  /** A dropped trailing line is rewritten away; a corrupt file is renamed aside. */
  function OpenPlan(image: Option<string>): seq<FileOp> {
    if image.None? then []
    else
      match Parse(image.value)
      case None => [MoveAside]
      case Some(outcome) => if outcome.trailingDropped then RewriteOps(EncodeAll(outcome.entries)) else []
  }

  lemma NoOperations(fs: Fs, plan: seq<FileOp>)
    ensures After(fs, plan, 0) == fs
  {
  }

  lemma RewriteLength(text: string)
    ensures |RewriteOps(text)| == 5
  {
  }

  lemma AppendLength(line: string)
    ensures |AppendOps(line)| == 4
  {
  }

  // ------------------------------------------------------- order of sequence numbers

  ghost predicate Ascending(es: seq<Entry>) {
    forall i, j :: 0 <= i < j < |es| ==> es[i].seqNo < es[j].seqNo
  }

  ghost predicate Below(es: seq<Entry>, bound: nat) { forall i :: 0 <= i < |es| ==> es[i].seqNo < bound }

  ghost predicate Numbered(m: Mem) { Ascending(m.entries) && Below(m.entries, m.nextSeq) }

  lemma {:induction false} MaxSeqBounds(es: seq<Entry>)
    requires es != []
    ensures forall i :: 0 <= i < |es| ==> es[i].seqNo <= MaxSeq(es)
  {
    if |es| > 1 {
      MaxSeqBounds(es[1..]);
      assert forall i :: 0 < i < |es| ==> es[i] == es[1..][i - 1];
    }
  }

  lemma {:induction false} MaxSeqOccurs(es: seq<Entry>)
    requires es != []
    ensures exists i :: 0 <= i < |es| && es[i].seqNo == MaxSeq(es)
  {
    if |es| == 1 || es[0].seqNo >= MaxSeq(es[1..]) {
      assert es[0].seqNo == MaxSeq(es);
    } else {
      MaxSeqOccurs(es[1..]);
      var i :| 0 <= i < |es[1..]| && es[1..][i].seqNo == MaxSeq(es[1..]);
      assert es[i + 1].seqNo == MaxSeq(es);
    }
  }

  /** Numbers continue right behind the largest one in the file, and start at 1 for an empty spool. */
  lemma NumbersContinue(es: seq<Entry>)
    ensures Below(es, NextSeq(es))
    ensures if es == [] then NextSeq(es) == 1 else exists i :: 0 <= i < |es| && es[i].seqNo + 1 == NextSeq(es)
  {
    if es != [] {
      MaxSeqBounds(es);
      MaxSeqOccurs(es);
    }
  }

  lemma OpenIsNumbered(image: Option<string>)
    requires Ascending(Recover(image))
    ensures Numbered(OpenMem(image))
  {
    hide RecoverText;
    if Recover(image) != [] {
      MaxSeqBounds(Recover(image));
    }
  }

  lemma {:induction false} WithoutIs(es: seq<Entry>, seqNo: nat)
    ensures forall e :: e in Without(es, seqNo) <==> e in es && e.seqNo != seqNo
    ensures |Without(es, seqNo)| <= |es|
    ensures |Without(es, seqNo)| == |es| ==> Without(es, seqNo) == es
  {
    if es != [] {
      WithoutIs(es[1..], seqNo);
      assert es == [es[0]] + es[1..];
    }
  }

  lemma {:induction false} WithoutIsAscending(es: seq<Entry>, seqNo: nat)
    requires Ascending(es)
    ensures Ascending(Without(es, seqNo))
  {
    if es != [] {
      var rest := Without(es[1..], seqNo);
      WithoutIsAscending(es[1..], seqNo);
      WithoutIs(es[1..], seqNo);
      if es[0].seqNo == seqNo {
        assert Without(es, seqNo) == [] + rest == rest;
      } else {
        forall i | 0 <= i < |rest|
          ensures es[0].seqNo < rest[i].seqNo
        {
          assert rest[i] in es[1..];
        }
        ConsIsAscending(es[0], rest);
      }
    }
  }

  lemma ConsIsAscending(e: Entry, es: seq<Entry>)
    requires Ascending(es) && forall i :: 0 <= i < |es| ==> e.seqNo < es[i].seqNo
    ensures Ascending([e] + es)
  {
  }

  lemma AppendKeepsNumbered(m: Mem, e: Entry)
    requires Numbered(m) && e.seqNo == m.nextSeq
    ensures Numbered(AppendMem(m, e))
  {
    var all := m.entries + [e];
    assert Ascending(all) && Below(all, m.nextSeq + 1);
    var r := Capped(all);
    assert forall i :: 0 <= i < |r| ==> r[i] == all[|all| - |r| + i];
  }

  lemma RemoveKeepsNumbered(m: Mem, seqNo: nat)
    requires Numbered(m)
    ensures Numbered(RemoveMem(m, seqNo))
  {
    WithoutIs(m.entries, seqNo);
    WithoutIsAscending(m.entries, seqNo);
  }

  // --------------------------------------------- what files recover which list

  /** The file holds exactly these entries; its last newline may be missing. */
  predicate Stored(image: Option<string>, es: seq<Entry>) {
    if image.None? then es == []
    else image.value == EncodeAll(es) || (es != [] && image.value + "\n" == EncodeAll(es))
  }

  /** The file holds these entries and a cut of one more line. */
  ghost predicate Torn(image: Option<string>, es: seq<Entry>) {
    image.Some? && exists e, cut :: cut != "" && cut < EncodeLine(e) && image.value == EncodeAll(es) + cut
  }

  ghost predicate Recoverable(image: Option<string>, es: seq<Entry>) { Stored(image, es) || Torn(image, es) }

  /** What a caller can check in front of an append: the file is empty or ends in a newline. */
  predicate Terminated(image: Option<string>) {
    image.None? || image.value == "" || image.value[|image.value| - 1] == '\n'
  }

  lemma UnterminatedSplits(text: string, es: seq<Entry>)
    requires es != [] && text + "\n" == EncodeAll(es)
    ensures text == EncodeAll(es[..|es| - 1]) + EncodeLine(es[|es| - 1])
  {
    hide EncodeLine;
    var front, last := es[..|es| - 1], es[|es| - 1];
    assert es == front + [last];
    EncodeAllSnoc(front, last);
    var t := EncodeAll(front) + EncodeLine(last);
    assert text == (text + "\n")[..|text|];
    assert t == (t + "\n")[..|t|];
  }

  lemma {:induction false} EncodeAllTerminated(es: seq<Entry>)
    ensures Terminated(Some(EncodeAll(es)))
  {
    hide EncodeLine;
    if es != [] {
      EncodeAllTerminated(es[1..]);
    }
  }

  /** A stored file ends in a newline exactly when it is what a rewrite would produce. */
  lemma TerminatedIsClean(image: Option<string>, es: seq<Entry>)
    requires Stored(image, es) && image.Some?
    ensures Terminated(image) <==> image.value == EncodeAll(es)
  {
    hide EncodeLine;
    EncodeAllTerminated(es);
    if image.value != EncodeAll(es) {
      UnterminatedSplits(image.value, es);
      LineLayout(es[|es| - 1]);
      EncodedLineStands(es[|es| - 1]);
    }
  }

  lemma StoredParses(image: Option<string>, es: seq<Entry>)
    requires Stored(image, es) && image.Some?
    ensures Parse(image.value) == Some(ParseOutcome(es, false))
  {
    hide EncodeLine, Parse;
    if image.value == EncodeAll(es) {
      FileRoundTrip(es);
    } else {
      UnterminatedSplits(image.value, es);
      var front, last := es[..|es| - 1], es[|es| - 1];
      RecoveryAtEveryCut(front, last, EncodeLine(last));
      assert es == front + [last];
    }
  }

  lemma TornParses(image: Option<string>, es: seq<Entry>)
    requires Torn(image, es)
    ensures Parse(image.value) == Some(ParseOutcome(es, true))
  {
    hide EncodeLine, Parse;
    var e, cut :| cut != "" && cut < EncodeLine(e) && image.value == EncodeAll(es) + cut;
    assert cut <= EncodeLine(e) + "\n";
    RecoveryAtEveryCut(es, e, cut);
  }

  /** Opening a recoverable file replays exactly the list it holds. */
  lemma OpenRecovers(image: Option<string>, es: seq<Entry>)
    requires Recoverable(image, es)
    ensures Recover(image) == es
    ensures Stored(image, es) ==> OpenPlan(image) == []
    ensures Torn(image, es) ==> OpenPlan(image) == RewriteOps(EncodeAll(es))
  {
    hide EncodeLine, Parse, RewriteOps;
    if Stored(image, es) && image.Some? {
      StoredParses(image, es);
    }
    if Torn(image, es) {
      TornParses(image, es);
    }
  }

  /**
   Whatever cut of an append `open` finds, it leaves a terminated file that replays the same
   list, except for the complete line without its newline, which it leaves as it is.
   */
  lemma OpenRepairsAllButOneCut(fs: Fs, es: seq<Entry>, e: Entry, cut: string)
    requires Settled(fs) && MainText(fs) == Some(EncodeAll(es) + cut) && cut <= EncodeLine(e) + "\n"
    ensures var plan := OpenPlan(MainText(fs));
            var image := MainText(After(fs, plan, |plan|));
            && (Terminated(image) <==> cut != EncodeLine(e))
            && Recover(image) == Recover(MainText(fs))
  {
    hide EncodeLine, Parse, RewriteOps, After, EncodeAll;
    var line, text := EncodeLine(e), EncodeAll(es) + cut;
    EncodedLineStands(e);
    LineLayout(e);
    RecoveryAtEveryCut(es, e, cut);
    NoOperations(fs, OpenPlan(MainText(fs)));
    EncodeAllTerminated(es);
    if cut == "" {
      assert text == EncodeAll(es);
    } else if cut < line {
      RewriteLength(EncodeAll(es));
      RewriteProgress(fs, EncodeAll(es), 5);
      assert EncodeAll(es) + "" == EncodeAll(es);
      FileRoundTrip(es);
    } else {
      assert text[|text| - 1] == cut[|cut| - 1];
      assert cut == line || cut == line + "\n";
    }
  }

  // ------------------------------------------------------ crash in one call

  /** What a plain append may leave of a terminated file at a crash. */
  lemma AppendImageRecovers(es: seq<Entry>, e: Entry, part: string)
    requires part <= EncodeLine(e) + "\n"
    ensures var image := Some(EncodeAll(es) + part);
            if EncodeLine(e) <= part then Stored(image, es + [e]) else Recoverable(image, es)
  {
    hide EncodeLine;
    var line := EncodeLine(e);
    var text := EncodeAll(es) + part;
    EncodeAllSnoc(es, e);
    if part == line + "\n" {
      assert EncodeAll(es) + (line + "\n") == EncodeAll(es) + line + "\n";
    } else {
      assert part <= line;
      if part == "" {
        assert text == EncodeAll(es);
      } else if part != line {
        assert part < line;
        assert Torn(Some(text), es);
      }
    }
  }

  lemma CrashDuringAppend(fs: Fs, es: seq<Entry>, e: Entry, k: nat, image: Option<string>)
    requires Settled(fs) && Stored(MainText(fs), es) && Terminated(MainText(fs))
    requires k <= 4 && CrashImage(After(fs, AppendOps(EncodeLine(e)), k), image)
    ensures Recoverable(image, es) || Stored(image, es + [e])
    ensures k == 4 ==> image.Some? && image.value == EncodeAll(es + [e])
  {
    hide EncodeLine, After, CrashImage;
    var line := EncodeLine(e);
    AppendImages(fs, line, k, image);
    EncodedLineStands(e);
    assert TextOrEmpty(MainText(fs)) == EncodeAll(es) by {
      if MainText(fs).Some? {
        TerminatedIsClean(MainText(fs), es);
      }
    }
    if image.Some? {
      var part :| part <= line + "\n" && image.value == EncodeAll(es) + part;
      AppendImageRecovers(es, e, part);
      if k == 4 {
        EncodeAllSnoc(es, e);
        assert EncodeAll(es) + (line + "\n") == EncodeAll(es) + line + "\n";
      }
    }
  }

  lemma CrashDuringRewrite(fs: Fs, es: seq<Entry>, k: nat, image: Option<string>)
    requires Settled(fs) && k <= 5 && CrashImage(After(fs, RewriteOps(EncodeAll(es)), k), image)
    ensures image == MainText(fs) || image == Some(EncodeAll(es))
    ensures k == 5 ==> image == Some(EncodeAll(es))
  {
    hide EncodeAll;
    RewriteImages(fs, EncodeAll(es), k, image);
  }

  // --------------------------------------------- the cut that must not be appended to

  /**
   Appending in place to a file that holds `es`, torn or not, keeps every entry if and only if the
   file is terminated. Otherwise the new line is glued to the last one, and both are lost.
   */
  lemma PlainAppendKeepsAllIffTerminated(image: Option<string>, es: seq<Entry>, e: Entry)
    requires Recoverable(image, es)
    ensures var image' := Some(TextOrEmpty(image) + (EncodeLine(e) + "\n"));
            && (Terminated(image) <==> Recover(image') == es + [e])
            && (Torn(image, es) ==> !Terminated(image) && Recover(image') == es)
            && (!Torn(image, es) && !Terminated(image) ==> es != [] && Recover(image') == es[..|es| - 1])
  {
    hide EncodeLine, Parse;
    var line := EncodeLine(e);
    if Torn(image, es) {
      var d, cut :| cut != "" && cut < EncodeLine(d) && image.value == EncodeAll(es) + cut;
      EncodedLineStands(d);
      assert image.value[|image.value| - 1] == cut[|cut| - 1] == EncodeLine(d)[|cut| - 1];
      AppendBehindCutIsLost(es, d, cut, e);
    } else if Terminated(image) {
      if image.Some? {
        TerminatedIsClean(image, es);
      }
      RecoveryAtEveryCut(es, e, line + "\n");
      assert line <= line + "\n";
    } else {
      TerminatedIsClean(image, es);
      UnterminatedSplits(image.value, es);
      EncodedLineStands(es[|es| - 1]);
      AppendBehindCutIsLost(es[..|es| - 1], es[|es| - 1], EncodeLine(es[|es| - 1]), e);
    }
  }

  /** A line glued to a cut of another is no entry: the file is torn, or corrupt if more lines follow. */
  lemma GluedFirstLineParses(d: Entry, cut: string, e: Entry, more: string)
    requires cut != "" && cut <= EncodeLine(d)
    ensures var r := Parse(cut + EncodeLine(e) + "\n" + more);
            r == if NonBlank(Lines(more)) == [] then Some(ParseOutcome([], true)) else None
  {
    hide EncodeLine, DecodeLine, Scarred;
    var glued := cut + EncodeLine(e);
    GluedLineStands(d, cut, e);
    EncodedLineStands(e);
    FirstLine(glued, more);
    GlueScars(cut, e, EncodeLine(e));
    ScarFails(glued);
    assert Lines(glued + "\n" + more)[1..] == Lines(more);
  }

  /** The same behind whole lines. */
  lemma GluedTailParses(es: seq<Entry>, d: Entry, cut: string, e: Entry, more: string)
    requires cut != "" && cut <= EncodeLine(d)
    ensures var r := Parse(EncodeAll(es) + cut + EncodeLine(e) + "\n" + more);
            r == if NonBlank(Lines(more)) == [] then Some(ParseOutcome(es, true)) else None
  {
    hide EncodeLine, DecodeLine, Parse, Lines, EncodeAll;
    var rest := cut + EncodeLine(e) + "\n" + more;
    GluedFirstLineParses(d, cut, e, more);
    EncodedPrefixParses(es, rest);
    assert EncodeAll(es) + cut + EncodeLine(e) + "\n" + more == EncodeAll(es) + rest;
    assert es + [] == es;
  }

  lemma GluedLineStands(d: Entry, cut: string, e: Entry)
    requires cut != "" && cut <= EncodeLine(d)
    ensures var glued := cut + EncodeLine(e);
            '\n' !in glued && StripReturn(glued) == glued && !Blank(glued) && glued[0] == cut[0] == '{'
  {
    hide EncodeLine;
    CutLineStands(d, cut);
    EncodedLineStands(e);
    LineLayout(e);
    var glued := cut + EncodeLine(e);
    assert glued[|glued| - 1] == '}';
    assert glued[0] in glued;
  }

  /**
   An append in place that succeeds behind a cut line is lost: the next restart replays only
   what stood in front of the cut. The cut is what a failed or interrupted append left behind.
   */
  lemma AppendBehindCutIsLost(es: seq<Entry>, d: Entry, cut: string, e: Entry)
    requires cut != "" && cut <= EncodeLine(d)
    ensures Recover(Some(EncodeAll(es) + cut + (EncodeLine(e) + "\n"))) == es
  {
    hide EncodeLine, Parse;
    GluedTailParses(es, d, cut, e, "");
    var text := EncodeAll(es) + cut;
    assert text + EncodeLine(e) + "\n" + "" == text + (EncodeLine(e) + "\n");
    LastLine("");
  }

  /** One more append behind a glued line, and the next restart sets the whole spool aside. */
  lemma AppendBehindGluedLineLosesAll(es: seq<Entry>, d: Entry, cut: string, e: Entry, fs: seq<Entry>)
    requires cut != "" && cut <= EncodeLine(d) && fs != []
    ensures var image := Some(EncodeAll(es) + cut + EncodeLine(e) + "\n" + EncodeAll(fs));
            Recover(image) == [] && OpenPlan(image) == [MoveAside]
  {
    hide EncodeLine, Parse;
    GluedTailParses(es, d, cut, e, EncodeAll(fs));
    EncodedLineStands(fs[0]);
    FirstLine(EncodeLine(fs[0]), EncodeAll(fs[1..]));
  }

  // ------------------------------------------------------------ the machine

  datatype Call = OpenCall | AppendCall(entry: Entry) | RemoveCall(seqNo: nat)

  datatype Phase =
    | Down
    | Ready(mem: Mem)
    | Busy(call: Call, before: seq<Entry>, mem: Mem, start: Fs, plan: seq<FileOp>, done: nat)

  datatype State = State(fs: Fs, phase: Phase)

  function Begin(s: State, call: Call, before: seq<Entry>, mem: Mem, plan: seq<FileOp>): State {
    State(s.fs, Busy(call, before, mem, s.fs, plan, 0))
  }

  function BeginOpen(s: State): State
    requires s.phase.Down?
  {
    var image := MainText(s.fs);
    Begin(s, OpenCall, Recover(image), OpenMem(image), OpenPlan(image))
  }

  function BeginAppend(s: State, adif: string, receivedAt: nat): State
    requires s.phase.Ready?
  {
    var m := s.phase.mem;
    var e := Entry(m.nextSeq, adif, receivedAt);
    Begin(s, AppendCall(e), m.entries, AppendMem(m, e), AppendPlan(m, e))
  }

  function BeginRemove(s: State, seqNo: nat): State
    requires s.phase.Ready?
  {
    var m := s.phase.mem;
    Begin(s, RemoveCall(seqNo), m.entries, RemoveMem(m, seqNo), RemovePlan(m, seqNo))
  }

  predicate CanAdvance(s: State) { s.phase.Busy? && s.phase.done < |s.phase.plan| }

  /** The next file operation of the running call succeeds. */
  function Advance(s: State): State
    requires CanAdvance(s)
  {
    State(Apply(s.fs, s.phase.plan[s.phase.done]), s.phase.(done := s.phase.done + 1))
  }

  predicate CanFinish(s: State) { s.phase.Busy? && s.phase.done == |s.phase.plan| }

  /** The running call returns without an error. */
  function Finish(s: State): State
    requires CanFinish(s)
  {
    s.(phase := Ready(s.phase.mem))
  }

  /** The next file operation fails and the running call returns the error. A failed open ends the process. */
  ghost predicate Fails(s: State, s': State)
    requires CanAdvance(s)
  {
    && FailedOp(s.fs, s.phase.plan[s.phase.done], s'.fs)
    && s'.phase == if s.phase.call.OpenCall? then Down else Ready(s.phase.mem)
  }

  ghost predicate Crashes(s: State, s': State) { Crashed(s.fs, s'.fs) && s'.phase == Down }

  /** The append in place that a caller may make: the file is terminated, or will be rewritten as a whole. */
  predicate SafeToAppend(s: State)
    requires s.phase.Ready?
  {
    Overflows(s.phase.mem) || Terminated(MainText(s.fs))
  }

  // ----------------------------------------------------------- its invariant

  /** The calls a sound run can be in the middle of. */
  ghost predicate SoundCall(p: Phase)
    requires p.Busy?
  {
    var image := MainText(p.start);
    || (p.plan == RewriteOps(EncodeAll(p.mem.entries)) && Recoverable(image, p.before))
    || (p.plan == [] && p.mem.entries == p.before && Stored(image, p.before))
    || (&& p.call.AppendCall? && p.plan == AppendOps(EncodeLine(p.call.entry))
        && p.mem.entries == p.before + [p.call.entry] && Stored(image, p.before) && Terminated(image))
  }

  ghost predicate Sound(s: State) {
    match s.phase
    case Down =>
      Settled(s.fs) && exists es :: Ascending(es) && Recoverable(MainText(s.fs), es)
    case Ready(mem) =>
      Settled(s.fs) && Stored(MainText(s.fs), mem.entries) && Numbered(mem)
    case Busy(_, before, mem, start, plan, done) =>
      && Settled(start) && done <= |plan| && s.fs == After(start, plan, done)
      && Ascending(before) && Numbered(mem) && SoundCall(s.phase)
  }

  /** The list the caller was last promised. */
  function Committed(s: State): seq<Entry> {
    match s.phase
    case Down => Recover(MainText(s.fs))
    case Ready(mem) => mem.entries
    case Busy(_, before, _, _, _, _) => before
  }

  /** The list the running call is about to establish. */
  function Intended(s: State): seq<Entry> { if s.phase.Busy? then s.phase.mem.entries else Committed(s) }

  lemma OpenIsSound(s: State)
    requires Sound(s) && s.phase.Down?
    ensures Sound(BeginOpen(s))
    ensures Intended(BeginOpen(s)) == Committed(s) == Committed(BeginOpen(s))
  {
    hide EncodeAll, RecoverText, OpenPlan, RewriteOps;
    var image := MainText(s.fs);
    var es :| Ascending(es) && Recoverable(image, es);
    OpenRecovers(image, es);
    OpenIsNumbered(image);
  }

  lemma AppendIsSound(s: State, adif: string, receivedAt: nat)
    requires Sound(s) && s.phase.Ready? && SafeToAppend(s)
    ensures Sound(BeginAppend(s, adif, receivedAt))
    ensures Intended(BeginAppend(s, adif, receivedAt))
         == Capped(Committed(s) + [Entry(s.phase.mem.nextSeq, adif, receivedAt)])
  {
    hide EncodeAll, EncodeLine, RewriteOps, AppendOps, After, Stored, Torn, Terminated, Numbered, Ascending, Settled;
    var m := s.phase.mem;
    var e := Entry(m.nextSeq, adif, receivedAt);
    AppendKeepsNumbered(m, e);
    NoOperations(s.fs, AppendPlan(m, e));
    NumberedAscends(m);
  }

  lemma NumberedAscends(m: Mem)
    requires Numbered(m)
    ensures Ascending(m.entries)
  {
  }

  lemma RemoveIsSound(s: State, seqNo: nat)
    requires Sound(s) && s.phase.Ready?
    ensures Sound(BeginRemove(s, seqNo))
    ensures Intended(BeginRemove(s, seqNo)) == Without(Committed(s), seqNo)
  {
    hide EncodeAll, RewriteOps, After, Stored, Torn, Terminated, Numbered, Ascending, Settled;
    WithoutIs(s.phase.mem.entries, seqNo);
    RemoveKeepsNumbered(s.phase.mem, seqNo);
    NoOperations(s.fs, RemovePlan(s.phase.mem, seqNo));
    NumberedAscends(s.phase.mem);
  }

  lemma AdvanceIsSound(s: State)
    requires Sound(s) && CanAdvance(s)
    ensures Sound(Advance(s)) && Committed(Advance(s)) == Committed(s) && Intended(Advance(s)) == Intended(s)
  {
    hide EncodeAll, EncodeLine, RewriteOps, AppendOps, Apply, Numbered, Ascending, Settled;
    assert After(s.phase.start, s.phase.plan, s.phase.done + 1)
        == Apply(After(s.phase.start, s.phase.plan, s.phase.done), s.phase.plan[s.phase.done]);
  }

  /** Wherever a call is interrupted, the file recovers the list before it or the list after it. */
  lemma InterruptedCallRecovers(s: State, image: Option<string>)
    requires Sound(s) && s.phase.Busy? && CrashImage(s.fs, image)
    ensures Recoverable(image, s.phase.before) || Recoverable(image, s.phase.mem.entries)
    ensures CanFinish(s) ==> Stored(image, s.phase.mem.entries)
  {
    hide EncodeAll, EncodeLine, RewriteOps, AppendOps, After, CrashImage;
    var p := s.phase;
    RewriteLength(EncodeAll(p.mem.entries));
    if p.call.AppendCall? {
      AppendLength(EncodeLine(p.call.entry));
    }
    if p.plan == RewriteOps(EncodeAll(p.mem.entries)) && Recoverable(MainText(p.start), p.before) {
      CrashDuringRewrite(p.start, p.mem.entries, p.done, image);
    } else if p.plan == [] {
      assert s.fs == p.start by { NoOperations(p.start, p.plan); }
      SettledImage(s.fs, image);
    } else {
      CrashDuringAppend(p.start, p.before, p.call.entry, p.done, image);
    }
  }

  /** A finished call has its list on disk, and nothing of it is pending. */
  lemma FinishIsSound(s: State)
    requires Sound(s) && CanFinish(s)
    ensures Sound(Finish(s)) && Committed(Finish(s)) == Intended(s)
  {
    hide EncodeAll, EncodeLine, RewriteOps, AppendOps, After;
    var p := s.phase;
    assert Settled(s.fs) by {
      if p.plan == RewriteOps(EncodeAll(p.mem.entries)) {
        RewriteLength(EncodeAll(p.mem.entries));
        RewriteProgress(p.start, EncodeAll(p.mem.entries), 5);
      } else if p.plan == [] {
        NoOperations(p.start, p.plan);
      } else {
        AppendLength(EncodeLine(p.call.entry));
        AppendProgress(p.start, EncodeLine(p.call.entry), 4);
      }
    }
    SettledImage(s.fs, MainText(s.fs));
    InterruptedCallRecovers(s, MainText(s.fs));
  }

  /**
   Crash refinement: whatever a crash leaves of a sound state, a restart replays exactly
   the list before the interrupted call or exactly the list after it, and without a call
   in progress exactly the list in memory.
   */
  lemma CrashRecovers(s: State, image: Option<string>)
    requires Sound(s) && CrashImage(s.fs, image)
    ensures Recover(image) == Committed(s) || Recover(image) == Intended(s)
    ensures exists es :: Ascending(es) && Recoverable(image, es)
    ensures CanFinish(s) ==> Recover(image) == Intended(s)
  {
    hide EncodeAll, EncodeLine, RecoverText, OpenPlan, CrashImage, RewriteOps, AppendOps;
    match s.phase {
      case Down =>
        SettledImage(s.fs, image);
      case Ready(mem) =>
        SettledImage(s.fs, image);
        OpenRecovers(image, mem.entries);
      case Busy(_, before, mem, _, _, _) =>
        InterruptedCallRecovers(s, image);
        if Recoverable(image, mem.entries) {
          OpenRecovers(image, mem.entries);
        }
        if Recoverable(image, before) {
          OpenRecovers(image, before);
        }
    }
  }

  lemma CrashIsSound(s: State, s': State)
    requires Sound(s) && Crashes(s, s')
    ensures Sound(s') && (Committed(s') == Committed(s) || Committed(s') == Intended(s))
  {
    hide RecoverText, Recoverable, CrashImage;
    CrashRecovers(s, MainText(s'.fs));
  }

  // ---------------------------------------------------------------- runs

  datatype Event =
    | Open
    | Append(adif: string, receivedAt: nat)
    | Remove(seqNo: nat)
    | Operate        // the next file operation of the running call
    | Return
    | Crash
    | Fault          // the next file operation of the running call reports an error

  ghost predicate Next(s: State, ev: Event, s': State) {
    match ev
    case Open => s.phase.Down? && s' == BeginOpen(s)
    case Append(adif, receivedAt) => s.phase.Ready? && s' == BeginAppend(s, adif, receivedAt)
    case Remove(seqNo) => s.phase.Ready? && s' == BeginRemove(s, seqNo)
    case Operate => CanAdvance(s) && s' == Advance(s)
    case Return => CanFinish(s) && s' == Finish(s)
    case Crash => Crashes(s, s')
    case Fault => CanAdvance(s) && Fails(s, s')
  }

  /** No file error, and no append in place to a file that does not end in a newline. */
  predicate Safe(s: State, ev: Event) {
    !ev.Fault? && (ev.Append? && s.phase.Ready? ==> SafeToAppend(s))
  }

  const EMPTY_DISK := State(Fs(None, None, [], []), Down)

  ghost predicate IsRun(states: seq<State>, events: seq<Event>) {
    && |states| == |events| + 1 && states[0] == EMPTY_DISK
    && forall i :: 0 <= i < |events| ==> Next(states[i], events[i], states[i + 1])
  }

  /** The machine may get from one state to the other by these events. */
  ghost predicate Reaches(s: State, events: seq<Event>, s': State) {
    if events == [] then s' == s
    else
      var front, last := events[..|events| - 1], events[|events| - 1];
      exists m :: Reaches(s, front, m) && Next(m, last, s')
  }

  function Operations(k: nat): (events: seq<Event>)
    ensures |events| == k
  {
    seq(k, _ => Operate)
  }

  /** A call runs to its end ... */
  ghost predicate Returns(s: State, call: Event, s': State) {
    exists k: nat :: Reaches(s, [call] + Operations(k) + [Return], s')
  }

  /** ... or up to a file operation that fails. */
  ghost predicate GivesUp(s: State, call: Event, s': State) {
    exists k: nat :: Reaches(s, [call] + Operations(k) + [Fault], s')
  }

  lemma ReachesNext(s: State, events: seq<Event>, m: State, ev: Event, s': State)
    requires Reaches(s, events, m) && Next(m, ev, s')
    ensures Reaches(s, events + [ev], s')
  {
    hide Next;
    assert (events + [ev])[..|events|] == events;
  }

  lemma {:induction false} ReachesJoin(s: State, a: seq<Event>, m: State, b: seq<Event>, s': State)
    requires Reaches(s, a, m) && Reaches(m, b, s')
    ensures Reaches(s, a + b, s')
  {
    hide Next;
    if b == [] {
      assert a + b == a;
    } else {
      var front, last := b[..|b| - 1], b[|b| - 1];
      var n :| Reaches(m, front, n) && Next(n, last, s');
      ReachesJoin(s, a, m, front, n);
      ReachesNext(s, a + front, n, last, s');
      assert a + front + [last] == a + b;
    }
  }

  /** What can be reached from the end of a run is the end of a longer run. */
  lemma {:induction false} RunGoesOn(states: seq<State>, events: seq<Event>, more: seq<Event>, s': State)
    returns (states': seq<State>)
    requires IsRun(states, events) && Reaches(states[|events|], more, s')
    ensures IsRun(states', events + more) && states <= states' && states'[|states'| - 1] == s'
  {
    hide Next;
    if more == [] {
      states' := states;
      assert events + more == events;
    } else {
      var front, last := more[..|more| - 1], more[|more| - 1];
      var m :| Reaches(states[|events|], front, m) && Next(m, last, s');
      var states1 := RunGoesOn(states, events, front, m);
      states' := states1 + [s'];
      assert events + more == events + front + [last];
    }
  }

  function AdvanceBy(s: State, k: nat): State
    requires s.phase.Busy? && s.phase.done + k <= |s.phase.plan|
    ensures AdvanceBy(s, k).phase == s.phase.(done := s.phase.done + k)
  {
    if k == 0 then s else Advance(AdvanceBy(s, k - 1))
  }

  /** The call that this event starts, before its first operation. */
  predicate Begins(s0: State, call: Event, s: State) {
    && s.phase.Busy? && s.phase.done == 0 && s0.fs == s.fs == s.phase.start
    && match call
       case Open => s0.phase.Down? && s == BeginOpen(s0)
       case Append(adif, receivedAt) => s0.phase.Ready? && s == BeginAppend(s0, adif, receivedAt)
       case Remove(seqNo) => s0.phase.Ready? && s == BeginRemove(s0, seqNo)
       case _ => false
  }

  lemma BeginsIsNext(s0: State, call: Event, s: State)
    requires Begins(s0, call, s)
    ensures Next(s0, call, s)
  {
    hide BeginOpen, BeginAppend, BeginRemove;
  }

  lemma {:induction false} Operating(s0: State, call: Event, s: State, k: nat)
    requires Begins(s0, call, s) && k <= |s.phase.plan|
    ensures Reaches(s0, [call] + Operations(k), AdvanceBy(s, k))
    ensures AdvanceBy(s, k).fs == After(s.phase.start, s.phase.plan, k)
  {
    hide Apply, Next, BeginOpen, BeginAppend, BeginRemove;
    if k == 0 {
      BeginsIsNext(s0, call, s);
      assert Reaches(s0, [], s0);
      ReachesNext(s0, [], s0, call, s);
      assert [] + [call] == [call] + Operations(0);
    } else {
      Operating(s0, call, s, k - 1);
      OperateAdvances(s, k - 1);
      ReachesNext(s0, [call] + Operations(k - 1), AdvanceBy(s, k - 1), Operate, AdvanceBy(s, k));
      assert [call] + Operations(k - 1) + [Operate] == [call] + Operations(k);
    }
  }

  lemma OperateAdvances(s: State, k: nat)
    requires s.phase.Busy? && s.phase.done + k < |s.phase.plan|
    ensures Next(AdvanceBy(s, k), Operate, AdvanceBy(s, k + 1))
  {
  }

  lemma PlanReturns(s: State, s': State)
    requires s.phase.Busy? && s.phase.done == 0 && s' == AdvanceBy(s, |s.phase.plan|)
    ensures Next(s', Return, State(s'.fs, Ready(s.phase.mem)))
  {
    hide AdvanceBy;
  }

  lemma PlanFails(s: State, k: nat, fs': Fs)
    requires s.phase.Busy? && s.phase.done == 0 && k < |s.phase.plan|
    requires FailedOp(AdvanceBy(s, k).fs, s.phase.plan[k], fs')
    ensures Next(AdvanceBy(s, k), Fault, State(fs', if s.phase.call.OpenCall? then Down else Ready(s.phase.mem)))
  {
    hide FailedOp, AdvanceBy, Advance, BeginOpen, BeginAppend, BeginRemove, Crashes, Finish;
    var m := AdvanceBy(s, k);
    assert m.phase == s.phase.(done := s.phase.done + k);
  }

  lemma CallReturns(s0: State, call: Event, s: State)
    requires Begins(s0, call, s)
    ensures var n := |s.phase.plan|;
            Reaches(s0, [call] + Operations(n) + [Return], State(After(s.fs, s.phase.plan, n), Ready(s.phase.mem)))
  {
    hide Reaches, Next, BeginOpen, BeginAppend, BeginRemove, AdvanceBy, After;
    var n := |s.phase.plan|;
    Operating(s0, call, s, n);
    PlanReturns(s, AdvanceBy(s, n));
    ReachesNext(s0, [call] + Operations(n), AdvanceBy(s, n), Return, State(AdvanceBy(s, n).fs, Ready(s.phase.mem)));
  }

  /** A plan carried out to its end is a call that returns; a plan given up is a call that meets a fault. */
  lemma CallEnds(s0: State, call: Event, s: State, fs': Fs, ok: bool)
    requires Begins(s0, call, s)
    requires if ok then fs' == After(s.fs, s.phase.plan, |s.phase.plan|) else GaveUp(s.fs, s.phase.plan, fs')
    ensures ok ==> Returns(s0, call, State(fs', Ready(s.phase.mem)))
    ensures !ok ==> GivesUp(s0, call, State(fs', if s.phase.call.OpenCall? then Down else Ready(s.phase.mem)))
  {
    hide FailedOp, Reaches, Next, BeginOpen, BeginAppend, BeginRemove, AdvanceBy, After;
    if ok {
      CallReturns(s0, call, s);
    } else {
      var k :| 0 <= k < |s.phase.plan| && FailedOp(After(s.fs, s.phase.plan, k), s.phase.plan[k], fs');
      Operating(s0, call, s, k);
      var s' := State(fs', if s.phase.call.OpenCall? then Down else Ready(s.phase.mem));
      PlanFails(s, k, fs');
      ReachesNext(s0, [call] + Operations(k), AdvanceBy(s, k), Fault, s');
    }
  }

  /** Every safe step keeps the invariant, and the promised list changes only when a call returns or is cut off. */
  lemma StepRefinesList(s: State, ev: Event, s': State)
    requires Sound(s) && Next(s, ev, s') && Safe(s, ev)
    ensures Sound(s')
    ensures if ev.Return? then Committed(s') == Intended(s)
            else if ev.Crash? then Committed(s') == Committed(s) || Committed(s') == Intended(s)
            else Committed(s') == Committed(s)
    ensures match ev
            case Append(adif, receivedAt) =>
              Intended(s') == Capped(Committed(s) + [Entry(s.phase.mem.nextSeq, adif, receivedAt)])
            case Remove(seqNo) => Intended(s') == Without(Committed(s), seqNo)
            case Operate => Intended(s') == Intended(s)
            case _ => Intended(s') == Committed(s')
  {
    hide Sound, SafeToAppend, Recover, OpenMem, OpenPlan, AppendMem, AppendPlan, RemoveMem, RemovePlan, Crashed, Apply;
    match ev {
      case Open => OpenIsSound(s);
      case Append(adif, receivedAt) => AppendIsSound(s, adif, receivedAt);
      case Remove(seqNo) => RemoveIsSound(s, seqNo);
      case Operate => AdvanceIsSound(s);
      case Return => FinishIsSound(s);
      case Crash => CrashIsSound(s, s');
    }
  }

  /**
   Crash safety over whole runs: in every state of every safe run, a crash would leave a file
   from which a restart replays exactly the list before, or the list after, the call in progress.
   */
  lemma {:induction false} RunRecovers(states: seq<State>, events: seq<Event>, i: nat)
    requires IsRun(states, events) && i < |states|
    requires forall j :: 0 <= j < i ==> Safe(states[j], events[j])
    ensures Sound(states[i])
    ensures forall image :: CrashImage(states[i].fs, image) ==>
              Recover(image) == Committed(states[i]) || Recover(image) == Intended(states[i])
  {
    hide Next, Sound, Safe, Recover, CrashImage, Intended, Committed;
    if i == 0 {
      EmptyDiskIsSound();
    } else {
      RunRecovers(states, events, i - 1);
      assert Next(states[i - 1], events[i - 1], states[i - 1 + 1]);
      StepRefinesList(states[i - 1], events[i - 1], states[i]);
    }
    forall image | CrashImage(states[i].fs, image)
      ensures Recover(image) == Committed(states[i]) || Recover(image) == Intended(states[i])
    {
      CrashRecovers(states[i], image);
    }
  }

  lemma EmptyDiskIsSound()
    ensures Sound(EMPTY_DISK)
  {
    assert Ascending([]) && Recoverable(None, []);
  }

  // -------------------------------------- an append that returned, and is lost

  /** A call that returns after this many operations. */
  function Whole(call: Event, k: nat): seq<Event> { [call] + Operations(k) + [Return] }

  /** An append that crashes in front of its newline, a restart, and one more append. */
  function LossEvents(a: string, b: string, now: nat): seq<Event> {
    [Append(a, now)] + Operations(2) + [Crash] + Whole(Open, 0) + Whole(Append(b, now), 4)
  }

  lemma CrashInFrontOfNewline(s: State, a: string, now: nat) returns (s': State)
    requires Sound(s) && s.phase.Ready? && Terminated(MainText(s.fs)) && !Overflows(s.phase.mem)
    ensures var es, e := Committed(s), Entry(s.phase.mem.nextSeq, a, now);
            && Reaches(s, [Append(a, now)] + Operations(2) + [Crash], s')
            && s'.phase.Down? && Settled(s'.fs) && MainText(s'.fs) == Some(EncodeAll(es) + EncodeLine(e))
            && Stored(MainText(s'.fs), es + [e])
  {
    hide EncodeLine, EncodeAll, Reaches, Next, After, CrashImage, AppendOps, AdvanceBy;
    var es, e := s.phase.mem.entries, Entry(s.phase.mem.nextSeq, a, now);
    var line := EncodeLine(e);
    var s1 := BeginAppend(s, a, now);
    AppendLength(line);
    Operating(s, Append(a, now), s1, 2);
    TextOfStored(MainText(s.fs), es);
    assert line <= line + "\n";
    EveryCutHappens(s.fs, line, line);
    var text := EncodeAll(es) + line;
    s' := State(Fs(Some(File(text, "")), None, [], []), Down);
    assert text + "" == text;
    CrashIsNext(AdvanceBy(s1, 2), s');
    ReachesNext(s, [Append(a, now)] + Operations(2), AdvanceBy(s1, 2), Crash, s');
    EncodeAllSnoc(es, e);
  }

  lemma CrashIsNext(s: State, s': State)
    requires s'.phase.Down? && Settled(s'.fs) && CrashImage(s.fs, MainText(s'.fs)) && s'.fs.aside == []
    ensures Next(s, Crash, s')
  {
    hide CrashImage;
  }

  lemma TextOfStored(image: Option<string>, es: seq<Entry>)
    requires Stored(image, es) && Terminated(image)
    ensures TextOrEmpty(image) == EncodeAll(es)
  {
    if image.Some? {
      TerminatedIsClean(image, es);
    }
  }

  lemma LastNumberContinues(es: seq<Entry>, e: Entry)
    requires Below(es, e.seqNo)
    ensures NextSeq(es + [e]) == e.seqNo + 1
  {
    var all := es + [e];
    NumbersContinue(all);
    assert all[|es|] == e;
  }

  /** What an append behind a complete line without its newline leaves at its end. */
  lemma AppendedImages(fs: Fs, es: seq<Entry>, d: Entry, e: Entry)
    requires Settled(fs) && MainText(fs) == Some(EncodeAll(es) + EncodeLine(d))
    ensures |AppendOps(EncodeLine(e))| == 4
    ensures forall image :: CrashImage(After(fs, AppendOps(EncodeLine(e)), 4), image) ==> Recover(image) == es
  {
    hide EncodeLine, EncodeAll, After, CrashImage, AppendOps, RecoverText;
    AppendLength(EncodeLine(e));
    AppendProgress(fs, EncodeLine(e), 4);
    LineLayout(d);
    AppendBehindCutIsLost(es, d, EncodeLine(d), e);
    var fs' := After(fs, AppendOps(EncodeLine(e)), 4);
    forall image | CrashImage(fs', image)
      ensures Recover(image) == es
    {
      SettledImage(fs', image);
      assert MainText(fs').value == EncodeAll(es) + EncodeLine(d) + (EncodeLine(e) + "\n");
    }
  }

  /**
   From every ready state with a terminated file and room for two more entries, there is a run
   without a file error in which an append returns Ok, and whatever a crash leaves replays neither
   the new entry nor the one before it.
   */
  lemma AcceptedAppendIsLost(s: State, a: string, b: string, now: nat) returns (s': State)
    requires Sound(s) && s.phase.Ready? && Terminated(MainText(s.fs))
    requires |s.phase.mem.entries| + 2 <= MAX_QUEUE_LEN
    ensures Reaches(s, LossEvents(a, b, now), s') && s'.phase.Ready?
    ensures var n := s.phase.mem.nextSeq;
            Committed(s') == Committed(s) + [Entry(n, a, now), Entry(n + 1, b, now)]
    ensures forall image :: CrashImage(s'.fs, image) ==> Recover(image) == Committed(s)
  {
    hide EncodeLine, EncodeAll, Reaches, Next, After, CrashImage, AppendOps, RecoverText, OpenPlan, NextSeq;
    var es, ea := s.phase.mem.entries, Entry(s.phase.mem.nextSeq, a, now);
    var s1 := CrashInFrontOfNewline(s, a, now);
    OpenRecovers(MainText(s1.fs), es + [ea]);
    NoOperations(s1.fs, []);
    CallReturns(s1, Open, BeginOpen(s1));
    LastNumberContinues(es, ea);
    var s2 := State(s1.fs, Ready(Mem(es + [ea], ea.seqNo + 1)));
    var eb := Entry(ea.seqNo + 1, b, now);
    AppendLength(EncodeLine(eb));
    CallReturns(s2, Append(b, now), BeginAppend(s2, b, now));
    s' := State(After(s2.fs, AppendOps(EncodeLine(eb)), 4), Ready(AppendMem(s2.phase.mem, eb)));
    LossEventsJoin(s, a, b, now, s1, s2, s');
    AppendedImages(s2.fs, es, ea, eb);
    assert Committed(s') == es + [ea] + [eb] == es + [ea, eb];
  }

  lemma LossEventsJoin(s: State, a: string, b: string, now: nat, s1: State, s2: State, s3: State)
    requires Reaches(s, [Append(a, now)] + Operations(2) + [Crash], s1)
    requires Reaches(s1, Whole(Open, 0), s2) && Reaches(s2, Whole(Append(b, now), 4), s3)
    ensures Reaches(s, LossEvents(a, b, now), s3)
  {
    hide Reaches, Whole;
    ReachesJoin(s, [Append(a, now)] + Operations(2) + [Crash], s1, Whole(Open, 0), s2);
    ReachesJoin(s, [Append(a, now)] + Operations(2) + [Crash] + Whole(Open, 0), s2, Whole(Append(b, now), 4), s3);
  }

  /** Such a run from an empty disk: two appends, the second of which returned, and nothing is replayed. */
  lemma RunThatLosesAll(a: string, b: string, now: nat) returns (states: seq<State>, events: seq<Event>)
    ensures IsRun(states, events) && forall i :: 0 <= i < |events| ==> !events[i].Fault?
    ensures events == Whole(Open, 0) + LossEvents(a, b, now)
    ensures var last := states[|states| - 1];
            && Committed(last) == [Entry(1, a, now), Entry(2, b, now)]
            && forall image :: CrashImage(last.fs, image) ==> Recover(image) == []
  {
    hide Reaches, Next, CrashImage, RecoverText;
    var s := State(EMPTY_DISK.fs, Ready(Mem([], 1)));
    NoOperations(EMPTY_DISK.fs, []);
    CallReturns(EMPTY_DISK, Open, BeginOpen(EMPTY_DISK));
    assert Stored(None, []);
    var s' := AcceptedAppendIsLost(s, a, b, now);
    ReachesJoin(EMPTY_DISK, Whole(Open, 0), s, LossEvents(a, b, now), s');
    events := Whole(Open, 0) + LossEvents(a, b, now);
    states := RunGoesOn([EMPTY_DISK], [], events, s');
    assert [] + events == events;
  }

  // -------------------------------------- when an unterminated file can come about

  /** The cut of an append that leaves a complete line without its newline. */
  ghost predicate UnfinishedLine(image: Option<string>) {
    !Terminated(image) && exists es :: Stored(image, es)
  }

  /**
   The guard of an append in place is lost only by a crash at that one cut: in a ready state
   with a terminated file, every call returns to a ready state with a terminated file.
   */
  lemma CallsLeaveFileTerminated(s: State)
    requires Sound(s) && CanFinish(s) && (s.phase.plan == [] ==> Terminated(MainText(s.phase.start)))
    ensures Terminated(MainText(s.fs))
  {
    hide EncodeAll, EncodeLine, RewriteOps, AppendOps, After, CrashImage;
    var p := s.phase;
    RewriteLength(EncodeAll(p.mem.entries));
    if p.call.AppendCall? {
      AppendLength(EncodeLine(p.call.entry));
    }
    EncodeAllTerminated(p.mem.entries);
    OwnImage(s.fs);
    if p.plan == [] {
      NoOperations(p.start, p.plan);
    } else if p.plan == RewriteOps(EncodeAll(p.mem.entries)) && Recoverable(MainText(p.start), p.before) {
      CrashDuringRewrite(p.start, p.mem.entries, 5, MainText(s.fs));
    } else {
      CrashDuringAppend(p.start, p.before, p.call.entry, 4, MainText(s.fs));
    }
  }

  lemma OwnImage(fs: Fs)
    ensures CrashImage(fs, MainText(fs))
  {
    if fs.main.Some? {
      var f := fs.main.value;
      assert f.durable <= f.Contents() <= f.Contents();
    }
  }

  /** The spool file is terminated wherever an append in place could meet it. */
  ghost predicate Healthy(s: State) {
    match s.phase
    case Down => !UnfinishedLine(MainText(s.fs))
    case Ready(_) => Terminated(MainText(s.fs))
    case Busy(_, _, _, start, plan, _) => plan == [] ==> Terminated(MainText(start))
  }

  lemma OpenIsHealthy(s: State)
    requires Sound(s) && s.phase.Down? && Healthy(s)
    ensures Healthy(BeginOpen(s))
  {
    hide EncodeAll, EncodeLine, Torn, Recover, OpenPlan, RewriteOps, OpenMem;
    var image := MainText(s.fs);
    var es :| Ascending(es) && Recoverable(image, es);
    OpenRecovers(image, es);
    RewriteLength(EncodeAll(es));
  }

  lemma StepKeepsHealthy(s: State, ev: Event, s': State)
    requires Sound(s) && Healthy(s) && Next(s, ev, s') && !ev.Fault?
    requires ev.Crash? ==> !UnfinishedLine(MainText(s'.fs))
    ensures Healthy(s')
  {
    hide Sound, Recover, OpenMem, OpenPlan, AppendMem, RemoveMem, Apply, EncodeAll, EncodeLine;
    hide UnfinishedLine, Terminated, RewriteOps, AppendOps;
    match ev {
      case Open => OpenIsHealthy(s);
      case Append(adif, receivedAt) =>
        var e := Entry(s.phase.mem.nextSeq, adif, receivedAt);
        RewriteLength(EncodeAll(AppendMem(s.phase.mem, e).entries));
        AppendLength(EncodeLine(e));
      case Return => CallsLeaveFileTerminated(s);
      case _ =>
    }
  }

  lemma EmptyDiskIsHealthy()
    ensures Healthy(EMPTY_DISK)
  {
  }

  /** So a run without file errors and without a crash at that cut is safe throughout. */
  lemma {:induction false} RunWithoutUnfinishedLineIsSafe(states: seq<State>, events: seq<Event>, i: nat)
    requires IsRun(states, events) && i < |states|
    requires forall j :: 0 <= j < i ==>
               !events[j].Fault? && (events[j].Crash? ==> !UnfinishedLine(MainText(states[j + 1].fs)))
    ensures Sound(states[i]) && Healthy(states[i])
    ensures forall j :: 0 <= j < i ==> Safe(states[j], events[j])
  {
    hide Next, Sound, UnfinishedLine, Terminated;
    if i == 0 {
      EmptyDiskIsSound();
      EmptyDiskIsHealthy();
    } else {
      RunWithoutUnfinishedLineIsSafe(states, events, i - 1);
      assert Next(states[i - 1], events[i - 1], states[i - 1 + 1]);
      StepRefinesList(states[i - 1], events[i - 1], states[i]);
      StepKeepsHealthy(states[i - 1], events[i - 1], states[i]);
    }
  }
}

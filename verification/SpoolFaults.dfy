/**
 What file errors can do to the entries the caller was promised. After an error the list in memory
 and the file need not agree; an entry is promised from the moment its append returned Ok until it
 is removed or evicted.
 */
module SpoolFaults {
  import opened Results
  import opened EntryJson
  import opened SpoolFile
  import opened FileSystem
  import opened Spool

  // ------------------------------------------------------------ promised entries

  ghost predicate Holds(es: seq<Entry>, promised: set<Entry>) { forall e <- promised :: e in es }

  /** A file from which a restart replays, among others, all promised entries. */
  ghost predicate Good(image: Option<string>, promised: set<Entry>) {
    Recoverable(image, Recover(image)) && Holds(Recover(image), promised)
  }

  /** Whatever a crash leaves is such a file. */
  ghost predicate GoodFs(fs: Fs, promised: set<Entry>) {
    forall image :: CrashImage(fs, image) ==> Good(image, promised)
  }

  /** A returned append promises its entry; a remove and an eviction take entries back. */
  function Promised(promised: set<Entry>, s: State, ev: Event, s': State): set<Entry> {
    match ev
    case Return =>
      if s.phase.Busy? && s.phase.call.AppendCall? then promised + {s.phase.call.entry} else promised
    case Append(_, _) => if s'.phase.Busy? then Kept(promised, s'.phase.mem.entries) else promised
    case Remove(_) => if s'.phase.Busy? then Kept(promised, s'.phase.mem.entries) else promised
    case _ => promised
  }

  function Kept(promised: set<Entry>, es: seq<Entry>): set<Entry> { set e | e in promised && e in es }

  /** In front of an append in place: the file is terminated, and no crash can bring an older one back. */
  predicate Appendable(fs: Fs) { fs.superseded == [] && Terminated(MainText(fs)) }

  predicate Careful(s: State, ev: Event) {
    ev.Append? && s.phase.Ready? ==> Overflows(s.phase.mem) || Appendable(s.fs)
  }

  // ------------------------------------------------------------ images of each plan

  lemma OwnImageIsGood(fs: Fs, promised: set<Entry>)
    requires GoodFs(fs, promised)
    ensures Good(MainText(fs), promised)
  {
    hide Good, CrashImage;
    OwnImage(fs);
  }

  lemma FewerPromises(fs: Fs, promised: set<Entry>, fewer: set<Entry>)
    requires GoodFs(fs, promised) && fewer <= promised
    ensures GoodFs(fs, fewer)
  {
    hide CrashImage, Recoverable, Recover;
  }

  lemma StoredIsGood(image: Option<string>, es: seq<Entry>, promised: set<Entry>)
    requires Recoverable(image, es) && Holds(es, promised)
    ensures Good(image, promised)
  {
    hide Recoverable, Recover;
    OpenRecovers(image, es);
  }

  /** A rewrite adds the new file to what a crash may leave, and at the end leaves nothing else. */
  lemma RewriteImagesOf(fs: Fs, text: string, k: nat, image: Option<string>)
    requires k <= 5 && CrashImage(After(fs, RewriteOps(text), k), image)
    ensures image == Some(text) || (k < 5 && CrashImage(fs, image))
  {
    hide After;
    RewriteProgress(fs, text, k);
    SyncedSurvives(File(text, ""), image);
  }

  lemma RewriteIsGood(fs: Fs, es: seq<Entry>, k: nat, promised: set<Entry>)
    requires k <= 5 && GoodFs(fs, promised) && Holds(es, promised)
    ensures GoodFs(After(fs, RewriteOps(EncodeAll(es)), k), promised)
  {
    hide After, CrashImage, Good, EncodeAll, RewriteOps;
    RewriteLength(EncodeAll(es));
    forall image | CrashImage(After(fs, RewriteOps(EncodeAll(es)), k), image)
      ensures Good(image, promised)
    {
      RewriteImagesOf(fs, EncodeAll(es), k, image);
      if image == Some(EncodeAll(es)) {
        StoredIsGood(image, es, promised);
      }
    }
  }

  lemma RewriteDelivers(fs: Fs, es: seq<Entry>, promised: set<Entry>)
    requires Holds(es, promised)
    ensures GoodFs(After(fs, RewriteOps(EncodeAll(es)), 5), promised)
  {
    hide After, CrashImage, Good, EncodeAll, RewriteOps;
    RewriteLength(EncodeAll(es));
    forall image | CrashImage(After(fs, RewriteOps(EncodeAll(es)), 5), image)
      ensures Good(image, promised)
    {
      RewriteImagesOf(fs, EncodeAll(es), 5, image);
      StoredIsGood(image, es, promised);
    }
  }

  function MainOrEmpty(fs: Fs): File { if fs.main.None? then EMPTY_FILE else fs.main.value }

  /** The steps of an append in place, with pending text in front of it or not. */
  lemma AppendSteps(fs: Fs, line: string, k: nat)
    requires k <= 4
    ensures var fs', f := After(fs, AppendOps(line), k), MainOrEmpty(fs);
            && fs'.superseded == fs.superseded
            && (k == 0 ==> fs' == fs)
            && (k > 0 ==> fs'.main == Some(
                                        if k == 1 then f
                                        else if k == 2 then f.Write(line)
                                        else if k == 3 then f.Write(line).Write("\n")
                                        else f.Write(line).Write("\n").Sync()))
  {
    var plan := AppendOps(line);
    assert After(fs, plan, 0) == fs;
    if k > 0 { assert After(fs, plan, 1) == Apply(fs, OpenAppend); }
    if k > 1 { assert After(fs, plan, 2) == Apply(After(fs, plan, 1), AppendMain(line)); }
    if k > 2 { assert After(fs, plan, 3) == Apply(After(fs, plan, 2), AppendMain("\n")); }
    if k > 3 { assert After(fs, plan, 4) == Apply(After(fs, plan, 3), SyncMain); }
  }

  lemma WrittenTwice(f: File, line: string)
    ensures f.Write(line).Contents() == f.Contents() + line
    ensures f.Write(line).Write("\n").Contents() == f.Contents() + (line + "\n")
  {
  }

  lemma GrownFileImage(f: File, f': File, more: string, image: string) returns (part: string)
    requires f'.durable == f.durable && f'.Contents() == f.Contents() + more
    requires f'.durable <= image <= f'.Contents()
    ensures part <= more
    ensures Survives(Some(f), Some(image)) || image == f.Contents() + part
  {
    if |image| <= |f.Contents()| {
      part := "";
      assert image == f'.Contents()[..|image|] == f.Contents()[..|image|];
    } else {
      part := image[|f.Contents()|..];
      assert f'.Contents()[..|f.Contents()|] == f.Contents();
      assert f'.Contents()[|f.Contents()|..] == more;
    }
  }

  /** What an append in place may leave: an image of before, or the old text and a part of the line. */
  lemma AppendImagesOf(fs: Fs, line: string, k: nat, image: Option<string>) returns (part: string)
    requires k <= 4 && fs.superseded == [] && CrashImage(After(fs, AppendOps(line), k), image)
    ensures part <= line + "\n"
    ensures CrashImage(fs, image) || image == Some(TextOrEmpty(MainText(fs)) + part)
    ensures k == 4 ==> image == Some(TextOrEmpty(MainText(fs)) + (line + "\n"))
  {
    hide After;
    AppendSteps(fs, line, k);
    var f := MainOrEmpty(fs);
    WrittenTwice(f, line);
    part := "";
    if k == 4 {
      part := line + "\n";
      SyncedSurvives(f.Write(line).Write("\n").Sync(), image);
    } else if k > 0 {
      var f' := After(fs, AppendOps(line), k).main.value;
      var more := if k == 1 then "" else if k == 2 then line else line + "\n";
      assert f'.Contents() == f.Contents() + more;
      part := GrownFileImage(f, f', more, image.value);
      assert part <= line + "\n";
      if fs.main.None? && image.value == "" {
        part := "";
      }
    }
  }

  lemma TornIsUnterminated(image: Option<string>, es: seq<Entry>)
    requires Torn(image, es)
    ensures !Terminated(image)
  {
    hide Terminated, Recover, EncodeLine;
    PlainAppendKeepsAllIffTerminated(image, es, Entry(0, "", 0));
  }

  /** An append in place to an appendable file keeps every promise, and delivers its own entry. */
  lemma AppendIsGood(fs: Fs, e: Entry, k: nat, promised: set<Entry>)
    requires k <= 4 && GoodFs(fs, promised) && Appendable(fs)
    ensures GoodFs(After(fs, AppendOps(EncodeLine(e)), k), if k == 4 then promised + {e} else promised)
  {
    hide After, CrashImage, Good, EncodeLine, AppendOps, Terminated;
    var es, text := Recover(MainText(fs)), TextOrEmpty(MainText(fs));
    OwnImageIsGood(fs, promised);
    GoodIsStored(fs, promised);
    AppendLength(EncodeLine(e));
    var wanted := if k == 4 then promised + {e} else promised;
    forall image | CrashImage(After(fs, AppendOps(EncodeLine(e)), k), image)
      ensures Good(image, wanted)
    {
      var part := AppendImagesOf(fs, EncodeLine(e), k, image);
      if k == 4 || !CrashImage(fs, image) {
        var grown := if k == 4 then EncodeLine(e) + "\n" else part;
        AppendedIsGood(es, e, grown, promised);
        assert image == Some(EncodeAll(es) + grown);
      }
    }
  }

  lemma GoodIsStored(fs: Fs, promised: set<Entry>)
    requires Good(MainText(fs), promised) && Terminated(MainText(fs))
    ensures Stored(MainText(fs), Recover(MainText(fs))) && Holds(Recover(MainText(fs)), promised)
    ensures TextOrEmpty(MainText(fs)) == EncodeAll(Recover(MainText(fs)))
  {
    hide Terminated, Recover, Torn, Stored, EncodeAll;
    var image, es := MainText(fs), Recover(MainText(fs));
    if Torn(image, es) {
      TornIsUnterminated(image, es);
    }
    TextOfStored(image, es);
  }

  lemma AppendedIsGood(es: seq<Entry>, e: Entry, part: string, promised: set<Entry>)
    requires part <= EncodeLine(e) + "\n" && Holds(es, promised)
    ensures Good(Some(EncodeAll(es) + part), promised)
    ensures part == EncodeLine(e) + "\n" ==> Good(Some(EncodeAll(es) + part), promised + {e})
  {
    hide EncodeLine, EncodeAll, Good, Recoverable;
    var image := Some(EncodeAll(es) + part);
    AppendImageRecovers(es, e, part);
    assert part == EncodeLine(e) + "\n" ==> EncodeLine(e) <= part;
    if EncodeLine(e) <= part {
      StoredIsRecoverable(image, es + [e]);
      StoredIsGood(image, es + [e], promised);
      StoredIsGood(image, es + [e], promised + {e});
    } else {
      StoredIsGood(image, es, promised);
    }
  }

  lemma StoredIsRecoverable(image: Option<string>, es: seq<Entry>)
    requires Stored(image, es)
    ensures Recoverable(image, es)
  {
  }

  // ------------------------------------------------------------ the invariant

  /** A call in the middle of its plan. */
  ghost predicate GoodCall(p: Phase, promised: set<Entry>)
    requires p.Busy?
  {
    && p.done <= |p.plan| && GoodFs(p.start, promised) && Holds(p.mem.entries, promised)
    && (p.call.AppendCall? ==> p.call.entry in p.mem.entries)
    && (|| p.plan == RewriteOps(EncodeAll(p.mem.entries))
        || (p.plan == [] && !p.call.AppendCall?)
        || (p.call.AppendCall? && p.plan == AppendOps(EncodeLine(p.call.entry)) && Appendable(p.start)))
  }

  /** Every promised entry is in memory, and in whatever a crash leaves. */
  ghost predicate Faithful(s: State, promised: set<Entry>) {
    match s.phase
    case Down => GoodFs(s.fs, promised)
    case Ready(mem) => GoodFs(s.fs, promised) && Holds(mem.entries, promised)
    case Busy(_, _, _, start, plan, done) =>
      GoodCall(s.phase, promised) && s.fs == After(start, plan, done)
  }

  lemma CallIsGood(p: Phase, promised: set<Entry>, k: nat)
    requires p.Busy? && GoodCall(p, promised) && k <= |p.plan|
    ensures GoodFs(After(p.start, p.plan, k), promised)
    ensures k == |p.plan| && p.call.AppendCall? ==> GoodFs(After(p.start, p.plan, k), promised + {p.call.entry})
  {
    hide After, GoodFs, EncodeAll, EncodeLine, RewriteOps, AppendOps, Appendable;
    RewriteLength(EncodeAll(p.mem.entries));
    if p.call.AppendCall? {
      AppendLength(EncodeLine(p.call.entry));
    }
    if p.plan == RewriteOps(EncodeAll(p.mem.entries)) {
      RewriteIsGood(p.start, p.mem.entries, k, promised);
      if k == 5 && p.call.AppendCall? {
        RewriteDelivers(p.start, p.mem.entries, promised + {p.call.entry});
      }
    } else if p.plan == [] {
      NoOperations(p.start, p.plan);
    } else {
      AppendIsGood(p.start, p.call.entry, k, promised);
      if k == 4 {
        FewerPromises(After(p.start, p.plan, 4), promised + {p.call.entry}, promised);
      }
    }
  }

  /** Whatever a failed operation leaves could also have come from before it or from its success. */
  lemma FailedImages(fs: Fs, op: FileOp, fs': Fs, image: Option<string>)
    requires FailedOp(fs, op, fs') && CrashImage(fs', image)
    ensures CrashImage(fs, image) || CrashImage(Apply(fs, op), image)
  {
    match op {
      case AppendMain(text) =>
        var part :| part <= text && fs' == Apply(fs, AppendMain(part));
        if fs.main.Some? {
          var f := fs.main.value;
          assert f.Write(text).Contents() == f.Contents() + text;
          assert f.Write(part).Contents() == f.Contents() + part;
        }
      case WriteTemp(text) =>
        var part :| part <= text && fs' == Apply(fs, WriteTemp(part));
      case _ =>
    }
  }

  lemma FaultIsGood(s: State, s': State, promised: set<Entry>)
    requires Faithful(s, promised) && CanAdvance(s) && Fails(s, s')
    ensures Faithful(s', promised)
  {
    hide After, CrashImage, Good, EncodeAll, EncodeLine, RewriteOps, AppendOps, Appendable, Apply, FailedOp;
    var p := s.phase;
    CallIsGood(p, promised, p.done);
    CallIsGood(p, promised, p.done + 1);
    NextOperation(p);
    forall image | CrashImage(s'.fs, image)
      ensures Good(image, promised)
    {
      FailedImages(s.fs, p.plan[p.done], s'.fs, image);
    }
  }

  lemma NextOperation(p: Phase)
    requires p.Busy? && p.done < |p.plan|
    ensures After(p.start, p.plan, p.done + 1) == Apply(After(p.start, p.plan, p.done), p.plan[p.done])
  {
    hide Apply;
  }

  lemma AdvanceIsFaithful(s: State, promised: set<Entry>)
    requires Faithful(s, promised) && CanAdvance(s)
    ensures Faithful(Advance(s), promised)
  {
    hide After, GoodFs, EncodeAll, EncodeLine, RewriteOps, AppendOps, Appendable, Apply;
    NextOperation(s.phase);
  }

  lemma FinishIsFaithful(s: State, promised: set<Entry>)
    requires Faithful(s, promised) && CanFinish(s)
    ensures Faithful(Finish(s), Promised(promised, s, Return, Finish(s)))
  {
    hide After, GoodFs, EncodeAll, EncodeLine, RewriteOps, AppendOps, Appendable;
    CallIsGood(s.phase, promised, s.phase.done);
  }

  lemma OpenIsFaithful(s: State, promised: set<Entry>)
    requires Faithful(s, promised) && s.phase.Down?
    ensures Faithful(BeginOpen(s), promised)
  {
    hide After, EncodeAll, RewriteOps, Recover, OpenPlan, Stored, Torn, GoodFs;
    var image := MainText(s.fs);
    OwnImageIsGood(s.fs, promised);
    OpenRecovers(image, Recover(image));
    NoOperations(s.fs, OpenPlan(image));
  }

  lemma KeptHolds(fs: Fs, promised: set<Entry>, es: seq<Entry>)
    requires GoodFs(fs, promised)
    ensures Kept(promised, es) <= promised && Holds(es, Kept(promised, es)) && GoodFs(fs, Kept(promised, es))
  {
    FewerPromises(fs, promised, Kept(promised, es));
  }

  lemma AppendIsFaithful(s: State, adif: string, receivedAt: nat, promised: set<Entry>)
    requires Faithful(s, promised) && s.phase.Ready? && Careful(s, Append(adif, receivedAt))
    ensures var s' := BeginAppend(s, adif, receivedAt);
            Faithful(s', Promised(promised, s, Append(adif, receivedAt), s'))
  {
    hide After, EncodeAll, EncodeLine, RewriteOps, AppendOps, Appendable, GoodFs, Kept;
    var m := s.phase.mem;
    var e := Entry(m.nextSeq, adif, receivedAt);
    KeptHolds(s.fs, promised, AppendMem(m, e).entries);
    NoOperations(s.fs, AppendPlan(m, e));
    NewestIsKept(m.entries, e);
  }

  lemma NewestIsKept(es: seq<Entry>, e: Entry)
    ensures e in Capped(es + [e])
  {
    var r := Capped(es + [e]);
    assert r[|r| - 1] == (es + [e])[|es|];
  }

  lemma RemoveIsFaithful(s: State, seqNo: nat, promised: set<Entry>)
    requires Faithful(s, promised) && s.phase.Ready?
    ensures Faithful(BeginRemove(s, seqNo), Promised(promised, s, Remove(seqNo), BeginRemove(s, seqNo)))
  {
    hide After, EncodeAll, RewriteOps, GoodFs, Kept;
    var m := s.phase.mem;
    KeptHolds(s.fs, promised, Without(m.entries, seqNo));
    NoOperations(s.fs, RemovePlan(m, seqNo));
  }

  lemma FaithfulFs(s: State, promised: set<Entry>)
    requires Faithful(s, promised)
    ensures GoodFs(s.fs, promised)
  {
    hide After, GoodFs, EncodeAll, EncodeLine, RewriteOps, AppendOps, Appendable;
    if s.phase.Busy? {
      CallIsGood(s.phase, promised, s.phase.done);
    }
  }

  lemma CrashIsFaithful(s: State, s': State, promised: set<Entry>)
    requires Faithful(s, promised) && Crashes(s, s')
    ensures Faithful(s', promised)
  {
    hide CrashImage, Good, Faithful;
    FaithfulFs(s, promised);
    forall image | CrashImage(s'.fs, image)
      ensures Good(image, promised)
    {
      SettledImage(s'.fs, image);
    }
    DownIsFaithful(s', promised);
  }

  lemma DownIsFaithful(s: State, promised: set<Entry>)
    requires s.phase.Down? && GoodFs(s.fs, promised)
    ensures Faithful(s, promised)
  {
  }

  /** One step, with any file error. */
  lemma StepKeepsPromises(s: State, ev: Event, s': State, promised: set<Entry>)
    requires Faithful(s, promised) && Next(s, ev, s') && Careful(s, ev)
    ensures Faithful(s', Promised(promised, s, ev, s'))
  {
    hide Faithful, BeginOpen, BeginAppend, BeginRemove, Fails, Crashes, Appendable, Kept;
    match ev {
      case Open => OpenIsFaithful(s, promised);
      case Append(adif, receivedAt) => AppendIsFaithful(s, adif, receivedAt, promised);
      case Remove(seqNo) => RemoveIsFaithful(s, seqNo, promised);
      case Operate => AdvanceIsFaithful(s, promised);
      case Return => FinishIsFaithful(s, promised);
      case Crash => CrashIsFaithful(s, s', promised);
      case Fault => FaultIsGood(s, s', promised);
    }
  }

  // ------------------------------------------------------------ whole runs

  /** The entries promised when a run is in its `i`-th state. */
  function PromisedAt(states: seq<State>, events: seq<Event>, i: nat): set<Entry>
    requires i <= |events| && |states| == |events| + 1
  {
    if i == 0 then {}
    else Promised(PromisedAt(states, events, i - 1), states[i - 1], events[i - 1], states[i])
  }

  lemma {:induction false} RunIsFaithful(states: seq<State>, events: seq<Event>, i: nat)
    requires IsRun(states, events) && i < |states|
    requires forall j :: 0 <= j < i ==> Careful(states[j], events[j])
    ensures Faithful(states[i], PromisedAt(states, events, i))
  {
    hide Next, Faithful, Careful, Promised;
    if i == 0 {
      EmptyDiskIsFaithful();
    } else {
      RunIsFaithful(states, events, i - 1);
      assert Next(states[i - 1], events[i - 1], states[i - 1 + 1]);
      StepKeepsPromises(states[i - 1], events[i - 1], states[i], PromisedAt(states, events, i - 1));
    }
  }

  lemma EmptyDiskIsFaithful()
    ensures Faithful(EMPTY_DISK, {})
  {
    assert Stored(None, []);
    assert Recover(None) == [];
  }

  /**
   Conservation under file errors: on every run, with any crashes and any failing operations, in
   which every append in place met a terminated file that no crash could replace by an older one,
   whatever a crash leaves in any state replays every entry whose append returned Ok and that was
   not removed or evicted since.
   */
  lemma PromisesAreKept(states: seq<State>, events: seq<Event>, i: nat, image: Option<string>)
    requires IsRun(states, events) && i < |states| && CrashImage(states[i].fs, image)
    requires forall j :: 0 <= j < i ==> Careful(states[j], events[j])
    ensures forall e <- PromisedAt(states, events, i) :: e in Recover(image)
    ensures states[i].phase.Ready? ==> forall e <- PromisedAt(states, events, i) :: e in states[i].phase.mem.entries
  {
    hide Next, Careful, CrashImage, Recover, Recoverable;
    RunIsFaithful(states, events, i);
    FaithfulFs(states[i], PromisedAt(states, events, i));
  }

  /** A promise is taken back only by the remove of its number, or by an append to a full spool. */
  lemma PromisesEndJustly(s: State, ev: Event, s': State, promised: set<Entry>, e: Entry)
    requires Faithful(s, promised) && Next(s, ev, s') && e in promised
    requires e !in Promised(promised, s, ev, s')
    ensures ev == Remove(e.seqNo)
         || (ev.Append? && Overflows(s.phase.mem) && e !in Capped(s.phase.mem.entries + [s'.phase.call.entry]))
  {
    hide GoodFs, RewriteOps, AppendOps, EncodeAll, EncodeLine, After, Crashes, Fails;
    if ev.Remove? {
      WithoutIs(s.phase.mem.entries, ev.seqNo);
    }
  }

  // ------------------------------------------------------------ the guard is exact

  /**
   An append in place that ran to its end is replayed, whatever a crash leaves, if and only if the
   file was terminated and no crash could bring an older one back.
   */
  lemma AppendIsKeptIffAppendable(fs: Fs, e: Entry)
    requires GoodFs(fs, {}) && forall image :: CrashImage(fs, image) ==> e !in Recover(image)
    ensures |AppendOps(EncodeLine(e))| == 4
    ensures (forall image :: CrashImage(After(fs, AppendOps(EncodeLine(e)), 4), image) ==> e in Recover(image))
       <==> Appendable(fs)
  {
    hide After, CrashImage, Good, EncodeLine, AppendOps, Terminated, Recover;
    AppendLength(EncodeLine(e));
    var fs' := After(fs, AppendOps(EncodeLine(e)), 4);
    if Appendable(fs) {
      AppendIsGood(fs, e, 4, {});
      assert {} + {e} == {e};
      forall image | CrashImage(fs', image)
        ensures e in Recover(image)
      {
        GoodHasIt(image, e);
      }
    } else if fs.superseded != [] {
      var image := OldImage(fs, EncodeLine(e));
      assert e !in Recover(image);
    } else {
      OwnImage(fs);
      OwnImage(fs');
      BehindUnterminated(fs, e);
    }
  }

  lemma GoodHasIt(image: Option<string>, e: Entry)
    requires Good(image, {e})
    ensures e in Recover(image)
  {
    assert e in {e};
  }

  lemma OldImage(fs: Fs, line: string) returns (image: Option<string>)
    requires fs.superseded != []
    ensures |AppendOps(line)| == 4
    ensures CrashImage(fs, image) && CrashImage(After(fs, AppendOps(line), 4), image)
  {
    hide After;
    AppendSteps(fs, line, 4);
    var old' := fs.superseded[0];
    image := if old'.None? then None else Some(old'.value.Contents());
    assert old' in fs.superseded && Survives(old', image);
  }

  lemma BehindUnterminated(fs: Fs, e: Entry)
    requires GoodFs(fs, {}) && !Terminated(MainText(fs)) && e !in Recover(MainText(fs))
    ensures |AppendOps(EncodeLine(e))| == 4
    ensures e !in Recover(MainText(After(fs, AppendOps(EncodeLine(e)), 4)))
  {
    hide After, CrashImage, EncodeLine, Recover, AppendOps, Stored, Torn;
    AppendLength(EncodeLine(e));
    var image, es := MainText(fs), Recover(MainText(fs));
    OwnImageIsGood(fs, {});
    PlainAppendKeepsAllIffTerminated(image, es, e);
    AppendSteps(fs, EncodeLine(e), 4);
    WrittenTwice(MainOrEmpty(fs), EncodeLine(e));
    SyncedContents(MainOrEmpty(fs).Write(EncodeLine(e)).Write("\n"));
  }

  lemma SyncedContents(f: File)
    ensures f.Sync().Contents() == f.Contents()
  {
  }

  /** A remove whose directory sync fails, and one more append. */
  function StaleEvents(seqNo: nat, adif: string, now: nat): seq<Event> {
    [Remove(seqNo)] + Operations(4) + [Fault] + Whole(Append(adif, now), 4)
  }

  /**
   The second half of the guard matters: from every sound state with an entry to remove, a failed
   directory sync and one append that returns Ok lead to a state from which a crash may bring back
   the old file, without the new entry and with the removed one.
   */
  lemma AppendBehindFailedSyncIsLost(s: State, seqNo: nat, adif: string, now: nat) returns (s': State)
    requires Sound(s) && s.phase.Ready? && |s.phase.mem.entries| <= MAX_QUEUE_LEN
    requires exists i :: 0 <= i < |s.phase.mem.entries| && s.phase.mem.entries[i].seqNo == seqNo
    ensures Reaches(s, StaleEvents(seqNo, adif, now), s') && s'.phase.Ready?
    ensures var e := Entry(s.phase.mem.nextSeq, adif, now);
            && Committed(s') == Without(Committed(s), seqNo) + [e] && e !in Committed(s)
    ensures CrashImage(s'.fs, MainText(s.fs)) && Recover(MainText(s.fs)) == Committed(s)
  {
    hide EncodeLine, EncodeAll, Reaches, Next, After, AppendOps, RewriteOps, RecoverText, AdvanceBy, Torn;
    var m, e := s.phase.mem, Entry(s.phase.mem.nextSeq, adif, now);
    var kept := Without(m.entries, seqNo);
    SomethingRemoved(m.entries, seqNo);
    var s1 := BeginRemove(s, seqNo);
    RewriteLength(EncodeAll(kept));
    Operating(s, Remove(seqNo), s1, 4);
    RewriteProgress(s.fs, EncodeAll(kept), 4);
    var s2 := State(AdvanceBy(s1, 4).fs, Ready(RemoveMem(m, seqNo)));
    SyncDirFails(s1, AdvanceBy(s1, 4), EncodeAll(kept));
    PlanFails(s1, 4, s2.fs);
    ReachesNext(s, [Remove(seqNo)] + Operations(4), AdvanceBy(s1, 4), Fault, s2);
    AppendLength(EncodeLine(e));
    CallReturns(s2, Append(adif, now), BeginAppend(s2, adif, now));
    s' := State(After(s2.fs, AppendOps(EncodeLine(e)), 4), Ready(AppendMem(s2.phase.mem, e)));
    ReachesJoin(s, [Remove(seqNo)] + Operations(4) + [Fault], s2, Whole(Append(adif, now), 4), s');
    AppendSteps(s2.fs, EncodeLine(e), 4);
    assert s'.fs.superseded == [s.fs.main];
    MainSurvives(s.fs);
    OpenRecovers(MainText(s.fs), m.entries);
    assert e !in m.entries;
  }

  lemma SyncDirFails(s: State, s': State, text: string)
    requires s.phase.Busy? && s.phase.plan == RewriteOps(text) && |RewriteOps(text)| == 5
    ensures FailedOp(s'.fs, s.phase.plan[4], s'.fs)
  {
  }

  lemma MainSurvives(fs: Fs)
    ensures Survives(fs.main, MainText(fs))
  {
    if fs.main.Some? {
      assert fs.main.value.durable <= fs.main.value.Contents();
    }
  }

  lemma SomethingRemoved(es: seq<Entry>, seqNo: nat)
    requires exists i :: 0 <= i < |es| && es[i].seqNo == seqNo
    ensures |Without(es, seqNo)| < |es|
  {
    WithoutIs(es, seqNo);
    var i :| 0 <= i < |es| && es[i].seqNo == seqNo;
    assert es[i] in es && es[i] !in Without(es, seqNo);
  }
}

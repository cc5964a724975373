/** The queue object the listener and the worker share, over a disk whose operations may fail. */
module QsoQueue {
  import opened Results
  import opened EntryJson
  import opened SpoolFile
  import opened FileSystem
  import opened Spool

  /** What was tried on the disk, and how it went. */
  datatype DiskEvent = Did(op: FileOp) | Failed(op: FileOp) | WasRead | ReadFailed

  predicate IsFailure(e: DiskEvent) { e.Failed? || e.ReadFailed? }

  class Disk {
    var fs: Fs
    var record: seq<DiskEvent>   // all that was tried, in order; only the two operations below add to it

    constructor (fs: Fs)
      ensures this.fs == fs && record == []
    {
      this.fs := fs;
      record := [];
    }

    /** One file operation. It may fail at any time; a failed write may have stored a part. */
    method Perform(op: FileOp) returns (ok: bool)
      modifies this
      ensures if ok then fs == Apply(old(fs), op) else FailedOp(old(fs), op, fs)
      ensures record == old(record) + [if ok then Did(op) else Failed(op)]
    {
      if * {
        fs := Apply(fs, op);
        record := record + [Did(op)];
        return true;
      }
      record := record + [Failed(op)];
      match op {
        case AppendMain(text) =>
          var n: nat :| n <= |text|;
          fs := Apply(fs, AppendMain(text[..n]));
        case WriteTemp(text) =>
          var n: nat :| n <= |text|;
          fs := Apply(fs, WriteTemp(text[..n]));
        case _ =>
      }
      return false;
    }

    method Read() returns (r: Result<Option<string>, IoError>)
      modifies this`record
      ensures r.Ok? ==> r.value == MainText(fs)
      ensures record == old(record) + [if r.Ok? then WasRead else ReadFailed]
    {
      if * {
        record := record + [ReadFailed];
        return Err(IoError);
      }
      record := record + [WasRead];
      r := Ok(MainText(fs));
    }
  }

  /** The first `k` operations of a plan, all done. */
  function Done(plan: seq<FileOp>, k: nat): (events: seq<DiskEvent>)
    requires k <= |plan|
    ensures |events| == k && forall i :: 0 <= i < k ==> events[i] == Did(plan[i])
  {
    seq(k, i requires 0 <= i < k => Did(plan[i]))
  }

  /** The whole plan was carried out, and was seen to succeed at every operation. */
  ghost predicate Completed(fs: Fs, record: seq<DiskEvent>, plan: seq<FileOp>, fs': Fs, record': seq<DiskEvent>) {
    fs' == After(fs, plan, |plan|) && record' == record + Done(plan, |plan|)
  }

  /** The plan was given up at operation `k`, the first one that was seen to fail. */
  ghost predicate StoppedAt(fs: Fs, record: seq<DiskEvent>, plan: seq<FileOp>, k: nat, fs': Fs,
                            record': seq<DiskEvent>)
    requires k < |plan|
  {
    && FailedOp(After(fs, plan, k), plan[k], fs')
    && record' == record + Done(plan, k) + [Failed(plan[k])]
  }

  ghost predicate Stopped(fs: Fs, record: seq<DiskEvent>, plan: seq<FileOp>, fs': Fs, record': seq<DiskEvent>) {
    exists k :: 0 <= k < |plan| && StoppedAt(fs, record, plan, k, fs', record')
  }

  /** Something that was tried since has failed. */
  ghost predicate SawFailure(before: seq<DiskEvent>, after: seq<DiskEvent>) {
    before <= after && exists i :: |before| <= i < |after| && IsFailure(after[i])
  }

  lemma CompletedSawNone(fs: Fs, record: seq<DiskEvent>, plan: seq<FileOp>, fs': Fs, record': seq<DiskEvent>)
    requires Completed(fs, record, plan, fs', record')
    ensures record <= record' && !SawFailure(record, record')
  {
    hide After;
  }

  lemma StoppedSawOne(fs: Fs, record: seq<DiskEvent>, plan: seq<FileOp>, fs': Fs, record': seq<DiskEvent>)
    requires Stopped(fs, record, plan, fs', record')
    ensures record <= record' && SawFailure(record, record') && GaveUp(fs, plan, fs')
  {
    hide After, FailedOp;
    var k :| 0 <= k < |plan| && StoppedAt(fs, record, plan, k, fs', record');
    assert record'[|record'| - 1] == Failed(plan[k]);
  }

  /** Operation `k` of a plan, at the point where the ones before it have succeeded. */
  method Attempt(disk: Disk, op: FileOp, ghost fs0: Fs, ghost record0: seq<DiskEvent>, ghost plan: seq<FileOp>,
                 ghost k: nat)
    returns (ok: bool)
    requires k < |plan| && plan[k] == op
    requires disk.fs == After(fs0, plan, k) && disk.record == record0 + Done(plan, k)
    modifies disk
    ensures if ok then disk.fs == After(fs0, plan, k + 1) && disk.record == record0 + Done(plan, k + 1)
            else Stopped(fs0, record0, plan, disk.fs, disk.record)
  {
    hide Apply, FailedOp;
    ok := disk.Perform(op);
    if ok {
      assert Done(plan, k + 1) == Done(plan, k) + [Did(op)];
    } else {
      assert StoppedAt(fs0, record0, plan, k, disk.fs, disk.record);
    }
  }

  /** The buffer of a rewrite: every entry as a line. */
  method Serialize(entries: seq<Entry>) returns (buf: string)
    ensures buf == EncodeAll(entries)
  {
    hide EncodeLine;
    buf := "";
    for i := 0 to |entries|
      invariant buf + EncodeAll(entries[i..]) == EncodeAll(entries)
    {
      assert entries[i..][1..] == entries[i + 1..];
      buf := buf + EncodeLine(entries[i]) + "\n";
    }
  }

  /** Write the entries to the temporary file and rename it over the spool file. */
  method RewriteTo(disk: Disk, entries: seq<Entry>) returns (r: Result<(), IoError>)
    modifies disk
    ensures var plan := RewriteOps(EncodeAll(entries));
            if r.Ok? then Completed(old(disk.fs), old(disk.record), plan, disk.fs, disk.record)
            else Stopped(old(disk.fs), old(disk.record), plan, disk.fs, disk.record)
  {
    hide Apply, Stopped, EncodeAll;
    var buf := Serialize(entries);
    ghost var plan := RewriteOps(buf);
    ghost var fs0, record0 := disk.fs, disk.record;
    var ok := Attempt(disk, CreateTemp, fs0, record0, plan, 0);
    if ok { ok := Attempt(disk, WriteTemp(buf), fs0, record0, plan, 1); }
    if ok { ok := Attempt(disk, SyncTemp, fs0, record0, plan, 2); }
    if ok { ok := Attempt(disk, RenameTemp, fs0, record0, plan, 3); }
    if ok { ok := Attempt(disk, SyncDir, fs0, record0, plan, 4); }
    r := if ok then Ok(()) else Err(IoError);
  }

  /** Append the line in place: the text, then its newline, then a sync. */
  method AppendTo(disk: Disk, line: string) returns (r: Result<(), IoError>)
    modifies disk
    ensures var plan := AppendOps(line);
            if r.Ok? then Completed(old(disk.fs), old(disk.record), plan, disk.fs, disk.record)
            else Stopped(old(disk.fs), old(disk.record), plan, disk.fs, disk.record)
  {
    hide Apply, Stopped;
    ghost var plan := AppendOps(line);
    ghost var fs0, record0 := disk.fs, disk.record;
    var ok := Attempt(disk, OpenAppend, fs0, record0, plan, 0);
    if ok { ok := Attempt(disk, AppendMain(line), fs0, record0, plan, 1); }
    if ok { ok := Attempt(disk, AppendMain("\n"), fs0, record0, plan, 2); }
    if ok { ok := Attempt(disk, SyncMain, fs0, record0, plan, 3); }
    r := if ok then Ok(()) else Err(IoError);
  }

  class QsoQueue {
    const disk: Disk
    var entries: seq<Entry>
    var nextSeq: nat

    function Memory(): Mem
      reads this
    {
      Mem(entries, nextSeq)
    }

    /** The object between calls, as a state of the spool machine. */
    function AsState(): State
      reads this, disk
    {
      State(disk.fs, Ready(Memory()))
    }

    constructor (disk: Disk, mem: Mem)
      ensures this.disk == disk && Memory() == mem
    {
      this.disk := disk;
      entries := mem.entries;
      nextSeq := mem.nextSeq;
    }

    /** Open or create the queue: replay what the file holds, repair a torn tail, set a corrupt file aside. */
    static method Open(disk: Disk) returns (r: Result<QsoQueue, IoError>, replay: seq<(nat, string)>)
      modifies disk
      ensures var es := Recover(MainText(old(disk.fs)));
              r.Ok? ==> |replay| == |es| && forall i :: 0 <= i < |es| ==> replay[i] == (es[i].seqNo, es[i].adif)
      ensures var image := MainText(old(disk.fs));
              match r
              case Ok(queue) =>
                && fresh(queue) && queue.disk == disk && queue.Memory() == OpenMem(image)
                && Completed(old(disk.fs), old(disk.record) + [WasRead], OpenPlan(image), disk.fs, disk.record)
              case Err(_) =>
                || (disk.fs == old(disk.fs) && disk.record == old(disk.record) + [ReadFailed])
                || Stopped(old(disk.fs), old(disk.record) + [WasRead], OpenPlan(image), disk.fs, disk.record)
      ensures r.Err? <==> SawFailure(old(disk.record), disk.record)
      ensures match r
              case Ok(queue) => Returns(State(old(disk.fs), Down), Spool.Event.Open, queue.AsState())
              case Err(_) =>
                || (disk.fs == old(disk.fs) && disk.record == old(disk.record) + [ReadFailed])
                || GivesUp(State(old(disk.fs), Down), Spool.Event.Open, State(disk.fs, Down))
    {
      hide Apply, GaveUp, Stopped, SawFailure, Parse, Recover, NextSeq, Returns, GivesUp, After;
      ghost var fs0, record0 := disk.fs, disk.record + [WasRead];
      NoOperations(fs0, []);
      NoOperations(fs0, [MoveAside]);
      var contents := disk.Read();
      var found: seq<Entry> := [];
      match contents {
        case Err(e) =>
          FailedReadSeen(old(disk.record));
          return Err(e), [];
        case Ok(None) =>
        case Ok(Some(text)) =>
          var outcome := ParseEntries(text);
          match outcome {
            case Some(ParseOutcome(es, trailingDropped)) =>
              found := es;
              if trailingDropped {
                var done := RewriteTo(disk, es);
                if done.Err? {
                  StoppedSawOne(fs0, record0, OpenPlan(MainText(fs0)), disk.fs, disk.record);
                  SeenBehindRead(old(disk.record), disk.record);
                  CallEnds(State(fs0, Down), Spool.Event.Open, BeginOpen(State(fs0, Down)), disk.fs, false);
                  return Err(IoError), [];
                }
              }
            case None =>
              var ok := Attempt(disk, MoveAside, fs0, record0, [MoveAside], 0);
              if !ok {
                StoppedSawOne(fs0, record0, OpenPlan(MainText(fs0)), disk.fs, disk.record);
                SeenBehindRead(old(disk.record), disk.record);
                CallEnds(State(fs0, Down), Spool.Event.Open, BeginOpen(State(fs0, Down)), disk.fs, false);
                return Err(IoError), [];
              }
          }
      }
      assert found == Recover(MainText(fs0)) by { RecoveredEntries(MainText(fs0)); }
      var queue := new QsoQueue(disk, Mem(found, NextSeq(found)));
      r := Ok(queue);
      CompletedSawNone(fs0, record0, OpenPlan(MainText(fs0)), disk.fs, disk.record);
      SeenBehindRead(old(disk.record), disk.record);
      CallEnds(State(fs0, Down), Spool.Event.Open, BeginOpen(State(fs0, Down)), disk.fs, true);
      replay := seq(|found|, i requires 0 <= i < |found| => (found[i].seqNo, found[i].adif));
    }

    /**
     Persist an ADIF and return its sequence number. The entry is in memory, and its number
     used up, before the disk is touched: both stay so if the disk fails.
     */
    method Append(adif: string, now: nat) returns (r: Result<nat, IoError>)
      modifies this, disk
      ensures var e := Entry(old(nextSeq), adif, now);
              var plan := AppendPlan(old(Memory()), e);
              && Memory() == AppendMem(old(Memory()), e)
              && (r.Ok? ==> r.value == old(nextSeq)
                            && Completed(old(disk.fs), old(disk.record), plan, disk.fs, disk.record))
              && (r.Err? ==> Stopped(old(disk.fs), old(disk.record), plan, disk.fs, disk.record))
      ensures r.Err? <==> SawFailure(old(disk.record), disk.record)
      ensures var call := Spool.Event.Append(adif, now);
              if r.Ok? then Returns(old(AsState()), call, AsState()) else GivesUp(old(AsState()), call, AsState())
    {
      hide GaveUp, After, EncodeLine, EncodeAll, RewriteOps, AppendOps, Returns, GivesUp, Stopped, SawFailure;
      hide Completed;
      ghost var s0, record0, call := AsState(), disk.record, Spool.Event.Append(adif, now);
      var seqNo := nextSeq;
      nextSeq := nextSeq + 1;
      var entry := Entry(seqNo, adif, now);
      entries := entries + [entry];
      if |entries| > MAX_QUEUE_LEN {
        var dropCount := |entries| - MAX_QUEUE_LEN;
        entries := entries[dropCount..];
        var done := RewriteTo(disk, entries);
        PlanIsSeen(s0, call, BeginAppend(s0, adif, now), record0, disk.fs, disk.record, done.Ok?);
        return if done.Ok? then Ok(seqNo) else Err(IoError);
      }
      var done := AppendTo(disk, EncodeLine(entry));
      PlanIsSeen(s0, call, BeginAppend(s0, adif, now), record0, disk.fs, disk.record, done.Ok?);
      r := if done.Ok? then Ok(seqNo) else Err(IoError);
    }

    /** Drop the entry with this number from memory and disk; nothing happens if there is none. */
    method Remove(seqNo: nat) returns (r: Result<(), IoError>)
      modifies this, disk
      ensures var plan := RemovePlan(old(Memory()), seqNo);
              && Memory() == RemoveMem(old(Memory()), seqNo)
              && (r.Ok? ==> Completed(old(disk.fs), old(disk.record), plan, disk.fs, disk.record))
              && (r.Err? ==> Stopped(old(disk.fs), old(disk.record), plan, disk.fs, disk.record))
      ensures r.Err? <==> SawFailure(old(disk.record), disk.record)
      ensures var call := Spool.Event.Remove(seqNo);
              if r.Ok? then Returns(old(AsState()), call, AsState()) else GivesUp(old(AsState()), call, AsState())
    {
      hide RewriteOps, EncodeAll, Returns, GivesUp, GaveUp, After, Stopped, SawFailure, Completed;
      ghost var s0, record0 := AsState(), disk.record;
      WithoutIs(entries, seqNo);
      var initial := |entries|;
      entries := Without(entries, seqNo);
      if |entries| == initial {
        NothingDone(disk.fs, disk.record);
        PlanIsSeen(s0, Spool.Event.Remove(seqNo), BeginRemove(s0, seqNo), record0, disk.fs, disk.record, true);
        return Ok(());
      }
      r := RewriteTo(disk, entries);
      PlanIsSeen(s0, Spool.Event.Remove(seqNo), BeginRemove(s0, seqNo), record0, disk.fs, disk.record, r.Ok?);
    }
  }

  /** A plan that was seen through, or stopped, is a call of the spool machine. */
  lemma PlanIsSeen(s0: State, call: Event, s: State, record: seq<DiskEvent>, fs': Fs, record': seq<DiskEvent>, ok: bool)
    requires Begins(s0, call, s) && s.phase.Busy? && !s.phase.call.OpenCall?
    requires if ok then Completed(s.fs, record, s.phase.plan, fs', record')
             else Stopped(s.fs, record, s.phase.plan, fs', record')
    ensures !ok <==> SawFailure(record, record')
    ensures if ok then Returns(s0, call, State(fs', Ready(s.phase.mem)))
            else GivesUp(s0, call, State(fs', Ready(s.phase.mem)))
  {
    hide Returns, GivesUp, Stopped, SawFailure, After, BeginAppend, BeginRemove, BeginOpen;
    if ok {
      CompletedSawNone(s.fs, record, s.phase.plan, fs', record');
    } else {
      StoppedSawOne(s.fs, record, s.phase.plan, fs', record');
    }
    CallEnds(s0, call, s, fs', ok);
  }

  lemma NothingDone(fs: Fs, record: seq<DiskEvent>)
    ensures Completed(fs, record, [], fs, record)
  {
    assert record + Done([], 0) == record;
  }

  lemma FailedReadSeen(before: seq<DiskEvent>)
    ensures SawFailure(before, before + [ReadFailed])
  {
    assert (before + [ReadFailed])[|before|] == ReadFailed;
  }

  /** A read that succeeded is no failure. */
  lemma SeenBehindRead(before: seq<DiskEvent>, after: seq<DiskEvent>)
    requires before + [WasRead] <= after
    ensures SawFailure(before, after) <==> SawFailure(before + [WasRead], after)
  {
    assert after[|before|] == WasRead;
  }

  lemma RecoveredEntries(image: Option<string>)
    ensures Recover(image) == if image.None? then [] else
              match Parse(image.value) case Some(o) => o.entries case None => []
  {
  }
}

/**
 What can be seen of the actor from outside, and the transcripts a command may leave on its
 connection: which lines it writes and reads, where it stops, and what it makes of it.
 */
module RigTranscript {
  import opened Results
  import opened Text
  import opened Rigctld

  datatype Event =
    | Connected
    | ConnectFailed
    | SentLine(cmd: string)
    | SendFailed(part: string)          // what of the line and its newline got out
    | Got(line: string)
    | ReadFailed                        // timed out, closed, or failed
    | Slept(delay: nat)
    | Replied(id: nat, reply: Reply)

  /** What comes of a command: an I/O error, or the reply to its caller. */
  type IoReply = Result<Reply, IoError>

  predicate IsError(e: Event) { e.SendFailed? || e.ReadFailed? }

  // ------------------------------------------------------- transcripts against a rig

  function Heard(s: Stream, e: Event, rig: Rig): Stream {
    match e
    case SentLine(cmd) => Sent(s, cmd, rig)
    case Got(_) => if s.owed == [] then s else s.(owed := s.owed[1..])
    case _ => s
  }

  /** A line that is read is the first unread one. */
  predicate CanHear(s: Stream, e: Event) { e.Got? ==> s.owed != [] && s.owed[0] == e.line }

  function Replay(s: Stream, io: seq<Event>, rig: Rig): Stream {
    if io == [] then s else Heard(Replay(s, io[..|io| - 1], rig), io[|io| - 1], rig)
  }

  predicate Possible(s: Stream, io: seq<Event>, rig: Rig) {
    io == []
    || (Possible(s, io[..|io| - 1], rig) && CanHear(Replay(s, io[..|io| - 1], rig), io[|io| - 1]))
  }

  lemma {:induction false} TranscriptsJoin(s: Stream, a: seq<Event>, b: seq<Event>, rig: Rig)
    ensures Replay(s, a + b, rig) == Replay(Replay(s, a, rig), b, rig)
    ensures Possible(s, a + b, rig) <==> Possible(s, a, rig) && Possible(Replay(s, a, rig), b, rig)
  {
    hide Heard, CanHear;
    if b == [] {
      assert a + b == a;
    } else {
      var front := b[..|b| - 1];
      TranscriptsJoin(s, a, front, rig);
      assert (a + b)[..|a + b| - 1] == a + front;
    }
  }

  // ------------------------------------------------------- transcripts of a command

  function Ended(line: string): string { line + "\n" }

  predicate FailsToSend(cmd: string, e: Event) { e.SendFailed? && e.part <= Ended(cmd) }

  /** One line written, one line read. */
  predicate OneLinePlays(cmd: string, meaning: string -> Reply, io: seq<Event>, r: IoReply) {
    if |io| == 1 then FailsToSend(cmd, io[0]) && r == Err(IoError)
    else
      && |io| == 2 && io[0] == SentLine(cmd)
      && match io[1]
         case Got(line) => r == Ok(meaning(StripLineEnd(line)))
         case ReadFailed => r == Err(IoError)
         case _ => false
  }

  /** The mode line, unless it is an error line the passband line, whose loss matters only behind a mode. */
  predicate ModePlays(io: seq<Event>, r: IoReply) {
    if |io| == 1 then FailsToSend(M, io[0]) && r == Err(IoError)
    else
      && 2 <= |io| <= 3 && io[0] == SentLine(M)
      && match io[1]
         case ReadFailed => |io| == 2 && r == Err(IoError)
         case Got(line) =>
           var first := StripLineEnd(line);
           if ParseRprt(first).Some? then |io| == 2 && r == Ok(ModeReply(first))
           else
             && |io| == 3 && (io[2].Got? || io[2].ReadFailed?)
             && r == if io[2].Got? || Blank(first) then Ok(ModeReply(first)) else Err(IoError)
         case _ => false
  }

  predicate SetFreqModePlays(hz: nat, mode: HamlibMode, io: seq<Event>, r: IoReply) {
    if |io| <= 2 then OneLinePlays(SetFreqLine(hz), SetReply, io, r) && r != Ok(Ok(Done))
    else
      && OneLinePlays(SetFreqLine(hz), SetReply, io[..2], Ok(Ok(Done)))
      && OneLinePlays(SetModeLine(mode), SetReply, io[2..], r)
  }

  function SnapshotMeaning(hz: nat, mode: string, float: string -> FloatText): string -> Reply {
    line => SnapshotReply(hz, mode, PowerReply(line, float))
  }

  predicate PollPlays(float: string -> FloatText, io: seq<Event>, r: IoReply) {
    if |io| <= 2 then OneLinePlays(F, FreqReply, io, r) && (r.Ok? ==> r.value.Err?)
    else
      && io[1].Got?
      && var freq := FreqReply(StripLineEnd(io[1].line));
      && freq.Ok? && OneLinePlays(F, FreqReply, io[..2], Ok(freq))
      && if |io| <= 5 then ModePlays(io[2..], r) && (r.Ok? ==> r.value.Err?)
         else
           && io[3].Got?
           && var mode := ModeReply(StripLineEnd(io[3].line));
           && mode.Ok? && ModePlays(io[2..5], Ok(mode))
           && OneLinePlays(RFPOWER, SnapshotMeaning(freq.value.hz, mode.value.mode, float), io[5..], r)
  }

  lemma PollStopsAtFreq(float: string -> FloatText, io: seq<Event>, r: IoReply)
    requires OneLinePlays(F, FreqReply, io, r) && (r.Ok? ==> r.value.Err?)
    ensures PollPlays(float, io, r)
  {
  }

  lemma FreqPlaysFreq(io: seq<Event>, r: IoReply)
    requires OneLinePlays(F, FreqReply, io, r) && r.Ok? && r.value.Ok?
    ensures |io| == 2 && io[1].Got? && r.value == FreqReply(StripLineEnd(io[1].line)) && r.value.value.Freq?
  {
    hide StripLineEnd;
  }

  lemma ModePlaysMode(io: seq<Event>, r: IoReply)
    requires ModePlays(io, r)
    ensures 1 <= |io| <= 3
    ensures r.Ok? && r.value.Ok? ==>
              |io| == 3 && io[1].Got? && r.value == ModeReply(StripLineEnd(io[1].line)) && r.value.value.Mode?
  {
    hide StripLineEnd;
  }

  lemma PollStopsAtMode(float: string -> FloatText, io1: seq<Event>, freq: Reply, io2: seq<Event>, r: IoReply)
    requires OneLinePlays(F, FreqReply, io1, Ok(freq)) && freq.Ok?
    requires ModePlays(io2, r) && (r.Ok? ==> r.value.Err?)
    ensures PollPlays(float, io1 + io2, r)
  {
    hide OneLinePlays, ModePlays, FreqReply, StripLineEnd;
    FreqPlaysFreq(io1, Ok(freq));
    ModePlaysMode(io2, r);
    assert (io1 + io2)[..2] == io1 && (io1 + io2)[2..] == io2;
  }

  lemma PollEndsWithPower(float: string -> FloatText, io1: seq<Event>, freq: Reply, io2: seq<Event>, mode: Reply,
                          io3: seq<Event>, power: IoReply)
    requires OneLinePlays(F, FreqReply, io1, Ok(freq)) && freq.Ok?
    requires ModePlays(io2, Ok(mode)) && mode.Ok?
    requires OneLinePlays(RFPOWER, PowerMeaning(float), io3, power)
    ensures freq.value.Freq? && mode.value.Mode? && (power.Ok? && power.value.Ok? ==> power.value.value.Power?)
    ensures PollPlays(float, io1 + io2 + io3,
                      if power.Err? then power
                      else Ok(SnapshotReply(freq.value.hz, mode.value.mode, power.value)))
  {
    FreqPlaysFreq(io1, Ok(freq));
    ModePlaysMode(io2, Ok(mode));
    PowerPlaysSnapshot(freq.value.hz, mode.value.mode, float, io3, power);
    hide OneLinePlays, ModePlays, FreqReply, ModeReply, PowerReply, StripLineEnd, SnapshotReply;
    var io := io1 + io2 + io3;
    assert io[..2] == io1 && io[2..5] == io2 && io[5..] == io3;
    assert io[1] == io1[1] && io[3] == io2[1];
  }

  lemma PowerPlaysSnapshot(hz: nat, mode: string, float: string -> FloatText, io: seq<Event>, power: IoReply)
    requires OneLinePlays(RFPOWER, PowerMeaning(float), io, power)
    ensures io != [] && (power.Ok? && power.value.Ok? ==> power.value.value.Power?)
    ensures OneLinePlays(RFPOWER, SnapshotMeaning(hz, mode, float), io,
                         if power.Err? then power else Ok(SnapshotReply(hz, mode, power.value)))
  {
    hide StripLineEnd;
  }

  /** The transcripts of a command, each with the one outcome it leads to. */
  predicate Plays(cmd: Command, float: string -> FloatText, io: seq<Event>, r: IoReply) {
    match cmd
    case GetFreq => OneLinePlays(F, FreqReply, io, r)
    case GetMode => ModePlays(io, r)
    case GetPower => OneLinePlays(RFPOWER, PowerMeaning(float), io, r)
    case Poll => PollPlays(float, io, r)
    case SetFreq(hz) => OneLinePlays(SetFreqLine(hz), SetReply, io, r)
    case SetMode(mode) => OneLinePlays(SetModeLine(mode), SetReply, io, r)
    case SetFreqMode(hz, mode) => SetFreqModePlays(hz, mode, io, r)
  }

  // ------------------------------------------------------- only an I/O error fails a command

  /** The transcript ends with the failed drain behind an empty mode line, the one error that is ignored. */
  predicate DrainGaveUp(io: seq<Event>) {
    var n := |io|;
    && n >= 3 && io[n - 3] == SentLine(M) && io[n - 2].Got? && EmptyMode(StripLineEnd(io[n - 2].line))
    && io[n - 1].ReadFailed?
  }

  /** The transcript ends with an I/O error that is not ignored. */
  predicate Breaks(io: seq<Event>) { io != [] && IsError(io[|io| - 1]) && !DrainGaveUp(io) }

  /** Only lines are written and read, and nothing follows an error. */
  ghost predicate ErrorsOnlyLast(io: seq<Event>) {
    forall i :: 0 <= i < |io| ==> io[i].SentLine? || io[i].Got? || (i == |io| - 1 && IsError(io[i]))
  }

  lemma OneLineBreaks(cmd: string, meaning: string -> Reply, io: seq<Event>, r: IoReply)
    requires OneLinePlays(cmd, meaning, io, r)
    ensures 1 <= |io| <= 2 && !DrainGaveUp(io) && (r.Err? <==> IsError(io[|io| - 1])) && ErrorsOnlyLast(io)
  {
  }

  lemma ModeBreaks(io: seq<Event>, r: IoReply)
    requires ModePlays(io, r)
    ensures 1 <= |io| <= 3 && (r.Err? <==> Breaks(io)) && ErrorsOnlyLast(io) && !io[0].ReadFailed?
    ensures DrainGaveUp(io) ==> r.Ok? && r.value.Err?
    ensures r.Ok? && r.value.Ok? ==> |io| == 3 && io[1].Got? && r.value == ModeReply(StripLineEnd(io[1].line))
  {
    if |io| == 3 {
      EmptyModeIsError(StripLineEnd(io[1].line));
    }
  }

  lemma SetFreqModeBreaks(hz: nat, mode: HamlibMode, io: seq<Event>, r: IoReply)
    requires SetFreqModePlays(hz, mode, io, r)
    ensures io != [] && ErrorsOnlyLast(io) && (r.Err? <==> Breaks(io)) && !DrainGaveUp(io)
  {
    hide SetFreqLine, SetModeLine, StripLineEnd, ParseRprt, EmptyMode;
    if |io| > 2 {
      assert io == io[..2] + io[2..];
      OneLineBreaks(SetModeLine(mode), SetReply, io[2..], r);
    }
  }

  lemma PollBreaks(float: string -> FloatText, io: seq<Event>, r: IoReply)
    requires PollPlays(float, io, r)
    ensures io != [] && ErrorsOnlyLast(io) && (r.Err? <==> Breaks(io))
    ensures DrainGaveUp(io) ==> r.Ok? && r.value.Err?
  {
    hide StripLineEnd, ParseRprt, EmptyMode, FreqReply, PowerReply, ModeReply, SnapshotReply;
    if |io| > 2 {
      assert io == io[..2] + io[2..];
      var rest := io[2..];
      if |io| <= 5 {
        ModeBreaks(rest, r);
      } else {
        ModeBreaks(io[2..5], Ok(ModeReply(StripLineEnd(io[3].line))));
        assert io == io[..2] + io[2..5] + io[5..];
      }
    }
  }

  lemma PlaysStarts(cmd: Command, float: string -> FloatText, io: seq<Event>, r: IoReply)
    requires Plays(cmd, float, io, r)
    ensures io != [] && (io[0].SentLine? || io[0].SendFailed?)
  {
    hide SetFreqLine, SetModeLine, StripLineEnd, FreqReply, PowerReply, ModeReply, SetReply, ParseRprt;
  }

  /**
   A command fails if and only if its transcript ends with an I/O error, the drain behind an
   empty mode line aside; and nothing in a transcript follows an error.
   */
  lemma ErrIffBreaks(cmd: Command, float: string -> FloatText, io: seq<Event>, r: IoReply)
    requires Plays(cmd, float, io, r)
    ensures r.Err? <==> Breaks(io)
    ensures io != [] && (io[0].SentLine? || io[0].SendFailed?) && ErrorsOnlyLast(io)
    ensures DrainGaveUp(io) ==> r.Ok? && r.value.Err?
  {
    PlaysStarts(cmd, float, io, r);
    hide OneLinePlays, ModePlays, PollPlays, SetFreqModePlays, EmptyMode, SetFreqLine, SetModeLine;
    match cmd {
      case GetFreq => OneLineBreaks(F, FreqReply, io, r);
      case GetMode => ModeBreaks(io, r);
      case GetPower => OneLineBreaks(RFPOWER, PowerMeaning(float), io, r);
      case Poll => PollBreaks(float, io, r);
      case SetFreq(hz) => OneLineBreaks(SetFreqLine(hz), SetReply, io, r);
      case SetMode(mode) => OneLineBreaks(SetModeLine(mode), SetReply, io, r);
      case SetFreqMode(hz, mode) => SetFreqModeBreaks(hz, mode, io, r);
    }
  }

  // ------------------------------------------------------- what a command writes

  /** The bytes that reached the wire. */
  function Wire(io: seq<Event>): string {
    if io == [] then "" else Wire(io[..|io| - 1]) + Output(io[|io| - 1])
  }

  function Output(e: Event): string {
    if e.SentLine? then Ended(e.cmd) else if e.SendFailed? then e.part else ""
  }

  function Bytes(lines: seq<string>): string {
    if lines == [] then "" else Bytes(lines[..|lines| - 1]) + Ended(lines[|lines| - 1])
  }

  lemma WireOfLast(io: seq<Event>, e: Event)
    ensures Wire(io + [e]) == Wire(io) + Output(e)
  {
    assert (io + [e])[..|io|] == io;
  }

  lemma WireOfNothing(io: seq<Event>)
    ensures Wire(io + []) == Wire(io) + Wire([])
  {
    assert io + [] == io;
  }

  lemma {:induction false} WiresJoin(a: seq<Event>, b: seq<Event>)
    ensures Wire(a + b) == Wire(a) + Wire(b)
  {
    hide Wire, Output;
    if b == [] {
      WireOfNothing(a);
    } else {
      var front, last := b[..|b| - 1], b[|b| - 1];
      WiresJoin(a, front);
      assert b == front + [last] && a + b == a + front + [last];
      WireOfLast(front, last);
      WireOfLast(a + front, last);
      assert Wire(a) + Wire(front) + Output(last) == Wire(a) + (Wire(front) + Output(last));
    }
  }

  lemma FewWires(a: Event, b: Event, c: Event)
    ensures Wire([a]) == Output(a)
    ensures Wire([a, b]) == Output(a) + Output(b)
    ensures Wire([a, b, c]) == Output(a) + Output(b) + Output(c)
  {
    hide Output;
    assert [a][..0] == [] && [a, b][..1] == [a] && [a, b, c][..2] == [a, b];
  }

  /** A cut of the block was written, or all of it. */
  predicate Writes(io: seq<Event>, block: string, whole: bool) {
    Wire(io) <= block && (whole ==> Wire(io) == block)
  }

  lemma LineOutput(cmd: string, e: Event)
    requires e == SentLine(cmd) || FailsToSend(cmd, e)
    ensures Output(e) <= Ended(cmd) && (e.SentLine? ==> Output(e) == Ended(cmd))
  {
  }

  lemma ReadOutput(e: Event)
    requires e.Got? || e.ReadFailed?
    ensures Output(e) == ""
  {
  }

  /** One line and what was read behind it. */
  lemma LineWrites(cmd: string, io: seq<Event>, whole: bool)
    requires 1 <= |io| <= 3 && (io[0] == SentLine(cmd) || FailsToSend(cmd, io[0])) && (whole ==> io[0].SentLine?)
    requires forall i :: 0 < i < |io| ==> io[i].Got? || io[i].ReadFailed?
    ensures Writes(io, Ended(cmd), whole)
  {
    hide Wire, Output, Ended, FailsToSend;
    var e, f, g := io[0], if |io| > 1 then io[1] else Got(""), if |io| > 2 then io[2] else Got("");
    FewWires(e, f, g);
    LineOutput(cmd, e);
    ReadOutput(f);
    ReadOutput(g);
    assert io == if |io| == 1 then [e] else if |io| == 2 then [e, f] else [e, f, g];
    assert Output(e) + "" + "" == Output(e) + "" == Output(e);
  }

  lemma OneLineWrites(cmd: string, meaning: string -> Reply, io: seq<Event>, r: IoReply)
    requires OneLinePlays(cmd, meaning, io, r)
    ensures Writes(io, Ended(cmd), r.Ok?)
  {
    hide Writes, Ended, StripLineEnd;
    LineWrites(cmd, io, r.Ok?);
  }

  lemma ModeWrites(io: seq<Event>, r: IoReply)
    requires ModePlays(io, r)
    ensures Writes(io, Ended(M), r.Ok?)
  {
    hide Writes, Ended, ParseRprt, StripLineEnd, ModeReply, Blank;
    LineWrites(M, io, r.Ok?);
  }

  lemma BytesOfBlocks(a: string, b: string, c: string)
    ensures Bytes([a]) == Ended(a)
    ensures Bytes([a, b]) == Ended(a) + Ended(b)
    ensures Bytes([a, b, c]) == Ended(a) + Ended(b) + Ended(c)
  {
    hide Ended;
    assert [a][..0] == [] && [a, b][..1] == [a] && [a, b, c][..2] == [a, b];
  }

  /** Whole commands, as the bytes that rigctld receives. */
  lemma CommandsOnTheWire(hz: nat)
    ensures Bytes(Block(GetFreq)) == "f\n" && Bytes(Block(GetMode)) == "m\n"
    ensures Bytes(Block(GetPower)) == "\\get_level RFPOWER\n"
    ensures Bytes(Block(Poll)) == "f\n" + "m\n" + "\\get_level RFPOWER\n"
    ensures Bytes(Block(SetFreq(hz))) == "F " + Digits(hz) + "\n"
    ensures Bytes(Block(SetMode(Usb))) == "M USB -1\n"
    ensures Bytes(Block(SetFreqMode(hz, Usb))) == "F " + Digits(hz) + "\n" + "M USB -1\n"
  {
    hide Digits, Bytes, Block;
    CommandLines(hz, Usb);
    BytesOfBlocks("f", "m", "\\get_level RFPOWER");
    BytesOfBlocks("m", "", "");
    BytesOfBlocks("\\get_level RFPOWER", "", "");
    BytesOfBlocks("F " + Digits(hz), "M USB -1", "");
    BytesOfBlocks("M USB -1", "", "");
    assert Block(SetFreqMode(hz, Usb)) == ["F " + Digits(hz), "M USB -1"];
  }

  lemma WritesBehind(a: seq<Event>, b: seq<Event>, x: string, y: string, whole: bool)
    requires Writes(a, x, true) && Writes(b, y, whole)
    ensures Writes(a + b, x + y, whole)
  {
    hide Wire;
    WiresJoin(a, b);
  }

  lemma WritesEarly(io: seq<Event>, x: string, y: string, whole: bool)
    requires Writes(io, x, whole)
    ensures Writes(io, x + y, false)
  {
    hide Wire;
  }

  lemma SetFreqModeWrites(hz: nat, mode: HamlibMode, io: seq<Event>, r: IoReply)
    requires SetFreqModePlays(hz, mode, io, r)
    ensures Writes(io, Ended(SetFreqLine(hz)) + Ended(SetModeLine(mode)), r.Ok? && r.value.Ok?)
  {
    hide SetFreqLine, SetModeLine, OneLinePlays, SetReply, Writes, Ended;
    var a, b := Ended(SetFreqLine(hz)), Ended(SetModeLine(mode));
    if |io| <= 2 {
      SetReplyIsDone(r, io, hz);
      OneLineWrites(SetFreqLine(hz), SetReply, io, r);
      WritesEarly(io, a, b, r.Ok?);
    } else {
      OneLineWrites(SetFreqLine(hz), SetReply, io[..2], Ok(Ok(Done)));
      OneLineWrites(SetModeLine(mode), SetReply, io[2..], r);
      assert io == io[..2] + io[2..];
      WritesBehind(io[..2], io[2..], a, b, r.Ok?);
      WritesLess(io, a + b, r.Ok?, r.Ok? && r.value.Ok?);
    }
  }

  lemma WritesLess(io: seq<Event>, block: string, whole: bool, less: bool)
    requires Writes(io, block, whole) && (less ==> whole)
    ensures Writes(io, block, less)
  {
  }

  lemma SetReplyIsDone(r: IoReply, io: seq<Event>, hz: nat)
    requires OneLinePlays(SetFreqLine(hz), SetReply, io, r)
    ensures r.Ok? && r.value.Ok? ==> r == Ok(Ok(Done)) && |io| == 2
  {
  }

  lemma PollSplits(io: seq<Event>)
    requires |io| > 5
    ensures io[2..] == io[2..5] + io[5..]
  {
  }

  lemma FreqReplyIsFreq(line: string)
    ensures FreqReply(line).Ok? ==> FreqReply(line).value.Freq?
  {
  }

  lemma ModeReplyIsMode(line: string)
    ensures ModeReply(line).Ok? ==> ModeReply(line).value.Mode?
  {
  }

  lemma PollWrites(float: string -> FloatText, io: seq<Event>, r: IoReply)
    requires PollPlays(float, io, r)
    ensures Writes(io, Ended(F) + Ended(M) + Ended(RFPOWER), r.Ok? && r.value.Ok?)
  {
    hide OneLinePlays, ModePlays, FreqReply, ModeReply, PowerReply, Wire, Writes, Ended;
    var a, b, c := Ended(F), Ended(M), Ended(RFPOWER);
    if |io| <= 2 {
      OneLineWrites(F, FreqReply, io, r);
      WritesEarly(io, a, b, r.Ok?);
      WritesEarly(io, a + b, c, false);
    } else {
      var freq := FreqReply(StripLineEnd(io[1].line));
      FreqReplyIsFreq(StripLineEnd(io[1].line));
      OneLineWrites(F, FreqReply, io[..2], Ok(freq));
      assert io == io[..2] + io[2..];
      if |io| <= 5 {
        ModeWrites(io[2..], r);
        WritesBehind(io[..2], io[2..], a, b, r.Ok?);
        WritesEarly(io, a + b, c, r.Ok?);
      } else {
        var mode := ModeReply(StripLineEnd(io[3].line));
        ModeReplyIsMode(StripLineEnd(io[3].line));
        ModeWrites(io[2..5], Ok(mode));
        WritesBehind(io[..2], io[2..5], a, b, true);
        OneLineWrites(RFPOWER, SnapshotMeaning(freq.value.hz, mode.value.mode, float), io[5..], r);
        WritesBehind(io[..2] + io[2..5], io[5..], a + b, c, r.Ok?);
        assert io == io[..2] + io[2..5] + io[5..];
        WritesLess(io, a + b + c, r.Ok?, r.Ok? && r.value.Ok?);
      }
    }
  }

  /**
   To the byte: a command writes a cut of its own lines, and all of them if its reply is not an
   error, so nothing is missing in front of a later line and nothing of another command is inside.
   */
  lemma PlaysWritesCut(cmd: Command, float: string -> FloatText, io: seq<Event>, r: IoReply)
    requires Plays(cmd, float, io, r)
    ensures Wire(io) <= Bytes(Block(cmd))
    ensures r.Ok? && r.value.Ok? ==> Wire(io) == Bytes(Block(cmd))
  {
    hide OneLinePlays, ModePlays, PollPlays, SetFreqModePlays, SetFreqLine, SetModeLine, Wire, Bytes, Ended;
    match cmd {
      case GetFreq => OneLineWrites(F, FreqReply, io, r); BytesOfBlocks(F, F, F);
      case GetMode => ModeWrites(io, r); BytesOfBlocks(M, M, M);
      case GetPower => OneLineWrites(RFPOWER, PowerMeaning(float), io, r); BytesOfBlocks(RFPOWER, F, F);
      case Poll => PollWrites(float, io, r); BytesOfBlocks(F, M, RFPOWER);
      case SetFreq(hz) => OneLineWrites(SetFreqLine(hz), SetReply, io, r); BytesOfBlocks(SetFreqLine(hz), F, F);
      case SetMode(mode) => OneLineWrites(SetModeLine(mode), SetReply, io, r); BytesOfBlocks(SetModeLine(mode), F, F);
      case SetFreqMode(hz, mode) =>
        SetFreqModeWrites(hz, mode, io, r);
        BytesOfBlocks(SetFreqLine(hz), SetModeLine(mode), F);
    }
  }

  // ------------------------------------------------------- transcripts are conversations

  lemma ReplayLast(s: Stream, io: seq<Event>, e: Event, rig: Rig)
    ensures Replay(s, io + [e], rig) == Heard(Replay(s, io, rig), e, rig)
    ensures Possible(s, io + [e], rig) <==> Possible(s, io, rig) && CanHear(Replay(s, io, rig), e)
  {
    assert (io + [e])[..|io|] == io;
  }

  lemma ReplayNothing(s: Stream, rig: Rig)
    ensures Replay(s, [], rig) == s && Possible(s, [], rig)
  {
  }

  lemma OneLineIsTalk(cmd: string, meaning: string -> Reply, s: Stream, io: seq<Event>, r: IoReply, rig: Rig)
    requires OneLinePlays(cmd, meaning, io, r) && Possible(s, io, rig) && r.Ok?
    ensures OneLineTalk(s, cmd, rig, meaning) == Talk(Replay(s, io, rig), r.value)
  {
    hide StripLineEnd, Replay, Possible;
    ReplayNothing(s, rig);
    ReplayLast(s, [], io[0], rig);
    assert [] + [io[0]] == [io[0]];
    assert io == [io[0]] + [io[1]];
    ReplayLast(s, [io[0]], io[1], rig);
  }

  lemma ModeIsTalk(s: Stream, io: seq<Event>, r: IoReply, rig: Rig)
    requires ModePlays(io, r) && Possible(s, io, rig) && r.Ok?
    ensures ModeTalk(s, rig, !DrainGaveUp(io)) == Talk(Replay(s, io, rig), r.value)
  {
    hide StripLineEnd, ParseRprt, FirstToken, Blank, Replay, Possible;
    ReplayNothing(s, rig);
    ReplayLast(s, [], io[0], rig);
    assert [] + [io[0]] == [io[0]];
    var two := [io[0]] + [io[1]];
    ReplayLast(s, [io[0]], io[1], rig);
    FirstTokenEmptyIffBlank(StripLineEnd(io[1].line));
    if |io| == 2 {
      assert io == two;
    } else {
      assert io == two + [io[2]];
      ReplayLast(s, two, io[2], rig);
    }
  }

  lemma SetFreqModeIsTalk(hz: nat, mode: HamlibMode, float: string -> FloatText, s: Stream, io: seq<Event>,
                          r: IoReply, rig: Rig)
    requires SetFreqModePlays(hz, mode, io, r) && Possible(s, io, rig) && r.Ok?
    ensures CommandTalk(SetFreqMode(hz, mode), s, rig, float, !DrainGaveUp(io)) == Talk(Replay(s, io, rig), r.value)
  {
    hide SetFreqLine, SetModeLine, OneLinePlays, SetReply, OneLineTalk;
    if |io| <= 2 {
      SetReplyIsDone(r, io, hz);
      OneLineIsTalk(SetFreqLine(hz), SetReply, s, io, r, rig);
    } else {
      assert io == io[..2] + io[2..];
      TranscriptsJoin(s, io[..2], io[2..], rig);
      OneLineIsTalk(SetFreqLine(hz), SetReply, s, io[..2], Ok(Ok(Done)), rig);
      OneLineIsTalk(SetModeLine(mode), SetReply, Replay(s, io[..2], rig), io[2..], r, rig);
    }
  }

  lemma SnapshotIsTalk(hz: nat, mode: string, float: string -> FloatText, s: Stream, io: seq<Event>, r: IoReply,
                       rig: Rig)
    requires OneLinePlays(RFPOWER, SnapshotMeaning(hz, mode, float), io, r) && Possible(s, io, rig) && r.Ok?
    ensures var power := OneLineTalk(s, RFPOWER, rig, PowerMeaning(float));
            power.Talk? && Talk(Replay(s, io, rig), r.value)
                        == power.(reply := SnapshotReply(hz, mode, power.reply))
  {
    hide StripLineEnd, PowerReply;
    OneLineIsTalk(RFPOWER, SnapshotMeaning(hz, mode, float), s, io, r, rig);
  }

  lemma DrainGaveUpBehind(io: seq<Event>)
    requires 3 <= |io| <= 5 && io[1].Got? && !io[2].ReadFailed?
    ensures DrainGaveUp(io) <==> DrainGaveUp(io[2..])
  {
  }

  lemma PollIsTalk(float: string -> FloatText, s: Stream, io: seq<Event>, r: IoReply, rig: Rig)
    requires PollPlays(float, io, r) && Possible(s, io, rig) && r.Ok?
    ensures CommandTalk(Poll, s, rig, float, !DrainGaveUp(io)) == Talk(Replay(s, io, rig), r.value)
  {
    hide OneLinePlays, ModePlays, FreqReply, ModeReply, PowerReply, OneLineTalk, ModeTalk, EmptyMode, Replay, Possible;
    if |io| <= 2 {
      OneLineIsTalk(F, FreqReply, s, io, r, rig);
    } else {
      var freq := FreqReply(StripLineEnd(io[1].line));
      FreqReplyIsFreq(StripLineEnd(io[1].line));
      assert io == io[..2] + io[2..];
      TranscriptsJoin(s, io[..2], io[2..], rig);
      OneLineIsTalk(F, FreqReply, s, io[..2], Ok(freq), rig);
      var s1 := Replay(s, io[..2], rig);
      if |io| <= 5 {
        ModeIsTalk(s1, io[2..], r, rig);
        ModeBreaks(io[2..], r);
        DrainGaveUpBehind(io);
      } else {
        var mode := ModeReply(StripLineEnd(io[3].line));
        ModeReplyIsMode(StripLineEnd(io[3].line));
        PollSplits(io);
        TranscriptsJoin(s1, io[2..5], io[5..], rig);
        OneLineBreaks(RFPOWER, SnapshotMeaning(freq.value.hz, mode.value.mode, float), io[5..], r);
        ModeBreaks(io[2..5], Ok(mode));
        ModeIsTalk(s1, io[2..5], Ok(mode), rig);
        SnapshotIsTalk(freq.value.hz, mode.value.mode, float, Replay(s1, io[2..5], rig), io[5..], r, rig);
      }
    }
  }

  /**
   A transcript without an unignored error is the conversation of its command: it reads the lines
   that the conversation reads, and its reply is what they mean.
   */
  lemma PlaysIsTalk(cmd: Command, float: string -> FloatText, s: Stream, io: seq<Event>, r: IoReply, rig: Rig)
    requires Plays(cmd, float, io, r) && Possible(s, io, rig) && r.Ok?
    ensures CommandTalk(cmd, s, rig, float, !DrainGaveUp(io)) == Talk(Replay(s, io, rig), r.value)
  {
    hide OneLinePlays, ModePlays, PollPlays, SetFreqModePlays, SetFreqLine, SetModeLine;
    hide OneLineTalk, ModeTalk, Replay, Possible, DrainGaveUp;
    match cmd {
      case GetFreq => OneLineIsTalk(F, FreqReply, s, io, r, rig);
      case GetMode => ModeIsTalk(s, io, r, rig);
      case GetPower => OneLineIsTalk(RFPOWER, PowerMeaning(float), s, io, r, rig);
      case Poll => PollIsTalk(float, s, io, r, rig);
      case SetFreq(hz) => OneLineIsTalk(SetFreqLine(hz), SetReply, s, io, r, rig);
      case SetMode(mode) => OneLineIsTalk(SetModeLine(mode), SetReply, s, io, r, rig);
      case SetFreqMode(hz, mode) => SetFreqModeIsTalk(hz, mode, float, s, io, r, rig);
    }
  }
}

/**
 The rigctld line protocol on one connection. Replies carry no tag, so a reply belongs to a
 command only by its position: each command has to read exactly the lines sent in answer to it.
 */
module Rigctld {
  import opened Results
  import opened Text

  datatype HamlibMode = Lsb | Usb | Cw | Fm | Am | Rtty | PktLsb | PktUsb | PktFm {
    function Name(): string {
      match this
      case Lsb => "LSB"
      case Usb => "USB"
      case Cw => "CW"
      case Fm => "FM"
      case Am => "AM"
      case Rtty => "RTTY"
      case PktLsb => "PKTLSB"
      case PktUsb => "PKTUSB"
      case PktFm => "PKTFM"
    }
  }

  datatype Command =
    | GetFreq
    | GetMode
    | GetPower
    | Poll
    | SetFreq(hz: nat)
    | SetMode(mode: HamlibMode)
    | SetFreqMode(hz: nat, mode: HamlibMode)

  datatype Value = Freq(hz: nat) | Mode(mode: string) | Power(power: real)
                 | Snapshot(freq: nat, rigMode: string, rfPower: Option<real>) | Done

  datatype RigError = Disconnected | Hamlib(code: int) | BadResponse(line: string)

  type Reply = Result<Value, RigError>

  // -------------------------------------------------------- reading one line

  /** How a text reads as a 32-bit float. The model keeps finite values as reals. */
  datatype FloatText = Malformed | NonFinite | Finite(value: real)

  function StripLineEnd(line: string): string {
    if line != "" && (line[|line| - 1] == '\r' || line[|line| - 1] == '\n') then StripLineEnd(line[..|line| - 1])
    else line
  }

  function ParseRprt(line: string): Option<int> {
    if "RPRT " <= line then ParseI32(TrimEnd(TrimStart(line[5..]))) else None
  }

  function SetReply(line: string): Reply {
    match ParseRprt(line)
    case None => Err(BadResponse(line))
    case Some(code) => if code == 0 then Ok(Done) else Err(Hamlib(code))
  }

  function FreqReply(line: string): Reply {
    if ParseRprt(line).Some? then Err(Hamlib(ParseRprt(line).value))
    else
      match ParseUnsigned(line, U64_MAX)
      case Some(hz) => Ok(Freq(hz))
      case None => Err(BadResponse(line))
  }

  function ModeReply(line: string): Reply {
    if ParseRprt(line).Some? then Err(Hamlib(ParseRprt(line).value))
    else if FirstToken(line) == "" then Err(BadResponse(line))
    else Ok(Mode(FirstToken(line)))
  }

  function Clamp(x: real): real { if x < 0.0 then 0.0 else if x > 1.0 then 1.0 else x }

  function PowerReply(line: string, float: string -> FloatText): Reply {
    if ParseRprt(line).Some? then Err(Hamlib(ParseRprt(line).value))
    else
      match float(line)
      case Finite(x) => Ok(Power(Clamp(x)))
      case _ => Err(BadResponse(line))
  }

  function PowerMeaning(float: string -> FloatText): string -> Reply { line => PowerReply(line, float) }

  function Signed(n: int): string { if n < 0 then "-" + Digits(-n) else Digits(n) }

  lemma TrimKeeps(s: string)
    requires s != "" && !IsWhitespace(s[0]) && !IsWhitespace(s[|s| - 1])
    ensures TrimEnd(TrimStart(s)) == s
  {
  }

  lemma I32RoundTrip(n: int)
    requires -0x8000_0000 <= n < 0x8000_0000
    ensures ParseI32(Signed(n)) == Some(n)
    ensures TrimEnd(TrimStart(Signed(n))) == Signed(n)
  {
    hide ParseUnsigned, Digits;
    var m: nat := if n < 0 then -n else n;
    DigitsRoundTrip(m);
    assert Digits(m)[0] in Digits(m) && Digits(m)[|Digits(m)| - 1] in Digits(m);
    if n < 0 {
      UnsignedRoundTrip(m, 0x8000_0000);
      assert Signed(n)[1..] == Digits(m);
      assert Signed(n)[|Signed(n)| - 1] == Digits(m)[|Digits(m)| - 1];
    } else {
      UnsignedRoundTrip(m, 0x7FFF_FFFF);
    }
    TrimKeeps(Signed(n));
  }

  /** An error line means its code to every command: zero acknowledges a setting, all else is a hamlib error. */
  lemma RprtMeansItsCode(code: int, float: string -> FloatText)
    requires -0x8000_0000 <= code < 0x8000_0000
    ensures var line := "RPRT " + Signed(code);
            && SetReply(line) == (if code == 0 then Ok(Done) else Err(Hamlib(code)))
            && FreqReply(line) == ModeReply(line) == PowerReply(line, float) == Err(Hamlib(code))
  {
    hide ParseI32, Signed, TrimStart, TrimEnd;
    I32RoundTrip(code);
    assert ("RPRT " + Signed(code))[5..] == Signed(code);
  }

  /** A frequency line reads back, a reported power is a fraction, and a reported mode is not blank. */
  lemma ValuesAreSane(line: string, hz: nat, float: string -> FloatText)
    requires hz <= U64_MAX
    ensures FreqReply(Digits(hz)) == Ok(Freq(hz))
    ensures PowerReply(line, float).Ok? ==> 0.0 <= PowerReply(line, float).value.power <= 1.0
    ensures ModeReply(line).Ok? ==> ModeReply(line).value.mode != "" && !Blank(line)
  {
    DigitsReadBack(hz);
    hide ParseRprt, ParseUnsigned, Digits;
    FirstTokenEmptyIffBlank(line);
  }

  /** A line without its line ends is what stood in front of them. */
  lemma {:induction false} LineEndsGo(line: string, ends: string)
    requires line == "" || (line[|line| - 1] != '\r' && line[|line| - 1] != '\n')
    requires forall i :: 0 <= i < |ends| ==> ends[i] == '\r' || ends[i] == '\n'
    ensures StripLineEnd(line + ends) == line
  {
    if ends == "" {
      assert line + ends == line;
    } else {
      assert (line + ends)[..|line + ends| - 1] == line + ends[..|ends| - 1];
      LineEndsGo(line, ends[..|ends| - 1]);
    }
  }

  /** An error line may have white space around its code; without a code, or the word in front, it is none. */
  lemma RprtReads(a: string, code: int, b: string, line: string)
    requires -0x8000_0000 <= code < 0x8000_0000 && Blank(a) && Blank(b)
    ensures ParseRprt("RPRT " + a + Signed(code) + b) == Some(code)
    ensures !("RPRT " <= line) ==> ParseRprt(line) == None
    ensures ParseRprt("RPRT ") == ParseRprt("RPRT garbage") == None
  {
    hide ParseI32, Digits;
    I32RoundTrip(code);
    var n := Signed(code);
    SignedStands(code);
    TrimIs(a, n, b);
    assert ("RPRT " + a + n + b)[5..] == a + n + b;
    NoCode();
  }

  lemma SignedStands(code: int)
    ensures var n := Signed(code); n != "" && !IsWhitespace(n[0]) && !IsWhitespace(n[|n| - 1])
  {
    hide Digits;
    var m: nat := if code < 0 then -code else code;
    DigitsRoundTrip(m);
    assert Digits(m)[0] in Digits(m) && Digits(m)[|Digits(m)| - 1] in Digits(m);
  }

  lemma NoCode()
    ensures ParseRprt("RPRT ") == None && ParseRprt("RPRT garbage") == None
  {
    hide ParseUnsigned;
    assert "RPRT "[5..] == "" && "RPRT garbage"[5..] == "garbage";
    TrimIs("", "garbage", "");
    assert "" + "garbage" + "" == "garbage";
    assert "garbage"[0] == 'g';
    OnlyDigitsRead("garbage", 0x7FFF_FFFF);
    OnlyDigitsRead("", 0x7FFF_FFFF);
  }

  /** A frequency line reads back whatever its line end; anything but a decimal number in 64 bits is refused. */
  lemma FrequencyReads(hz: nat, line: string)
    ensures hz <= 0xFFFF_FFFF_FFFF_FFFF ==>
              FreqReply(StripLineEnd(Digits(hz) + "\r\n")) == FreqReply(StripLineEnd(Digits(hz) + "\n"))
              == FreqReply(Digits(hz)) == Ok(Freq(hz))
    ensures hz > 0xFFFF_FFFF_FFFF_FFFF ==> FreqReply(Digits(hz)) == Err(BadResponse(Digits(hz)))
    ensures var ds := if line != "" && line[0] == '+' then line[1..] else line;
            ParseRprt(line).None? && (ds == "" || exists i :: 0 <= i < |ds| && !('0' <= ds[i] <= '9')) ==>
              FreqReply(line) == Err(BadResponse(line))
  {
    hide ParseUnsigned, Digits, ParseI32;
    DigitsStand(hz);
    LineEndsGo(Digits(hz), "\r\n");
    LineEndsGo(Digits(hz), "\n");
    NumbersRead(hz, U64_MAX);
    var ds := if line != "" && line[0] == '+' then line[1..] else line;
    if ds == "" || exists i :: 0 <= i < |ds| && !('0' <= ds[i] <= '9') {
      OnlyDigitsRead(line, U64_MAX);
    }
  }

  lemma DigitsStand(n: nat)
    ensures var ds := Digits(n);
            ds != "" && '0' <= ds[0] <= '9' && '0' <= ds[|ds| - 1] <= '9' && !("RPRT " <= ds)
  {
    hide Digits;
    DigitsRoundTrip(n);
    assert Digits(n)[0] in Digits(n) && Digits(n)[|Digits(n)| - 1] in Digits(n);
    assert "RPRT "[0] == 'R';
  }

  /** The reported mode is the whole first word of its line, whatever stands around it. */
  lemma ModeReads(a: string, t: string, b: string)
    requires Blank(a) && t != "" && (forall i :: 0 <= i < |t| ==> !IsWhitespace(t[i]))
    requires b == "" || IsWhitespace(b[0])
    requires ParseRprt(a + t + b).None?
    ensures ModeReply(a + t + b) == Ok(Mode(t))
  {
    hide ParseRprt, FirstToken;
    FirstTokenIs(a, t, b);
  }

  /** For example, alone, behind a tab, and in front of a space or tab. */
  lemma UsbReads()
    ensures ModeReply("USB") == ModeReply("\tUSB") == ModeReply("USB 2400") == ModeReply("USB\t2400") == Ok(Mode("USB"))
    ensures ModeReply("PKTUSB") == Ok(Mode("PKTUSB"))
  {
    hide FirstToken, ModeReply;
    AsciiWhitespace('U'); AsciiWhitespace('S'); AsciiWhitespace('B');
    WordReads("", "USB", "");
    WordReads("\t", "USB", "");
    WordReads("", "USB", " 2400");
    WordReads("", "USB", "\t2400");
    WordReads("", "PKTUSB", "");
    assert "" + "USB" + "" == "USB" && "\t" + "USB" + "" == "\tUSB" && "" + "USB" + " 2400" == "USB 2400";
    assert "" + "USB" + "\t2400" == "USB\t2400" && "" + "PKTUSB" + "" == "PKTUSB";
  }

  lemma WordReads(a: string, t: string, b: string)
    requires Blank(a) && t != "" && (forall i :: 0 <= i < |t| ==> !IsWhitespace(t[i]))
    requires b == "" || IsWhitespace(b[0])
    requires (a + t)[0] != 'R'
    ensures ModeReply(a + t + b) == Ok(Mode(t))
  {
    hide FirstToken, ModeReply;
    assert (a + t + b)[0] == (a + t)[0];
    assert "RPRT "[0] == 'R';
    ModeReads(a, t, b);
  }

  /** A finite reading in the unit interval is passed on as it is, one outside is moved to its end, no other reads. */
  lemma PowerReads(line: string, float: string -> FloatText)
    requires ParseRprt(line).None?
    ensures float(line).Finite? && 0.0 <= float(line).value <= 1.0 ==>
              PowerReply(line, float) == Ok(Power(float(line).value))
    ensures float(line).Finite? && float(line).value > 1.0 ==> PowerReply(line, float) == Ok(Power(1.0))
    ensures float(line).Finite? && float(line).value < 0.0 ==> PowerReply(line, float) == Ok(Power(0.0))
    ensures !float(line).Finite? ==> PowerReply(line, float) == Err(BadResponse(line))
    ensures SetReply(line) == Err(BadResponse(line))
  {
    hide ParseRprt;
  }

  // ---------------------------------------------------------------- the rig

  /** The rig: the reply lines it sends to its `k`-th command line. */
  type Rig = (nat, string) -> seq<string>

  const F := "f"
  const M := "m"
  const RFPOWER := "\\get_level RFPOWER"

  function SetFreqLine(hz: nat): string { "F " + Digits(hz) }

  /** Passband -1 leaves the filter width alone. */
  function SetModeLine(mode: HamlibMode): string { "M " + mode.Name() + " -1" }

  /** The rig answers `m` with two lines or one RPRT line, and everything else with one line. */
  ghost predicate Speaks(rig: Rig) {
    forall k, cmd ::
      if cmd != M then |rig(k, cmd)| == 1
      else |rig(k, cmd)| == if |rig(k, cmd)| > 0 && ParseRprt(StripLineEnd(rig(k, cmd)[0])).Some? then 1 else 2
  }

  /** The lines a command writes if nothing goes wrong. */
  function Block(cmd: Command): seq<string> {
    match cmd
    case GetFreq => [F]
    case GetMode => [M]
    case GetPower => [RFPOWER]
    case Poll => [F, M, RFPOWER]
    case SetFreq(hz) => [SetFreqLine(hz)]
    case SetMode(mode) => [SetModeLine(mode)]
    case SetFreqMode(hz, mode) => [SetFreqLine(hz), SetModeLine(mode)]
  }

  /** The command lines, as rigctld knows them. */
  lemma CommandLines(hz: nat, mode: HamlibMode)
    ensures Block(GetFreq) == ["f"] && Block(GetMode) == ["m"] && Block(GetPower) == ["\\get_level RFPOWER"]
    ensures Block(Poll) == ["f", "m", "\\get_level RFPOWER"]
    ensures Block(SetFreq(hz)) == ["F " + Digits(hz)]
    ensures Block(SetFreqMode(hz, mode)) == Block(SetFreq(hz)) + Block(SetMode(mode))
    ensures Block(SetMode(Lsb)) == ["M LSB -1"] && Block(SetMode(Usb)) == ["M USB -1"]
    ensures Block(SetMode(Cw)) == ["M CW -1"] && Block(SetMode(Fm)) == ["M FM -1"]
    ensures Block(SetMode(Am)) == ["M AM -1"] && Block(SetMode(Rtty)) == ["M RTTY -1"]
    ensures Block(SetMode(PktLsb)) == ["M PKTLSB -1"] && Block(SetMode(PktUsb)) == ["M PKTUSB -1"]
    ensures Block(SetMode(PktFm)) == ["M PKTFM -1"]
  {
    hide Digits;
    assert SetModeLine(Lsb) == "M LSB -1" && SetModeLine(Usb) == "M USB -1" && SetModeLine(Cw) == "M CW -1";
    assert SetModeLine(Fm) == "M FM -1" && SetModeLine(Am) == "M AM -1" && SetModeLine(Rtty) == "M RTTY -1";
    assert SetModeLine(PktLsb) == "M PKTLSB -1" && SetModeLine(PktUsb) == "M PKTUSB -1";
    assert SetModeLine(PktFm) == "M PKTFM -1";
  }

  function FirstReplyLine(rig: Rig, k: nat, cmd: string): string {
    if rig(k, cmd) == [] then "" else StripLineEnd(rig(k, cmd)[0])
  }

  /** What the rig's own answers to a command mean, the first of them being its `k`-th. */
  function OwnReply(cmd: Command, rig: Rig, k: nat, float: string -> FloatText): Reply {
    match cmd
    case GetFreq => FreqReply(FirstReplyLine(rig, k, F))
    case GetMode => ModeReply(FirstReplyLine(rig, k, M))
    case GetPower => PowerReply(FirstReplyLine(rig, k, RFPOWER), float)
    case SetFreq(hz) => SetReply(FirstReplyLine(rig, k, SetFreqLine(hz)))
    case SetMode(mode) => SetReply(FirstReplyLine(rig, k, SetModeLine(mode)))
    case SetFreqMode(hz, mode) =>
      var first := SetReply(FirstReplyLine(rig, k, SetFreqLine(hz)));
      if first.Err? then first else SetReply(FirstReplyLine(rig, k + 1, SetModeLine(mode)))
    case Poll =>
      var freq := FreqReply(FirstReplyLine(rig, k, F));
      var mode := ModeReply(FirstReplyLine(rig, k + 1, M));
      var power := PowerReply(FirstReplyLine(rig, k + 2, RFPOWER), float);
      if freq.Err? then freq
      else if mode.Err? then mode
      else if power.Ok? then Ok(Snapshot(freq.value.hz, mode.value.mode, Some(power.value.power)))
      else if power.error.Hamlib? then Ok(Snapshot(freq.value.hz, mode.value.mode, None))
      else power
  }

  // ------------------------------------------------------ conversations on a stream

  /** Lines written so far, and reply lines sent or yet to come that nobody has read. */
  datatype Stream = Stream(written: seq<string>, owed: seq<string>)

  function Sent(s: Stream, cmd: string, rig: Rig): Stream {
    Stream(s.written + [cmd], s.owed + rig(|s.written|, cmd))
  }

  /** A conversation without an I/O error, which needs a line to be there whenever it reads one. */
  datatype Talk = Stuck | Talk(stream: Stream, reply: Reply)

  function OneLineTalk(s: Stream, cmd: string, rig: Rig, meaning: string -> Reply): Talk {
    var s1 := Sent(s, cmd, rig);
    if s1.owed == [] then Stuck else Talk(s1.(owed := s1.owed[1..]), meaning(StripLineEnd(s1.owed[0])))
  }

  /** Reading a mode: `drained` tells whether the drain behind an empty mode line got its line. */
  function ModeTalk(s: Stream, rig: Rig, drained: bool): Talk {
    var s1 := Sent(s, M, rig);
    if s1.owed == [] then Stuck
    else
      var line, s2 := StripLineEnd(s1.owed[0]), s1.(owed := s1.owed[1..]);
      if ParseRprt(line).Some? then Talk(s2, ModeReply(line))
      else if FirstToken(line) == "" && !drained then Talk(s2, ModeReply(line))
      else if s2.owed == [] then Stuck
      else Talk(s2.(owed := s2.owed[1..]), ModeReply(line))
  }

  function CommandTalk(cmd: Command, s: Stream, rig: Rig, float: string -> FloatText, drained: bool): Talk {
    match cmd
    case GetFreq => OneLineTalk(s, F, rig, FreqReply)
    case GetMode => ModeTalk(s, rig, drained)
    case GetPower => OneLineTalk(s, RFPOWER, rig, PowerMeaning(float))
    case SetFreq(hz) => OneLineTalk(s, SetFreqLine(hz), rig, SetReply)
    case SetMode(mode) => OneLineTalk(s, SetModeLine(mode), rig, SetReply)
    case SetFreqMode(hz, mode) =>
      var first := OneLineTalk(s, SetFreqLine(hz), rig, SetReply);
      if first.Stuck? || first.reply.Err? then first
      else OneLineTalk(first.stream, SetModeLine(mode), rig, SetReply)
    case Poll =>
      var freq := OneLineTalk(s, F, rig, FreqReply);
      if freq.Stuck? || freq.reply.Err? then freq
      else
        var mode := ModeTalk(freq.stream, rig, drained);
        if mode.Stuck? || mode.reply.Err? then mode
        else
          var power := OneLineTalk(mode.stream, RFPOWER, rig, PowerMeaning(float));
          if power.Stuck? then Stuck
          else power.(reply := SnapshotReply(freq.reply.value.hz, mode.reply.value.mode, power.reply))
  }

  function SnapshotReply(hz: nat, mode: string, power: Reply): Reply
    requires power.Ok? ==> power.value.Power?
  {
    if power.Ok? then Ok(Snapshot(hz, mode, Some(power.value.power)))
    else if power.error.Hamlib? then Ok(Snapshot(hz, mode, None))
    else power
  }

  // ----------------------------------------------------------------- staying in sync

  predicate InSync(s: Stream) { s.owed == [] }

  /** The rig's answer to the mode line of a command has no mode in it. */
  predicate EmptyModeAnswer(cmd: Command, rig: Rig, k: nat) {
    match cmd
    case GetMode => EmptyMode(FirstReplyLine(rig, k, M))
    case Poll => FreqReply(FirstReplyLine(rig, k, F)).Ok? && EmptyMode(FirstReplyLine(rig, k + 1, M))
    case _ => false
  }

  predicate EmptyMode(line: string) { ParseRprt(line).None? && Blank(line) }

  lemma OneLineInSync(s: Stream, cmd: string, rig: Rig, meaning: string -> Reply)
    requires InSync(s) && Speaks(rig) && cmd != M
    ensures OneLineTalk(s, cmd, rig, meaning)
         == Talk(Stream(s.written + [cmd], []), meaning(FirstReplyLine(rig, |s.written|, cmd)))
  {
    assert |rig(|s.written|, cmd)| == 1;
    assert s.owed + rig(|s.written|, cmd) == rig(|s.written|, cmd);
  }

  lemma ModeInSync(s: Stream, rig: Rig, drained: bool)
    requires InSync(s) && Speaks(rig)
    ensures var line := FirstReplyLine(rig, |s.written|, M);
            var talk := ModeTalk(s, rig, drained);
            && talk.Talk? && talk.stream.written == s.written + [M] && talk.reply == ModeReply(line)
            && (InSync(talk.stream) <==> !(EmptyMode(line) && !drained))
  {
    var answer := rig(|s.written|, M);
    assert |answer| == if |answer| > 0 && ParseRprt(StripLineEnd(answer[0])).Some? then 1 else 2;
    assert s.owed + answer == answer;
    FirstTokenEmptyIffBlank(StripLineEnd(answer[0]));
  }

  lemma CommandLinesAreNotM(cmd: Command)
    ensures forall hz :: SetFreqLine(hz) != M
    ensures forall mode: HamlibMode :: SetModeLine(mode) != M
    ensures F != M && RFPOWER != M
  {
    forall hz
      ensures SetFreqLine(hz) != M
    {
      assert SetFreqLine(hz)[0] == 'F';
    }
    forall mode: HamlibMode
      ensures SetModeLine(mode) != M
    {
      assert SetModeLine(mode)[1] == ' ';
    }
  }

  /**
   Stream sync: from a stream in sync every command gets the reply its own lines earned, and
   leaves the stream in sync, early exits included, if and only if it did not give up waiting
   for the passband line behind an empty mode line.
   */
  lemma CommandStaysInSync(cmd: Command, s: Stream, rig: Rig, float: string -> FloatText, drained: bool)
    requires InSync(s) && Speaks(rig)
    ensures var talk := CommandTalk(cmd, s, rig, float, drained);
            && talk.Talk? && talk.reply == OwnReply(cmd, rig, |s.written|, float)
            && (InSync(talk.stream) <==> !(EmptyModeAnswer(cmd, rig, |s.written|) && !drained))
            && s.written <= talk.stream.written
            && talk.stream.written[|s.written|..] <= Block(cmd)
            && (talk.reply.Ok? ==> talk.stream.written == s.written + Block(cmd))
  {
    hide OneLineTalk, ModeTalk, SetFreqLine, SetModeLine, FreqReply, PowerReply, SetReply, EmptyMode;
    var k := |s.written|;
    CommandLinesAreNotM(cmd);
    match cmd {
      case GetFreq => OneLineInSync(s, F, rig, FreqReply);
      case GetMode => ModeInSync(s, rig, drained);
      case GetPower => OneLineInSync(s, RFPOWER, rig, PowerMeaning(float));
      case SetFreq(hz) => OneLineInSync(s, SetFreqLine(hz), rig, SetReply);
      case SetMode(mode) => OneLineInSync(s, SetModeLine(mode), rig, SetReply);
      case SetFreqMode(hz, mode) =>
        OneLineInSync(s, SetFreqLine(hz), rig, SetReply);
        var s1 := Stream(s.written + [SetFreqLine(hz)], []);
        OneLineInSync(s1, SetModeLine(mode), rig, SetReply);
        assert s1.written + [SetModeLine(mode)] == s.written + Block(cmd);
      case Poll =>
        PollStaysInSync(s, rig, float, drained);
    }
  }

  lemma PollStaysInSync(s: Stream, rig: Rig, float: string -> FloatText, drained: bool)
    requires InSync(s) && Speaks(rig)
    ensures var talk := CommandTalk(Poll, s, rig, float, drained);
            && talk.Talk? && talk.reply == OwnReply(Poll, rig, |s.written|, float)
            && (InSync(talk.stream) <==> !(EmptyModeAnswer(Poll, rig, |s.written|) && !drained))
            && s.written <= talk.stream.written
            && talk.stream.written[|s.written|..] <= Block(Poll)
            && (talk.reply.Ok? ==> talk.stream.written == s.written + Block(Poll))
  {
    hide OneLineTalk, ModeTalk, FreqReply, PowerReply, ParseRprt, ParseUnsigned;
    OneLineInSync(s, F, rig, FreqReply);
    var s1 := Stream(s.written + [F], []);
    ModeInSync(s1, rig, drained);
    var s2 := Stream(s1.written + [M], []);
    EmptyModeIsError(FirstReplyLine(rig, |s.written| + 1, M));
    OneLineInSync(s2, RFPOWER, rig, PowerMeaning(float));
    assert s2.written + [RFPOWER] == s.written + Block(Poll);
    assert s2.written == s.written + [F, M];
  }

  lemma EmptyModeIsError(line: string)
    ensures EmptyMode(line) ==> ModeReply(line).Err?
  {
    FirstTokenEmptyIffBlank(line);
  }

  // ------------------------------------------------------------------ sessions

  /**
   A series of commands on one connection, without an I/O error: the stream before each of them
   and behind the last, their replies, and whether the drain of each got its line.
   */
  datatype Session = Session(cmds: seq<Command>, streams: seq<Stream>, replies: seq<Reply>, drained: seq<bool>)

  ghost predicate IsSession(x: Session, rig: Rig, float: string -> FloatText) {
    && |x.streams| == |x.cmds| + 1 && |x.replies| == |x.drained| == |x.cmds|
    && forall i :: 0 <= i < |x.cmds| ==>
         CommandTalk(x.cmds[i], x.streams[i], rig, float, x.drained[i]) == Talk(x.streams[i + 1], x.replies[i])
  }

  /** No command before the `i`-th gave up on the line behind an empty mode. */
  ghost predicate NoneGaveUp(x: Session, rig: Rig, i: nat)
    requires i <= |x.cmds| <= |x.streams| && |x.cmds| <= |x.drained|
  {
    forall j :: 0 <= j < i && EmptyModeAnswer(x.cmds[j], rig, |x.streams[j].written|) ==> x.drained[j]
  }

  lemma TalkAt(x: Session, rig: Rig, float: string -> FloatText, i: nat)
    requires IsSession(x, rig, float) && i < |x.cmds|
    ensures CommandTalk(x.cmds[i], x.streams[i], rig, float, x.drained[i]) == Talk(x.streams[i + 1], x.replies[i])
  {
  }

  /**
   As long as no command gave up on the line behind an empty mode answer, every command of a
   session gets the reply its own lines earned; the stream is in sync in front of each of them,
   and behind the last.
   */
  lemma {:induction false} SessionStaysInSync(x: Session, rig: Rig, float: string -> FloatText, i: nat)
    requires IsSession(x, rig, float) && InSync(x.streams[0]) && Speaks(rig)
    requires i <= |x.cmds| && NoneGaveUp(x, rig, i)
    ensures InSync(x.streams[i])
    ensures i < |x.cmds| ==> x.replies[i] == OwnReply(x.cmds[i], rig, |x.streams[i].written|, float)
  {
    hide CommandTalk, OwnReply, EmptyModeAnswer, Speaks;
    if i > 0 {
      SessionStaysInSync(x, rig, float, i - 1);
      CommandStaysInSync(x.cmds[i - 1], x.streams[i - 1], rig, float, x.drained[i - 1]);
      TalkAt(x, rig, float, i - 1);
    }
    if i < |x.cmds| {
      CommandStaysInSync(x.cmds[i], x.streams[i], rig, float, x.drained[i]);
      TalkAt(x, rig, float, i);
    }
  }

  predicate IsOneLine(cmd: Command) { cmd.GetFreq? || cmd.GetPower? || cmd.SetFreq? || cmd.SetMode? }

  function MeaningOf(cmd: Command, float: string -> FloatText): string -> Reply
    requires IsOneLine(cmd)
  {
    match cmd
    case GetFreq => FreqReply
    case GetPower => PowerMeaning(float)
    case SetFreq(_) => SetReply
    case SetMode(_) => SetReply
  }

  lemma LateLineShiftsReply(s: Stream, late: string, cmd: Command, rig: Rig, float: string -> FloatText, drained: bool)
    requires s.owed == [late] && Speaks(rig) && IsOneLine(cmd)
    ensures Block(cmd)[0] != M && |rig(|s.written|, Block(cmd)[0])| == 1
    ensures CommandTalk(cmd, s, rig, float, drained)
         == Talk(Stream(s.written + Block(cmd), rig(|s.written|, Block(cmd)[0])),
                 MeaningOf(cmd, float)(StripLineEnd(late)))
  {
    hide SetFreqLine, SetModeLine, StripLineEnd, FreqReply, PowerReply, SetReply;
    CommandLinesAreNotM(cmd);
    var answer := rig(|s.written|, Block(cmd)[0]);
    assert |answer| == 1;
    assert ([late] + answer)[1..] == answer;
  }

  /**
   Once a stream is one line late, a session of one-line commands never catches up: the first
   command gets the late line, and each one behind it the answer to its predecessor.
   */
  lemma {:induction false} LateLineShiftsSession(x: Session, late: string, rig: Rig, float: string -> FloatText, i: nat)
    requires IsSession(x, rig, float) && x.streams[0].owed == [late] && Speaks(rig)
    requires i < |x.cmds| && forall j :: 0 <= j <= i ==> IsOneLine(x.cmds[j])
    ensures |x.streams[i].owed| == 1
    ensures x.replies[i] == MeaningOf(x.cmds[i], float)(StripLineEnd(x.streams[i].owed[0]))
    ensures i > 0 ==> x.streams[i].owed == rig(|x.streams[i - 1].written|, Block(x.cmds[i - 1])[0])
  {
    hide CommandTalk, Speaks, MeaningOf, StripLineEnd, Block;
    if i > 0 {
      LateLineShiftsSession(x, late, rig, float, i - 1);
      var s := x.streams[i - 1];
      assert s.owed == [s.owed[0]];
      LateLineShiftsReply(s, s.owed[0], x.cmds[i - 1], rig, float, x.drained[i - 1]);
      TalkAt(x, rig, float, i - 1);
    }
    var s := x.streams[i];
    assert s.owed == [s.owed[0]];
    LateLineShiftsReply(s, s.owed[0], x.cmds[i], rig, float, x.drained[i]);
    TalkAt(x, rig, float, i);
  }

  /** A rig on `hz` that reports an empty mode and, too late for the drain, its passband. */
  function SlowRig(hz: nat, passband: nat): Rig {
    (k: nat, cmd: string) =>
      if cmd == M then ["", Digits(passband)] else if cmd == F then [Digits(hz)] else ["RPRT -11"]
  }

  lemma SlowRigLeavesPassband(hz: nat, passband: nat)
    ensures var mode := ModeTalk(Stream([], []), SlowRig(hz, passband), false);
            mode == Talk(Stream([M], [Digits(passband)]), Err(BadResponse("")))
  {
    hide Digits;
    var lines := ["", Digits(passband)];
    assert [] + SlowRig(hz, passband)(0, M) == lines;
    assert lines[1..] == [Digits(passband)];
    assert [] + [M] == [M];
  }

  /** Rigs that speak the protocol: one that refuses everything, and one that has a mode; and one that does not. */
  lemma SomeRigsSpeak()
    ensures Speaks((k: nat, cmd: string) => ["RPRT -1"])
    ensures Speaks((k: nat, cmd: string) => if cmd == "m" then ["USB", "2400"] else ["RPRT 0"])
    ensures !Speaks((k: nat, cmd: string) => ["USB"])
    ensures !Speaks((k: nat, cmd: string) => ["USB", "2400"])
    ensures !Speaks((k: nat, cmd: string) => ["RPRT -1", "RPRT -1"])
  {
    hide ParseI32;
    MinusOneIsRprt();
    UsbIsNoRprt();
    var alone: Rig := (k: nat, cmd: string) => ["USB"];
    var both: Rig := (k: nat, cmd: string) => ["USB", "2400"];
    var twice: Rig := (k: nat, cmd: string) => ["RPRT -1", "RPRT -1"];
    assert |alone(0, M)| == 1 && |both(0, F)| == 2 && |twice(0, F)| == 2;
  }

  lemma MinusOneIsRprt()
    ensures ParseRprt(StripLineEnd("RPRT -1")).Some?
  {
    hide ParseI32, Digits;
    RprtReads("", -1, "", "");
    OneIsOne();
    LineEndsGo("RPRT -1", "");
    assert "RPRT " + "" + Signed(-1) + "" == "RPRT -1" && "RPRT -1" + "" == "RPRT -1";
  }

  lemma OneIsOne()
    ensures Digits(1) == "1"
  {
  }

  lemma UsbIsNoRprt()
    ensures ParseRprt(StripLineEnd("USB")).None?
  {
    hide ParseI32;
    LineEndsGo("USB", "");
    assert "USB" + "" == "USB" && "USB"[0] == 'U' && "RPRT "[0] == 'R';
  }

  lemma SlowRigSpeaks(hz: nat, passband: nat)
    ensures Speaks(SlowRig(hz, passband))
  {
    hide Digits;
  }

  /** The drain that timed out hands the passband to the next command as its frequency. */
  lemma DrainTimeoutMisattributes(hz: nat, passband: nat, float: string -> FloatText)
    returns (rig: Rig, mode: Talk, freq: Talk)
    requires hz <= U64_MAX && passband <= U64_MAX
    ensures Speaks(rig)
    ensures mode == CommandTalk(GetMode, Stream([], []), rig, float, false) && mode.Talk?
    ensures freq == CommandTalk(GetFreq, mode.stream, rig, float, true) && freq.Talk?
    ensures freq.reply == Ok(Freq(passband)) && OwnReply(GetFreq, rig, 1, float) == Ok(Freq(hz))
  {
    hide FreqReply, OneLineTalk, Digits, ModeTalk, Speaks, StripLineEnd;
    rig := SlowRig(hz, passband);
    SlowRigSpeaks(hz, passband);
    SlowRigLeavesPassband(hz, passband);
    mode := CommandTalk(GetMode, Stream([], []), rig, float, false);
    DigitsReadBack(passband);
    DigitsReadBack(hz);
    LateLineShiftsReply(mode.stream, Digits(passband), GetFreq, rig, float, true);
    freq := CommandTalk(GetFreq, mode.stream, rig, float, true);
  }

  lemma DigitsReadBack(n: nat)
    requires n <= U64_MAX
    ensures StripLineEnd(Digits(n)) == Digits(n)
    ensures FreqReply(Digits(n)) == Ok(Freq(n))
  {
    hide ParseUnsigned, ParseI32, Digits;
    DigitsRoundTrip(n);
    UnsignedRoundTrip(n, U64_MAX);
    assert Digits(n)[0] in Digits(n) && Digits(n)[|Digits(n)| - 1] in Digits(n);
    assert "RPRT "[0] == 'R';
  }
}

/**
 Runs of the rigctld actor, as journals of what it did, against what can be seen of it: one reply
 per command, the reason of every `Disconnected`, the bytes on each connection, and the backoff.
 */
module RigJournal {
  import opened Results
  import opened Rigctld
  import opened RigTranscript
  import opened RigHealth

  datatype Request = Request(id: nat, cmd: Command)

  datatype Step =
    | Connect
    | ConnectFailure
    | Serve(request: Request, io: seq<Event>, r: IoReply)
    | Backoff(delay: nat)
    | Drain(request: Request)

  /** The peer of each connection, and how it prints numbers. */
  datatype Peers = Peers(rigs: nat -> Rig, float: string -> FloatText)

  /**
   Waiting to connect, with the index of the next delay; connected, with the stream; or
   disconnected, before the delay of this index.
   */
  datatype Phase = Waiting(idx: nat) | Up(stream: Stream) | Lost(idx: nat)

  datatype Link = Link(conns: nat, phase: Phase)

  /** Milliseconds of backoff after a lost connection or a failed connect. */
  const BACKOFF: seq<nat> := [500, 1_000, 2_000, 5_000, 10_000]

  function BackoffDelay(idx: nat): nat { BACKOFF[if idx < |BACKOFF| then idx else |BACKOFF| - 1] }

  predicate Allowed(l: Link, step: Step, peers: Peers) {
    match step
    case Connect => l.phase.Waiting?
    case ConnectFailure => l.phase.Waiting?
    case Serve(request, io, r) =>
      && l.phase.Up? && l.conns > 0 && Plays(request.cmd, peers.float, io, r)
      && Possible(l.phase.stream, io, peers.rigs(l.conns - 1))
    case Backoff(delay) => l.phase.Lost? && delay == BackoffDelay(l.phase.idx)
    case Drain(_) => l.phase.Waiting? && l.phase.idx > 0
  }

  function Move(l: Link, step: Step, peers: Peers): Link {
    match step
    case Connect => Link(l.conns + 1, Up(Stream([], [])))
    case ConnectFailure => if l.phase.Waiting? then l.(phase := Lost(l.phase.idx)) else l
    case Serve(_, io, r) =>
      if !l.phase.Up? || l.conns == 0 then l
      else if r.Err? then l.(phase := Lost(0))
      else l.(phase := Up(Replay(l.phase.stream, io, peers.rigs(l.conns - 1))))
    case Backoff(_) => if l.phase.Lost? then l.(phase := Waiting(l.phase.idx + 1)) else l
    case Drain(_) => l
  }

  function After(journal: seq<Step>, peers: Peers): Link {
    if journal == [] then Link(0, Waiting(0))
    else Move(After(journal[..|journal| - 1], peers), journal[|journal| - 1], peers)
  }

  predicate Legal(journal: seq<Step>, peers: Peers) {
    journal == []
    || (var front := journal[..|journal| - 1];
        Legal(front, peers) && Allowed(After(front, peers), journal[|journal| - 1], peers))
  }

  // ------------------------------------------------------- what a journal accounts for

  function ReplyTo(step: Step): Reply {
    if step.Serve? && step.r.Ok? then step.r.value else Err(Disconnected)
  }

  function EventsOf(step: Step): seq<Event> {
    match step
    case Connect => [Connected]
    case ConnectFailure => [ConnectFailed]
    case Serve(request, io, _) => io + [Replied(request.id, ReplyTo(step))]
    case Backoff(delay) => [Slept(delay)]
    case Drain(request) => [Replied(request.id, ReplyTo(step))]
  }

  function OutcomeOf(step: Step): seq<Outcome> {
    match step
    case ConnectFailure => [Failure(Unreachable)]
    case Serve(_, _, r) => [if r.Ok? then Success else Failure(Unresponsive)]
    case _ => []
  }

  function RequestOf(step: Step): seq<Request> {
    if step.Serve? || step.Drain? then [step.request] else []
  }

  function Events(journal: seq<Step>): seq<Event> {
    if journal == [] then [] else Events(journal[..|journal| - 1]) + EventsOf(journal[|journal| - 1])
  }

  function Outcomes(journal: seq<Step>): seq<Outcome> {
    if journal == [] then [] else Outcomes(journal[..|journal| - 1]) + OutcomeOf(journal[|journal| - 1])
  }

  function Requests(journal: seq<Step>): seq<Request> {
    if journal == [] then [] else Requests(journal[..|journal| - 1]) + RequestOf(journal[|journal| - 1])
  }

  /** Attempts to connect. */
  function Rounds(journal: seq<Step>): nat {
    if journal == [] then 0
    else
      var last := journal[|journal| - 1];
      Rounds(journal[..|journal| - 1]) + if last.Connect? || last.ConnectFailure? then 1 else 0
  }

  lemma StepExtends(journal: seq<Step>, step: Step, peers: Peers)
    ensures After(journal + [step], peers) == Move(After(journal, peers), step, peers)
    ensures Legal(journal + [step], peers) <==> Legal(journal, peers) && Allowed(After(journal, peers), step, peers)
    ensures Events(journal + [step]) == Events(journal) + EventsOf(step)
    ensures Outcomes(journal + [step]) == Outcomes(journal) + OutcomeOf(step)
    ensures Requests(journal + [step]) == Requests(journal) + RequestOf(step)
    ensures Rounds(journal + [step]) == Rounds(journal) + if step.Connect? || step.ConnectFailure? then 1 else 0
  {
    hide Move, Allowed, EventsOf, OutcomeOf, RequestOf;
    assert (journal + [step])[..|journal|] == journal;
  }

  lemma {:induction false} LegalAt(journal: seq<Step>, peers: Peers, i: nat)
    requires Legal(journal, peers) && i <= |journal|
    ensures Legal(journal[..i], peers)
    ensures i < |journal| ==>
              Allowed(After(journal[..i], peers), journal[i], peers)
              && After(journal[..i + 1], peers) == Move(After(journal[..i], peers), journal[i], peers)
  {
    hide Move, Allowed;
    if i == |journal| {
      assert journal[..i] == journal;
    } else {
      var front := journal[..|journal| - 1];
      if i < |front| {
        LegalAt(front, peers, i);
        assert front[..i] == journal[..i] && front[..i + 1] == journal[..i + 1];
      } else {
        assert journal[..i] == front && journal[..i + 1] == journal;
      }
    }
  }

  // ------------------------------------------------------- one reply per command

  function RepliesIn(events: seq<Event>): seq<(nat, Reply)> {
    if events == [] then []
    else
      var last := events[|events| - 1];
      RepliesIn(events[..|events| - 1]) + if last.Replied? then [(last.id, last.reply)] else []
  }

  lemma RepliesInLast(events: seq<Event>, e: Event)
    ensures RepliesIn(events + [e]) == RepliesIn(events) + if e.Replied? then [(e.id, e.reply)] else []
  {
    assert (events + [e])[..|events|] == events;
  }

  lemma {:induction false} NoReplyOnTheWire(events: seq<Event>, io: seq<Event>)
    requires ErrorsOnlyLast(io)
    ensures RepliesIn(events + io) == RepliesIn(events)
  {
    if io == [] {
      assert events + io == events;
    } else {
      var front := io[..|io| - 1];
      NoReplyOnTheWire(events, front);
      RepliesInLast(events + front, io[|io| - 1]);
      assert events + front + [io[|io| - 1]] == events + io;
    }
  }

  lemma StepReplies(events: seq<Event>, l: Link, step: Step, peers: Peers)
    requires Allowed(l, step, peers)
    ensures RepliesIn(events + EventsOf(step))
         == RepliesIn(events) + if RequestOf(step) == [] then [] else [(RequestOf(step)[0].id, ReplyTo(step))]
  {
    hide Plays, ReplyTo, RepliesIn, Possible;
    if step.Serve? {
      ErrIffBreaks(step.request.cmd, peers.float, step.io, step.r);
      NoReplyOnTheWire(events, step.io);
      RepliesInLast(events + step.io, Replied(step.request.id, ReplyTo(step)));
      assert events + step.io + [Replied(step.request.id, ReplyTo(step))] == events + EventsOf(step);
    } else {
      RepliesInLast(events, EventsOf(step)[0]);
      assert EventsOf(step) == [EventsOf(step)[0]];
    }
  }

  /** Every command the actor took was replied to exactly once, in the order in which they came. */
  lemma {:induction false} OneReplyEach(journal: seq<Step>, peers: Peers)
    requires Legal(journal, peers)
    ensures var replies, requests := RepliesIn(Events(journal)), Requests(journal);
            && |replies| == |requests|
            && forall i :: 0 <= i < |requests| ==> replies[i].0 == requests[i].id
  {
    hide Allowed, ReplyTo, EventsOf, RequestOf, RepliesIn;
    if journal == [] {
      NoReplies();
    } else {
      var front, step := journal[..|journal| - 1], journal[|journal| - 1];
      OneReplyEach(front, peers);
      StepReplies(Events(front), After(front, peers), step, peers);
      AtMostOneRequest(step);
    }
  }

  lemma NoReplies()
    ensures RepliesIn([]) == []
  {
  }

  lemma AtMostOneRequest(step: Step)
    ensures |RequestOf(step)| <= 1
  {
  }

  // ------------------------------------------------------- when the reply is Disconnected

  /** The last thing that happened, other replies aside, was the start of a backoff. */
  predicate InBackoff(events: seq<Event>) {
    events != []
    && var last := events[|events| - 1];
    last.Slept? || (last.Replied? && InBackoff(events[..|events| - 1]))
  }

  lemma InBackoffLast(events: seq<Event>, e: Event)
    ensures InBackoff(events + [e]) <==> e.Slept? || (e.Replied? && InBackoff(events))
  {
    assert (events + [e])[..|events|] == events;
  }

  lemma {:induction false} WaitingIsInBackoff(journal: seq<Step>, peers: Peers)
    requires Legal(journal, peers) && After(journal, peers).phase.Waiting? && After(journal, peers).phase.idx > 0
    ensures InBackoff(Events(journal))
  {
    hide Plays, Possible, Replay, InBackoff;
    var front, step := journal[..|journal| - 1], journal[|journal| - 1];
    if step.Drain? {
      WaitingIsInBackoff(front, peers);
    }
    if !step.Serve? {
      InBackoffLast(Events(front), EventsOf(step)[0]);
      assert EventsOf(step) == [EventsOf(step)[0]];
    }
  }

  lemma BreaksBehind(events: seq<Event>, io: seq<Event>)
    requires io != [] && (io[0].SentLine? || io[0].SendFailed?)
    ensures Breaks(events + io) <==> Breaks(io)
  {
    hide EmptyMode;
    var all := events + io;
    assert all[|all| - 1] == io[|io| - 1];
    if |io| >= 2 {
      assert all[|all| - 2] == io[|io| - 2];
    }
    if |io| >= 3 {
      assert all[|all| - 3] == io[|io| - 3];
    }
  }

  lemma ServedReply(events: seq<Event>, l: Link, step: Step, peers: Peers)
    requires step.Serve? && Allowed(l, step, peers)
    ensures ReplyTo(step) == Err(Disconnected) <==> InBackoff(events + step.io) || Breaks(events + step.io)
    ensures ReplyTo(step) == Err(Disconnected) <==> step.r.Err?
    ensures step.r.Err? <==> Breaks(step.io)
    ensures ErrorsOnlyLast(step.io)
  {
    hide Plays, Possible, Replay, Breaks, CommandTalk, InBackoff;
    ErrIffBreaks(step.request.cmd, peers.float, step.io, step.r);
    NotInBackoffOnTheWire(events, l, step, peers);
    if step.r.Ok? {
      var rig := peers.rigs(l.conns - 1);
      PlaysIsTalk(step.request.cmd, peers.float, l.phase.stream, step.io, step.r, rig);
      TalkIsNeverDisconnected(step.request.cmd, l.phase.stream, rig, peers.float, !DrainGaveUp(step.io));
    }
  }

  lemma TalkIsNeverDisconnected(cmd: Command, s: Stream, rig: Rig, float: string -> FloatText, drained: bool)
    ensures var talk := CommandTalk(cmd, s, rig, float, drained);
            talk.Talk? ==> talk.reply != Err(Disconnected)
  {
    hide ParseRprt, SetFreqLine, SetModeLine, StripLineEnd;
  }

  /**
   On everything that can be seen of a run: a reply is `Disconnected` if and only if the event in
   front of it is an I/O error that the command did not ignore, or the actor was in a backoff.
   */
  lemma {:induction false} DisconnectedIffFault(journal: seq<Step>, peers: Peers, p: nat)
    requires Legal(journal, peers) && p < |Events(journal)| && Events(journal)[p].Replied?
    ensures var events := Events(journal);
            events[p].reply == Err(Disconnected) <==> InBackoff(events[..p]) || Breaks(events[..p])
  {
    hide Allowed, After, InBackoff, Breaks, ReplyTo;
    var front, step := journal[..|journal| - 1], journal[|journal| - 1];
    var before, events := Events(front), Events(journal);
    if p < |before| {
      DisconnectedIffFault(front, peers, p);
      assert events[..p] == before[..p];
    } else if step.Serve? {
      ServedReply(before, After(front, peers), step, peers);
      assert p == |before| + |step.io|;
      assert events[..p] == before + step.io;
    } else {
      assert step.Drain? && events[..p] == before;
      DrainedReply(front, step, peers);
    }
  }

  lemma DrainedReply(journal: seq<Step>, step: Step, peers: Peers)
    requires Legal(journal, peers) && step.Drain? && Allowed(After(journal, peers), step, peers)
    ensures ReplyTo(step) == Err(Disconnected) && InBackoff(Events(journal))
  {
    WaitingIsInBackoff(journal, peers);
  }

  // ------------------------------------------------------- the health history

  /** What the health history has to be, from what can be seen: every fault and every success, in its place. */
  function OutcomesIn(events: seq<Event>): seq<Outcome> {
    if events == [] then []
    else
      var front := events[..|events| - 1];
      OutcomesIn(front)
      + match events[|events| - 1]
        case ConnectFailed => [Failure(Unreachable)]
        case Replied(_, _) =>
          if InBackoff(front) then [] else [if Breaks(front) then Failure(Unresponsive) else Success]
        case _ => []
  }

  lemma OutcomesInLast(events: seq<Event>, e: Event)
    ensures OutcomesIn(events + [e]) == OutcomesIn(events) +
              match e
              case ConnectFailed => [Failure(Unreachable)]
              case Replied(_, _) =>
                if InBackoff(events) then [] else [if Breaks(events) then Failure(Unresponsive) else Success]
              case _ => []
  {
    assert (events + [e])[..|events|] == events;
  }

  lemma {:induction false} NoOutcomeOnTheWire(events: seq<Event>, io: seq<Event>)
    requires ErrorsOnlyLast(io)
    ensures OutcomesIn(events + io) == OutcomesIn(events)
  {
    hide InBackoff, Breaks;
    if io == [] {
      assert events + io == events;
    } else {
      var front := io[..|io| - 1];
      NoOutcomeOnTheWire(events, front);
      OutcomesInLast(events + front, io[|io| - 1]);
      assert events + front + [io[|io| - 1]] == events + io;
    }
  }

  /** The outcomes entered in the health history are exactly those that can be seen. */
  lemma {:induction false} OutcomesAreSeen(journal: seq<Step>, peers: Peers)
    requires Legal(journal, peers)
    ensures Outcomes(journal) == OutcomesIn(Events(journal))
  {
    hide Allowed, After, InBackoff, Breaks, ReplyTo, OutcomesIn;
    if journal == [] {
      NoOutcomes();
    } else {
      var front, step := journal[..|journal| - 1], journal[|journal| - 1];
      OutcomesAreSeen(front, peers);
      var before := Events(front);
      if step.Serve? {
        ServedReply(before, After(front, peers), step, peers);
        NoOutcomeOnTheWire(before, step.io);
        NotInBackoffOnTheWire(before, After(front, peers), step, peers);
        OutcomesInLast(before + step.io, Replied(step.request.id, ReplyTo(step)));
        assert before + step.io + [Replied(step.request.id, ReplyTo(step))] == Events(journal);
      } else {
        if step.Drain? {
          DrainedReply(front, step, peers);
        }
        OutcomesInLast(before, EventsOf(step)[0]);
        assert EventsOf(step) == [EventsOf(step)[0]];
      }
    }
  }

  lemma NoOutcomes()
    ensures OutcomesIn([]) == []
  {
  }

  lemma NotInBackoffOnTheWire(events: seq<Event>, l: Link, step: Step, peers: Peers)
    requires step.Serve? && Allowed(l, step, peers)
    ensures !InBackoff(events + step.io) && (Breaks(events + step.io) <==> step.r.Err?)
  {
    hide Plays, Possible, Replay, Breaks;
    ErrIffBreaks(step.request.cmd, peers.float, step.io, step.r);
    BreaksBehind(events, step.io);
    var last := step.io[|step.io| - 1];
    InBackoffLast(events + step.io[..|step.io| - 1], last);
    assert events + step.io[..|step.io| - 1] + [last] == events + step.io;
  }

  // ------------------------------------------------------- answers are own

  ghost predicate NoConnect(journal: seq<Step>, i: nat, j: nat)
    requires j <= |journal|
  {
    forall k :: i <= k < j ==> !journal[k].Connect?
  }

  /** No command in this part of a journal gave up on the line behind an empty mode. */
  ghost predicate NoDrainGaveUp(journal: seq<Step>, i: nat, j: nat)
    requires j <= |journal|
  {
    forall k :: i <= k < j && journal[k].Serve? ==> !DrainGaveUp(journal[k].io)
  }

  lemma ServeStaysInSync(l: Link, step: Step, peers: Peers)
    requires step.Serve? && Allowed(l, step, peers) && InSync(l.phase.stream) && Speaks(peers.rigs(l.conns - 1))
    ensures step.r.Ok? ==>
              step.r.value == OwnReply(step.request.cmd, peers.rigs(l.conns - 1), |l.phase.stream.written|, peers.float)
    ensures step.r.Ok? && !DrainGaveUp(step.io) ==>
              InSync(Replay(l.phase.stream, step.io, peers.rigs(l.conns - 1)))
  {
    hide Plays, Possible, Replay, DrainGaveUp, CommandTalk, OwnReply, EmptyModeAnswer, Speaks;
    var rig, s := peers.rigs(l.conns - 1), l.phase.stream;
    if step.r.Ok? {
      PlaysIsTalk(step.request.cmd, peers.float, s, step.io, step.r, rig);
      CommandStaysInSync(step.request.cmd, s, rig, peers.float, !DrainGaveUp(step.io));
    }
  }

  lemma {:induction false} ConnectionInSync(journal: seq<Step>, peers: Peers, c: nat, i: nat)
    requires Legal(journal, peers) && c < i <= |journal| && journal[c].Connect?
    requires NoConnect(journal, c + 1, i) && NoDrainGaveUp(journal, c + 1, i)
    requires Speaks(peers.rigs(After(journal[..c], peers).conns))
    ensures After(journal[..i], peers).conns == After(journal[..c], peers).conns + 1
    ensures After(journal[..i], peers).phase.Up? ==> InSync(After(journal[..i], peers).phase.stream)
  {
    hide Plays, Possible, Replay, DrainGaveUp, CommandTalk, After, Legal, Speaks;
    LegalAt(journal, peers, i - 1);
    if i - 1 > c {
      ConnectionInSync(journal, peers, c, i - 1);
      var l, step := After(journal[..i - 1], peers), journal[i - 1];
      if step.Serve? {
        ServeStaysInSync(l, step, peers);
      }
    }
  }

  /**
   Every command on a connection gets the reply its own lines earned, as long as no command
   before it on this connection gave up on the line behind an empty mode.
   */
  lemma AnswersAreOwn(journal: seq<Step>, peers: Peers, c: nat, i: nat)
    requires Legal(journal, peers) && c < i < |journal| && journal[c].Connect? && journal[i].Serve?
    requires NoConnect(journal, c + 1, i) && NoDrainGaveUp(journal, c + 1, i)
    requires Speaks(peers.rigs(After(journal[..c], peers).conns))
    ensures var l := After(journal[..i], peers);
            && l.conns == After(journal[..c], peers).conns + 1 && l.phase.Up?
            && (!Breaks(journal[i].io) ==>
                  ReplyTo(journal[i])
                  == OwnReply(journal[i].request.cmd, peers.rigs(l.conns - 1), |l.phase.stream.written|, peers.float))
  {
    hide Plays, Possible, Replay, DrainGaveUp, Breaks, OwnReply, After, Legal, Speaks, NoConnect, NoDrainGaveUp;
    LegalAt(journal, peers, i);
    ConnectionInSync(journal, peers, c, i);
    var l := After(journal[..i], peers);
    ServedReply([], l, journal[i], peers);
    ServeStaysInSync(l, journal[i], peers);
  }

  // ------------------------------------------------------- blocks on the wire

  /** The bytes written on the current or last connection. */
  function WireNow(journal: seq<Step>): string {
    if journal == [] || journal[|journal| - 1].Connect? then ""
    else
      var step := journal[|journal| - 1];
      WireNow(journal[..|journal| - 1]) + if step.Serve? then Wire(step.io) else ""
  }

  lemma WireNowAt(journal: seq<Step>, i: nat)
    requires i < |journal|
    ensures WireNow(journal[..i + 1])
         == if journal[i].Connect? then ""
            else WireNow(journal[..i]) + if journal[i].Serve? then Wire(journal[i].io) else ""
  {
    hide Wire;
    assert journal[..i + 1][..i] == journal[..i];
  }

  lemma {:induction false} SilentAfterError(journal: seq<Step>, peers: Peers, i: nat, j: nat)
    requires Legal(journal, peers) && i < j <= |journal| && NoConnect(journal, i + 1, j)
    requires journal[i].Serve? && journal[i].r.Err?
    ensures !After(journal[..j], peers).phase.Up?
    ensures WireNow(journal[..j]) == WireNow(journal[..i]) + Wire(journal[i].io)
  {
    hide Plays, Possible, Replay, DrainGaveUp, After, Legal, WireNow, Wire;
    LegalAt(journal, peers, j - 1);
    WireNowAt(journal, j - 1);
    if i < j - 1 {
      SilentAfterError(journal, peers, i, j - 1);
      assert WireNow(journal[..j - 1]) + "" == WireNow(journal[..j - 1]);
    }
  }

  lemma {:induction false} WireGrows(journal: seq<Step>, i: nat, j: nat)
    requires i <= j <= |journal| && NoConnect(journal, i, j)
    ensures WireNow(journal[..i]) <= WireNow(journal[..j])
  {
    hide WireNow, Wire;
    if i < j {
      WireGrows(journal, i, j - 1);
      WireNowAt(journal, j - 1);
    }
  }

  /**
   Wire atomicity, to the byte: what a command wrote stands in one piece on its connection, where
   nothing of another command can be inside it. It is a cut of the lines of that command, and all
   of them if it succeeded. Behind an I/O error nothing more is written on the connection.
   */
  lemma BlocksStandWhole(journal: seq<Step>, peers: Peers, i: nat, j: nat)
    requires Legal(journal, peers) && i < j <= |journal| && journal[i].Serve? && NoConnect(journal, i + 1, j)
    ensures WireNow(journal[..i]) + Wire(journal[i].io) <= WireNow(journal[..j])
    ensures Wire(journal[i].io) <= Bytes(Block(journal[i].request.cmd))
    ensures ReplyTo(journal[i]).Ok? ==> Wire(journal[i].io) == Bytes(Block(journal[i].request.cmd))
    ensures ReplyTo(journal[i]) == Err(Disconnected) ==>
              WireNow(journal[..j]) == WireNow(journal[..i]) + Wire(journal[i].io)
  {
    hide Plays, Possible, Replay, After, Legal, WireNow, Wire, Bytes, Block, Breaks;
    LegalAt(journal, peers, i);
    var step := journal[i];
    PlaysWritesCut(step.request.cmd, peers.float, step.io, step.r);
    WireNowAt(journal, i);
    WireGrows(journal, i + 1, j);
    ServedReply([], After(journal[..i], peers), step, peers);
    if step.r.Err? {
      SilentAfterError(journal, peers, i, j);
    }
  }

  lemma HeardIsOutput(s: Stream, e: Event, rig: Rig)
    requires !e.SendFailed?
    ensures Bytes(Heard(s, e, rig).written) == Bytes(s.written) + Output(e)
  {
    if e.SentLine? {
      assert (s.written + [e.cmd])[..|s.written|] == s.written;
    }
  }

  lemma {:induction false} LinesAreOnTheWire(s: Stream, io: seq<Event>, rig: Rig)
    requires forall i :: 0 <= i < |io| ==> !io[i].SendFailed?
    ensures Bytes(Replay(s, io, rig).written) == Bytes(s.written) + Wire(io)
  {
    hide Heard, Bytes, Output;
    if io != [] {
      var front, e := io[..|io| - 1], io[|io| - 1];
      LinesAreOnTheWire(s, front, rig);
      HeardIsOutput(Replay(s, front, rig), e, rig);
      assert Bytes(s.written) + Wire(front) + Output(e) == Bytes(s.written) + (Wire(front) + Output(e));
    }
  }

  /** While a connection is up, its bytes are exactly the lines its peer has been given to answer. */
  lemma {:induction false} WireIsStream(journal: seq<Step>, peers: Peers)
    requires Legal(journal, peers) && After(journal, peers).phase.Up?
    ensures WireNow(journal) == Bytes(After(journal, peers).phase.stream.written)
  {
    hide Plays, Possible, Replay, DrainGaveUp, Wire, Bytes, Breaks;
    var front, step := journal[..|journal| - 1], journal[|journal| - 1];
    if step.Connect? {
      NoBytes();
    } else {
      WireIsStream(front, peers);
      var l := After(front, peers);
      ErrIffBreaks(step.request.cmd, peers.float, step.io, step.r);
      NoSendFailed(step.io);
      LinesAreOnTheWire(l.phase.stream, step.io, peers.rigs(l.conns - 1));
    }
  }

  lemma NoBytes()
    ensures Bytes([]) == ""
  {
  }

  lemma NoSendFailed(io: seq<Event>)
    requires ErrorsOnlyLast(io) && !Breaks(io) && io != []
    ensures forall i :: 0 <= i < |io| ==> !io[i].SendFailed?
  {
  }

  // ------------------------------------------------------- the backoff

  /** Failed connects since the last one that succeeded. */
  function Failures(journal: seq<Step>): nat {
    if journal == [] || journal[|journal| - 1].Connect? then 0
    else Failures(journal[..|journal| - 1]) + if journal[|journal| - 1].ConnectFailure? then 1 else 0
  }

  lemma {:induction false} IndexCountsFailures(journal: seq<Step>, peers: Peers)
    requires Legal(journal, peers)
    ensures var l := After(journal, peers);
            match l.phase
            case Up(_) => l.conns > 0 && Failures(journal) == 0
            case Lost(idx) => idx == Failures(journal) - if l.conns == 0 then 1 else 0
            case Waiting(idx) => idx == Failures(journal) + if l.conns == 0 then 0 else 1
  {
    hide Plays, Possible, Replay, DrainGaveUp;
    if journal != [] {
      IndexCountsFailures(journal[..|journal| - 1], peers);
    }
  }

  /**
   The delay of a backoff is set by the failed connects since the last connection, the first of
   them not counted if there has been none.
   */
  lemma BackoffFollowsFailures(journal: seq<Step>, peers: Peers, i: nat)
    requires Legal(journal, peers) && i < |journal| && journal[i].Backoff?
    ensures var connected := exists c :: 0 <= c < i && journal[c].Connect?;
            && (connected || Failures(journal[..i]) > 0)
            && journal[i].delay == BackoffDelay(Failures(journal[..i]) - if connected then 0 else 1)
  {
    hide Legal, Failures;
    LegalAt(journal, peers, i);
    IndexCountsFailures(journal[..i], peers);
    ConnsCountConnects(journal[..i], peers);
    assert forall c :: 0 <= c < i ==> journal[..i][c] == journal[c];
  }

  lemma {:induction false} ConnsCountConnects(journal: seq<Step>, peers: Peers)
    ensures After(journal, peers).conns > 0 <==> exists c :: 0 <= c < |journal| && journal[c].Connect?
  {
    hide Replay, DrainGaveUp;
    if journal != [] {
      var front := journal[..|journal| - 1];
      ConnsCountConnects(front, peers);
      assert forall c :: 0 <= c < |front| ==> front[c] == journal[c];
    }
  }

  /** Failed connects since the last one that succeeded, as they can be seen. */
  function FailuresSeen(events: seq<Event>): nat {
    if events == [] || events[|events| - 1].Connected? then 0
    else FailuresSeen(events[..|events| - 1]) + if events[|events| - 1].ConnectFailed? then 1 else 0
  }

  predicate ConnectedBefore(events: seq<Event>) {
    events != [] && (events[|events| - 1].Connected? || ConnectedBefore(events[..|events| - 1]))
  }

  lemma SeenLast(events: seq<Event>, e: Event)
    ensures FailuresSeen(events + [e])
         == if e.Connected? then 0 else FailuresSeen(events) + if e.ConnectFailed? then 1 else 0
    ensures ConnectedBefore(events + [e]) <==> e.Connected? || ConnectedBefore(events)
  {
    assert (events + [e])[..|events|] == events;
  }

  lemma {:induction false} NoneSeenOnTheWire(events: seq<Event>, io: seq<Event>)
    requires ErrorsOnlyLast(io)
    ensures FailuresSeen(events + io) == FailuresSeen(events)
    ensures ConnectedBefore(events + io) <==> ConnectedBefore(events)
  {
    hide FailuresSeen, ConnectedBefore;
    if io == [] {
      assert events + io == events;
    } else {
      var front := io[..|io| - 1];
      NoneSeenOnTheWire(events, front);
      SeenLast(events + front, io[|io| - 1]);
      assert events + front + [io[|io| - 1]] == events + io;
    }
  }

  lemma {:induction false} FailuresAreSeen(journal: seq<Step>, peers: Peers)
    requires Legal(journal, peers)
    ensures Failures(journal) == FailuresSeen(Events(journal))
    ensures ConnectedBefore(Events(journal)) <==> After(journal, peers).conns > 0
  {
    hide Allowed, Replay, InBackoff, Breaks, ReplyTo, FailuresSeen, ConnectedBefore;
    if journal == [] {
      NoneSeenYet();
    } else {
      var front, step := journal[..|journal| - 1], journal[|journal| - 1];
      FailuresAreSeen(front, peers);
      var before := Events(front);
      if step.Serve? {
        ServedReply(before, After(front, peers), step, peers);
        NoneSeenOnTheWire(before, step.io);
        SeenLast(before + step.io, Replied(step.request.id, ReplyTo(step)));
        assert before + step.io + [Replied(step.request.id, ReplyTo(step))] == Events(journal);
      } else {
        SeenLast(before, EventsOf(step)[0]);
        assert EventsOf(step) == [EventsOf(step)[0]];
      }
    }
  }

  lemma NoneSeenYet()
    ensures FailuresSeen([]) == 0 && !ConnectedBefore([])
  {
  }

  /** The schedule: half a second, one, two, five, and then ten seconds each. */
  lemma BackoffSchedule(n: nat)
    ensures BackoffDelay(n) == if n == 0 then 500 else if n == 1 then 1_000 else if n == 2 then 2_000
                               else if n == 3 then 5_000 else 10_000
  {
  }

  lemma SleepIsBackoff(l: Link, step: Step, peers: Peers, p: nat)
    requires Allowed(l, step, peers) && p < |EventsOf(step)| && EventsOf(step)[p].Slept?
    ensures step.Backoff? && p == 0
  {
    hide Plays, Possible, Replay, ReplyTo;
    if step.Serve? {
      ErrIffBreaks(step.request.cmd, peers.float, step.io, step.r);
    }
  }

  /**
   What can be seen of a run: behind `n` failed connects since the last connection, the actor sleeps
   0.5, 1, 2, 5 and then always 10 seconds for `n` from 0 on; before the first connection, from 1 on.
   */
  lemma {:induction false} SleepsFollowSchedule(journal: seq<Step>, peers: Peers, p: nat)
    requires Legal(journal, peers) && p < |Events(journal)| && Events(journal)[p].Slept?
    ensures var before := Events(journal)[..p];
            && (ConnectedBefore(before) || FailuresSeen(before) > 0)
            && var n := FailuresSeen(before) - if ConnectedBefore(before) then 0 else 1;
            Events(journal)[p].delay == if n == 0 then 500 else if n == 1 then 1_000 else if n == 2 then 2_000
                                        else if n == 3 then 5_000 else 10_000
  {
    hide After, Replay, FailuresSeen, ConnectedBefore, Plays, Possible, ReplyTo, BackoffDelay, Failures;
    var front, step := journal[..|journal| - 1], journal[|journal| - 1];
    var before, events := Events(front), Events(journal);
    if p < |before| {
      SleepsFollowSchedule(front, peers, p);
      assert events[..p] == before[..p];
    } else {
      SleepIsBackoff(After(front, peers), step, peers, p - |before|);
      assert events[..p] == before;
      FailuresAreSeen(front, peers);
      IndexCountsFailures(front, peers);
      BackoffSchedule(After(front, peers).phase.idx);
    }
  }
}

/**
 The actor that owns the rigctld connection: it serves queued commands one at a time, gives up a
 connection on the first I/O error, and answers everything that arrives during a backoff itself.
 */
module RigActor {
  import opened Results
  import opened Text
  import opened Rigctld
  import opened RigTranscript
  import opened RigHealth
  import opened RigJournal

  /** All that can be seen of the actor, in order. Only the primitive operations below add to it. */
  class World {
    var events: seq<Event>

    constructor ()
      ensures events == []
    {
      events := [];
    }

    method Record(e: Event)
      modifies this
      ensures events == old(events) + [e]
    {
      events := events + [e];
    }

    method TryConnect() returns (ok: bool)
      modifies this
      ensures events == old(events) + [if ok then Connected else ConnectFailed]
    {
      ok := *;
      Record(if ok then Connected else ConnectFailed);
    }
  }

  class Connection {
    const world: World
    const rig: Rig
    const float: string -> FloatText
    var written: seq<string>
    var owed: seq<string>

    function Stream(): Stream
      reads this
    {
      Rigctld.Stream.Stream(written, owed)
    }

    /** What happened since is this transcript, and it left the stream as it is now. */
    twostate predicate Saw(io: seq<Event>)
      reads this, world
    {
      && world.events == old(world.events) + io
      && Possible(old(Stream()), io, rig) && Stream() == Replay(old(Stream()), io, rig)
    }

    constructor (world: World, rig: Rig, float: string -> FloatText)
      ensures this.world == world && this.rig == rig && this.float == float
      ensures Stream() == Rigctld.Stream.Stream([], [])
    {
      this.world, this.rig, this.float := world, rig, float;
      written, owed := [], [];
    }

    /** Write a line and its newline. A write that fails may leave any part of them on the wire. */
    method Send(cmd: string) returns (r: Result<(), IoError>, ghost e: Event)
      modifies this, world
      ensures Saw([e])
      ensures if r.Ok? then e == SentLine(cmd) else FailsToSend(cmd, e)
    {
      e := SentLine(cmd);
      if * {
        var n := *;
        var part := Ended(cmd)[..if 0 <= n <= |cmd| then n else |cmd| + 1];
        e := SendFailed(part);
        SawOne(Stream(), e, rig);
        world.Record(SendFailed(part));
        r := Err(IoError);
        return;
      }
      SawOne(Stream(), e, rig);
      owed := owed + rig(|written|, cmd);
      written := written + [cmd];
      world.Record(SentLine(cmd));
      r := Ok(());
    }

    /** One reply line, without its line end. Times out if none is there, and may fail in any case. */
    method ReadLine() returns (r: Result<string, IoError>, ghost e: Event)
      modifies this, world
      ensures Saw([e])
      ensures if r.Ok? then e.Got? && r.value == StripLineEnd(e.line) else e == ReadFailed
    {
      var failed := *;
      if failed || owed == [] {
        e := ReadFailed;
        SawOne(Stream(), e, rig);
        world.Record(ReadFailed);
        r := Err(IoError);
        return;
      }
      e := Got(owed[0]);
      SawOne(Stream(), e, rig);
      world.Record(Got(owed[0]));
      r := Ok(StripLineEnd(owed[0]));
      owed := owed[1..];
    }

    /** Send one line, read one line, and say what it means. */
    method OneLine(cmd: string, meaning: string -> Reply) returns (r: IoReply, ghost io: seq<Event>)
      modifies this, world
      ensures Saw(io) && OneLinePlays(cmd, meaning, io, r)
    {
      hide Possible, Replay, StripLineEnd;
      var sent, e := Send(cmd);
      io := [e];
      if sent.Err? {
        r := Err(IoError);
        return;
      }
      label Read:
      var line, e' := ReadLine();
      io := io + [e'];
      TranscriptsJoin(old(Stream()), [e], [e'], rig);
      r := if line.Err? then Err(IoError) else Ok(meaning(line.value));
    }

    method ExecGetFreq() returns (r: IoReply, ghost io: seq<Event>)
      modifies this, world
      ensures Saw(io) && Plays(GetFreq, float, io, r)
    {
      r, io := OneLine(F, FreqReply);
    }

    method ExecGetPower() returns (r: IoReply, ghost io: seq<Event>)
      modifies this, world
      ensures Saw(io) && Plays(GetPower, float, io, r)
    {
      r, io := OneLine(RFPOWER, PowerMeaning(float));
    }

    method ExecGetMode() returns (r: IoReply, ghost io: seq<Event>)
      modifies this, world
      ensures Saw(io) && Plays(GetMode, float, io, r)
    {
      hide Possible, Replay, StripLineEnd, ParseRprt, FirstToken, Blank;
      var sent, e := Send(M);
      io := [e];
      if sent.Err? {
        r := Err(IoError);
        return;
      }
      var line1, e1 := ReadLine();
      TranscriptsJoin(old(Stream()), io, [e1], rig);
      io := io + [e1];
      if line1.Err? {
        r := Err(IoError);
        return;
      }
      if ParseRprt(line1.value).Some? {
        r := Ok(Err(Hamlib(ParseRprt(line1.value).value)));
        return;
      }
      var token := FirstToken(line1.value);
      FirstTokenEmptyIffBlank(line1.value);
      if token == "" {
        // Drain the passband line; an error of this read is not reported.
        var _, e2 := ReadLine();
        TranscriptsJoin(old(Stream()), io, [e2], rig);
        io := io + [e2];
        r := Ok(Err(BadResponse(line1.value)));
        return;
      }
      var line2, e2 := ReadLine();
      TranscriptsJoin(old(Stream()), io, [e2], rig);
      io := io + [e2];
      r := if line2.Err? then Err(IoError) else Ok(Ok(Mode(token)));
    }

    method ExecSetFreqMode(hz: nat, mode: HamlibMode) returns (r: IoReply, ghost io: seq<Event>)
      modifies this, world
      ensures Saw(io) && Plays(SetFreqMode(hz, mode), float, io, r)
    {
      hide Possible, Replay, SetFreqLine, SetModeLine, SetReply;
      r, io := OneLine(SetFreqLine(hz), SetReply);
      if r.Ok? && r.value.Ok? {
        SetReplyIsDone(r, io, hz);
        ghost var io';
        r, io' := OneLine(SetModeLine(mode), SetReply);
        TranscriptsJoin(old(Stream()), io, io', rig);
        assert (io + io')[..2] == io && (io + io')[2..] == io';
        io := io + io';
      }
    }

    method ExecPoll() returns (r: IoReply, ghost io: seq<Event>)
      modifies this, world
      ensures Saw(io) && Plays(Poll, float, io, r)
    {
      hide Possible, Replay, OneLinePlays, ModePlays, PollPlays, SnapshotReply;
      var freq;
      freq, io := ExecGetFreq();
      r := freq;
      if freq.Err? || freq.value.Err? {
        PollStopsAtFreq(float, io, r);
        return;
      }
      var mode;
      ghost var io1, io2 := io, [];
      mode, io2 := ExecGetMode();
      TranscriptsJoin(old(Stream()), io1, io2, rig);
      io := io1 + io2;
      r := mode;
      if mode.Err? || mode.value.Err? {
        PollStopsAtMode(float, io1, freq.value, io2, r);
        return;
      }
      var power;
      ghost var io3;
      power, io3 := ExecGetPower();
      TranscriptsJoin(old(Stream()), io1 + io2, io3, rig);
      io := io1 + io2 + io3;
      PollEndsWithPower(float, io1, freq.value, io2, mode.value, io3, power);
      r := if power.Err? then power
           else Ok(SnapshotReply(freq.value.value.hz, mode.value.value.mode, power.value));
    }

    /** Run one command; an I/O error tells the actor to give up the connection. */
    method HandleCommand(cmd: Command) returns (r: IoReply, ghost io: seq<Event>)
      modifies this, world
      ensures Saw(io) && Plays(cmd, float, io, r)
    {
      hide OneLinePlays, Possible, Replay, SetFreqLine, SetModeLine, FreqReply, PowerReply, ModeReply;
      match cmd {
        case GetFreq => r, io := ExecGetFreq();
        case GetMode => r, io := ExecGetMode();
        case GetPower => r, io := ExecGetPower();
        case Poll => r, io := ExecPoll();
        case SetFreq(hz) => r, io := OneLine(SetFreqLine(hz), SetReply);
        case SetMode(mode) => r, io := OneLine(SetModeLine(mode), SetReply);
        case SetFreqMode(hz, mode) => r, io := ExecSetFreqMode(hz, mode);
      }
    }

    /** Run one command and reply to its caller. */
    method Dispatch(request: Request) returns (r: IoReply, ghost io: seq<Event>)
      modifies this, world
      ensures world.events == old(world.events) + EventsOf(Step.Serve(request, io, r))
      ensures Possible(old(Stream()), io, rig) && Stream() == Replay(old(Stream()), io, rig)
      ensures Plays(request.cmd, float, io, r)
    {
      hide Plays, Possible, Replay;
      r, io := HandleCommand(request.cmd);
      world.Record(Replied(request.id, if r.Ok? then r.value else Err(Disconnected)));
    }
  }

  lemma SawOne(s: Rigctld.Stream, e: Event, rig: Rig)
    ensures Replay(s, [e], rig) == Heard(s, e, rig)
    ensures Possible(s, [e], rig) <==> CanHear(s, e)
  {
    ReplayLast(s, [], e, rig);
    assert [] + [e] == [e];
  }

  // ------------------------------------------------------------------ the actor

  class RigActor {
    const peers: Peers
    const world: World
    const health: Health
    var rx: seq<Request>              // commands still to come; the channel closes behind the last
    var connects: nat                 // connections so far
    ghost const all: seq<Request>     // every command ever sent to the actor
    ghost var journal: seq<Step>

    /** The journal is a run of the actor, and accounts for all that was seen, taken and recorded. */
    ghost predicate Valid()
      reads this, world, health
    {
      && Legal(journal, peers) && world.events == Events(journal)
      && all == Requests(journal) + rx && connects == After(journal, peers).conns
      && health.Valid() && health.history == Outcomes(journal)
    }

    ghost function Phase(): Phase
      reads this
    {
      After(journal, peers).phase
    }

    /** The current connection, in the state the journal says it is in. */
    ghost predicate Serving(conn: Connection)
      reads this, conn
    {
      var l := After(journal, peers);
      && l.phase.Up? && l.conns > 0 && conn.Stream() == l.phase.stream
      && conn.world == world && conn.rig == peers.rigs(l.conns - 1) && conn.float == peers.float
    }

    /**
     In every state between calls, of all that was seen: each command taken has exactly one reply, in
     order; a reply is `Disconnected` exactly behind an I/O error of its own or in a backoff; and the
     published health is that of the faults and successes seen.
     */
    lemma AllIsAccountedFor()
      requires Valid()
      ensures var replies := RepliesIn(world.events);
              && |replies| + |rx| == |all| && rx == all[|replies|..]
              && forall i :: 0 <= i < |replies| ==> replies[i].0 == all[i].id
      ensures forall p :: 0 <= p < |world.events| && world.events[p].Replied? ==>
                (world.events[p].reply == Err(Disconnected)
                 <==> InBackoff(world.events[..p]) || Breaks(world.events[..p]))
      ensures health.published == StateOf(OutcomesIn(world.events))
    {
      hide Legal, Events, Requests, Outcomes, OutcomesIn, RepliesIn, InBackoff, Breaks, StateOf, After;
      OneReplyEach(journal, peers);
      OutcomesAreSeen(journal, peers);
      forall p | 0 <= p < |world.events| && world.events[p].Replied?
        ensures world.events[p].reply == Err(Disconnected)
           <==> InBackoff(world.events[..p]) || Breaks(world.events[..p])
      {
        DisconnectedIffFault(journal, peers, p);
      }
    }

    constructor (peers: Peers, commands: seq<Request>)
      ensures Valid() && rx == all == commands && journal == [] && fresh(world) && fresh(health)
    {
      this.peers := peers;
      world := new World();
      health := new Health();
      rx, connects, all, journal := commands, 0, commands, [];
    }

    /** Enter a step that has just happened. */
    ghost method Enter(step: Step)
      requires Legal(journal, peers) && Allowed(After(journal, peers), step, peers)
      requires world.events == Events(journal) + EventsOf(step)
      requires connects == Move(After(journal, peers), step, peers).conns
      requires all == Requests(journal) + RequestOf(step) + rx
      requires health.Valid() && health.history == Outcomes(journal) + OutcomeOf(step)
      modifies this`journal
      ensures Valid() && journal == old(journal) + [step]
      ensures After(journal, peers) == Move(old(After(journal, peers)), step, peers)
      ensures Rounds(journal) == old(Rounds(journal)) + if step.Connect? || step.ConnectFailure? then 1 else 0
    {
      hide Legal, Allowed, EventsOf, RequestOf, OutcomeOf, Move, After, Events, Requests, Outcomes, Rounds;
      StepExtends(journal, step, peers);
      journal := journal + [step];
    }

    method ServeOne(conn: Connection) returns (ok: bool)
      requires Valid() && Serving(conn) && rx != []
      modifies this, conn, world, health
      ensures Valid() && |rx| < |old(rx)| && Rounds(journal) == old(Rounds(journal))
      ensures if ok then Serving(conn) else Phase() == Lost(0)
    {
      hide Legal, Plays, Possible, Replay, DrainGaveUp, After, Events, Requests, Outcomes, Rounds, EventsOf;
      var request := rx[0];
      rx := rx[1..];
      var r;
      ghost var io;
      r, io := conn.Dispatch(request);
      if r.Ok? {
        var _ := health.RecordSuccess();
      } else {
        var _ := health.RecordFailure(Unresponsive);
      }
      Enter(Step.Serve(request, io, r));
      ok := r.Ok?;
    }

    /** Serve commands until the channel closes or one of them fails on the wire. */
    method Serve(conn: Connection) returns (closed: bool)
      requires Valid() && Serving(conn)
      modifies this, conn, world, health
      ensures Valid() && Rounds(journal) == old(Rounds(journal))
      ensures if closed then rx == [] else Phase() == Lost(0)
    {
      hide Legal, After, Events, Requests, Outcomes, Rounds;
      while rx != []
        invariant Valid() && Serving(conn) && Rounds(journal) == old(Rounds(journal))
        decreases |rx|
      {
        var ok := ServeOne(conn);
        if !ok {
          return false;
        }
      }
      return true;
    }

    /**
     Sleep, and answer what arrives in the meantime. Returns false if the channel closes before the
     sleep ends.
     */
    method SleepDraining(delay: nat) returns (open: bool)
      requires Valid() && Phase().Lost? && delay == BackoffDelay(Phase().idx)
      modifies this, world
      ensures Valid() && Phase() == Waiting(old(Phase()).idx + 1) && Rounds(journal) == old(Rounds(journal))
      ensures !open ==> rx == []
      ensures old(journal) + [Backoff(delay)] <= journal
      ensures forall k :: |old(journal)| < k < |journal| ==> journal[k].Drain?
    {
      hide Legal, After, Events, Requests, Outcomes, Rounds;
      world.Record(Slept(delay));
      Enter(Backoff(delay));
      while rx != []
        invariant Valid() && Phase() == Waiting(old(Phase()).idx + 1) && Rounds(journal) == old(Rounds(journal))
        invariant old(journal) + [Backoff(delay)] <= journal
        invariant forall k :: |old(journal)| < k < |journal| ==> journal[k].Drain?
        decreases |rx|
      {
        if * {
          return true;
        }
        var request := rx[0];
        rx := rx[1..];
        world.Record(Replied(request.id, Err(Disconnected)));
        Enter(Drain(request));
      }
      if * {
        return true;
      }
      return false;
    }

    /** Any number of rounds of the connect, serve and backoff loop. */
    method Run(limit: nat) returns (exited: bool)
      requires Valid() && journal == []
      modifies this, world, health
      ensures Valid()
      ensures if exited then rx == [] else Rounds(journal) == limit
    {
      hide Legal, After, Events, Requests, Outcomes, Rounds, Plays, Possible, Replay, DrainGaveUp;
      NothingYet(peers);
      var backoffIdx := 0;
      for round := 0 to limit
        invariant Valid() && Phase() == Waiting(backoffIdx) && Rounds(journal) == round
      {
        var connected := world.TryConnect();
        if connected {
          connects := connects + 1;
          Enter(Connect);
          backoffIdx := 0;
          var conn := new Connection(world, peers.rigs(connects - 1), peers.float);
          var closed := Serve(conn);
          if closed {
            return true;
          }
        } else {
          var _ := health.RecordFailure(Unreachable);
          Enter(ConnectFailure);
        }
        var delay := BackoffDelay(backoffIdx);
        backoffIdx := backoffIdx + 1;
        var open := SleepDraining(delay);
        if !open {
          return true;
        }
      }
      exited := false;
    }
  }

  lemma NothingYet(peers: Peers)
    ensures After([], peers).phase == Waiting(0) && Rounds([]) == 0
  {
  }
}

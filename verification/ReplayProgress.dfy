/**
 Progress: from any restart, and from any new arrival, as long as no further datagram, shutdown or
 file error comes and every push ends in a final answer, the pipeline never gets stuck and empties
 the spool, also when the replay is longer than the channel.
 */
module ReplayProgress {
  import opened Results
  import opened EntryJson
  import opened FileSystem
  import opened WavelogClient
  import opened Delivery
  import Conservation
  import Spool
  import SpoolNumbers

  /** The steps considered; a hand-off is one if the channel has room. */
  predicate Progress(s: State, ev: Event) {
    || ev.ReplaySend? || ev.ReplayDone? || ev.Take? || ev.RemoveBegin? || ev.Operate? || ev.RemoveEnd?
    || ev.AppendBegin? || ev.AppendEnd? || (ev.HandOff? && |s.channel| < 32)
    || (ev.Answer? && Wellformed(ev) && IsFinal(PushOne(ev.lookup, ev.posts)))
  }

  /** The state a start hands over to the two tasks. */
  ghost predicate Started(s: State) {
    && Inv(s) && Spool.Sound(s.spool) && s.spool.phase.Ready?
    && s.listener == Replaying(Items(s.spool.phase.mem.entries)) && s.worker.Waiting? && s.channel == []
  }

  /** Every start in a safe run is one. */
  lemma SafeRunStarts(states: seq<State>, events: seq<Event>, i: nat)
    requires IsRun(states, events) && i < |events| && events[i].Opened?
    requires Conservation.SafeUpTo(states, events, i + 1)
    ensures Started(states[i + 1])
  {
    hide Inv, Spool.Sound, Spool.Recover, Adifs, Spool.Committed;
    Conservation.RunKeepsSound(states, events, i + 1);
    assert Next(states[i], events[i], states[i + 1]);
  }

  predicate RunningAppend(sp: Spool.State) { sp.phase.Busy? && sp.phase.call.AppendCall? }

  /** What the worker holds and has not begun to remove, and what the running append brings in. */
  function InHand(s: State): seq<Item> {
    if s.worker.Pushing? || (s.worker.Removing? && !RunningRemove(s.spool)) then [s.worker.item] else []
  }

  function Incoming(s: State): seq<Item> {
    if RunningAppend(s.spool) then [ItemOf(s.spool.phase.call.entry)] else []
  }

  /** What still has to be pushed, the worker's item first. */
  function Remaining(s: State): seq<Item> { InHand(s) + Queue(s) + Incoming(s) }

  /** Both tasks run, and the spool is up. */
  predicate WellUnderWay(s: State) {
    && (s.spool.phase.Ready? || RunningRemove(s.spool) || RunningAppend(s.spool))
    && !s.worker.Exited? && !s.listener.Stopped?
    && (s.spool.phase.Busy? ==> |s.spool.phase.plan| <= 5 && s.spool.phase.done <= |s.spool.phase.plan|)
  }

  ghost predicate Draining(s: State) {
    && Inv(s) && Spool.Sound(s.spool)
    && WellUnderWay(s) && (s.listener.Persisting? ==> Spool.Healthy(s.spool))
    && forall e <- s.spool.phase.mem.entries :: ItemOf(e) in Remaining(s)
  }

  predicate Drained(s: State) { s.listener.Receiving? && s.channel == [] && s.worker.Waiting? }

  /** Decreases with every step of a draining pipeline. */
  function Measure(s: State): nat {
    var left := if s.spool.phase.Busy? && s.spool.phase.done <= |s.spool.phase.plan|
                then |s.spool.phase.plan| - s.spool.phase.done else 0;
    var listener := match s.listener
                    case Replaying(rest) => 12 * |rest| + 1
                    case Persisting(_) => if RunningAppend(s.spool) then 20 + left else 30
                    case Handing(_) => 13
                    case _ => 0;
    var worker := if s.worker.Pushing? then 10
                  else if !s.worker.Removing? then 0
                  else if RunningRemove(s.spool) then 2 + left
                  else 9;
    listener + 11 * |s.channel| + worker
  }

  lemma StartedIsDraining(s: State)
    requires Started(s)
    ensures Draining(s) && Measure(s) == 12 * |s.spool.phase.mem.entries| + 1
  {
    hide Inv, Spool.Sound;
    var es := s.spool.phase.mem.entries;
    assert Remaining(s) == Items(es);
    forall e <- es
      ensures ItemOf(e) in Remaining(s)
    {
      var i :| 0 <= i < |es| && es[i] == e;
      assert Items(es)[i] == ItemOf(e);
    }
  }

  lemma RemoveBeginDrains(s: State, s': State)
    requires Draining(s) && Next(s, RemoveBegin, s')
    ensures forall e <- s'.spool.phase.mem.entries :: ItemOf(e) in Remaining(s')
    ensures WellUnderWay(s') && RunningRemove(s'.spool) && s'.spool.phase.done == 0
  {
    hide Inv, Spool.Sound, Queue, Spool.Healthy;
    var es := s.spool.phase.mem.entries;
    Spool.WithoutIs(es, s.worker.item.seqNo);
    SameQueue(s, s');
    assert Remaining(s) == [s.worker.item] + Queue(s) + [];
    assert Remaining(s') == [] + Queue(s') + [] == Queue(s);
  }

  lemma SameQueue(s: State, s': State)
    requires s'.listener == s.listener && s'.channel == s.channel
    ensures Queue(s') == Queue(s)
  {
  }

  lemma RemoveBeginShrinks(s: State, s': State)
    requires Next(s, RemoveBegin, s') && WellUnderWay(s') && RunningRemove(s'.spool) && s'.spool.phase.done == 0
    requires Draining(s)
    ensures Measure(s') < Measure(s)
  {
    hide Inv, Spool.Sound, Spool.RemovePlan, Remaining, Spool.RemoveMem, Spool.Healthy;
  }

  lemma AppendBeginDrains(s: State, receivedAt: nat, s': State)
    requires Draining(s) && Next(s, AppendBegin(receivedAt), s')
    ensures forall e <- s'.spool.phase.mem.entries :: ItemOf(e) in Remaining(s')
    ensures WellUnderWay(s') && RunningAppend(s'.spool) && Measure(s') < Measure(s)
  {
    hide Inv, Spool.Sound, Queue, Spool.Healthy, Spool.Capped;
    var m := s.spool.phase.mem;
    var e := Entry(m.nextSeq, s.listener.adif, receivedAt);
    SameQueue(s, s');
    PlanIsShort(m, e);
    assert Remaining(s') == Remaining(s) + [ItemOf(e)];
    CappedIsSome(m.entries, e);
  }

  lemma CappedIsSome(es: seq<Entry>, e: Entry)
    ensures forall f <- Spool.Capped(es + [e]) :: f in es || f == e
  {
    forall f <- Spool.Capped(es + [e])
      ensures f in es || f == e
    {
      assert f in es + [e];
    }
  }

  lemma PlanIsShort(m: Spool.Mem, e: Entry)
    ensures |Spool.AppendPlan(m, e)| <= 5
  {
  }

  predicate Moves(s: State, ev: Event) { Progress(s, ev) && !ev.RemoveBegin? && !ev.AppendBegin? }

  lemma MovingGoesOn(s: State, ev: Event, s': State)
    requires Draining(s) && Moves(s, ev) && Next(s, ev, s')
    ensures WellUnderWay(s') && s'.spool.phase.mem.entries == s.spool.phase.mem.entries
  {
    hide Inv, Spool.Sound, Spool.Healthy, PushOne, IsFinal, Commit, Apply, Items, Remaining;
    BusyIsWired(s);
  }

  lemma MovedQueue(s: State, ev: Event, s': State)
    requires Draining(s) && Moves(s, ev) && Next(s, ev, s')
    ensures if ev.Take? then s.channel != [] && Queue(s) == [s.channel[0]] + Queue(s')
            else if ev.AppendEnd? then Queue(s') == Queue(s) + Incoming(s)
            else Queue(s') == Queue(s)
  {
    hide Inv, Spool.Sound, Spool.Healthy, PushOne, IsFinal, Commit, Apply, Items, Remaining, InHand;
    hide Spool.Advance, Spool.Finish;
    BusyIsWired(s);
  }

  lemma MovedHands(s: State, ev: Event, s': State)
    requires Draining(s) && Moves(s, ev) && Next(s, ev, s')
    ensures InHand(s') == if ev.Take? then [s.channel[0]] else InHand(s)
    ensures ev.Take? ==> InHand(s) == []
    ensures Incoming(s') == if ev.AppendEnd? then [] else Incoming(s)
  {
    hide Inv, Spool.Sound, Spool.Healthy, PushOne, IsFinal, Commit, Apply, Items, Remaining, Queue;
    BusyIsWired(s);
  }

  lemma MovingKeepsRemaining(s: State, ev: Event, s': State)
    requires Draining(s) && Moves(s, ev) && Next(s, ev, s')
    ensures Remaining(s') == Remaining(s)
  {
    hide Next, Draining, Moves, Queue, InHand, Incoming;
    MovedQueue(s, ev, s');
    MovedHands(s, ev, s');
    if ev.AppendEnd? {
      assert InHand(s) + (Queue(s) + Incoming(s)) + [] == InHand(s) + Queue(s) + Incoming(s);
    } else if ev.Take? {
      assert [] + ([s.channel[0]] + Queue(s')) + Incoming(s) == [s.channel[0]] + Queue(s') + Incoming(s);
    }
  }

  lemma MovingShrinks(s: State, ev: Event, s': State)
    requires Draining(s) && Moves(s, ev) && Next(s, ev, s')
    ensures Measure(s') < Measure(s)
  {
    hide Inv, Spool.Sound, Spool.Healthy, PushOne, IsFinal, Commit, Apply, Items, Remaining;
    BusyIsWired(s);
  }

  lemma StaysHealthy(s: State, ev: Event, s': State)
    requires Draining(s) && Progress(s, ev) && Next(s, ev, s')
    ensures s'.listener.Persisting? ==> Spool.Healthy(s'.spool)
  {
    hide Inv, Spool.Sound, Spool.Healthy, Next, Remaining, Spool.Next;
    SpoolFollows(s, ev, s');
    PersistingBefore(s, ev, s');
    if s'.listener.Persisting? && SpoolEvent(s, ev).Some? {
      Spool.StepKeepsHealthy(s.spool, SpoolEvent(s, ev).value, s'.spool);
    }
  }

  lemma PersistingBefore(s: State, ev: Event, s': State)
    requires Progress(s, ev) && Next(s, ev, s')
    ensures s'.listener.Persisting? ==> s.listener == s'.listener
  {
    hide PushOne, IsFinal, Commit, Apply, Items, Spool.BeginAppend, Spool.BeginRemove;
  }

  lemma StepDrains(s: State, ev: Event, s': State)
    requires Draining(s) && Progress(s, ev) && Next(s, ev, s')
    ensures Draining(s') && Measure(s') < Measure(s)
  {
    hide Inv, Spool.Sound, Spool.Healthy, Next, Spool.Safe, Remaining, Spool.Committed, WellUnderWay, Measure;
    StepKeepsInv(s, ev, s');
    ProgressIsSafe(s, ev, s');
    Conservation.CommittedAcrossStep(s, ev, s');
    StaysHealthy(s, ev, s');
    if ev.RemoveBegin? {
      RemoveBeginDrains(s, s');
      RemoveBeginShrinks(s, s');
    } else if ev.AppendBegin? {
      AppendBeginDrains(s, ev.receivedAt, s');
    } else {
      MovingGoesOn(s, ev, s');
      MovingKeepsRemaining(s, ev, s');
      MovingShrinks(s, ev, s');
    }
  }

  lemma ProgressIsSafe(s: State, ev: Event, s': State)
    requires Draining(s) && Progress(s, ev) && Next(s, ev, s')
    ensures Safe(s, ev)
  {
    hide Inv, Spool.Sound, Spool.Terminated, Remaining, PushOne, IsFinal;
  }

  const CREATED := QsoReply(200, QsoBody(Some("created"), None))

  /** No deadlock: while anything is left, some task can move. */
  lemma NeverStuck(s: State) returns (ev: Event, s': State)
    requires Draining(s) && !Drained(s)
    ensures Progress(s, ev) && Next(s, ev, s')
  {
    hide Inv, Spool.Sound, Spool.Healthy, Remaining, Measure;
    if s.spool.phase.Busy? {
      ev, s' := CallGoesOn(s);
    } else if s.worker.Waiting? && s.channel == [] {
      ev, s' := ListenerGoesOn(s);
    } else {
      ev, s' := WorkerGoesOn(s);
    }
  }

  lemma CallGoesOn(s: State) returns (ev: Event, s': State)
    requires Draining(s) && s.spool.phase.Busy?
    ensures Progress(s, ev) && Next(s, ev, s')
  {
    hide Inv, Spool.Sound, Spool.Healthy, Remaining, Apply, Commit;
    BusyIsWired(s);
    if s.spool.phase.done < |s.spool.phase.plan| {
      ev, s' := Operate, s.(spool := Spool.Advance(s.spool));
    } else if RunningRemove(s.spool) {
      ev := RemoveEnd;
      s' := s.(spool := Spool.Finish(s.spool), worker := Waiting, hist := Commit(s.hist, s.spool.phase, true));
    } else {
      ev := AppendEnd;
      s' := s.(spool := Spool.Finish(s.spool), listener := Handing(ItemOf(s.spool.phase.call.entry)),
               hist := Commit(s.hist, s.spool.phase, true));
    }
  }

  lemma WorkerGoesOn(s: State) returns (ev: Event, s': State)
    requires Draining(s) && s.spool.phase.Ready? && !(s.worker.Waiting? && s.channel == [])
    ensures Progress(s, ev) && Next(s, ev, s')
  {
    hide Inv, Spool.Sound, Spool.Healthy, Remaining, Spool.BeginRemove;
    match s.worker {
      case Removing(item) =>
        ev, s' := RemoveBegin, s.(spool := Spool.BeginRemove(s.spool, item.seqNo));
      case Pushing(item) =>
        ev := Answer(Known("1"), [CREATED, CREATED, CREATED]);
        CreatedIsFinal();
        s' := s.(worker := Removing(item), hist := s.hist.(answered := s.hist.answered + multiset{item.adif}));
      case Waiting =>
        ev := Take;
        s' := s.(worker := Pushing(s.channel[0]), channel := s.channel[1..],
                 hist := s.hist.(taken := s.hist.taken + [s.channel[0]]));
    }
  }

  lemma ListenerGoesOn(s: State) returns (ev: Event, s': State)
    requires Draining(s) && s.spool.phase.Ready? && s.worker.Waiting? && s.channel == [] && !Drained(s)
    ensures Progress(s, ev) && Next(s, ev, s')
  {
    hide Inv, Spool.Sound, Spool.Healthy, Remaining, Spool.BeginAppend;
    match s.listener {
      case Persisting(adif) =>
        ev, s' := AppendBegin(0), s.(spool := Spool.BeginAppend(s.spool, adif, 0));
      case Handing(item) =>
        ev, s' := HandOff, s.(listener := Receiving, channel := s.channel + [item]);
      case Replaying(rest) =>
        if rest == [] {
          ev, s' := ReplayDone, s.(listener := Receiving);
        } else {
          ev, s' := ReplaySend, s.(listener := Replaying(rest[1..]), channel := s.channel + [rest[0]]);
        }
    }
  }

  lemma BusyIsWired(s: State)
    requires Inv(s)
    ensures RunningRemove(s.spool) ==> s.worker.Removing?
    ensures RunningAppend(s.spool) ==> s.listener.Persisting?
  {
    hide SpoolNumbers.Orderly, Ordered, Matched;
  }

  lemma CreatedIsFinal()
    ensures PushOne(Known("1"), [CREATED, CREATED, CREATED]) == Ok(())
  {
    var outcomes := seq(3, i requires 0 <= i < 3 => QsoOutcome([CREATED, CREATED, CREATED][i]));
    assert outcomes[0] == Ok(());
  }

  lemma SomeMember(es: seq<Entry>)
    ensures es == [] || exists e :: e in es
  {
    if es != [] {
      assert es[0] in es;
    }
  }

  lemma NothingLeft(es: seq<Entry>, items: seq<Item>)
    requires (forall e <- es :: ItemOf(e) in items) && items == []
    ensures es == []
  {
    SomeMember(es);
  }

  lemma ReadyIsStored(sp: Spool.State)
    requires Spool.Sound(sp) && sp.phase.Ready?
    ensures Spool.Stored(MainText(sp.fs), sp.phase.mem.entries)
  {
    hide Spool.Stored, Settled, Spool.Numbered;
  }

  /** A pipeline with nothing left has an empty spool, in memory and on disk. */
  lemma DrainedIsEmpty(s: State)
    requires Draining(s) && Drained(s)
    ensures s.spool.phase.Ready? && s.spool.phase.mem.entries == [] && Spool.Recover(MainText(s.spool.fs)) == []
  {
    hide Inv, Spool.Stored, Spool.Torn, Spool.Recover, Settled, Spool.Healthy;
    BusyIsWired(s);
    assert Remaining(s) == [];
    var es := s.spool.phase.mem.entries;
    NothingLeft(es, Remaining(s));
    ReadyIsStored(s.spool);
    Spool.OpenRecovers(MainText(s.spool.fs), []);
  }

  /** Steps of progress one after the other. */
  ghost predicate Drains(states: seq<State>, events: seq<Event>) {
    && |states| == |events| + 1
    && forall i :: 0 <= i < |events| ==> Progress(states[i], events[i]) && Next(states[i], events[i], states[i + 1])
  }

  /** No such step is possible any more. */
  ghost predicate AtRest(s: State) { forall ev, s' :: Progress(s, ev) ==> !Next(s, ev, s') }

  lemma {:induction false} RunDrains(states: seq<State>, events: seq<Event>)
    requires Drains(states, events) && Draining(states[0])
    ensures Draining(states[|events|]) && |events| + Measure(states[|events|]) <= Measure(states[0])
  {
    hide Next, Draining, Measure, Progress;
    var n := |events|;
    if n > 0 {
      RunDrains(states[..n], events[..n - 1]);
      assert Next(states[n - 1], events[n - 1], states[n - 1 + 1]);
      StepDrains(states[n - 1], events[n - 1], states[n]);
    }
  }

  lemma RestIsDrained(s: State)
    requires Draining(s) && AtRest(s)
    ensures Drained(s) && s.spool.phase.Ready? && s.spool.phase.mem.entries == []
    ensures Spool.Recover(MainText(s.spool.fs)) == []
  {
    hide Next, Draining, Progress, Drained, Spool.Recover;
    if !Drained(s) {
      var ev, s' := NeverStuck(s);
      assert false;
    }
    DrainedIsEmpty(s);
  }

  /**
   Every run of such steps from a start is finite, with a bound set by the length of the
   replay; where it cannot go on, the spool is empty.
   */
  lemma ReplayDrainsSpool(states: seq<State>, events: seq<Event>)
    requires Drains(states, events) && Started(states[0])
    ensures Draining(states[|events|])
    ensures |events| + Measure(states[|events|]) <= 12 * |states[0].spool.phase.mem.entries| + 1
    ensures AtRest(states[|events|]) ==>
              && states[|events|].spool.phase.Ready? && states[|events|].spool.phase.mem.entries == []
              && Spool.Recover(MainText(states[|events|].spool.fs)) == []
  {
    hide Next, Draining, Measure, Started, Spool.Recover, Progress, AtRest;
    StartedIsDraining(states[0]);
    RunDrains(states, events);
    if AtRest(states[|events|]) {
      RestIsDrained(states[|events|]);
    }
  }

  // ------------------------------------------------------------ a new arrival

  lemma {:induction false} ArrivalGetsTaken(states: seq<State>, events: seq<Event>, adif: string) returns (item: Item)
    requires Drains(states, events) && Draining(states[0])
    requires states[0].listener == Persisting(adif) && !states[|events|].listener.Persisting?
    ensures item.adif == adif && Conservation.Holding(states[|events|], item)
  {
    hide Next, Draining, Progress;
    var n := |events|;
    var s, ev, s' := states[n - 1], events[n - 1], states[n - 1 + 1];
    assert Next(s, ev, s');
    RunDrains(states[..n], events[..n - 1]);
    if s.listener.Persisting? {
      StillPersisting(states[..n], events[..n - 1], adif);
      item := AppendDelivers(s, ev, s');
    } else {
      item := ArrivalGetsTaken(states[..n], events[..n - 1], adif);
      UnderWayIsUp(s);
      StepHasRoom(s, ev);
      Conservation.ItemStays(s, ev, s', item);
    }
  }

  lemma StepHasRoom(s: State, ev: Event)
    requires Progress(s, ev) && Draining(s)
    ensures !ev.Crash? && !s.worker.Exited? && (ev.HandOff? ==> |s.channel| < 32)
  {
    hide Inv, Spool.Sound, Spool.Healthy, Remaining;
  }

  lemma UnderWayIsUp(s: State)
    requires Draining(s)
    ensures Conservation.IsUp(s.spool) && Wired(s)
  {
    hide Wired, Ordered, Matched, SpoolNumbers.Orderly, Spool.Sound, Spool.Healthy, Remaining;
  }

  lemma {:induction false} StillPersisting(states: seq<State>, events: seq<Event>, adif: string)
    requires Drains(states, events) && states[0].listener == Persisting(adif) && states[|events|].listener.Persisting?
    ensures states[|events|].listener == Persisting(adif)
  {
    hide Next, Progress;
    var n := |events|;
    if n > 0 {
      assert Next(states[n - 1], events[n - 1], states[n - 1 + 1]);
      PersistingBefore(states[n - 1], events[n - 1], states[n]);
      StillPersisting(states[..n], events[..n - 1], adif);
    }
  }

  lemma AppendDelivers(s: State, ev: Event, s': State) returns (item: Item)
    requires Draining(s) && Progress(s, ev) && Next(s, ev, s')
    requires s.listener.Persisting? && !s'.listener.Persisting?
    ensures item.adif == s.listener.adif && Conservation.Holding(s', item)
  {
    hide SpoolNumbers.Orderly, Ordered, Matched, Spool.Sound, Spool.Healthy, PushOne, IsFinal, Commit, Apply, Remaining;
    item := s'.listener.item;
  }

  /**
   A new arrival: from a datagram just received by a pipeline under way, every run of such steps is
   finite; where it cannot go on, the worker has taken this QSO, and the spool is empty.
   */
  lemma ArrivalDrains(states: seq<State>, events: seq<Event>, adif: string) returns (item: Item)
    requires Drains(states, events) && Draining(states[0]) && states[0].listener == Persisting(adif)
    requires AtRest(states[|events|])
    ensures |events| <= Measure(states[0])
    ensures var last := states[|events|];
            && item.adif == adif && item in last.hist.taken
            && last.spool.phase.Ready? && last.spool.phase.mem.entries == []
            && Spool.Recover(MainText(last.spool.fs)) == []
  {
    hide Next, Draining, Measure, Progress, AtRest, Spool.Recover;
    RunDrains(states, events);
    RestIsDrained(states[|events|]);
    item := ArrivalGetsTaken(states, events, adif);
  }

  /** A pipeline under way that is receiving takes any datagram, and is then still under way. */
  lemma DatagramIsUnderWay(s: State, adif: string) returns (s': State)
    requires Draining(s) && s.listener.Receiving? && Spool.Healthy(s.spool)
    ensures Next(s, Datagram(adif), s') && Draining(s') && s'.listener == Persisting(adif)
  {
    s' := s.(listener := Persisting(adif));
    StepKeepsInv(s, Datagram(adif), s');
    hide Inv, Spool.Sound, Spool.Healthy;
    assert Remaining(s') == Remaining(s);
  }
}

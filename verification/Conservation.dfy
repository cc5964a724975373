/** What every run of the pipeline keeps: no accepted QSO is lost, and none is removed without an answer. */
module Conservation {
  import opened Results
  import opened EntryJson
  import opened FileSystem
  import opened WavelogClient
  import opened Delivery
  import Spool
  import SpoolNumbers
  import SpoolFaults

  // ------------------------------------------------------------- counted texts

  lemma {:induction false} AdifsJoin(a: seq<Entry>, b: seq<Entry>)
    ensures Adifs(a + b) == Adifs(a) + Adifs(b)
  {
    if a == [] {
      assert a + b == b;
    } else {
      assert (a + b)[1..] == a[1..] + b;
      AdifsJoin(a[1..], b);
    }
  }

  lemma SnocAdifs(es: seq<Entry>, e: Entry)
    ensures Adifs(es + [e]) == Adifs(es) + multiset{e.adif}
  {
    AdifsJoin(es, [e]);
    assert Adifs([e]) == multiset{e.adif};
  }

  lemma TailAdifs(es: seq<Entry>, k: nat)
    requires k <= |es|
    ensures Adifs(es[k..]) <= Adifs(es)
  {
    hide Adifs;
    AdifsJoin(es[..k], es[k..]);
    assert es == es[..k] + es[k..];
  }

  lemma CappedAdifs(es: seq<Entry>, e: Entry)
    ensures Adifs(Spool.Capped(es + [e])) <= Adifs(es) + multiset{e.adif}
  {
    var r := Spool.Capped(es + [e]);
    hide Adifs, Spool.Capped;
    SnocAdifs(es, e);
    TailAdifs(es + [e], |es + [e]| - |r|);
  }

  lemma {:induction false} KeptAdifs(es: seq<Entry>, seqNo: nat)
    ensures Adifs(Spool.Without(es, seqNo)) <= Adifs(es)
  {
    if es != [] {
      KeptAdifs(es[1..], seqNo);
      var rest := Spool.Without(es[1..], seqNo);
      if es[0].seqNo == seqNo {
        assert Spool.Without(es, seqNo) == [] + rest == rest;
      } else {
        assert ([es[0]] + rest)[1..] == rest;
      }
    }
  }

  lemma {:induction false} NobodyRemoved(es: seq<Entry>, seqNo: nat)
    requires forall i :: 0 <= i < |es| ==> es[i].seqNo != seqNo
    ensures Spool.Without(es, seqNo) == es
  {
    if es != [] {
      NobodyRemoved(es[1..], seqNo);
    }
  }

  /** Removing a number takes away at most the one QSO that has it. */
  lemma {:induction false} RemovedAdifs(es: seq<Entry>, item: Item)
    requires Spool.Ascending(es) && Agrees(item, es)
    ensures Adifs(es) <= Adifs(Spool.Without(es, item.seqNo)) + multiset{item.adif}
  {
    if es != [] {
      var rest := Spool.Without(es[1..], item.seqNo);
      if es[0].seqNo == item.seqNo {
        assert Spool.Without(es, item.seqNo) == [] + rest == rest;
        NobodyRemoved(es[1..], item.seqNo);
      } else {
        assert Agrees(item, es[1..]) by {
          assert forall i :: 0 <= i < |es[1..]| ==> es[1..][i] == es[i + 1];
        }
        RemovedAdifs(es[1..], item);
        assert ([es[0]] + rest)[1..] == rest;
      }
    }
  }

  // ---------------------------------------------------------------- the books

  /** Every text that got onto the spool is still there, or was removed, or evicted. */
  ghost predicate Balanced(s: State) {
    s.hist.accepted + s.hist.unacknowledged
    == Adifs(Spool.Committed(s.spool)) + s.hist.removed + s.hist.evicted
  }

  function Owed(w: Worker): multiset<string> { if w.Removing? then multiset{w.item.adif} else multiset{} }

  /** Removals never outnumber final answers, text by text. */
  ghost predicate Covered(s: State) { s.hist.removed + Owed(s.worker) <= s.hist.answered }

  ghost predicate Sound(s: State) {
    Inv(s) && Spool.Sound(s.spool) && Balanced(s) && Covered(s)
  }

  /** What the append in progress is about to evict. */
  function BeingEvicted(s: State): multiset<string> {
    if s.spool.phase.Busy? && s.spool.phase.call.AppendCall? then
      Adifs(s.spool.phase.before) + multiset{s.spool.phase.call.entry.adif} - Adifs(s.spool.phase.mem.entries)
    else multiset{}
  }

  /** What the remove in progress is about to take off. */
  function BeingRemoved(s: State): multiset<string> {
    if s.spool.phase.Busy? && s.spool.phase.call.RemoveCall? then
      Adifs(s.spool.phase.before) - Adifs(s.spool.phase.mem.entries)
    else multiset{}
  }

  /** What the append in progress is about to bring in. */
  function BeingAdded(s: State): multiset<string> {
    if s.spool.phase.Busy? && s.spool.phase.call.AppendCall? then multiset{s.spool.phase.call.entry.adif}
    else multiset{}
  }

  lemma BusyRemoveIsOwn(s: State)
    requires Inv(s) && Spool.Sound(s.spool) && s.spool.phase.Busy? && s.spool.phase.call.RemoveCall?
    ensures var p := s.spool.phase;
            && Adifs(p.mem.entries) <= Adifs(p.before)
            && Adifs(p.before) <= Adifs(p.mem.entries) + Owed(s.worker)
  {
    hide SpoolNumbers.Orderly, Spool.SoundCall, Spool.Numbered, Ordered, After;
    var p := s.spool.phase;
    KeptAdifs(p.before, p.call.seqNo);
    RemovedAdifs(p.before, s.worker.item);
  }

  lemma BusyAppendAdds(s: State)
    requires Inv(s) && s.spool.phase.Busy? && s.spool.phase.call.AppendCall?
    ensures var p := s.spool.phase; Adifs(p.mem.entries) <= Adifs(p.before) + multiset{p.call.entry.adif}
  {
    hide SpoolNumbers.Orderly, Ordered, Matched, Spool.Capped;
    CappedAdifs(s.spool.phase.before, s.spool.phase.call.entry);
  }

  /** Booking what an append brought in and what it pushed out. */
  lemma BookAppend(inflow: multiset<string>, one: multiset<string>, before: multiset<string>, after: multiset<string>,
                   removed: multiset<string>, evicted: multiset<string>)
    requires inflow == before + removed + evicted && after <= before + one
    ensures inflow + one == after + removed + (evicted + (before + one - after))
  {
  }

  lemma BookRemove(inflow: multiset<string>, before: multiset<string>, after: multiset<string>,
                   removed: multiset<string>, evicted: multiset<string>)
    requires inflow == before + removed + evicted && after <= before
    ensures inflow == after + (removed + (before - after)) + evicted
  {
  }

  /** The books would still balance if the running call took effect now. */
  ghost predicate Bookable(s: State, acknowledged: bool)
    requires s.spool.phase.Busy?
  {
    var h := Commit(s.hist, s.spool.phase, acknowledged);
    && h.accepted + h.unacknowledged == Adifs(s.spool.phase.mem.entries) + h.removed + h.evicted
    && h.removed <= h.answered
  }

  /** Entering a call's effect keeps the books, whether the call returned or a crash cut it off. */
  lemma CommitBalances(s: State, acknowledged: bool)
    requires Inv(s) && Spool.Sound(s.spool) && Balanced(s) && Covered(s) && s.spool.phase.Busy?
    ensures Bookable(s, acknowledged)
  {
    hide SpoolNumbers.Orderly, Ordered, Matched, Spool.Sound, Spool.Capped, Spool.Without, Adifs;
    var p, h := s.spool.phase, s.hist;
    var inflow := h.accepted + h.unacknowledged;
    match p.call {
      case OpenCall =>
      case AppendCall(e) =>
        var one := multiset{e.adif};
        BusyAppendAdds(s);
        BookAppend(inflow, one, Adifs(p.before), Adifs(p.mem.entries), h.removed, h.evicted);
        assert h.accepted + one + h.unacknowledged == inflow + one;
        assert h.accepted + (h.unacknowledged + one) == inflow + one;
      case RemoveCall(_) =>
        BusyRemoveIsOwn(s);
        BookRemove(inflow, Adifs(p.before), Adifs(p.mem.entries), h.removed, h.evicted);
    }
  }

  /** The promised list around one step of the pipeline. */
  lemma CommittedAcrossStep(s: State, ev: Event, s': State)
    requires Spool.Sound(s.spool) && Next(s, ev, s') && Safe(s, ev)
    ensures Spool.Sound(s'.spool)
    ensures if ev.Opened? || ev.AppendEnd? || ev.RemoveEnd? then
              Spool.Committed(s'.spool) == s.spool.phase.mem.entries
            else if ev.Crash? && s.spool.phase.Busy? then
              Spool.Committed(s'.spool) == Spool.Committed(s.spool)
              || Spool.Committed(s'.spool) == s.spool.phase.mem.entries
            else Spool.Committed(s'.spool) == Spool.Committed(s.spool)
  {
    hide Spool.Sound, Spool.Recover, Spool.Next, Spool.Safe, Next;
    SpoolFollows(s, ev, s');
    FinishedPhases(s, ev, s');
    if SpoolEvent(s, ev).Some? {
      Spool.StepRefinesList(s.spool, SpoolEvent(s, ev).value, s'.spool);
    }
  }

  lemma FinishedPhases(s: State, ev: Event, s': State)
    requires Next(s, ev, s')
    ensures ev.Opened? || ev.AppendEnd? || ev.RemoveEnd? ==> s.spool.phase.Busy?
    ensures ev.AppendBegin? || ev.RemoveBegin? ==> SpoolEvent(s, ev).Some?
  {
    hide PushOne, Spool.Crashes, Spool.Fails;
  }

  lemma StepKeepsSound(s: State, ev: Event, s': State)
    requires Sound(s) && Next(s, ev, s') && Safe(s, ev)
    ensures Sound(s')
  {
    hide Inv, Spool.Sound, Spool.Committed, Adifs, Commit, Next, Balanced, Covered, Bookable;
    StepKeepsInv(s, ev, s');
    CommittedAcrossStep(s, ev, s');
    FinishedPhases(s, ev, s');
    if ev.Opened? || ev.AppendEnd? || ev.RemoveEnd? {
      CommitBalances(s, true);
      ReturnKeepsBooks(s, ev, s');
    } else if ev.Crash? {
      if s.spool.phase.Busy? {
        CommitBalances(s, false);
      }
      CrashKeepsBooks(s, s');
    } else {
      QuietStepKeepsBooks(s, ev, s');
    }
  }

  lemma ReturnKeepsBooks(s: State, ev: Event, s': State)
    requires Next(s, ev, s') && (ev.Opened? || ev.AppendEnd? || ev.RemoveEnd?)
    requires s.spool.phase.Busy? && Bookable(s, true) && Inv(s)
    requires Spool.Committed(s'.spool) == s.spool.phase.mem.entries
    requires Covered(s)
    ensures Balanced(s') && Covered(s')
  {
    hide SpoolNumbers.Orderly, Ordered, Matched, Spool.Committed, Adifs, Spool.Capped, Spool.Without;
  }

  lemma CrashKeepsBooks(s: State, s': State)
    requires Next(s, Crash, s') && Balanced(s) && Covered(s)
    requires s.spool.phase.Busy? ==> Bookable(s, false)
    requires Spool.Committed(s'.spool) == Spool.Committed(s.spool)
          || (s.spool.phase.Busy? && Spool.Committed(s'.spool) == s.spool.phase.mem.entries)
    ensures Balanced(s') && Covered(s')
  {
    hide Spool.Committed, Adifs, Spool.Crashes, Commit;
  }

  predicate Quiet(ev: Event) { !(ev.Opened? || ev.AppendEnd? || ev.RemoveEnd? || ev.Crash? || ev.Fault?) }

  /** A quiet step books nothing ... */
  lemma QuietStepBooksNothing(s: State, ev: Event, s': State)
    requires Next(s, ev, s') && Quiet(ev) && !ev.Answer?
    ensures s'.hist == s.hist.(taken := s'.hist.taken)
    ensures s'.worker.Removing? <==> s.worker.Removing?
    ensures s'.worker.Removing? ==> s'.worker == s.worker
  {
    hide Spool.BeginOpen, Spool.BeginAppend, Spool.BeginRemove, Spool.Advance, Spool.Fails, Spool.Crashes;
    hide PushOne, Commit;
  }

  /** ... except that a final answer makes the worker owe one removal. */
  lemma AnswerBooks(s: State, ev: Event, s': State)
    requires Next(s, ev, s') && ev.Answer?
    ensures s.worker.Pushing?
    ensures s'.hist == s.hist.(answered := s.hist.answered + Owed(s'.worker))
  {
    hide PushOne, Commit, Spool.Crashes, Spool.Fails;
    assert s.hist.answered + multiset{} == s.hist.answered;
  }

  lemma QuietStepKeepsBooks(s: State, ev: Event, s': State)
    requires Next(s, ev, s') && Balanced(s) && Covered(s) && Quiet(ev)
    requires Spool.Committed(s'.spool) == Spool.Committed(s.spool)
    ensures Balanced(s') && Covered(s')
  {
    hide Spool.Committed, Adifs, Next, Quiet;
    if ev.Answer? {
      AnswerBooks(s, ev, s');
    } else {
      QuietStepBooksNothing(s, ev, s');
    }
  }

  // ----------------------------------------------------------------- theorems

  lemma StartIsSound()
    ensures Sound(START)
  {
    StartIsInv();
    Spool.EmptyDiskIsSound();
    assert Spool.Recover(None) == [];
  }

  ghost predicate SafeUpTo(states: seq<State>, events: seq<Event>, i: nat)
    requires IsRun(states, events) && i < |states|
  {
    forall j :: 0 <= j < i ==> Safe(states[j], events[j])
  }

  lemma {:induction false} RunKeepsSound(states: seq<State>, events: seq<Event>, i: nat)
    requires IsRun(states, events) && i < |states| && SafeUpTo(states, events, i)
    ensures Sound(states[i])
  {
    hide Sound, Next, Safe;
    if i == 0 {
      StartIsSound();
    } else {
      RunKeepsSound(states, events, i - 1);
      assert Next(states[i - 1], events[i - 1], states[i - 1 + 1]);
      StepKeepsSound(states[i - 1], events[i - 1], states[i]);
    }
  }

  /** A run without file errors, and without a crash that cuts an append at its newline, is safe. */
  lemma {:induction false} RunWithoutUnfinishedLineIsSafe(states: seq<State>, events: seq<Event>, i: nat)
    requires IsRun(states, events) && i < |states|
    requires forall j :: 0 <= j < i ==>
               !events[j].Fault? && (events[j].Crash? ==> !Spool.UnfinishedLine(MainText(states[j + 1].spool.fs)))
    ensures SafeUpTo(states, events, i)
    ensures Spool.Sound(states[i].spool) && Spool.Healthy(states[i].spool)
  {
    hide Next, Spool.Sound, Spool.Healthy, Spool.UnfinishedLine;
    if i == 0 {
      Spool.EmptyDiskIsSound();
      Spool.EmptyDiskIsHealthy();
    } else {
      RunWithoutUnfinishedLineIsSafe(states, events, i - 1);
      assert Next(states[i - 1], events[i - 1], states[i - 1 + 1]);
      HealthyStep(states[i - 1], events[i - 1], states[i]);
    }
  }

  lemma HealthyStep(s: State, ev: Event, s': State)
    requires Next(s, ev, s') && !ev.Fault? && Spool.Sound(s.spool) && Spool.Healthy(s.spool)
    requires ev.Crash? ==> !Spool.UnfinishedLine(MainText(s'.spool.fs))
    ensures Safe(s, ev) && Spool.Sound(s'.spool) && Spool.Healthy(s'.spool)
  {
    hide Next, Spool.Sound, Spool.UnfinishedLine, Spool.Next, Spool.Terminated, Spool.Committed, Spool.Intended;
    SpoolFollows(s, ev, s');
    if SpoolEvent(s, ev).Some? {
      Spool.StepRefinesList(s.spool, SpoolEvent(s, ev).value, s'.spool);
      Spool.StepKeepsHealthy(s.spool, SpoolEvent(s, ev).value, s'.spool);
    }
  }

  /**
   Conservation end to end: in every state of every safe run, wherever a crash may come, what the
   next start replays balances the books, either without the call in progress or with it.
   Nothing is lost and nothing is invented: a QSO whose append returned is replayed, or the worker
   took it off the spool, or the cap evicted it.
   */
  lemma NothingAcceptedIsLost(states: seq<State>, events: seq<Event>, i: nat, image: Option<string>)
    requires IsRun(states, events) && i < |states| && SafeUpTo(states, events, i)
    requires CrashImage(states[i].spool.fs, image)
    ensures var s, h, replayed := states[i], states[i].hist, Adifs(Spool.Recover(image));
            || h.accepted + h.unacknowledged == replayed + h.removed + h.evicted
            || h.accepted + h.unacknowledged + BeingAdded(s)
               == replayed + (h.removed + BeingRemoved(s)) + (h.evicted + BeingEvicted(s))
    ensures var s, h, replayed := states[i], states[i].hist, Adifs(Spool.Recover(image));
            h.accepted <= replayed + h.removed + BeingRemoved(s) + h.evicted + BeingEvicted(s)
  {
    hide IsRun, Spool.Recover, CrashImage, Inv, Spool.Sound, Adifs, BeingAdded, BeingRemoved, BeingEvicted;
    RunKeepsSound(states, events, i);
    var s := states[i];
    Spool.CrashRecovers(s.spool, image);
    IntendedBalances(s);
    AcceptedIsBooked(s.hist, Adifs(Spool.Recover(image)), BeingAdded(s), BeingRemoved(s), BeingEvicted(s));
  }

  lemma AcceptedIsBooked(h: History, replayed: multiset<string>, added: multiset<string>, taken: multiset<string>,
                         evicted: multiset<string>)
    requires || h.accepted + h.unacknowledged == replayed + h.removed + h.evicted
             || h.accepted + h.unacknowledged + added == replayed + (h.removed + taken) + (h.evicted + evicted)
    ensures h.accepted <= replayed + h.removed + taken + h.evicted + evicted
  {
    forall x | x in h.accepted
      ensures h.accepted[x] <= (replayed + h.removed + taken + h.evicted + evicted)[x]
    {
      assert (h.accepted + h.unacknowledged)[x] == (replayed + h.removed + h.evicted)[x]
          || (h.accepted + h.unacknowledged + added)[x] == (replayed + (h.removed + taken) + (h.evicted + evicted))[x];
    }
  }

  /** Both lists a crash may bring back balance the books. */
  lemma IntendedBalances(s: State)
    requires Sound(s)
    ensures s.hist.accepted + s.hist.unacknowledged
         == Adifs(Spool.Committed(s.spool)) + s.hist.removed + s.hist.evicted
    ensures s.hist.accepted + s.hist.unacknowledged + BeingAdded(s)
         == Adifs(Spool.Intended(s.spool)) + (s.hist.removed + BeingRemoved(s)) + (s.hist.evicted + BeingEvicted(s))
  {
    hide Spool.Recover, Spool.Sound, Adifs, Inv;
    var h := s.hist;
    var inflow, before, after := h.accepted + h.unacknowledged, Spool.Committed(s.spool), Spool.Intended(s.spool);
    if s.spool.phase.Busy? {
      match s.spool.phase.call {
        case OpenCall => OpenChangesNothing(s);
        case AppendCall(_) =>
          BusyAppendAdds(s);
          BookAppend(inflow, BeingAdded(s), Adifs(before), Adifs(after), h.removed, h.evicted);
        case RemoveCall(_) =>
          BusyRemoveIsOwn(s);
          BookRemove(inflow, Adifs(before), Adifs(after), h.removed, h.evicted);
      }
    }
  }

  /** The entries promised in the `i`-th state of a pipeline run: appended with Ok, not removed or evicted since. */
  function PromisedAt(states: seq<State>, events: seq<Event>, i: nat): set<Entry>
    requires i <= |events| && |states| == |events| + 1
  {
    if i == 0 then {}
    else
      var promised := PromisedAt(states, events, i - 1);
      match SpoolEvent(states[i - 1], events[i - 1])
      case None => promised
      case Some(ev) => SpoolFaults.Promised(promised, states[i - 1].spool, ev, states[i].spool)
  }

  predicate Careful(s: State, ev: Event) {
    match SpoolEvent(s, ev)
    case None => true
    case Some(e) => SpoolFaults.Careful(s.spool, e)
  }

  lemma {:induction false} RunIsFaithful(states: seq<State>, events: seq<Event>, i: nat)
    requires IsRun(states, events) && i < |states|
    requires forall j :: 0 <= j < i ==> Careful(states[j], events[j])
    ensures SpoolFaults.Faithful(states[i].spool, PromisedAt(states, events, i))
  {
    hide Next, SpoolFaults.Faithful, SpoolFaults.Careful, SpoolFaults.Promised, Spool.Next, SpoolEvent;
    if i == 0 {
      SpoolFaults.EmptyDiskIsFaithful();
    } else {
      RunIsFaithful(states, events, i - 1);
      var s, ev, s' := states[i - 1], events[i - 1], states[i - 1 + 1];
      assert Next(s, ev, s');
      SpoolFollows(s, ev, s');
      if SpoolEvent(s, ev).Some? {
        SpoolFaults.StepKeepsPromises(s.spool, SpoolEvent(s, ev).value, s'.spool, PromisedAt(states, events, i - 1));
      }
    }
  }

  /**
   Conservation under file errors: on every pipeline run, with any crashes and any failing file
   operations, in which every append in place met a terminated file that no crash could replace
   by an older one, whatever a crash leaves in any state replays every promised entry.
   */
  lemma PromisesAreKept(states: seq<State>, events: seq<Event>, i: nat, image: Option<string>)
    requires IsRun(states, events) && i < |states| && CrashImage(states[i].spool.fs, image)
    requires forall j :: 0 <= j < i ==> Careful(states[j], events[j])
    ensures forall e <- PromisedAt(states, events, i) :: e in Spool.Recover(image)
  {
    hide Next, Careful, CrashImage, Spool.Recover, Spool.Recoverable;
    RunIsFaithful(states, events, i);
    SpoolFaults.FaithfulFs(states[i].spool, PromisedAt(states, events, i));
  }

  lemma OpenChangesNothing(s: State)
    requires Inv(s) && Running(s.spool, Spool.OpenCall)
    ensures s.spool.phase.mem.entries == s.spool.phase.before
  {
    hide SpoolNumbers.Orderly, Ordered, Matched;
  }

  /**
   Text by text, removals never outnumber final answers. A QSO that was answered, cut off from its
   removal by a crash, and answered again counts twice here; `RemovalHasOwnAnswer` pairs them up.
   */
  lemma RemovalsAreAnswered(states: seq<State>, events: seq<Event>, i: nat)
    requires IsRun(states, events) && i < |states| && SafeUpTo(states, events, i)
    ensures states[i].hist.removed <= states[i].hist.answered
  {
    hide IsRun, Inv, Spool.Sound, Balanced;
    RunKeepsSound(states, events, i);
  }

  /**
   Removal is justified, on every run: the worker is only ever about to remove an item whose push
   it has just got answered, with a resolved station and a parseable 2xx body. It has done nothing
   else since.
   */
  lemma {:induction false} RemovalIsJustified(states: seq<State>, events: seq<Event>, i: nat) returns (j: nat, k: nat)
    requires IsRun(states, events) && i < |states| && states[i].worker.Removing?
    ensures j < i && events[j].Answer? && states[j].worker == Pushing(states[i].worker.item)
    ensures forall m :: j < m <= i ==> states[m].worker == states[i].worker
    ensures Wellformed(events[j]) && Resolve(events[j].lookup).Ok?
    ensures k < |events[j].posts| && events[j].posts[k].QsoReply?
    ensures 200 <= events[j].posts[k].code < 300 && events[j].posts[k].body.QsoBody?
  {
    hide Next;
    if i == 0 {
      assert false;
    } else {
      var ev := events[i - 1];
      assert Next(states[i - 1], ev, states[i - 1 + 1]);
      RemovingComesFrom(states[i - 1], ev, states[i]);
      if states[i - 1].worker == states[i].worker {
        j, k := RemovalIsJustified(states, events, i - 1);
      } else {
        j := i - 1;
        FinalIffAnswered(ev.lookup, ev.posts);
        k :| && 0 <= k < |ev.posts| && ev.posts[k].QsoReply?
             && 200 <= ev.posts[k].code < 300 && ev.posts[k].body.QsoBody?;
      }
    }
  }

  lemma RemoveRunsOn(s: State, ev: Event, s': State)
    requires Next(s, ev, s') && s.worker.Removing? && s'.worker == s.worker
    requires RunningRemove(s.spool) || ev.RemoveBegin?
    ensures RunningRemove(s'.spool)
  {
    hide PushOne, Commit, Spool.Crashes, Spool.RemovePlan, Items;
  }

  lemma {:induction false} RemoveKeepsRunning(states: seq<State>, events: seq<Event>, m: nat, n: nat)
    requires IsRun(states, events) && m < n < |states| && events[m].RemoveBegin?
    requires forall l :: m <= l <= n ==> states[l].worker == states[n].worker && states[l].worker.Removing?
    ensures RunningRemove(states[n].spool)
  {
    hide Next;
    if m < n - 1 {
      RemoveKeepsRunning(states, events, m, n - 1);
    }
    assert Next(states[n - 1], events[n - 1], states[n - 1 + 1]);
    RemoveRunsOn(states[n - 1], events[n - 1], states[n]);
  }

  /**
   Every removal has a final answer of its own, on every run: between the answer to the push of
   this very item and its removal the worker removes nothing else.
   */
  lemma RemovalHasOwnAnswer(states: seq<State>, events: seq<Event>, i: nat) returns (j: nat)
    requires IsRun(states, events) && i < |events| && events[i].RemoveBegin?
    ensures j < i && events[j].Answer? && Wellformed(events[j])
    ensures states[i].worker.Removing? && states[j].worker == Pushing(states[i].worker.item)
    ensures IsFinal(PushOne(events[j].lookup, events[j].posts))
    ensures forall m :: j < m < i ==> !events[m].RemoveBegin?
  {
    hide Next, PushOne, IsFinal;
    assert Next(states[i], events[i], states[i + 1]);
    RemoveBeginsReady(states[i], states[i + 1]);
    var k;
    j, k := RemovalIsJustified(states, events, i);
    assert Next(states[j], events[j], states[j + 1]);
    RemovingComesFrom(states[j], events[j], states[j + 1]);
    forall m | j < m < i
      ensures !events[m].RemoveBegin?
    {
      if events[m].RemoveBegin? {
        RemoveKeepsRunning(states, events, m, i);
      }
    }
  }

  lemma RemoveBeginsReady(s: State, s': State)
    requires Next(s, RemoveBegin, s')
    ensures s.worker.Removing? && s.spool.phase.Ready?
  {
  }

  lemma RemovingComesFrom(s: State, ev: Event, s': State)
    requires Next(s, ev, s') && s'.worker.Removing?
    ensures s.worker == s'.worker
         || (&& ev.Answer? && Wellformed(ev) && s.worker == Pushing(s'.worker.item)
             && IsFinal(PushOne(ev.lookup, ev.posts)))
  {
    hide PushOne, IsFinal, Commit, Spool.Crashes, Spool.Fails;
  }

  /** On every run, a remove takes nothing off the spool but the QSO its worker was holding. */
  lemma RemoveDeletesOnlyItsQso(states: seq<State>, events: seq<Event>, i: nat)
    requires IsRun(states, events) && i < |events| && events[i].RemoveBegin?
    ensures states[i].worker.Removing? && states[i].spool.phase.Ready? && states[i + 1].spool.phase.Busy?
    ensures var item := states[i].worker.item;
            var old', new' := states[i].spool.phase.mem.entries, states[i + 1].spool.phase.mem.entries;
            && (forall e <- new' :: e in old')
            && (forall e <- old' :: e !in new' ==> ItemOf(e) == item)
            && ((forall e <- old' :: e.seqNo != item.seqNo) ==> new' == old')
  {
    hide SpoolNumbers.Orderly, Ordered, Spool.RemovePlan;
    RunKeepsInv(states, events, i);
    assert Next(states[i], events[i], states[i + 1]);
    var es, item := states[i].spool.phase.mem.entries, states[i].worker.item;
    Spool.WithoutIs(es, item.seqNo);
    if forall e <- es :: e.seqNo != item.seqNo {
      assert forall i :: 0 <= i < |es| ==> es[i] in es;
      NobodyRemoved(es, item.seqNo);
    }
  }

  /**
   On every run, whatever is on its way to be pushed is the spool's QSO of that number, if there is
   one, in the list before and the list after a call in progress.
   */
  lemma HeldItemsAreOwn(states: seq<State>, events: seq<Event>, i: nat, item: Item)
    requires IsRun(states, events) && i < |states| && !states[i].spool.phase.Down?
    requires item in Queue(states[i]) || (HasItem(states[i].worker) && item == states[i].worker.item)
    ensures forall e <- states[i].spool.phase.mem.entries :: e.seqNo == item.seqNo ==> ItemOf(e) == item
    ensures states[i].spool.phase.Busy? ==>
              forall e <- states[i].spool.phase.before :: e.seqNo == item.seqNo ==> ItemOf(e) == item
  {
    hide IsRun, SpoolNumbers.Orderly, Ordered, Wired, Queue;
    RunKeepsInv(states, events, i);
  }

  /** The cap evicts only from a full spool. */
  lemma EvictionNeedsFullSpool(s: State)
    requires Inv(s) && s.spool.phase.Busy?
    ensures BeingEvicted(s) != multiset{} ==> |s.spool.phase.before| >= 1000
  {
    hide SpoolNumbers.Orderly, Ordered, Matched, Adifs;
    var p := s.spool.phase;
    if p.call.AppendCall? && |p.before| < Spool.MAX_QUEUE_LEN {
      SnocAdifs(p.before, p.call.entry);
    }
  }

  /** The process is up: `open` has returned and no crash has come since. */
  predicate IsUp(sp: Spool.State) { !sp.phase.Down? && !Running(sp, Spool.OpenCall) }

  /**
   Hand-off order, on every run: within one process run the worker takes numbers in strictly
   increasing order, so no entry twice, and all of them below the numbers still to be given; the
   channel never holds more than its capacity.
   */
  lemma HandOffInOrder(states: seq<State>, events: seq<Event>, i: nat)
    requires IsRun(states, events) && i < |states| && IsUp(states[i].spool)
    ensures var taken := states[i].hist.taken;
            && (forall a, b :: 0 <= a < b < |taken| ==> taken[a].seqNo < taken[b].seqNo)
            && (forall a, b :: 0 <= a < |taken| && 0 <= b < |Queue(states[i])| ==>
                  taken[a].seqNo < Queue(states[i])[b].seqNo)
            && (forall a :: 0 <= a < |taken| ==> taken[a].seqNo < Horizon(states[i].spool))
    ensures |states[i].channel| <= 32
  {
    hide IsRun, SpoolNumbers.Orderly, Wired, Matched, Queue, Horizon;
    RunKeepsInv(states, events, i);
    var s := states[i];
    var all := s.hist.taken + Queue(s);
    assert all == Itinerary(s);
    assert forall a :: 0 <= a < |s.hist.taken| ==> all[a] == s.hist.taken[a];
    assert forall b :: 0 <= b < |Queue(s)| ==> all[|s.hist.taken| + b] == Queue(s)[b];
  }

  /** This item was appended, by an append that returned, in the process run that began with step `o`. */
  ghost predicate Arrived(states: seq<State>, events: seq<Event>, o: nat, i: nat, item: Item)
    requires i < |states| == |events| + 1
  {
    exists m :: o < m < i && events[m].AppendEnd? && states[m + 1].listener == Handing(item)
  }

  ghost predicate ProcessRun(states: seq<State>, events: seq<Event>, o: nat, i: nat) {
    && IsRun(states, events) && o < i < |states| && events[o].Opened?
    && forall m :: o < m < i ==> !events[m].Crash?
  }

  lemma OpenedHandsOver(s: State, s': State)
    requires Next(s, Opened, s')
    ensures IsUp(s'.spool) && Horizon(s'.spool) == s'.spool.phase.mem.nextSeq
    ensures Itinerary(s') == Items(s'.spool.phase.mem.entries)
  {
    hide Items;
    assert [] + Items(s.spool.phase.mem.entries) == Items(s.spool.phase.mem.entries);
  }

  lemma UpStepHorizon(s: State, ev: Event, s': State)
    requires Next(s, ev, s') && IsUp(s.spool) && Wired(s) && !ev.Crash?
    ensures IsUp(s'.spool) && Horizon(s.spool) <= Horizon(s'.spool)
    ensures ev.AppendEnd? ==> s'.listener.Handing? && s'.listener.item.seqNo == Horizon(s.spool)
  {
    hide PushOne, Commit, Spool.Capped, Spool.Without, Spool.AppendPlan, Spool.RemovePlan, Spool.OpenPlan;
    hide FailedOp, Apply;
    hide Items;
  }

  lemma UpStepItems(s: State, ev: Event, s': State)
    requires Next(s, ev, s') && IsUp(s.spool) && !ev.Crash?
    ensures forall item <- Itinerary(s') :: item in Itinerary(s) || (ev.AppendEnd? && s'.listener == Handing(item))
  {
    hide PushOne, Commit, Spool.Capped, Spool.Without, Spool.AppendPlan, Spool.RemovePlan, Spool.OpenPlan;
    hide FailedOp, Apply;
    hide Items, Spool.BeginOpen, Spool.BeginAppend, Spool.BeginRemove, Spool.Advance, Spool.Fails;
  }

  /** Without a crash the horizon never moves back, and the only items that come up are new ones at it. */
  lemma UpStep(s: State, ev: Event, s': State)
    requires Next(s, ev, s') && IsUp(s.spool) && Wired(s) && !ev.Crash?
    ensures IsUp(s'.spool) && Horizon(s.spool) <= Horizon(s'.spool)
    ensures forall item <- Itinerary(s') :: item in Itinerary(s) || (ev.AppendEnd? && s'.listener == Handing(item))
    ensures ev.AppendEnd? ==> s'.listener.Handing? && s'.listener.item.seqNo == Horizon(s.spool)
  {
    hide Next, Wired, Itinerary, Horizon, IsUp;
    UpStepHorizon(s, ev, s');
    UpStepItems(s, ev, s');
  }

  lemma {:induction false} ItineraryOrigin(states: seq<State>, events: seq<Event>, o: nat, i: nat)
    requires ProcessRun(states, events, o, i)
    ensures IsUp(states[o + 1].spool) && IsUp(states[i].spool)
    ensures Horizon(states[o + 1].spool) <= Horizon(states[i].spool)
    ensures forall item <- Itinerary(states[i]) ::
              item in Items(states[o + 1].spool.phase.mem.entries) || Arrived(states, events, o, i, item)
    ensures forall m :: o < m < i && events[m].AppendEnd? ==>
              states[m + 1].listener.Handing? && states[m + 1].listener.item.seqNo >= Horizon(states[o + 1].spool)
  {
    hide Next, Horizon, Itinerary, Items, IsUp, SpoolNumbers.Orderly, Ordered, Matched, Wired;
    var n := i - 1;
    assert Next(states[n], events[n], states[n + 1]);
    if n == o {
      OpenedHandsOver(states[o], states[i]);
    } else {
      ItineraryOrigin(states, events, o, n);
      RunKeepsInv(states, events, n);
      UpStep(states[n], events[n], states[i]);
    }
  }

  /**
   Replay first: in every process run, what the worker takes was either on the spool when it was
   opened or appended since, and all of the former come before any of the latter.
   */
  lemma ReplayBeforeArrivals(states: seq<State>, events: seq<Event>, o: nat, i: nat)
    requires ProcessRun(states, events, o, i)
    ensures IsUp(states[o + 1].spool)
    ensures var taken, replay := states[i].hist.taken, Items(states[o + 1].spool.phase.mem.entries);
            && (forall a :: 0 <= a < |taken| ==> taken[a] in replay || Arrived(states, events, o, i, taken[a]))
            && (forall a, b | 0 <= a < |taken| && 0 <= b < |taken| ::
                  taken[a] in replay && Arrived(states, events, o, i, taken[b]) ==> a < b)
  {
    hide Next, Horizon, Items, IsUp, Itinerary;
    ItineraryOrigin(states, events, o, i);
    HandOffInOrder(states, events, i);
    ReplayBelowHorizon(states, events, o);
    var taken, replay := states[i].hist.taken, Items(states[o + 1].spool.phase.mem.entries);
    TakenIsOnItinerary(states[i]);
    forall a, b | 0 <= a < |taken| && 0 <= b < |taken| && taken[a] in replay && Arrived(states, events, o, i, taken[b])
      ensures a < b
    {
      assert taken[a].seqNo < Horizon(states[o + 1].spool) <= taken[b].seqNo;
    }
  }

  // ------------------------------------------------------------ arrivals reach the worker

  /** The item is in the listener's hand, in the channel, or has been taken. */
  predicate Holding(s: State, item: Item) {
    s.listener == Handing(item) || item in s.channel || item in s.hist.taken
  }

  /** Offering an item: it goes last into a channel with room, unless the worker is gone. */
  lemma HandOffPutsLast(s: State, s': State)
    requires Next(s, HandOff, s')
    ensures s.listener.Handing? && s'.spool == s.spool && s'.hist == s.hist
    ensures !s.worker.Exited? && |s.channel| < 32 ==> s'.channel == s.channel + [s.listener.item]
    ensures s.worker.Exited? || |s.channel| >= 32 ==> s'.channel == s.channel
    ensures s'.listener == if s.worker.Exited? then Stopped else Receiving
  {
  }

  lemma ItemStays(s: State, ev: Event, s': State, item: Item)
    requires Next(s, ev, s') && IsUp(s.spool) && Wired(s) && !ev.Crash? && Holding(s, item)
    ensures Holding(s', item)
         || (ev.HandOff? && s.listener == Handing(item) && (|s.channel| >= 32 || s.worker.Exited?))
  {
    hide PushOne, Commit, Items, Spool.BeginOpen, Spool.BeginAppend, Spool.BeginRemove, Spool.Advance, Spool.Fails;
    if ev.Take? {
      assert s.channel == [s.channel[0]] + s'.channel;
    }
  }

  /** The hand-off of this item met a full channel, or a worker that was gone. */
  ghost predicate TurnedAway(states: seq<State>, events: seq<Event>, m: nat, i: nat, item: Item)
    requires i < |states| == |events| + 1
  {
    exists h :: m < h < i && events[h].HandOff? && states[h].listener == Handing(item)
                && (|states[h].channel| >= 32 || states[h].worker.Exited?)
  }

  /**
   Every QSO whose append returned is taken by the worker or on its way there in every later state of
   its process run, unless its hand-off met a channel of 32 or a worker that was gone.
   */
  lemma {:induction false} ArrivalsReachWorker(states: seq<State>, events: seq<Event>, o: nat, m: nat, i: nat)
    requires ProcessRun(states, events, o, i) && o < m < i && events[m].AppendEnd?
    ensures states[m + 1].listener.Handing?
    ensures Holding(states[i], states[m + 1].listener.item)
         || TurnedAway(states, events, m, i, states[m + 1].listener.item)
  {
    hide Next, Horizon, Itinerary, Items, IsUp, Holding, SpoolNumbers.Orderly, Wired, Ordered, Matched;
    ItineraryOrigin(states, events, o, i);
    var item := states[m + 1].listener.item;
    if i == m + 1 {
      HandingIsHolding(states[i]);
    } else {
      var n := i - 1;
      ArrivalsReachWorker(states, events, o, m, n);
      ItineraryOrigin(states, events, o, n);
      assert Next(states[n], events[n], states[n + 1]);
      if Holding(states[n], item) {
        RunKeepsInv(states, events, n);
        ItemStays(states[n], events[n], states[i], item);
      }
    }
  }

  lemma HandingIsHolding(s: State)
    requires s.listener.Handing?
    ensures Holding(s, s.listener.item)
  {
  }

  /**
   While the process is up, the listener stops exactly at a shutdown or when it finds the worker gone,
   and the worker exactly at a shutdown or when the listener is gone and the channel empty. No answer,
   full channel or file error stops either.
   */
  lemma TasksStopIff(s: State, ev: Event, s': State)
    requires Next(s, ev, s') && IsUp(s.spool) && Wired(s) && !ev.Crash?
    ensures !s.listener.Stopped? ==>
              (s'.listener.Stopped? <==>
                 ev == ListenerWake(true) || ((ev.ReplaySend? || ev.HandOff?) && s.worker.Exited?))
    ensures !s.worker.Exited? ==>
              (s'.worker.Exited? <==>
                 ev == WorkerWake(true) || (ev.ChannelClosed? && s.listener.Stopped? && s.channel == []))
  {
    hide PushOne, Commit, Items, Spool.BeginOpen, Spool.BeginAppend, Spool.BeginRemove, Spool.Advance, Spool.Fails;
  }

  /**
   A call that meets a file error gives its task back: the listener receives on, the worker waits on. A
   push without a final answer leaves its QSO on the spool and the worker waiting.
   */
  lemma TasksGoOn(s: State, ev: Event, s': State)
    requires Next(s, ev, s') && Wired(s) && IsUp(s.spool)
    ensures ev.Fault? ==> s'.spool.phase.Ready? && s'.channel == s.channel && s'.hist == s.hist
    ensures ev.Fault? && s.spool.phase.call.AppendCall? ==> s'.listener.Receiving? && s'.worker == s.worker
    ensures ev.Fault? && s.spool.phase.call.RemoveCall? ==> s'.worker.Waiting? && s'.listener == s.listener
    ensures ev.Answer? ==>
              && s.worker.Pushing? && s'.spool == s.spool && s'.channel == s.channel && s'.listener == s.listener
              && s'.worker == (if IsFinal(PushOne(ev.lookup, ev.posts)) then Removing(s.worker.item) else Waiting)
  {
    hide PushOne, Commit, Items, Spool.BeginOpen, Spool.BeginAppend, Spool.BeginRemove, Spool.Advance, FailedOp;
  }

  /** Every append is of the text of the last datagram before it, with the number that comes next. */
  lemma {:induction false} AppendIsOfDatagram(states: seq<State>, events: seq<Event>, m: nat) returns (d: nat)
    requires IsRun(states, events) && m < |states| && states[m].listener.Persisting?
    ensures d < m && events[d] == Datagram(states[m].listener.adif)
    ensures forall k :: d < k < m ==> !events[k].Datagram?
    ensures forall k :: d < k <= m ==> states[k].listener == states[m].listener
  {
    hide Next;
    if m == 0 {
      assert false;
    } else {
      var n := m - 1;
      assert Next(states[n], events[n], states[n + 1]);
      PersistingComesFrom(states[n], events[n], states[m]);
      if events[n].Datagram? {
        d := n;
      } else {
        d := AppendIsOfDatagram(states, events, n);
      }
    }
  }

  lemma PersistingComesFrom(s: State, ev: Event, s': State)
    requires Next(s, ev, s') && s'.listener.Persisting?
    ensures if ev.Datagram? then ev.adif == s'.listener.adif else s.listener == s'.listener
  {
    hide PushOne, Commit, Items, Spool.Crashes, Spool.Fails;
  }

  /** What the entry of an append holds, and what the worker gets of it. */
  lemma AppendEntryIs(s: State, receivedAt: nat, s': State)
    requires Next(s, AppendBegin(receivedAt), s')
    ensures s.listener.Persisting? && s.spool.phase.Ready? && s'.spool.phase.Busy? && s'.listener == s.listener
    ensures s'.spool.phase.call
         == Spool.AppendCall(Entry(s.spool.phase.mem.nextSeq, s.listener.adif, receivedAt))
  {
  }

  lemma TakenIsOnItinerary(s: State)
    ensures forall a :: 0 <= a < |s.hist.taken| ==> s.hist.taken[a] in Itinerary(s)
  {
    hide Queue;
    assert forall a :: 0 <= a < |s.hist.taken| ==> Itinerary(s)[a] == s.hist.taken[a];
  }

  lemma ReplayBelowHorizon(states: seq<State>, events: seq<Event>, o: nat)
    requires IsRun(states, events) && o < |events| && events[o].Opened?
    ensures !states[o + 1].spool.phase.Down?
    ensures forall item <- Items(states[o + 1].spool.phase.mem.entries) ::
              item.seqNo < Horizon(states[o + 1].spool)
  {
    hide Next, Items, Itinerary, SpoolNumbers.Orderly, Wired, Matched;
    assert Next(states[o], events[o], states[o + 1]);
    OpenedHandsOver(states[o], states[o + 1]);
    RunKeepsInv(states, events, o + 1);
  }
}

/** The radio worker: which snapshots it pushes to Wavelog, against the history of its pushes. */
module Poller {
  import opened Results

  /** Milliseconds after which an unchanged state is pushed again. */
  const HEARTBEAT_INTERVAL: nat := 30_000

  datatype RigState = RigState(freq: nat, mode: string, power: Option<real>)

  // --------------------------------------------------------------- power bins

  function Round(x: real): int {
    if x >= 0.0 then (x + 0.5).Floor else -((0.5 - x).Floor)
  }

  /** Bins of half a percent of full scale. */
  function QuantizeRfpower(rfpower: real): int { Round(rfpower * 200.0) }

  function QuantizePower(power: Option<real>): Option<int> {
    if power.None? then None else Some(QuantizeRfpower(power.value))
  }

  /** A bin is at most half a bin width away from every reading in it. */
  lemma BinIsNear(x: real)
    ensures var bin := QuantizeRfpower(x) as real; x - 1.0 / 400.0 <= bin / 200.0 <= x + 1.0 / 400.0
    ensures 0.0 <= x <= 1.0 ==> 0 <= QuantizeRfpower(x) <= 200
  {
    var y := x * 200.0;
    var bin := QuantizeRfpower(x);
    assert y - 0.5 <= bin as real <= y + 0.5;
  }

  lemma BinsAreMonotone(x: real, y: real)
    requires x <= y
    ensures QuantizeRfpower(x) <= QuantizeRfpower(y)
  {
    assert x * 200.0 <= y * 200.0;
  }

  /** A reading half way between two bins goes to the one farther from zero. */
  lemma TiesGoAway(n: nat)
    ensures QuantizeRfpower((n as real + 0.5) / 200.0) == n + 1
    ensures QuantizeRfpower(-(n as real + 0.5) / 200.0) == -(n + 1)
  {
    assert (n as real + 0.5) / 200.0 * 200.0 == n as real + 0.5;
    assert -(n as real + 0.5) / 200.0 * 200.0 == -(n as real + 0.5);
  }

  /** Readings in one bin differ by at most half a percent of full scale. */
  lemma SameBinIsClose(x: real, y: real)
    requires QuantizeRfpower(x) == QuantizeRfpower(y)
    ensures -1.0 / 200.0 <= x - y <= 1.0 / 200.0
  {
    BinIsNear(x);
    BinIsNear(y);
  }

  // ------------------------------------------------------------------ dedupe

  datatype DedupeKey = DedupeKey(freq: nat, mode: string, rfpowerQ: Option<int>)

  function KeyOf(state: RigState): DedupeKey { DedupeKey(state.freq, state.mode, QuantizePower(state.power)) }

  datatype PushKind = Initial | Change | Power | Heartbeat

  /** Elapsed time, zero if the clock went backwards. */
  function Since(earlier: nat, now: nat): nat { if now < earlier then 0 else now - earlier }

  class Deduper {
    var last: Option<DedupeKey>
    var lastAt: Option<nat>

    constructor ()
      ensures last == None && lastAt == None
    {
      last, lastAt := None, None;
    }

    predicate ShouldSkip(state: RigState, now: nat)
      reads this
    {
      last.Some? && lastAt.Some?
      && last.value.freq == state.freq && last.value.mode == state.mode
      && last.value.rfpowerQ == QuantizePower(state.power)
      && Since(lastAt.value, now) < HEARTBEAT_INTERVAL
    }

    method Record(state: RigState, now: nat)
      modifies this
      ensures last == Some(KeyOf(state)) && lastAt == Some(now)
    {
      last := Some(DedupeKey(state.freq, state.mode, QuantizePower(state.power)));
      lastAt := Some(now);
    }

    function Classify(state: RigState): PushKind
      reads this
    {
      if last.None? then Initial
      else if last.value.freq != state.freq || last.value.mode != state.mode then Change
      else if last.value.rfpowerQ != QuantizePower(state.power) then Power
      else Heartbeat
    }
  }

  // -------------------------------------------------------------- the worker's run

  /** A snapshot the worker saw, when it saw it, and whether a push of it would succeed. */
  datatype Sample = Sample(state: RigState, at: nat, reachable: bool)

  datatype Decision = Skipped | Pushed(kind: PushKind) | Failed(kind: PushKind)

  /** The last successful push before the `i`-th decision. */
  function LastPush(log: seq<Decision>, i: nat): (j: Option<nat>)
    requires i <= |log|
    ensures j.Some? ==> j.value < i && log[j.value].Pushed? && forall k :: j.value < k < i ==> !log[k].Pushed?
    ensures j.None? ==> forall k :: 0 <= k < i ==> !log[k].Pushed?
  {
    if i == 0 then None else if log[i - 1].Pushed? then Some(i - 1) else LastPush(log, i - 1)
  }

  /** The reason to push a state after the last pushed one. */
  function ReasonFor(previous: Option<RigState>, state: RigState): PushKind {
    if previous.None? then Initial
    else if previous.value.freq != state.freq || previous.value.mode != state.mode then Change
    else if KeyOf(previous.value) != KeyOf(state) then Power
    else Heartbeat
  }

  /** A snapshot is skipped exactly if its key was successfully pushed last, and recently. */
  predicate Fits(d: Decision, last: Option<Sample>, now: Sample) {
    && (d.Skipped? <==>
          && last.Some? && KeyOf(last.value.state) == KeyOf(now.state)
          && Since(last.value.at, now.at) < HEARTBEAT_INTERVAL)
    && (!d.Skipped? ==>
          && (d.Pushed? <==> now.reachable)
          && d.kind == ReasonFor(if last.None? then None else Some(last.value.state), now.state))
  }

  /** The sample of the last successful push before the `i`-th decision. */
  function LastPushed(samples: seq<Sample>, log: seq<Decision>, i: nat): Option<Sample>
    requires i <= |log| <= |samples|
  {
    var j := LastPush(log, i);
    if j.None? then None else Some(samples[j.value])
  }

  ghost predicate FollowsHistory(samples: seq<Sample>, log: seq<Decision>) {
    && |log| <= |samples|
    && forall i :: 0 <= i < |log| ==> Fits(log[i], LastPushed(samples, log, i), samples[i])
  }

  method RadioWorker(samples: seq<Sample>) returns (log: seq<Decision>)
    ensures |log| == |samples| && FollowsHistory(samples, log)
  {
    hide QuantizePower, FollowsHistory;
    log := [];
    var deduper := new Deduper();
    NoHistory(samples);
    for i := 0 to |samples|
      invariant |log| == i && FollowsHistory(samples, log)
      invariant var last := LastPushed(samples, log, i);
                && deduper.last == (if last.None? then None else Some(KeyOf(last.value.state)))
                && deduper.lastAt == (if last.None? then None else Some(last.value.at))
    {
      var state, now := samples[i].state, samples[i].at;
      var decision := Skipped;
      if !deduper.ShouldSkip(state, now) {
        var kind := deduper.Classify(state);
        if samples[i].reachable {
          decision := Pushed(kind);
        } else {
          decision := Failed(kind);
        }
      }
      DecisionExtends(samples, log, decision);
      if decision.Pushed? {
        deduper.Record(state, now);
      }
      log := log + [decision];
    }
  }

  lemma NoHistory(samples: seq<Sample>)
    ensures FollowsHistory(samples, [])
  {
  }

  lemma {:induction false} LastPushOfPrefix(log: seq<Decision>, d: Decision, i: nat)
    requires i <= |log|
    ensures LastPush(log + [d], i) == LastPush(log, i)
  {
    if i > 0 {
      LastPushOfPrefix(log, d, i - 1);
    }
  }

  lemma LastPushOfLonger(log: seq<Decision>, d: Decision)
    ensures LastPush(log + [d], |log| + 1) == if d.Pushed? then Some(|log|) else LastPush(log + [d], |log|)
  {
  }

  lemma DecisionExtends(samples: seq<Sample>, log: seq<Decision>, d: Decision)
    requires |log| < |samples| && FollowsHistory(samples, log)
    requires Fits(d, LastPushed(samples, log, |log|), samples[|log|])
    ensures FollowsHistory(samples, log + [d])
    ensures LastPushed(samples, log + [d], |log| + 1)
         == if d.Pushed? then Some(samples[|log|]) else LastPushed(samples, log, |log|)
  {
    hide Fits, LastPush;
    var log' := log + [d];
    forall i | 0 <= i < |log'|
      ensures Fits(log'[i], LastPushed(samples, log', i), samples[i])
    {
      LastPushOfPrefix(log, d, i);
      assert LastPushed(samples, log', i) == LastPushed(samples, log, i);
    }
    LastPushOfPrefix(log, d, |log|);
    LastPushOfLonger(log, d);
  }

  ghost predicate Monotone(samples: seq<Sample>) {
    forall i, j :: 0 <= i < j < |samples| ==> samples[i].at <= samples[j].at
  }

  /** Successful pushes of one key, with none between them, are at least a heartbeat apart. */
  lemma EqualPushesAreSpaced(samples: seq<Sample>, log: seq<Decision>, i: nat, k: nat)
    requires FollowsHistory(samples, log) && Monotone(samples) && i < k < |log|
    requires log[i].Pushed? && log[k].Pushed? && forall m :: i < m < k ==> !log[m].Pushed?
    requires KeyOf(samples[i].state) == KeyOf(samples[k].state)
    ensures samples[k].at - samples[i].at >= 30_000
    ensures log[k].kind == Heartbeat
  {
    hide QuantizePower, LastPush, FollowsHistory, Fits, KeyOf;
    FitsAt(samples, log, k);
    NoPushBetween(log, i + 1, k);
    PushedIsLast(log, i);
    assert LastPushed(samples, log, k) == Some(samples[i]);
    EqualPushFits(log[k], samples[i], samples[k]);
  }

  lemma EqualPushFits(d: Decision, last: Sample, now: Sample)
    requires Fits(d, Some(last), now) && d.Pushed? && KeyOf(last.state) == KeyOf(now.state) && last.at <= now.at
    ensures now.at - last.at >= 30_000 && d.kind == Heartbeat
  {
    hide QuantizePower;
  }

  lemma FitsAt(samples: seq<Sample>, log: seq<Decision>, k: nat)
    requires FollowsHistory(samples, log) && k < |log|
    ensures |log| <= |samples| && Fits(log[k], LastPushed(samples, log, k), samples[k])
  {
    hide Fits, LastPush;
  }

  lemma PushedIsLast(log: seq<Decision>, i: nat)
    requires i < |log| && log[i].Pushed?
    ensures LastPush(log, i + 1) == Some(i)
  {
  }

  /** A state that differs from the last pushed one is tried on every snapshot that has it, until a push succeeds. */
  lemma ChangeIsRetried(samples: seq<Sample>, log: seq<Decision>, i: nat, k: nat)
    requires FollowsHistory(samples, log) && i <= k < |log|
    requires var last := LastPushed(samples, log, i); last.Some? ==> KeyOf(last.value.state) != KeyOf(samples[i].state)
    requires KeyOf(samples[k].state) == KeyOf(samples[i].state)
    requires forall m :: i <= m < k ==> !log[m].Pushed?
    ensures !log[k].Skipped? && log[k].kind != Heartbeat
    ensures log[k].Pushed? <==> samples[k].reachable
  {
    hide QuantizePower, LastPush;
    NoPushBetween(log, i, k);
    assert Fits(log[k], LastPushed(samples, log, k), samples[k]);
  }

  lemma {:induction false} NoPushBetween(log: seq<Decision>, i: nat, k: nat)
    requires i <= k <= |log| && forall m :: i <= m < k ==> !log[m].Pushed?
    ensures LastPush(log, k) == LastPush(log, i)
    decreases k
  {
    if i < k {
      NoPushBetween(log, i, k - 1);
    }
  }

  /**
   What Wavelog shows while snapshots are skipped: the frequency and mode last pushed are the
   current ones, the push is less than 30 seconds old, and the power has not drifted by more
   than half a percent of full scale, or appeared or disappeared.
   */
  lemma SkippedDriftIsBounded(samples: seq<Sample>, log: seq<Decision>, i: nat)
    requires FollowsHistory(samples, log) && i < |log| && log[i].Skipped?
    ensures LastPushed(samples, log, i).Some?
    ensures var pushed, now := LastPushed(samples, log, i).value, samples[i];
            && pushed.state.freq == now.state.freq && pushed.state.mode == now.state.mode
            && now.at < pushed.at + 30_000
            && (pushed.state.power.Some? <==> now.state.power.Some?)
            && (now.state.power.Some? ==>
                  -1.0 / 200.0 <= now.state.power.value - pushed.state.power.value <= 1.0 / 200.0)
  {
    hide QuantizeRfpower, LastPush;
    assert Fits(log[i], LastPushed(samples, log, i), samples[i]);
    var pushed, now := LastPushed(samples, log, i).value.state, samples[i].state;
    if now.power.Some? && pushed.power.Some? {
      SameBinIsClose(now.power.value, pushed.power.value);
    }
  }

  // ------------------------------------------------------- every decision, outright

  /** The same frequency and mode, and power readings in the same bin, or none. */
  predicate SameShown(a: RigState, b: RigState) {
    && a.freq == b.freq && a.mode == b.mode && (a.power.Some? <==> b.power.Some?)
    && (a.power.Some? ==> QuantizeRfpower(a.power.value) == QuantizeRfpower(b.power.value))
  }

  lemma SameShownIffSameKey(a: RigState, b: RigState)
    ensures SameShown(a, b) <==> KeyOf(a) == KeyOf(b)
  {
    hide QuantizeRfpower;
  }

  /** The last successful push before the `i`-th decision. */
  ghost predicate IsLastPush(log: seq<Decision>, i: nat, j: nat)
    requires i <= |log|
  {
    j < i && log[j].Pushed? && forall m :: j < m < i ==> !log[m].Pushed?
  }

  lemma LastPushIs(log: seq<Decision>, i: nat, j: nat)
    requires i <= |log|
    ensures IsLastPush(log, i, j) <==> LastPush(log, i) == Some(j)
  {
    hide LastPush;
    var l := LastPush(log, i);
    if IsLastPush(log, i, j) && l.Some? && l.value != j {
      assert false;
    }
  }

  /**
   A snapshot is skipped if and only if the last successful push showed the same, less than 30 seconds
   before.
   */
  lemma SkippedIff(samples: seq<Sample>, log: seq<Decision>, i: nat)
    requires FollowsHistory(samples, log) && Monotone(samples) && i < |log|
    ensures log[i].Skipped? <==>
            exists j: nat :: && IsLastPush(log, i, j) && SameShown(samples[j].state, samples[i].state)
                             && samples[i].at - samples[j].at < 30_000
  {
    hide LastPush, FollowsHistory, QuantizePower, IsLastPush, SameShown, KeyOf;
    FitsAt(samples, log, i);
    var last := LastPush(log, i);
    forall j: nat | IsLastPush(log, i, j)
      ensures last == Some(j)
    {
      LastPushIs(log, i, j);
    }
    if last.Some? {
      LastPushIs(log, i, last.value);
      SameShownIffSameKey(samples[last.value].state, samples[i].state);
      assert samples[last.value].at <= samples[i].at;
    }
  }

  /** What is not skipped is pushed if Wavelog can be reached, for the reason that holds. */
  lemma PushedForReason(samples: seq<Sample>, log: seq<Decision>, i: nat, j: nat)
    requires FollowsHistory(samples, log) && i < |log| && !log[i].Skipped?
    ensures log[i].Pushed? <==> samples[i].reachable
    ensures log[i].kind == Initial <==> forall m :: 0 <= m < i ==> !log[m].Pushed?
    ensures IsLastPush(log, i, j) ==>
              var before, now := samples[j].state, samples[i].state;
              && (log[i].kind == Change <==> before.freq != now.freq || before.mode != now.mode)
              && (log[i].kind == Power <==>
                    before.freq == now.freq && before.mode == now.mode && !SameShown(before, now))
              && (log[i].kind == Heartbeat <==> SameShown(before, now))
  {
    hide LastPush, FollowsHistory, QuantizeRfpower;
    FitsAt(samples, log, i);
    LastPushIs(log, i, j);
  }

  /** So an unchanged state is pushed again at the first snapshot 30 seconds or more after the last push. */
  lemma HeartbeatComes(samples: seq<Sample>, log: seq<Decision>, i: nat, j: nat)
    requires FollowsHistory(samples, log) && Monotone(samples) && i < |log| && IsLastPush(log, i, j)
    requires SameShown(samples[j].state, samples[i].state) && samples[i].at - samples[j].at >= 30_000
    requires samples[i].reachable
    ensures log[i] == Pushed(Heartbeat)
  {
    hide LastPush, FollowsHistory, SameShown;
    SkippedIff(samples, log, i);
    LastPushIs(log, i, j);
    forall k: nat | IsLastPush(log, i, k)
      ensures k == j
    {
      LastPushIs(log, i, k);
    }
    PushedForReason(samples, log, i, j);
  }
}

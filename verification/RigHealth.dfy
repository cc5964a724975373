/** The connectivity health the rigctld actor publishes, against the history of outcomes behind it. */
module RigHealth {

  datatype DegradedKind = Unreachable | Unresponsive

  datatype HealthState = Healthy | Degraded(kind: DegradedKind, failures: nat)

  /** What the actor records: a served command, a failed connect, a command that failed on the wire. */
  datatype Outcome = Success | Failure(kind: DegradedKind)

  const U32_MAX: nat := 0xFFFF_FFFF

  function SaturatingIncrement(n: nat): nat { if n >= U32_MAX then U32_MAX else n + 1 }

  /** How many of the last outcomes are failures of one and the same kind. */
  function TrailingRun(history: seq<Outcome>): nat {
    var n := |history|;
    if n == 0 || history[n - 1].Success? then 0
    else if n > 1 && history[n - 2] == history[n - 1] then 1 + TrailingRun(history[..n - 1])
    else 1
  }

  function StateOf(history: seq<Outcome>): HealthState {
    var n := |history|;
    if n == 0 || history[n - 1].Success? then Healthy
    else Degraded(history[n - 1].kind, if TrailingRun(history) > U32_MAX then U32_MAX else TrailingRun(history))
  }

  /** The run is as long as possible: its outcomes are all the last one, and the outcome before it differs. */
  lemma {:induction false} TrailingRunIsMaximal(history: seq<Outcome>)
    ensures var n, run := |history|, TrailingRun(history);
            && run <= n
            && (run == 0 <==> n == 0 || history[n - 1].Success?)
            && (forall i :: n - run <= i < n ==> history[i] == history[n - 1])
            && (0 < run < n ==> history[n - run - 1] != history[n - 1])
  {
    var n := |history|;
    if n > 1 && history[n - 1].Failure? && history[n - 2] == history[n - 1] {
      TrailingRunIsMaximal(history[..n - 1]);
    }
  }

  /** One more failure lengthens a streak of its kind and starts a new one otherwise. */
  lemma StateAfterFailure(history: seq<Outcome>, kind: DegradedKind)
    ensures var state := StateOf(history);
            StateOf(history + [Failure(kind)])
            == Degraded(kind, if !(state.Degraded? && state.kind == kind) then 1
                              else if state.failures == 4_294_967_295 then 4_294_967_295
                              else state.failures + 1)
    ensures StateOf(history).Degraded? ==> 1 <= StateOf(history).failures <= 4_294_967_295
  {
    TrailingRunIsMaximal(history);
    var longer := history + [Failure(kind)];
    assert longer[..|longer| - 1] == history;
  }

  class Health {
    var state: HealthState
    var published: HealthState
    ghost var history: seq<Outcome>

    ghost predicate Valid()
      reads this
    {
      state == StateOf(history) && published == state
    }

    constructor ()
      ensures Valid() && history == []
    {
      state := Healthy;
      published := Healthy;
      history := [];
    }

    /** Returns the length of the streak; it is 1 exactly when the state changed to this kind. */
    method RecordFailure(kind: DegradedKind) returns (failures: nat)
      requires Valid()
      modifies this
      ensures Valid() && history == old(history) + [Failure(kind)]
      ensures state == Degraded(kind, failures)
      ensures failures == 1 <==> !(old(state).Degraded? && old(state).kind == kind)
    {
      hide StateOf;
      StateAfterFailure(history, kind);
      if state.Degraded? && state.kind == kind {
        failures := SaturatingIncrement(state.failures);
      } else {
        failures := 1;
      }
      state := Degraded(kind, failures);
      published := state;
      history := history + [Failure(kind)];
    }

    /** Returns whether a degraded streak ended. */
    method RecordSuccess() returns (recovered: bool)
      requires Valid()
      modifies this
      ensures Valid() && history == old(history) + [Success]
      ensures recovered <==> old(state).Degraded?
    {
      recovered := state.Degraded?;
      if recovered {
        state := Healthy;
        published := Healthy;
      }
      history := history + [Success];
    }
  }

  // ------------------------------------------------------- the poller's cadence

  const SLOW_AFTER_FAILURES: nat := 3

  /** Milliseconds between polls during an outage. */
  const DEGRADED_INTERVAL: nat := 15_000

  function CadenceFor(state: HealthState, base: nat): nat {
    if state.Degraded? && state.failures >= SLOW_AFTER_FAILURES then DEGRADED_INTERVAL else base
  }

  predicate LastThreeFailAlike(history: seq<Outcome>) {
    var n := |history|;
    n >= 3 && history[n - 1].Failure? && history[n - 2] == history[n - 1] && history[n - 3] == history[n - 1]
  }

  /** The poller slows down exactly when the last three outcomes are failures of one kind. */
  lemma CadenceFollowsHistory(history: seq<Outcome>, base: nat)
    ensures CadenceFor(StateOf(history), base) == if LastThreeFailAlike(history) then 15_000 else base
  {
    TrailingRunIsMaximal(history);
    var n, run := |history|, TrailingRun(history);
    assert run == 1 && n > 1 ==> history[n - 2] != history[n - 1];
    assert run == 2 && n > 2 ==> history[n - 3] != history[n - 1];
  }
}

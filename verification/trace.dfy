/**
 The main loop as a whole: the per-frame decision folded over a sequence
 of ticks. A run records, frame by frame, whether the alarm fired, and the
 state after the last frame.
 */
module Trace {
  import opened Alarm

  datatype Run = Run(fired: seq<bool>, final: GuardState)

  /** The guard run over `ticks` from state `s`. Every firing happens more
      than the cooldown after the starting last-alarm time, and no later than
      the final last-alarm time; the last-alarm time never decreases. */
  function Execute(s: GuardState, ticks: seq<Tick>): (r: Run)
    ensures |r.fired| == |ticks|
    ensures s.lastAlarm <= r.final.lastAlarm
    ensures forall k :: 0 <= k < |ticks| && r.fired[k] ==>
      ticks[k].now - s.lastAlarm > AlarmCooldown
    ensures forall k :: 0 <= k < |ticks| && r.fired[k] ==>
      ticks[k].now <= r.final.lastAlarm
  {
    if |ticks| == 0 then
      Run([], s)
    else
      var n := |ticks| - 1;
      var p := Execute(s, ticks[..n]);
      var o := Step(p.final, ticks[n]);
      Run(p.fired + [o.fired], o.state)
  }

  /** The last-alarm time a trace implies: the clock reading of the last
      tick that fired, or the starting value when none did. */
  function LastFiring(start: real, ticks: seq<Tick>, fired: seq<bool>): real
    requires |fired| == |ticks|
  {
    if |ticks| == 0 then start
    else if fired[|ticks| - 1] then ticks[|ticks| - 1].now
    else LastFiring(start, ticks[..|ticks| - 1], fired[..|ticks| - 1])
  }

  /** The state after a run holds exactly the time of its last firing. */
  lemma {:induction false} FinalIsLastFiring(s: GuardState, ticks: seq<Tick>)
    ensures Execute(s, ticks).final.lastAlarm
         == LastFiring(s.lastAlarm, ticks, Execute(s, ticks).fired)
  {
    if |ticks| > 0 {
      var n := |ticks| - 1;
      var p := Execute(s, ticks[..n]);
      var r := Execute(s, ticks);
      FinalIsLastFiring(s, ticks[..n]);
      assert r.fired[..n] == p.fired;
    }
  }

  /** A run of a prefix is the prefix of the run, and tick `k` is decided
      from the state the first `k` ticks leave behind. */
  lemma {:induction false} ExecutePrefix(s: GuardState, ticks: seq<Tick>, k: nat)
    requires k <= |ticks|
    ensures Execute(s, ticks[..k]).fired == Execute(s, ticks).fired[..k]
    ensures k < |ticks| ==>
      Execute(s, ticks).fired[k] == Step(Execute(s, ticks[..k]).final, ticks[k]).fired
  {
    if k < |ticks| {
      var n := |ticks| - 1;
      assert ticks[..n][..k] == ticks[..k];
      if k < n {
        ExecutePrefix(s, ticks[..n], k);
      } else {
        assert ticks[..k] == ticks[..n];
      }
    } else {
      assert ticks[..k] == ticks;
    }
  }

  /** Declarative reading of a whole trace: tick `k` fires exactly when it
      reports the fingertip too close and it comes more than the cooldown
      after the last earlier firing (or after the starting last-alarm time,
      when nothing fired before it). */
  lemma {:induction false} FiredIff(s: GuardState, ticks: seq<Tick>, k: nat)
    requires k < |ticks|
    ensures Execute(s, ticks).fired[k] <==>
      && ticks[k].sighting == Reading(true)
      && ticks[k].now - LastFiring(s.lastAlarm, ticks[..k], Execute(s, ticks).fired[..k]) > AlarmCooldown
  {
    ExecutePrefix(s, ticks, k);
    FinalIsLastFiring(s, ticks[..k]);
  }

  /** Any two firings of a run are more than the cooldown apart. This holds
      whatever order the clock readings come in. */
  lemma {:induction false} FiringsSpaced(s: GuardState, ticks: seq<Tick>, i: nat, j: nat)
    requires i < j < |ticks|
    requires Execute(s, ticks).fired[i] && Execute(s, ticks).fired[j]
    ensures ticks[j].now - ticks[i].now > AlarmCooldown
  {
    ExecutePrefix(s, ticks, j);
    var p := Execute(s, ticks[..j]);
    assert p.fired[i];
    assert ticks[..j][i] == ticks[i];
  }

  /** A tick without a reading never fires, and leaves the state it found
      unchanged. */
  lemma {:induction false} NoReadingSilent(s: GuardState, ticks: seq<Tick>, k: nat)
    requires k < |ticks|
    requires ticks[k].sighting.NoReading?
    ensures !Execute(s, ticks).fired[k]
    ensures Execute(s, ticks[..k + 1]).final == Execute(s, ticks[..k]).final
  {
    ExecutePrefix(s, ticks, k);
    assert ticks[..k + 1][..k] == ticks[..k];
  }

  /** The number of firings in a trace. */
  function Count(fired: seq<bool>): nat
  {
    if |fired| == 0 then 0
    else Count(fired[..|fired| - 1]) + (if fired[|fired| - 1] then 1 else 0)
  }

  /** After `c` firings the last-alarm time has advanced by at least `c`
      cooldowns, and by strictly more once anything has fired. */
  lemma {:induction false} FiringsAccumulate(s: GuardState, ticks: seq<Tick>)
    ensures Execute(s, ticks).final.lastAlarm - s.lastAlarm
         >= AlarmCooldown * Count(Execute(s, ticks).fired) as real
    ensures Count(Execute(s, ticks).fired) > 0 ==>
      Execute(s, ticks).final.lastAlarm - s.lastAlarm
        > AlarmCooldown * Count(Execute(s, ticks).fired) as real
  {
    if |ticks| > 0 {
      var n := |ticks| - 1;
      var p := Execute(s, ticks[..n]);
      var r := Execute(s, ticks);
      FiringsAccumulate(s, ticks[..n]);
      assert r.fired[..n] == p.fired;
    }
  }

  /** Started from the initial state, a tick that raises the c-th alarm
      has a clock reading above `c` cooldowns. In particular the first alarm
      needs a clock reading above 3.0. */
  lemma {:induction false} AlarmsByTime(ticks: seq<Tick>, k: nat)
    requires k < |ticks|
    requires Execute(InitialState, ticks).fired[k]
    ensures ticks[k].now > AlarmCooldown * Count(Execute(InitialState, ticks).fired[..k + 1]) as real
    ensures ticks[k].now > AlarmCooldown
  {
    var pre := ticks[..k + 1];
    ExecutePrefix(InitialState, ticks, k + 1);
    LastFiringBound(InitialState, pre);
    assert pre[k] == ticks[k];
  }

  /** A run whose last tick fires ends more than one cooldown per firing
      after the starting last-alarm time. */
  lemma {:induction false} LastFiringBound(s: GuardState, ticks: seq<Tick>)
    requires |ticks| > 0 && Execute(s, ticks).fired[|ticks| - 1]
    ensures ticks[|ticks| - 1].now - s.lastAlarm
          > AlarmCooldown * Count(Execute(s, ticks).fired) as real
  {
    var r := Execute(s, ticks);
    var n := |ticks| - 1;
    var p := Execute(s, ticks[..n]);
    assert r.fired[..n] == p.fired;
    FiringsAccumulate(s, ticks);
  }

  /** A worked run from the initial state. A reading at exactly 3.0 s does
      not fire (the cooldown test is strict); 3.5 s does. A frame without a
      reading and a frame that is not too close change nothing. When the
      clock steps back to 6.5 s, exactly 3.0 s after the alarm, nothing
      fires; 10.0 s fires again. */
  lemma {:induction false} CooldownExample()
    ensures Execute(InitialState, [
      Tick(Reading(true), 1.0), Tick(Reading(true), 3.0), Tick(Reading(true), 3.5),
      Tick(NoReading, 8.0), Tick(Reading(false), 9.0), Tick(Reading(true), 6.5),
      Tick(Reading(true), 10.0)]).fired
      == [false, false, true, false, false, false, true]
  {
    var ticks := [
      Tick(Reading(true), 1.0), Tick(Reading(true), 3.0), Tick(Reading(true), 3.5),
      Tick(NoReading, 8.0), Tick(Reading(false), 9.0), Tick(Reading(true), 6.5),
      Tick(Reading(true), 10.0)];
    var r0 := Execute(InitialState, ticks[..0]);
    assert r0 == Run([], InitialState);
    assert ticks[..1][..0] == ticks[..0];
    var r1 := Execute(InitialState, ticks[..1]);
    assert r1 == Run([false], InitialState);
    assert ticks[..2][..1] == ticks[..1];
    var r2 := Execute(InitialState, ticks[..2]);
    assert r2 == Run([false, false], InitialState);
    assert ticks[..3][..2] == ticks[..2];
    var r3 := Execute(InitialState, ticks[..3]);
    assert r3 == Run([false, false, true], GuardState(3.5));
    assert ticks[..4][..3] == ticks[..3];
    var r4 := Execute(InitialState, ticks[..4]);
    assert r4 == Run([false, false, true, false], GuardState(3.5));
    assert ticks[..5][..4] == ticks[..4];
    var r5 := Execute(InitialState, ticks[..5]);
    assert r5 == Run([false, false, true, false, false], GuardState(3.5));
    assert ticks[..6][..5] == ticks[..5];
    var r6 := Execute(InitialState, ticks[..6]);
    assert r6 == Run([false, false, true, false, false, false], GuardState(3.5));
    assert ticks[..7] == ticks;
    assert ticks[..7][..6] == ticks[..6];
  }
}

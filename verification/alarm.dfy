/**
 The alarm state machine of the guard's main loop. Each frame delivers a
 sighting, which is either "no reading" (no face or no hand was detected)
 or whether the fingertip is too close to the chin, together with the
 clock reading. The only state is the time of the last alarm. The alarm
 fires when the fingertip is too close and more than the cooldown has passed
 since the last alarm.
 */
module Alarm {

  /** Minimum time, in seconds, that must pass between two alarms. */
  const AlarmCooldown: real := 3.0

  /** The guard's state: the clock reading at the last alarm. */
  datatype GuardState = GuardState(lastAlarm: real)

  /** Before any alarm, the last alarm time is zero. */
  const InitialState: GuardState := GuardState(0.0)

  /** What one frame tells the state machine about the fingertip. */
  datatype Sighting = NoReading | Reading(tooClose: bool)

  /** One frame as the state machine sees it. */
  datatype Tick = Tick(sighting: Sighting, now: real)

  /** The result of one decision: whether the alarm fired, and the new state. */
  datatype Outcome = Outcome(fired: bool, state: GuardState)

  /** The cooldown gate. It fires exactly when the fingertip is too close
      and strictly more than the cooldown has passed since the last alarm;
      firing records `now` as the last alarm, and not firing changes nothing. */
  function Gate(s: GuardState, tooClose: bool, now: real): (o: Outcome)
    ensures o.fired <==> tooClose && now - s.lastAlarm > AlarmCooldown
    ensures o.fired ==> o.state.lastAlarm == now
    ensures !o.fired ==> o.state == s
  {
    if tooClose && now - s.lastAlarm > AlarmCooldown then
      Outcome(true, GuardState(now))
    else
      Outcome(false, s)
  }

  /** One pass of the main loop's decision. A frame without a reading makes
      no decision and keeps the state. Otherwise the alarm fires exactly when
      the fingertip is too close and the cooldown has passed. Every firing
      moves the last-alarm time forward by more than the cooldown, and the
      last-alarm time never moves backwards, even if the clock does. */
  function Step(s: GuardState, t: Tick): (o: Outcome)
    ensures t.sighting.NoReading? ==> !o.fired && o.state == s
    ensures o.fired <==> t.sighting == Reading(true) && t.now - s.lastAlarm > AlarmCooldown
    ensures o.fired ==> o.state.lastAlarm == t.now > s.lastAlarm + AlarmCooldown
    ensures !o.fired ==> o.state == s
    ensures s.lastAlarm <= o.state.lastAlarm
  {
    match t.sighting
    case NoReading => Outcome(false, s)
    case Reading(close) => Gate(s, close, t.now)
  }
}

/**
 From detector output to the state machine's input. A frame carries the
 detector's face and hand landmark lists, the frame size and the clock
 reading. When both a face and a hand are present, the guard measures the
 chin, the index fingertip and the face width in pixels and decides whether
 the fingertip is too close; otherwise the frame has no reading.
 */
module Perception {
  import opened Geometry
  import opened Proximity
  import opened Alarm
  import opened Trace

  /** Landmark indices: chin and face-width references in the face mesh,
      index fingertip in the hand. */
  const ChinIndex: nat := 152
  const LeftFaceIndex: nat := 234
  const RightFaceIndex: nat := 454
  const FingertipIndex: nat := 8

  /** One captured frame after detection. Each detected face (hand) is a
      landmark list; the detector reports none as an empty list, and only
      the first face and the first hand are used. */
  datatype Frame = Frame(
    faces: seq<seq<Landmark>>,
    hands: seq<seq<Landmark>>,
    width: nat,
    height: nat,
    now: real)

  /** Both a face and a hand were detected in the frame. */
  predicate Detected(f: Frame)
  {
    |f.faces| > 0 && |f.hands| > 0
  }

  /** When the guard reads landmarks, that is when both a face and a hand
      were detected, the first face and the first hand hold the indices it
      reads. */
  predicate WellFormed(f: Frame)
  {
    Detected(f) ==> |f.faces[0]| > RightFaceIndex && |f.hands[0]| > FingertipIndex
  }

  predicate AllWellFormed(frames: seq<Frame>)
  {
    forall k :: 0 <= k < |frames| ==> WellFormed(frames[k])
  }

  /** The measurements taken from one frame. */
  datatype Measurement = Measurement(chin: Pixel, tip: Pixel, faceWidth: nat)

  function Measure(f: Frame): Measurement
    requires Detected(f) && WellFormed(f)
  {
    var face := f.faces[0];
    var hand := f.hands[0];
    Measurement(
      ToPixel(face[ChinIndex], f.width, f.height),
      ToPixel(hand[FingertipIndex], f.width, f.height),
      FaceWidth(face[LeftFaceIndex], face[RightFaceIndex], f.width))
  }

  /** What a frame's measurement means: the chin is face landmark 152 and
      the fingertip hand landmark 8, each scaled to the frame and rounded
      toward zero; the face width is the whole number of pixels between face
      landmarks 234 and 454. */
  lemma {:induction false} MeasureReadsLandmarks(f: Frame)
    requires Detected(f) && WellFormed(f)
    ensures ScaledTo(f.faces[0][ChinIndex], f.width, f.height, Measure(f).chin)
    ensures ScaledTo(f.hands[0][FingertipIndex], f.width, f.height, Measure(f).tip)
    ensures SpanWidth(f.faces[0][LeftFaceIndex], f.faces[0][RightFaceIndex], f.width,
                      Measure(f).faceWidth)
  {
  }

  /** When every landmark the guard reads lies in the unit square, the chin
      and fingertip lie inside the frame and the face is no wider than it. */
  lemma {:induction false} MeasureInFrame(f: Frame)
    requires Detected(f) && WellFormed(f)
    requires Normalised(f.faces[0][ChinIndex])
    requires Normalised(f.faces[0][LeftFaceIndex]) && Normalised(f.faces[0][RightFaceIndex])
    requires Normalised(f.hands[0][FingertipIndex])
    ensures 0 <= Measure(f).chin.x <= f.width && 0 <= Measure(f).chin.y <= f.height
    ensures 0 <= Measure(f).tip.x <= f.width && 0 <= Measure(f).tip.y <= f.height
    ensures Measure(f).faceWidth <= f.width
  {
    var face := f.faces[0];
    PixelInFrame(face[ChinIndex], f.width, f.height);
    PixelInFrame(f.hands[0][FingertipIndex], f.width, f.height);
    FaceWidthBounded(face[LeftFaceIndex], face[RightFaceIndex], f.width);
  }

  /** What the state machine learns from a frame: its clock reading, and a
      reading only when both a face and a hand were detected. The reading is
      "too close" exactly when the integer test `WithinThreeQuarters` holds
      for the measured chin, fingertip and face width. */
  function Perceive(f: Frame): (t: Tick)
    requires WellFormed(f)
    ensures t.now == f.now
    ensures t.sighting.NoReading? <==> !Detected(f)
    ensures Detected(f) ==>
      (t.sighting == Reading(true) <==>
         WithinThreeQuarters(Measure(f).chin, Measure(f).tip, Measure(f).faceWidth))
  {
    if Detected(f) then
      var m := Measure(f);
      TooCloseIntegerForm(m.chin, m.tip, m.faceWidth);
      Tick(Reading(TooClose(m.chin, m.tip, m.faceWidth)), f.now)
    else
      Tick(NoReading, f.now)
  }

  /** The decision on a detected frame is the main loop's own condition: the
      true Euclidean chin-to-fingertip distance is strictly below the
      threshold, and more than the cooldown has passed since the last alarm. */
  lemma {:induction false} FrameDecision(s: GuardState, f: Frame)
    requires WellFormed(f) && Detected(f)
    ensures forall d :: IsDistance(d, Measure(f).chin, Measure(f).tip) ==>
      (Step(s, Perceive(f)).fired <==>
         d < Threshold(Measure(f).faceWidth) && f.now - s.lastAlarm > AlarmCooldown)
    ensures Step(s, Perceive(f)).fired ==> Step(s, Perceive(f)).state == GuardState(f.now)
  {
    var m := Measure(f);
    forall d | IsDistance(d, m.chin, m.tip)
      ensures Step(s, Perceive(f)).fired <==>
        d < Threshold(m.faceWidth) && f.now - s.lastAlarm > AlarmCooldown
    {
      TooCloseIsEuclidean(m.chin, m.tip, m.faceWidth, d);
    }
  }

  /** A frame without both a face and a hand makes no decision: it never
      fires and keeps the state, whatever its landmarks say. */
  lemma {:induction false} UndetectedFrameKeepsState(s: GuardState, f: Frame)
    requires WellFormed(f) && !Detected(f)
    ensures Step(s, Perceive(f)) == Outcome(false, s)
  {
  }

  /** A detected frame whose face width truncates to zero never fires. */
  lemma {:induction false} ZeroWidthNeverFires(s: GuardState, f: Frame)
    requires WellFormed(f) && Detected(f)
    ensures Measure(f).faceWidth == 0 ==> !Step(s, Perceive(f)).fired
  {
    ZeroWidthNeverTooClose(Measure(f).chin, Measure(f).tip);
  }

  /** A fingertip exactly at the threshold distance never fires. */
  lemma {:induction false} AtThresholdNeverFires(s: GuardState, f: Frame)
    requires WellFormed(f) && Detected(f)
    ensures forall d ::
      IsDistance(d, Measure(f).chin, Measure(f).tip) && d == Threshold(Measure(f).faceWidth)
      ==> !Step(s, Perceive(f)).fired
  {
    var m := Measure(f);
    forall d | IsDistance(d, m.chin, m.tip) && d == Threshold(m.faceWidth)
      ensures !Step(s, Perceive(f)).fired
    {
      AtThresholdNotTooClose(m.chin, m.tip, m.faceWidth, d);
    }
  }

  /** The ticks the main loop hands to the state machine, frame by frame. */
  function PerceiveAll(frames: seq<Frame>): (ticks: seq<Tick>)
    requires AllWellFormed(frames)
    ensures |ticks| == |frames|
    ensures forall k :: 0 <= k < |frames| ==> ticks[k] == Perceive(frames[k])
  {
    if |frames| == 0 then []
    else PerceiveAll(frames[..|frames| - 1]) + [Perceive(frames[|frames| - 1])]
  }

  /** Over a whole run of frames, frame `k` fires exactly when a face and a
      hand are detected, the fingertip is too close, and the frame comes more
      than the cooldown after the last earlier firing (or after the starting
      last-alarm time). */
  lemma {:induction false} FrameFiredIff(s: GuardState, frames: seq<Frame>, k: nat)
    requires AllWellFormed(frames) && k < |frames|
    ensures Execute(s, PerceiveAll(frames)).fired[k] <==>
      && Detected(frames[k])
      && TooClose(Measure(frames[k]).chin, Measure(frames[k]).tip, Measure(frames[k]).faceWidth)
      && frames[k].now - LastFiring(s.lastAlarm, PerceiveAll(frames)[..k],
                                    Execute(s, PerceiveAll(frames)).fired[..k]) > AlarmCooldown
  {
    FiredIff(s, PerceiveAll(frames), k);
  }
}

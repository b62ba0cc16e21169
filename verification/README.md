# Beard Guard: the per-frame alarm decision

Beard Guard watches a webcam. On each frame it tracks one face and one hand,
and it sounds an alarm when the index fingertip comes too close to the chin.
This project models the decision the main loop makes on each frame, and
proves properties of it. The decision is written inline in the loop of
`beard_guard.py`; the model turns it into pure functions.

- **Geometry** (`geometry.dfy`). Landmarks are normalised `(x, y)` pairs and
  are kept as `real`. Pixels are integers. A pixel coordinate is the
  landmark coordinate times the frame size, truncated toward zero. This is
  what Python's `int` does (`Trunc`); it is not the floor. The face width is
  the absolute value of the truncated horizontal span between face-mesh
  landmarks 234 and 454.
- **Proximity** (`proximity.dfy`). The threshold is `0.75 * face width`. The
  fingertip (hand landmark 8) is too close to the chin (face landmark 152)
  when their Euclidean distance is strictly below the threshold. Both sides
  are non-negative, so the model compares squares instead and needs no
  square root. Lemmas prove that this agrees with comparing any non-negative
  `d` with `d * d == dx² + dy²`. They also prove it is the integer test
  `16 (dx² + dy²) < 9 fw²`.
- **Alarm** (`alarm.dfy`). This is the state machine. The only state is the
  time of the last alarm. It starts at 0, and the cooldown is 3.0 seconds.
  Each frame reaches the state machine as a `Tick`: the clock reading and a
  sighting, which is either "no reading" or whether the fingertip is too
  close. A tick fires when the fingertip is too close and
  `now - lastAlarm > 3.0`. Firing sets `lastAlarm := now`. Every other tick
  leaves the state unchanged, including ticks without a reading.
- **Trace** (`trace.dfy`). `Execute` folds the step over a sequence of
  ticks. Its lemmas relate the whole trace to the state:
  - Any two firings are more than the cooldown apart.
  - The state always holds the time of the last firing.
  - Each tick fires exactly when it is too close and comes more than 3.0 s
    after the last earlier firing.
  - The n-th alarm from the start needs a clock reading above `3.0 * n`.
  - A worked run shows the strict boundary at exactly 3.0 s.
- **Perception** (`perception.dfy`). A `Frame` holds the detector's face and
  hand lists, the frame size and the clock reading. `Perceive` turns it into
  a tick: "no reading" unless both a face and a hand are present, and
  otherwise the proximity test on the measured chin, fingertip and face
  width. Lemmas restate the per-frame decision as `beard_guard.py` writes it
  (`dist < threshold and now - last_alarm > alarm_cooldown`) and lift the
  trace characterisation to frames.

The detector's output is modelled as a list of landmark lists. An empty list
stands for "nothing detected", which Python writes as `None` or an empty
list. Only the first face and the first hand are used, as in the source.
`WellFormed` asks that, when both a face and a hand were detected, those
first lists hold the indices the loop reads. With fewer landmarks, the loop
would raise an `IndexError`. A frame that lacks a face or a hand is never
indexed, so it is well formed whatever its lists hold.

`beard_guard.py` has no sustain timer, no hand-raised release condition, no
`is_playing` flag or overlay, no auto-stop timer and no random choice of
sound, and neither does the model. Missing detections are handled as in the code: the frame makes no
decision and the state is kept.

The spacing property needs no assumption about the clock. Every firing needs
`now > lastAlarm + 3.0`, and `lastAlarm` never decreases. So firing times
strictly increase and are more than 3 seconds apart, even when the clock
readings are not monotone.

## Model

| member | source | states |
|---|---|---|
| Geometry.Trunc | beard_guard.py:59 | `int()` of a float truncates toward zero: for a non-negative input the result is the largest integer not above it, for a negative one the smallest integer not below it |
| Geometry.TruncatesToUnique | beard_guard.py:59 | rounding toward zero (same sign as the input, whole part of its magnitude) has exactly one result, and it is `Trunc`'s |
| Geometry.ToPixel | beard_guard.py:58-63 | each pixel coordinate is the landmark coordinate times the frame size rounded toward zero: same sign, and the whole part of its magnitude |
| Geometry.PixelInFrame | beard_guard.py:57-63 | a landmark inside the unit square lands on a pixel inside the frame, far edges included |
| Geometry.FaceWidth | beard_guard.py:65-68 | the face width is a natural number, namely the whole number of pixels in the absolute horizontal span between landmarks 234 and 454 (`fw <= |span| < fw + 1`) |
| Geometry.FaceWidthSymmetric | beard_guard.py:66-68 | swapping landmarks 234 and 454 does not change the face width, because truncation commutes with negation |
| Geometry.FaceWidthBounded | beard_guard.py:66-68 | with both reference landmarks in the unit square, the face is no wider than the frame |
| Proximity.SquaredDistance | beard_guard.py:71 | the squared chin–fingertip distance is a natural number, and it is zero exactly when the two pixels coincide |
| Proximity.Threshold | beard_guard.py:72 | the threshold `fw * 0.75` is never negative and never above the face width, and it is zero exactly for a zero-width face |
| Proximity.TooClose | beard_guard.py:81 | only a face of positive width can have a fingertip too close to it |
| Proximity.TooCloseIsEuclidean | beard_guard.py:71-72 | the square-root-free test decides exactly `dist < threshold`, for the true Euclidean distance `dist` |
| Proximity.TooCloseIntegerForm | beard_guard.py:72 | for the factor 0.75 the test is the integer comparison `16 (dx² + dy²) < 9 fw²` |
| Proximity.AtThresholdNotTooClose | beard_guard.py:81 | the comparison is strict, so a fingertip at exactly the threshold distance is not too close |
| Proximity.ZeroWidthNeverTooClose | beard_guard.py:68 | with a zero-width face, no fingertip position is too close, even one on the chin |
| Perception.MeasureReadsLandmarks | beard_guard.py:53-68 | the chin pixel is face landmark 152 and the fingertip pixel hand landmark 8, each scaled to the frame and rounded toward zero; the face width is the whole number of pixels between face landmarks 234 and 454 |
| Perception.Perceive | beard_guard.py:52-81 | a frame yields a reading exactly when both a face and a hand were detected; the reading is "too close" exactly when `16 (dx² + dy²) < 9 fw²` for the measured chin, fingertip and face width; the clock reading is passed on |
| Perception.PerceiveAll | beard_guard.py:39-81 | the main loop hands the state machine one tick per frame, in frame order, each the frame's own reading |
| Perception.MeasureInFrame | beard_guard.py:55-68 | when the four landmarks read lie in the unit square, chin and fingertip pixels lie in the frame and the face width is at most the frame width |
| Perception.FrameDecision | beard_guard.py:52-83 | on a frame with a face and a hand, the model fires exactly when the true Euclidean chin-to-fingertip distance is below `0.75 * face width` and `now - last_alarm > 3.0`; on firing the state becomes `now` |
| Perception.UndetectedFrameKeepsState | beard_guard.py:52 | a frame without both a face and a hand never fires and leaves the state unchanged, whatever else it holds |
| Perception.ZeroWidthNeverFires | beard_guard.py:66-81 | a detected frame whose face width truncates to 0 never fires |
| Perception.AtThresholdNeverFires | beard_guard.py:81 | a detected frame whose fingertip is exactly at the threshold distance never fires |
| Perception.FrameFiredIff | beard_guard.py:39-83 | over a run of frames, frame `k` fires exactly when a face and a hand are detected, the fingertip is too close, and the frame comes more than 3.0 s after the last earlier firing (or after the start value) |
| Alarm.Gate | beard_guard.py:80-83 | the cooldown gate fires exactly when the fingertip is too close and strictly more than 3.0 s have passed since the last alarm; firing records `now`; not firing changes nothing |
| Alarm.Step | beard_guard.py:52-83 | a tick without a reading makes no decision and keeps the state; otherwise it fires exactly when the fingertip is too close and the cooldown has passed; a firing moves the last-alarm time forward by more than 3.0 s, and the last-alarm time never decreases |
| Trace.Execute | beard_guard.py:39-83 | over a tick sequence, each firing comes more than 3.0 s after the starting last-alarm time and no later than the final one, and the last-alarm time never decreases |
| Trace.FinalIsLastFiring | beard_guard.py:81-83 | after any run, the state holds the clock reading of the last tick that fired, or the initial value when no tick fired |
| Trace.ExecutePrefix | beard_guard.py:39-83 | running a prefix gives the prefix of the decisions, and tick `k` is decided from the state the first `k` ticks leave |
| Trace.FiredIff | beard_guard.py:80-83 | tick `k` fires exactly when it reports the fingertip too close and comes more than 3.0 s after the last earlier firing (or after the start value) |
| Trace.FiringsSpaced | beard_guard.py:81-83 | any two firings of a run are more than the 3.0 s cooldown apart, for any order of clock readings |
| Trace.NoReadingSilent | beard_guard.py:52 | within a run, a tick without a reading never fires and leaves the state unchanged |
| Trace.FiringsAccumulate | beard_guard.py:81-83 | after `c` firings the last-alarm time has advanced by at least `3.0 * c`, and by strictly more when `c > 0` |
| Trace.AlarmsByTime | beard_guard.py:33-34 | starting from `last_alarm = 0`, a tick that raises the n-th alarm has a clock reading above `3.0 * n`; in particular the first alarm needs a reading above 3.0 |
| Trace.CooldownExample | beard_guard.py:81-83 | from `last_alarm = 0`, readings at 1.0 and 3.0 s do not fire, 3.5 s fires, a missing reading and a not-close reading change nothing, 6.5 s (exactly 3.0 s later) does not fire, and 10.0 s fires |

## Left out

- Camera capture, flipping, colour conversion, drawing markers, the display window, the Esc key and releasing resources (beard_guard.py:30, 39-46, 75-77, 85-92). These are I/O with no decision in them. The capture loop appears only as the sequence of frames that `PerceiveAll` and `Execute` consume.
- MediaPipe face and hand detection (beard_guard.py:21-27, 49-50). This is a pretrained model. Its output appears as the `faces` and `hands` lists of a `Frame`.
- `play_alarm` (beard_guard.py:12-18). It runs `paplay` in a subprocess on a daemon thread. The model reduces it to the `fired` output of a step.
- `time.time()`. The clock reading is the `now` field of each frame, as a `real`.
- IEEE floating point. Coordinates, products and timestamps are exact reals. The float rounding of `chin.x * w`, of `** 0.5` and of `face_width * 0.75` is not modelled. Near the boundary, float rounding could decide `dist < threshold` differently from the exact comparison proved here.
- Detected frames whose first face has fewer than 455 landmarks, or whose first hand has fewer than 9. The loop would raise `IndexError` on them; `WellFormed` excludes them. MediaPipe always reports 468 face and 21 hand landmarks.

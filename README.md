# Hand-gesture phone control, modelled in Dafny

The controller reads camera frames, finds hands in them, classifies each hand
into one of four gestures from the vertical positions of four landmarks
(thumb tip, wrist, index-finger tip, middle-finger tip), and sends the phone
one command per classified hand: a fist zooms in, a palm zooms out, two fingers
held together take a screenshot, and a raised thumb turns the flashlight on.

This project models the two pieces of logic in `implementation.py`:

- `wrappers.dfy`: module `Wrappers`, the `Option` type standing for Python's
  `None`-or-value.
- `gesture.dfy`: module `HandGesture`, the gesture detector `detect_gesture`.
  A hand is a `Landmarks` record of four `real` y coordinates (image
  coordinates grow downwards). The input is `Option<Landmarks>`: `None` is a
  missing hand. The result is `Option<Gesture>`: `None` means no gesture.
  `Detect` states in its contract the exact condition for every outcome.
  Lemmas state the rule priority, the strict 0.05 tolerance, that the flash
  rule only fires with the index tip exactly level with the wrist, and that
  every outcome can be reached.
- `dispatch.dfy`: module `Dispatch`, the frame loop with its `if`/`elif`
  dispatch. Effectors are abstract `Command`s appended to a log. `Run` is the
  loop: a `while` over frames and a `for` over the hands of each frame. It is
  proved equal to the specification function `Log`. Lemmas about `Log` cover
  its length, the count of each command, compositionality over frames (there
  is no history or edge-triggering), that a held gesture fires every frame,
  and that `FlashOff` never appears.

Facts about the code that the model keeps:

- The code keeps no dispatch state. Every hand in every frame fires.
- The code reads the four landmarks from a fixed list; there is no
  "missing landmark" case.
- A label that matches no branch of the `elif` chain fires nothing.
- The hand wrist 0.5, index 0.52, thumb 0.45, middle 0.70 is a palm: its
  index tip is below the wrist and its thumb above it, so rule 2 fires before
  the flash rule (`HandGesture.Examples`).
- No hand meets both the fist rule and the palm rule. One needs
  index < wrist and the other needs index > wrist.

## Model

| member | source | states |
|---|---|---|
| `HandGesture.Detect` | implementation.py:40-63 | no hand gives no gesture; fist exactly when index < wrist; palm exactly when index > wrist and thumb < wrist; screenshot exactly when index >= wrist, not palm, and abs(index - middle) < 0.05; flash exactly when index == wrist, thumb < wrist and abs(index - middle) >= 0.05; no gesture for a present hand exactly when index >= wrist, thumb >= wrist and abs(index - middle) >= 0.05 |
| `HandGesture.FistWins` | implementation.py:48-49 | index above the wrist is a fist, whatever the thumb and middle finger do |
| `HandGesture.PalmBeatsScreenshotAndFlash` | implementation.py:52-61 | the palm rule wins over the screenshot and flash rules |
| `HandGesture.ScreenshotBeatsFlash` | implementation.py:56-61 | fingers together with the thumb up is a screenshot, not a flash |
| `HandGesture.ToleranceIsStrict` | implementation.py:56-57 | a difference of exactly 0.05 between index and middle tip never gives a screenshot |
| `HandGesture.FlashNeedsLevelIndex` | implementation.py:48-61 | flash is unreachable unless index == wrist; index below the wrist with the thumb above it is a palm |
| `HandGesture.EveryOutcomeReachable` | implementation.py:40-63 | each of the four gestures and "no gesture" is returned for some hand |
| `HandGesture.Examples` | implementation.py:48-63 | concrete hands for each of the four labels and for no gesture, and the 0.05 and 0.049 boundary cases |
| `Dispatch.CommandFor` | implementation.py:89-96 | a command is fired exactly when there is a gesture; the flashlight-off command is never chosen |
| `Dispatch.CommandForInjective` | implementation.py:89-96 | different gestures fire different commands |
| `Dispatch.HandLog` | implementation.py:86-96 | a hand fires at most one command, exactly one when a gesture is detected, and that command is the gesture's |
| `Dispatch.Run` | implementation.py:68-96 | the loop over frames and their hands produces exactly the log `Log(frames)` |
| `Dispatch.LogAppend` | implementation.py:68-96 | the log of two runs of frames in sequence is the first log followed by the second: no frame depends on earlier frames |
| `Dispatch.FrameLogLength` | implementation.py:82-96 | a frame's log has one entry per hand with a detected gesture |
| `Dispatch.LogLength` | implementation.py:68-96 | a run's log has one entry per hand with a detected gesture, over all frames |
| `Dispatch.FrameLogCounts` | implementation.py:82-96 | in a frame's log each gesture's command occurs once per hand with that gesture |
| `Dispatch.LogCounts` | implementation.py:68-96 | in a run's log each gesture's command occurs once per hand with that gesture, over all frames |
| `Dispatch.FrameLogNoFlashOff` | implementation.py:89-96 | a frame never turns the flashlight off |
| `Dispatch.LogNoFlashOff` | implementation.py:89-96 | `flash_off` (lines 27-29) is never in a run's log |
| `Dispatch.HeldGestureFiresEveryFrame` | implementation.py:68-96 | a gesture held by one hand for n frames fires its command n times |
| `Dispatch.FistFistNone` | implementation.py:68-96 | frames labelled fist, fist, none give the log zoom in, zoom in |

## Left out

- Camera capture, mirroring, colour conversion, display and the key poll (implementation.py:66-77, 99-107) are I/O. The model takes a finite sequence of frames instead.
- Hand detection and landmark drawing (implementation.py:7-9, 78, 83) are done by a foreign library. Each frame is the sequence of hands it found, and a missing hand list is the empty sequence.
- The bodies of the effectors (`subprocess.run` calls to the phone, `time.sleep`, `print`; implementation.py:12-37) are device I/O. Each effector is one abstract `Command` in the log, and their failures are not modelled.
- Loop exit on a failed read or on the 'q' key (implementation.py:69-71, 102-103) depends on I/O. The model always processes every frame.
- Coordinates are `real`, so floating-point rounding of `abs(index - middle) < 0.05` near the boundary is not modelled.
- Only the four landmark y values the code reads are modelled. The other landmarks and the x and z coordinates play no part.

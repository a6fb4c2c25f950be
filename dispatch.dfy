/**
 * The frame loop of the controller: every detected hand of every processed
 * frame is classified, and each label other than "no gesture" fires exactly
 * one device command. There is no history and no edge-triggering: a gesture
 * held over several frames fires once per frame.
 */
module Dispatch {
  import opened Wrappers
  import opened HandGesture

  /** The device commands, one per effector of the controller. */
  datatype Command = ZoomIn | ZoomOut | TakeScreenshot | FlashOn | FlashOff

  /** The hands the detector found in one frame (none and an empty list alike give `[]`). */
  type Frame = seq<Landmarks>

  /** The gesture-to-command table; `FlashOff` has no gesture. */
  function CommandFor(g: Option<Gesture>): (c: Option<Command>)
    ensures c.None? <==> g.None?
    ensures c != Some(FlashOff)
  {
    match g
    case None => None
    case Some(Fist) => Some(ZoomIn)
    case Some(Palm) => Some(ZoomOut)
    case Some(Screenshot) => Some(TakeScreenshot)
    case Some(Flash) => Some(FlashOn)
  }

  /** Distinct gestures fire distinct commands. */
  lemma CommandForInjective(g1: Option<Gesture>, g2: Option<Gesture>)
    ensures CommandFor(g1) == CommandFor(g2) ==> g1 == g2
  {}

  /** The commands one hand fires: at most one, and one exactly when a gesture is detected. */
  function HandLog(h: Landmarks): (r: seq<Command>)
    ensures |r| <= 1
    ensures |r| == 1 <==> Detect(Some(h)).Some?
    ensures r != [] ==> Some(r[0]) == CommandFor(Detect(Some(h)))
  {
    match CommandFor(Detect(Some(h)))
    case None => []
    case Some(c) => [c]
  }

  /** The commands of one frame, hand by hand. */
  function FrameLog(frame: Frame): seq<Command> {
    if frame == [] then [] else HandLog(frame[0]) + FrameLog(frame[1..])
  }

  /** The commands of a run, frame by frame. */
  function Log(frames: seq<Frame>): seq<Command> {
    if frames == [] then [] else FrameLog(frames[0]) + Log(frames[1..])
  }

  /** The number of hands in a frame with a detected gesture. */
  function DetectedInFrame(frame: Frame): nat {
    if frame == [] then 0
    else (if Detect(Some(frame[0])).Some? then 1 else 0) + DetectedInFrame(frame[1..])
  }

  /** The number of hands over a run with a detected gesture. */
  function DetectedInRun(frames: seq<Frame>): nat {
    if frames == [] then 0 else DetectedInFrame(frames[0]) + DetectedInRun(frames[1..])
  }

  /** The number of hands over a run labelled `g`. */
  function LabelledInRun(frames: seq<Frame>, g: Gesture): nat {
    if frames == [] then 0
    else LabelledInFrame(frames[0], g) + LabelledInRun(frames[1..], g)
  }

  /** The number of hands in a frame labelled `g`. */
  function LabelledInFrame(frame: Frame, g: Gesture): nat {
    if frame == [] then 0
    else (if Detect(Some(frame[0])) == Some(g) then 1 else 0) + LabelledInFrame(frame[1..], g)
  }

  /** Regrouping a concatenation: the step `Run`'s inner invariant needs after each hand. */
  lemma Associative<T>(a: seq<T>, b: seq<T>, c: seq<T>)
    ensures (a + b) + c == a + (b + c)
  {}

  /**
   * The frame loop: an outer loop over the frames and an inner loop over the
   * hands of each, with the `if`/`elif` dispatch on the detected label.
   */
  method Run(frames: seq<Frame>) returns (log: seq<Command>)
    ensures log == Log(frames)
  {
    log := [];
    var i := 0;
    while i < |frames|
      invariant 0 <= i <= |frames|
      invariant Log(frames) == log + Log(frames[i..])
    {
      var hands := frames[i];
      assert frames[i..][1..] == frames[i + 1..] && hands[0..] == hands;
      assert Log(frames[i..]) == FrameLog(hands) + Log(frames[i + 1..]);
      for j := 0 to |hands|
        invariant Log(frames) == log + FrameLog(hands[j..]) + Log(frames[i + 1..])
      {
        assert hands[j..][1..] == hands[j + 1..];
        assert FrameLog(hands[j..]) == HandLog(hands[j]) + FrameLog(hands[j + 1..]);
        ghost var before := log;
        var gesture := Detect(Some(hands[j]));
        if gesture == Some(Fist) {
          log := log + [ZoomIn];
        } else if gesture == Some(Palm) {
          log := log + [ZoomOut];
        } else if gesture == Some(Screenshot) {
          log := log + [TakeScreenshot];
        } else if gesture == Some(Flash) {
          log := log + [FlashOn];
        }
        assert log == before + HandLog(hands[j]);
        Associative(before, HandLog(hands[j]), FrameLog(hands[j + 1..]));
      }
      assert hands[|hands|..] == [] && log + [] == log;
      i := i + 1;
    }
  }

  /** One frame's commands never depend on the frames before it. */
  lemma {:induction false} LogAppend(a: seq<Frame>, b: seq<Frame>)
    ensures Log(a + b) == Log(a) + Log(b)
  {
    if a == [] {
      assert a + b == b;
    } else {
      assert (a + b)[1..] == a[1..] + b;
      LogAppend(a[1..], b);
    }
  }

  /** Each hand with a detected gesture fires one command, and no other hand fires. */
  lemma {:induction false} FrameLogLength(frame: Frame)
    ensures |FrameLog(frame)| == DetectedInFrame(frame)
  {
    if frame != [] {
      FrameLogLength(frame[1..]);
    }
  }

  lemma {:induction false} LogLength(frames: seq<Frame>)
    ensures |Log(frames)| == DetectedInRun(frames)
  {
    if frames != [] {
      FrameLogLength(frames[0]);
      LogLength(frames[1..]);
    }
  }

  lemma {:induction false} FrameLogCounts(frame: Frame, g: Gesture)
    ensures multiset(FrameLog(frame))[CommandFor(Some(g)).value] == LabelledInFrame(frame, g)
  {
    if frame != [] {
      FrameLogCounts(frame[1..], g);
      var r := HandLog(frame[0]);
      assert multiset(FrameLog(frame)) == multiset(r) + multiset(FrameLog(frame[1..]));
      CommandForInjective(Detect(Some(frame[0])), Some(g));
    }
  }

  /** Each command occurs in the log once for every hand labelled with its gesture. */
  lemma {:induction false} LogCounts(frames: seq<Frame>, g: Gesture)
    ensures multiset(Log(frames))[CommandFor(Some(g)).value] == LabelledInRun(frames, g)
  {
    if frames != [] {
      FrameLogCounts(frames[0], g);
      LogCounts(frames[1..], g);
      assert multiset(Log(frames)) == multiset(FrameLog(frames[0])) + multiset(Log(frames[1..]));
    }
  }

  lemma {:induction false} FrameLogNoFlashOff(frame: Frame)
    ensures FlashOff !in FrameLog(frame)
  {
    if frame != [] {
      FrameLogNoFlashOff(frame[1..]);
    }
  }

  /** The flashlight is never turned off: no gesture maps to that command. */
  lemma {:induction false} LogNoFlashOff(frames: seq<Frame>)
    ensures FlashOff !in Log(frames)
  {
    if frames != [] {
      FrameLogNoFlashOff(frames[0]);
      LogNoFlashOff(frames[1..]);
    }
  }

  /** `n` copies of `x`. */
  function Repeat<T>(x: T, n: nat): seq<T> {
    if n == 0 then [] else [x] + Repeat(x, n - 1)
  }

  /** No debouncing: a gesture held by one hand for `n` frames fires its command `n` times. */
  lemma {:induction false} HeldGestureFiresEveryFrame(h: Landmarks, n: nat)
    requires Detect(Some(h)).Some?
    ensures Log(Repeat([h], n)) == Repeat(CommandFor(Detect(Some(h))).value, n)
  {
    if n > 0 {
      HeldGestureFiresEveryFrame(h, n - 1);
      assert FrameLog([h]) == HandLog(h);
    }
  }

  /** A fist held for two frames then released zooms in twice. */
  lemma FistFistNone()
    ensures Log([[Landmarks(0.6, 0.5, 0.3, 0.35)], [Landmarks(0.6, 0.5, 0.3, 0.35)],
                 [Landmarks(0.6, 0.5, 0.6, 0.8)]]) == [ZoomIn, ZoomIn]
  {}
}

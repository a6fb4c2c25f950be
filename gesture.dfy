/**
 * The per-hand gesture decision of the controller: four vertical landmark
 * coordinates in, at most one gesture label out. Image coordinates grow
 * downwards, so "a < b" means that point a is higher on the screen than b.
 */
module HandGesture {
  import opened Wrappers

  /** The vertical coordinates of the four landmarks the detector reads. */
  datatype Landmarks = Landmarks(thumbTip: real, wrist: real, indexTip: real, middleTip: real)

  /** The four labels the detector can return; "no gesture" is `None`. */
  datatype Gesture = Fist | Palm | Screenshot | Flash

  /** How close the index and middle tips must be for "two fingers together". */
  const Tolerance: real := 0.05

  function Abs(x: real): real {
    if x < 0.0 then -x else x
  }

  /** The index and middle tips lie strictly within the tolerance of each other. */
  predicate FingersTogether(h: Landmarks) {
    Abs(h.indexTip - h.middleTip) < Tolerance
  }

  /**
   * The detector: a first-match-wins chain of four guarded returns.
   * Its contract gives, for every outcome, the exact condition under which it
   * is returned, written as mutually exclusive closed-form conditions instead
   * of as a priority chain.
   */
  function Detect(hand: Option<Landmarks>): (r: Option<Gesture>)
    ensures hand.None? ==> r.None?
    ensures r == Some(Fist) <==>
      hand.Some? && hand.value.indexTip < hand.value.wrist
    ensures r == Some(Palm) <==>
      hand.Some? && hand.value.indexTip > hand.value.wrist && hand.value.thumbTip < hand.value.wrist
    ensures r == Some(Screenshot) <==>
      hand.Some? && hand.value.indexTip >= hand.value.wrist
      && !(hand.value.indexTip > hand.value.wrist && hand.value.thumbTip < hand.value.wrist)
      && FingersTogether(hand.value)
    ensures r == Some(Flash) <==>
      hand.Some? && hand.value.indexTip == hand.value.wrist && hand.value.thumbTip < hand.value.wrist
      && !FingersTogether(hand.value)
    ensures r.None? <==>
      hand.None? || (hand.value.indexTip >= hand.value.wrist && hand.value.thumbTip >= hand.value.wrist
                     && !FingersTogether(hand.value))
  {
    match hand
    case None => None
    case Some(h) =>
      if h.indexTip < h.wrist then Some(Fist)
      else if h.indexTip > h.wrist && h.thumbTip < h.wrist then Some(Palm)
      else if FingersTogether(h) then Some(Screenshot)
      else if h.thumbTip < h.wrist then Some(Flash)
      else None
  }

  /** Rule 1 wins over everything: a raised index tip is a fist whatever the thumb and middle finger do. */
  lemma FistWins(h: Landmarks)
    requires h.indexTip < h.wrist
    ensures Detect(Some(h)) == Some(Fist)
  {}

  /** Rule 2 wins over rules 3 and 4: a palm is reported even when the fingers are together. */
  lemma PalmBeatsScreenshotAndFlash(h: Landmarks)
    requires h.indexTip > h.wrist && h.thumbTip < h.wrist
    ensures Detect(Some(h)) == Some(Palm)
  {}

  /** Rule 3 wins over rule 4: fingers together with the thumb up is a screenshot, not a flash. */
  lemma ScreenshotBeatsFlash(h: Landmarks)
    requires h.indexTip == h.wrist && h.thumbTip < h.wrist && FingersTogether(h)
    ensures Detect(Some(h)) == Some(Screenshot)
  {}

  /** The tolerance is strict: a difference of exactly 0.05 is never a screenshot. */
  lemma ToleranceIsStrict(h: Landmarks)
    requires Abs(h.indexTip - h.middleTip) == Tolerance
    ensures Detect(Some(h)) != Some(Screenshot)
  {}

  /**
   * The flash rule only fires when the index tip is exactly level with the
   * wrist: an index tip below the wrist with the thumb above it is a palm.
   */
  lemma FlashNeedsLevelIndex(h: Landmarks)
    requires h.indexTip != h.wrist
    ensures Detect(Some(h)) != Some(Flash)
    ensures h.indexTip > h.wrist && h.thumbTip < h.wrist ==> Detect(Some(h)) == Some(Palm)
  {}

  /** Every label, and "no gesture", is returned for some hand. */
  lemma EveryOutcomeReachable(g: Option<Gesture>)
    ensures exists h :: Detect(Some(h)) == g
  {
    match g
    case None =>
      assert Detect(Some(Landmarks(0.6, 0.5, 0.6, 0.8))) == None;
    case Some(Fist) =>
      assert Detect(Some(Landmarks(0.6, 0.5, 0.3, 0.35))) == Some(Fist);
    case Some(Palm) =>
      assert Detect(Some(Landmarks(0.4, 0.5, 0.6, 0.6))) == Some(Palm);
    case Some(Screenshot) =>
      assert Detect(Some(Landmarks(0.55, 0.5, 0.52, 0.5))) == Some(Screenshot);
    case Some(Flash) =>
      assert Detect(Some(Landmarks(0.4, 0.5, 0.5, 0.7))) == Some(Flash);
  }

  /** Worked examples, with the wrist at 0.5. */
  lemma Examples()
    // index 0.3 is above the wrist
    ensures Detect(Some(Landmarks(0.6, 0.5, 0.3, 0.35))) == Some(Fist)
    // index 0.6 below the wrist, thumb 0.4 above it
    ensures Detect(Some(Landmarks(0.4, 0.5, 0.6, 0.6))) == Some(Palm)
    // rules 1 and 2 fail, |0.52 - 0.50| < 0.05
    ensures Detect(Some(Landmarks(0.55, 0.5, 0.52, 0.5))) == Some(Screenshot)
    // index level with the wrist, thumb above it, middle tip 0.2 away
    ensures Detect(Some(Landmarks(0.4, 0.5, 0.5, 0.7))) == Some(Flash)
    // the screenshot hand with the thumb above the wrist and the middle tip at 0.70 is a palm,
    // because the index tip is below the wrist
    ensures Detect(Some(Landmarks(0.45, 0.5, 0.52, 0.7))) == Some(Palm)
    // at exactly 0.05 apart there is no screenshot; 0.049 apart there is
    ensures Detect(Some(Landmarks(0.6, 0.5, 0.5, 0.55))) == None
    ensures Detect(Some(Landmarks(0.6, 0.5, 0.5, 0.549))) == Some(Screenshot)
  {}
}

/**
  The gesture classifier of the desktop game: from one landmark snapshot
  (or none) to a gesture state plus the target point, pointing direction
  and palm centre in pixel coordinates. Stateless: a pure function of its
  input.
 */
module Gestures {
  import opened Hand
  import opened Wrappers
  import opened Numeric

  /** Index and middle fingertips closer than this many pixels are "together". */
  const FINGER_DISTANCE_THRESHOLD: int := 55

  datatype Gesture = NoGesture | Pointing | Open | Gather

  datatype Pixel = Pixel(x: int, y: int)

  datatype Analysis = Analysis(state: Gesture, target: Option<Pixel>, direction: Option<Pixel>, palm: Option<Pixel>)

  const NoHand: Analysis := Analysis(NoGesture, None, None, None)

  /** Normalised coordinate to pixel, truncating like `int(...)`. */
  function ToPixel(p: Point, width: int, height: int): Pixel {
    Pixel(Trunc(p.x * width as real), Trunc(p.y * height as real))
  }

  /**
    The fingertip distance test. Comparing squared integer distances is
    the same as comparing the Euclidean distance, without a square root.
   */
  predicate FingersClose(a: Pixel, b: Pixel) {
    var dx := a.x - b.x;
    var dy := a.y - b.y;
    dx * dx + dy * dy < FINGER_DISTANCE_THRESHOLD * FINGER_DISTANCE_THRESHOLD
  }

  /** Integer midpoint with floor division; it lies between the two points. */
  function Midpoint(a: Pixel, b: Pixel): (r: Pixel)
    ensures Min(a.x, b.x) <= r.x <= Max(a.x, b.x)
    ensures Min(a.y, b.y) <= r.y <= Max(a.y, b.y)
    ensures a == b ==> r == a
  {
    Pixel((a.x + b.x) / 2, (a.y + b.y) / 2)
  }

  /**
    The decision rule, evaluated top-down: the index+middle pair held
    together with ring and pinky folded is pointing; otherwise three or
    more extended fingers is open, at most one is gather, and anything
    else is no gesture.
   */
  function Classify(close: bool, index: bool, middle: bool, ring: bool, pinky: bool): (g: Gesture)
    ensures g == Pointing <==> close && index && middle && !ring && !pinky
    ensures g == Open <==> B2I(index) + B2I(middle) + B2I(ring) + B2I(pinky) >= 3
    ensures g == Gather <==> B2I(index) + B2I(middle) + B2I(ring) + B2I(pinky) <= 1
  {
    var count := B2I(index) + B2I(middle) + B2I(ring) + B2I(pinky);
    if close && index && middle && !ring && !pinky then Pointing
    else if count >= 3 then Open
    else if count <= 1 then Gather
    else NoGesture
  }

  /**
    A reference rule that looks at the finger count first. It agrees with
    `Classify` everywhere: the pointing pattern has exactly two extended
    fingers, so the priority of pointing never overrides a count rule.
   */
  function ClassifyByCount(close: bool, index: bool, middle: bool, ring: bool, pinky: bool): Gesture {
    var count := B2I(index) + B2I(middle) + B2I(ring) + B2I(pinky);
    if count >= 3 then Open
    else if count <= 1 then Gather
    else if close && index && middle then Pointing
    else NoGesture
  }

  lemma PriorityOrderIrrelevant(close: bool, index: bool, middle: bool, ring: bool, pinky: bool)
    ensures Classify(close, index, middle, ring, pinky) == ClassifyByCount(close, index, middle, ring, pinky)
  {
  }

  /**
    The classifier proper. Without a hand everything is empty. With a
    hand, the state follows `Classify` on the extension flags and the
    fingertip distance; a target and palm centre are always reported, and
    a direction exactly for pointing and gather.
   */
  function Analyze(hand: Option<Landmarks>, width: int, height: int): (r: Analysis)
    ensures hand.None? ==> r == NoHand
    ensures hand.Some? ==> r.target.Some? && r.palm.Some?
    ensures hand.Some? ==> (r.direction.Some? <==> r.state == Pointing || r.state == Gather)
    ensures hand.Some? ==>
      var lm := hand.value;
      var it := ToPixel(lm[INDEX_TIP], width, height);
      var mt := ToPixel(lm[MIDDLE_TIP], width, height);
      && r.state == Classify(FingersClose(it, mt), Extended(lm, Index), Extended(lm, Middle),
                             Extended(lm, Ring), Extended(lm, Pinky))
      && Min(it.x, mt.x) <= r.target.value.x <= Max(it.x, mt.x)
      && Min(it.y, mt.y) <= r.target.value.y <= Max(it.y, mt.y)
  {
    match hand
    case None => NoHand
    case Some(lm) =>
      var indexTip := ToPixel(lm[INDEX_TIP], width, height);
      var middleTip := ToPixel(lm[MIDDLE_TIP], width, height);
      var indexMcp := ToPixel(lm[INDEX_MCP], width, height);
      var middleMcp := ToPixel(lm[MIDDLE_MCP], width, height);
      var palm := Pixel(
        Trunc((lm[INDEX_MCP].x + lm[MIDDLE_MCP].x + lm[RING_MCP].x + lm[PINKY_MCP].x + lm[WRIST].x) / 5.0 * width as real),
        Trunc((lm[INDEX_MCP].y + lm[MIDDLE_MCP].y + lm[RING_MCP].y + lm[PINKY_MCP].y + lm[WRIST].y) / 5.0 * height as real));
      var target := Midpoint(indexTip, middleTip);
      var mcpMid := Midpoint(indexMcp, middleMcp);
      var direction := Pixel(target.x - mcpMid.x, target.y - mcpMid.y);
      var state := Classify(FingersClose(indexTip, middleTip), Extended(lm, Index), Extended(lm, Middle),
                            Extended(lm, Ring), Extended(lm, Pinky));
      match state
      case Pointing => Analysis(Pointing, Some(target), Some(direction), Some(palm))
      case Open => Analysis(Open, Some(target), None, Some(palm))
      case Gather => Analysis(Gather, Some(target), Some(direction), Some(palm))
      case NoGesture => Analysis(NoGesture, Some(target), None, Some(palm))
  }

  /**
    Pointing is stable: a snapshot with the two fingertips together and
    only index and middle extended is classified as pointing, whatever
    the other landmarks are.
   */
  lemma PointingSnapshot(lm: Landmarks, width: int, height: int)
    requires FingersClose(ToPixel(lm[INDEX_TIP], width, height), ToPixel(lm[MIDDLE_TIP], width, height))
    requires Extended(lm, Index) && Extended(lm, Middle) && !Extended(lm, Ring) && !Extended(lm, Pinky)
    ensures Analyze(Some(lm), width, height).state == Pointing
    ensures Analyze(Some(lm), width, height).direction.Some?
  {
  }
}

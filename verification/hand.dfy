/**
  One snapshot of hand-tracking output: 21 landmarks in normalised
  image coordinates (y grows downwards), indexed as the tracking
  service numbers them. A finger counts as extended when its tip is
  above (smaller y than) its PIP joint.
 */
module Hand {

  datatype Point = Point(x: real, y: real)

  const LANDMARK_COUNT: nat := 21

  type Landmarks = s: seq<Point> | |s| == LANDMARK_COUNT
    witness seq(LANDMARK_COUNT, _ => Point(0.0, 0.0))

  const WRIST: nat := 0
  const INDEX_MCP: nat := 5
  const INDEX_PIP: nat := 6
  const INDEX_TIP: nat := 8
  const MIDDLE_MCP: nat := 9
  const MIDDLE_PIP: nat := 10
  const MIDDLE_TIP: nat := 12
  const RING_MCP: nat := 13
  const RING_PIP: nat := 14
  const RING_TIP: nat := 16
  const PINKY_MCP: nat := 17
  const PINKY_PIP: nat := 18
  const PINKY_TIP: nat := 20

  /** The four fingers whose extension the gesture rules look at. */
  datatype Finger = Index | Middle | Ring | Pinky

  function Tip(f: Finger): (i: nat)
    ensures i < LANDMARK_COUNT
  {
    match f
    case Index => INDEX_TIP
    case Middle => MIDDLE_TIP
    case Ring => RING_TIP
    case Pinky => PINKY_TIP
  }

  /** The PIP joint sits two landmarks below the tip on every finger. */
  function Pip(f: Finger): (i: nat)
    ensures i < LANDMARK_COUNT && i + 2 == Tip(f)
  {
    match f
    case Index => INDEX_PIP
    case Middle => MIDDLE_PIP
    case Ring => RING_PIP
    case Pinky => PINKY_PIP
  }

  predicate Extended(lm: Landmarks, f: Finger) {
    lm[Tip(f)].y < lm[Pip(f)].y
  }

  function B2I(b: bool): nat { if b then 1 else 0 }

  /** The four fingertips, in landmark order. */
  const FINGERTIPS: seq<nat> := [INDEX_TIP, MIDDLE_TIP, RING_TIP, PINKY_TIP]

  /**
    Reference count straight from the landmark numbering: how many of the
    given tips lie above the landmark two before them.
   */
  function TipsAbove(lm: Landmarks, tips: seq<nat>): nat
    requires forall k :: 0 <= k < |tips| ==> 2 <= tips[k] < LANDMARK_COUNT
  {
    if |tips| == 0 then 0
    else B2I(lm[tips[0]].y < lm[tips[0] - 2].y) + TipsAbove(lm, tips[1..])
  }

  /** How many of index, middle, ring and pinky are extended. */
  function ExtendedCount(lm: Landmarks): (n: nat)
    ensures n <= 4
    ensures n == 4 <==> Extended(lm, Index) && Extended(lm, Middle) && Extended(lm, Ring) && Extended(lm, Pinky)
    ensures n == 0 <==> !Extended(lm, Index) && !Extended(lm, Middle) && !Extended(lm, Ring) && !Extended(lm, Pinky)
    ensures n == TipsAbove(lm, FINGERTIPS)
  {
    assert [PINKY_TIP][1..] == [];
    assert TipsAbove(lm, [PINKY_TIP]) == B2I(Extended(lm, Pinky));
    assert [RING_TIP, PINKY_TIP][1..] == [PINKY_TIP];
    assert TipsAbove(lm, [RING_TIP, PINKY_TIP]) == B2I(Extended(lm, Ring)) + B2I(Extended(lm, Pinky));
    assert [MIDDLE_TIP, RING_TIP, PINKY_TIP][1..] == [RING_TIP, PINKY_TIP];
    assert FINGERTIPS[1..] == [MIDDLE_TIP, RING_TIP, PINKY_TIP];
    B2I(Extended(lm, Index)) + B2I(Extended(lm, Middle)) + B2I(Extended(lm, Ring)) + B2I(Extended(lm, Pinky))
  }
}

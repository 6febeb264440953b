/**
 * The gesture pipeline of the hand-gesture controller: a swipe detector over a
 * short history of wrist positions, a rule-based classifier of one frame's hand
 * landmarks, and a "3 of the last 5" smoother over the classified poses.
 *
 * The hand detector is replaced by its output: either no hand, or the 21
 * landmarks of one hand. Timestamps are passed in explicitly. Coordinates are
 * exact reals, and the square root of the swipe test is replaced by a
 * comparison of squares (see DistanceAndSpeedTest).
 */
module GestureControl {
  import opened Optional

  /** The closed label vocabulary the controller emits. */
  datatype Gesture =
    | PointUp | PointDown | PointLeft | PointRight
    | ThumbsUp | ThumbsDown | Peace | Fist
    | SwipeUp | SwipeDown | SwipeLeft | SwipeRight
  {
    predicate IsSwipe() {
      SwipeUp? || SwipeDown? || SwipeLeft? || SwipeRight?
    }

    predicate IsPointing() {
      PointUp? || PointDown? || PointLeft? || PointRight?
    }

    /** Poses come from the static classifier; swipes from the motion test. */
    predicate IsPose() {
      !IsSwipe()
    }

    /** Labels that name a direction of the image plane. */
    predicate Directional() {
      IsSwipe() || IsPointing()
    }

    /** Unit vector of a directional label in image coordinates (y grows downwards). */
    function Heading(): (real, real)
      requires Directional()
    {
      if PointUp? || SwipeUp? then (0.0, -1.0)
      else if PointDown? || SwipeDown? then (0.0, 1.0)
      else if PointLeft? || SwipeLeft? then (-1.0, 0.0)
      else (1.0, 0.0)
    }
  }

  /** The string the controller hands to its consumer for each label. */
  function Name(g: Gesture): string {
    match g
    case PointUp => "point_up"
    case PointDown => "point_down"
    case PointLeft => "point_left"
    case PointRight => "point_right"
    case ThumbsUp => "thumbs_up"
    case ThumbsDown => "thumbs_down"
    case Peace => "peace"
    case Fist => "fist"
    case SwipeUp => "swipe_up"
    case SwipeDown => "swipe_down"
    case SwipeLeft => "swipe_left"
    case SwipeRight => "swipe_right"
  }

  // ---------------------------------------------------------------------------
  // Constants

  const PositionCapacity: nat := 10
  const GestureCapacity: nat := 5
  const ConfidenceThreshold: nat := 3

  const SwipeThreshold: real := 0.05
  const SwipeSpeedThreshold: real := 0.02
  const SwipeCooldown: real := 0.3
  const SwipeDominance: real := 1.5

  const Tolerance: real := 0.02
  const PointThreshold: real := 0.08
  const PointDominance: real := 1.2
  const ThumbThreshold: real := 0.05

  // Landmark indices of the 21-point hand model
  const LandmarkCount: nat := 21
  const Wrist: nat := 0
  const ThumbMcp: nat := 2
  const ThumbIp: nat := 3
  const ThumbTip: nat := 4
  const IndexPip: nat := 6
  const IndexTip: nat := 8
  const MiddlePip: nat := 10
  const MiddleTip: nat := 12
  const RingPip: nat := 14
  const RingTip: nat := 16
  const PinkyPip: nat := 18
  const PinkyTip: nat := 20

  /** One landmark: normalised image x and y, relative depth z. */
  datatype Landmark = Landmark(x: real, y: real, z: real)

  /** One entry of the position history: the wrist position and when it was seen. */
  datatype Sample = Sample(x: real, y: real, time: real)

  function Abs(v: real): real {
    if v < 0.0 then -v else v
  }

  /** Component of (dx, dy) along the heading of a directional label. */
  function Along(g: Gesture, dx: real, dy: real): real
    requires g.Directional()
  {
    g.Heading().0 * dx + g.Heading().1 * dy
  }

  /** Component of (dx, dy) across the heading of a directional label. */
  function Across(g: Gesture, dx: real, dy: real): real
    requires g.Directional()
  {
    g.Heading().0 * dy - g.Heading().1 * dx
  }

  // ---------------------------------------------------------------------------
  // Bounded history (a deque with maxlen)

  /**
   * Appending to a deque with a maximum length: the result is the newest
   * `capacity` entries of the buffer followed by the new item, so once the
   * buffer is full the oldest entry is the one that goes.
   */
  function Append<T>(buf: seq<T>, item: T, capacity: nat): (r: seq<T>)
    requires 0 < capacity && |buf| <= capacity
    ensures |r| == if |buf| < capacity then |buf| + 1 else capacity
    ensures r == (buf + [item])[|buf| + 1 - |r|..]
    ensures r[|r| - 1] == item
  {
    if |buf| < capacity then buf + [item] else buf[1..] + [item]
  }

  // ---------------------------------------------------------------------------
  // Swipe detector

  /**
   * The motion test on the squared length `sq` of the displacement and the
   * elapsed time `dt`: too short, or too slow, where the speed of a motion
   * with no positive elapsed time counts as zero.
   */
  predicate ShortOrSlow(sq: real, dt: real) {
    || sq < SwipeThreshold * SwipeThreshold
    || (if dt > 0.0 then sq < (SwipeSpeedThreshold * dt) * (SwipeSpeedThreshold * dt)
        else 0.0 < SwipeSpeedThreshold)
  }

  /** The speed the source computes from a distance and an elapsed time. */
  function Speed(distance: real, dt: real): real {
    if dt > 0.0 then distance / dt else 0.0
  }

  lemma SmallerIffSquareSmaller(a: real, b: real)
    requires 0.0 <= a && 0.0 <= b
    ensures a < b <==> a * a < b * b
  {
    if a < b {
      assert a * (b - a) >= 0.0;
      assert b * (b - a) > 0.0;
    } else {
      assert b * (a - b) >= 0.0;
      assert a * (a - b) >= 0.0;
    }
  }

  lemma SmallerIffScaledSmaller(u: real, v: real, k: real)
    requires 0.0 < k
    ensures u < v <==> u * k < v * k
  {
    if u < v {
      assert (v - u) * k > 0.0;
    } else {
      assert (u - v) * k >= 0.0;
    }
  }

  /**
   * Comparing squares rejects exactly the motions that the distance test
   * (`distance < 0.05`) or the speed test (`speed < 0.02`) rejects, for the
   * non-negative `distance` whose square is dx*dx + dy*dy.
   */
  lemma DistanceAndSpeedTest(dx: real, dy: real, dt: real, distance: real)
    requires 0.0 <= distance && distance * distance == dx * dx + dy * dy
    ensures ShortOrSlow(dx * dx + dy * dy, dt)
        <==> distance < SwipeThreshold || Speed(distance, dt) < SwipeSpeedThreshold
  {
    SmallerIffSquareSmaller(distance, SwipeThreshold);
    if dt > 0.0 {
      var limit := SwipeSpeedThreshold * dt;
      SmallerIffSquareSmaller(distance, limit);
      assert distance / dt < SwipeSpeedThreshold <==> distance < limit by {
        assert (distance / dt) * dt == distance;
        SmallerIffScaledSmaller(distance / dt, SwipeSpeedThreshold, dt);
      }
    }
  }

  /**
   * The dominant-axis rule: vertical when |dy| > 1.5|dx| (up when dy < 0),
   * else horizontal when |dx| > 1.5|dy| (left when dx < 0), else too diagonal.
   * Equivalently: the swipe whose heading the motion follows with its along
   * component more than 1.5 times its across component.
   */
  function DominantSwipe(dx: real, dy: real): (r: Option<Gesture>)
    ensures r.Some? ==> r.value.IsSwipe()
  {
    if Abs(dy) > Abs(dx) * SwipeDominance then
      if dy < 0.0 then Some(SwipeUp) else Some(SwipeDown)
    else if Abs(dx) > Abs(dy) * SwipeDominance then
      if dx < 0.0 then Some(SwipeLeft) else Some(SwipeRight)
    else
      None
  }

  lemma DominantSwipeFollowsHeading(dx: real, dy: real, g: Gesture)
    ensures DominantSwipe(dx, dy) == Some(g)
        <==> g.IsSwipe() && Along(g, dx, dy) > SwipeDominance * Abs(Across(g, dx, dy))
  {
  }

  /**
   * The swipe test run before this tick's position is stored: the oldest
   * stored sample is compared with the current wrist position (x, y) at `now`.
   */
  function SwipeOf(history: seq<Sample>, lastSwipe: real, x: real, y: real, now: real): (r: Option<Gesture>)
    ensures |history| < 3 ==> r == None
    ensures now - lastSwipe < SwipeCooldown ==> r == None
    ensures r.Some? ==> r.value.IsSwipe()
  {
    if |history| < 3 then None
    else if now - lastSwipe < SwipeCooldown then None
    else
      var dx := x - history[0].x;
      var dy := y - history[0].y;
      var dt := now - history[0].time;
      if ShortOrSlow(dx * dx + dy * dy, dt) then None
      else DominantSwipe(dx, dy)
  }

  /**
   * Once armed (three stored samples, cooldown over), the test emits swipe g
   * exactly when the motion from the oldest sample is neither too short nor
   * too slow and follows g's heading with an along component more than 1.5
   * times its across component.
   */
  lemma SwipeOfMeaning(history: seq<Sample>, lastSwipe: real, x: real, y: real, now: real, g: Gesture)
    requires |history| >= 3 && now - lastSwipe >= SwipeCooldown
    ensures
      var dx, dy := x - history[0].x, y - history[0].y;
      SwipeOf(history, lastSwipe, x, y, now) == Some(g) <==>
        && !ShortOrSlow(dx * dx + dy * dy, now - history[0].time)
        && g.IsSwipe() && Along(g, dx, dy) > SwipeDominance * Abs(Across(g, dx, dy))
  {
    DominantSwipeFollowsHeading(x - history[0].x, y - history[0].y, g);
  }

  /**
   * A swipe needs at least three stored samples, an expired cooldown, a
   * positive elapsed time and a displacement of at least 0.05.
   */
  lemma SwipeNeedsMotion(history: seq<Sample>, lastSwipe: real, x: real, y: real, now: real)
    requires SwipeOf(history, lastSwipe, x, y, now).Some?
    ensures |history| >= 3 && now - lastSwipe >= SwipeCooldown && history[0].time < now
    ensures (x - history[0].x) * (x - history[0].x) + (y - history[0].y) * (y - history[0].y)
         >= SwipeThreshold * SwipeThreshold
  {
  }

  /**
   * The wrist moving from (0.5, 0.5) to (0.5, 0.35) in 0.2 s is a swipe up;
   * moving to (0.52, 0.48) instead is too short.
   */
  lemma SwipeScenarios()
    ensures
      var history := [Sample(0.5, 0.5, 10.0), Sample(0.5, 0.45, 10.05), Sample(0.5, 0.4, 10.1)];
      && SwipeOf(history, 0.0, 0.5, 0.35, 10.2) == Some(SwipeUp)
      && SwipeOf(history, 0.0, 0.52, 0.48, 10.2) == None
      && SwipeOf(history, 10.0, 0.5, 0.35, 10.2) == None
  {
  }

  // ---------------------------------------------------------------------------
  // Static pose classifier

  /** Which of the four long fingers are extended. */
  datatype Fingers = Fingers(index: bool, middle: bool, ring: bool, pinky: bool)

  const OnlyIndex := Fingers(true, false, false, false)
  const AllCurled := Fingers(false, false, false, false)

  /** A finger is extended when its tip is clearly above its middle joint. */
  predicate Extended(tip: Landmark, pip: Landmark) {
    tip.y < pip.y - Tolerance
  }

  function FingersOf(lm: seq<Landmark>): Fingers
    requires |lm| == LandmarkCount
  {
    Fingers(Extended(lm[IndexTip], lm[IndexPip]), Extended(lm[MiddleTip], lm[MiddlePip]),
            Extended(lm[RingTip], lm[RingPip]), Extended(lm[PinkyTip], lm[PinkyPip]))
  }

  /**
   * The thumb is splayed outwards: for a right hand (thumb base left of the
   * wrist) its tip lies right of its IP joint, for a left hand left of it.
   */
  predicate ThumbOut(lm: seq<Landmark>)
    requires |lm| == LandmarkCount
  {
    if lm[ThumbMcp].x < lm[Wrist].x then lm[ThumbTip].x > lm[ThumbIp].x + Tolerance
    else lm[ThumbTip].x < lm[ThumbIp].x - Tolerance
  }

  /** How far the thumb tip lies above its IP joint (negative when below). */
  function ThumbRise(lm: seq<Landmark>): real
    requires |lm| == LandmarkCount
  {
    lm[ThumbIp].y - lm[ThumbTip].y
  }

  /** Offset of the index tip from the wrist. */
  function IndexOffset(lm: seq<Landmark>): (real, real)
    requires |lm| == LandmarkCount
  {
    (lm[IndexTip].x - lm[Wrist].x, lm[IndexTip].y - lm[Wrist].y)
  }

  /**
   * What each label means, independently of the order in which the
   * classifier tries them: a pointing label when only the index finger is
   * extended and the index tip lies more than 0.08 from the wrist along the
   * label's heading, by a margin of 1.2 over the across component; a thumb
   * label when all four fingers are curled and the splayed thumb's tip is more
   * than 0.05 above (below) its joint; peace when index and middle alone are
   * extended; a fist when all four are curled and no thumb label applies.
   */
  predicate Shows(lm: seq<Landmark>, g: Gesture)
    requires |lm| == LandmarkCount
  {
    var f := FingersOf(lm);
    var (dx, dy) := IndexOffset(lm);
    var thumbUp := ThumbOut(lm) && ThumbRise(lm) > ThumbThreshold;
    var thumbDown := ThumbOut(lm) && -ThumbRise(lm) > ThumbThreshold;
    match g
    case PointUp | PointDown | PointLeft | PointRight =>
      && f == OnlyIndex
      && Along(g, dx, dy) > PointThreshold
      && Along(g, dx, dy) > PointDominance * Abs(Across(g, dx, dy))
    case ThumbsUp => f == AllCurled && thumbUp
    case ThumbsDown => f == AllCurled && thumbDown
    case Peace => f.index && f.middle && !f.ring && !f.pinky
    case Fist => f == AllCurled && !thumbUp && !thumbDown
    case SwipeUp | SwipeDown | SwipeLeft | SwipeRight => false
  }

  /** The pointing direction of the index-tip offset, tried up, down, left, right. */
  function PointingOf(dx: real, dy: real): (r: Option<Gesture>)
    ensures r.Some? ==> r.value.IsPointing()
  {
    if Abs(dy) > Abs(dx) * PointDominance && dy < -PointThreshold then Some(PointUp)
    else if Abs(dy) > Abs(dx) * PointDominance && dy > PointThreshold then Some(PointDown)
    else if Abs(dx) > Abs(dy) * PointDominance && dx < -PointThreshold then Some(PointLeft)
    else if Abs(dx) > Abs(dy) * PointDominance && dx > PointThreshold then Some(PointRight)
    else None
  }

  lemma PointingFollowsHeading(dx: real, dy: real, g: Gesture)
    ensures PointingOf(dx, dy) == Some(g) <==>
      && g.IsPointing()
      && Along(g, dx, dy) > PointThreshold
      && Along(g, dx, dy) > PointDominance * Abs(Across(g, dx, dy))
  {
  }

  /**
   * The ordered rule set: pointing, thumbs up, thumbs down, peace, fist.
   * It only ever yields poses.
   */
  function Classify(lm: seq<Landmark>): (r: Option<Gesture>)
    requires |lm| == LandmarkCount
    ensures r.Some? ==> r.value.IsPose()
  {
    var f := FingersOf(lm);
    var thumb := ThumbOut(lm);
    var pointing :=
      if f.index && !f.middle && !f.ring && !f.pinky then PointingOf(IndexOffset(lm).0, IndexOffset(lm).1)
      else None;
    if pointing.Some? then pointing
    else if thumb && ThumbRise(lm) > ThumbThreshold && !f.index && !f.middle && !f.ring && !f.pinky then
      Some(ThumbsUp)
    else if thumb && lm[ThumbTip].y - lm[ThumbIp].y > ThumbThreshold && !f.index && !f.middle && !f.ring && !f.pinky then
      Some(ThumbsDown)
    else if f.index && f.middle && !f.ring && !f.pinky then Some(Peace)
    else if !f.index && !f.middle && !f.ring && !f.pinky then Some(Fist)
    else None
  }

  /** The classifier yields exactly the label that Shows, and none when no label does. */
  lemma ClassifyMeansShows(lm: seq<Landmark>, g: Gesture)
    requires |lm| == LandmarkCount
    ensures Classify(lm) == Some(g) <==> Shows(lm, g)
  {
    PointingFollowsHeading(IndexOffset(lm).0, IndexOffset(lm).1, g);
  }

  /** The rule order only matters for fist against the thumb labels: at most one label Shows. */
  lemma AtMostOneLabelShows(lm: seq<Landmark>, a: Gesture, b: Gesture)
    requires |lm| == LandmarkCount
    requires Shows(lm, a) && Shows(lm, b)
    ensures a == b
  {
    ClassifyMeansShows(lm, a);
    ClassifyMeansShows(lm, b);
  }

  // ---------------------------------------------------------------------------
  // Temporal smoother

  /** How often label g occurs in the gesture history. */
  function Count(h: seq<Option<Gesture>>, g: Gesture): (n: nat)
    ensures n <= |h|
  {
    if h == [] then 0
    else Count(h[..|h| - 1], g) + (if h[|h| - 1] == Some(g) then 1 else 0)
  }

  /**
   * The labels of the history in the order they are first seen: the key
   * order of the tally dictionary, which keeps insertion order.
   */
  function FirstSeen(h: seq<Option<Gesture>>): (keys: seq<Gesture>)
    ensures forall g :: g in keys <==> Some(g) in h
  {
    if h == [] then []
    else
      var keys := FirstSeen(h[..|h| - 1]);
      assert h == h[..|h| - 1] + [h[|h| - 1]];
      if h[|h| - 1].Some? && h[|h| - 1].value !in keys then keys + [h[|h| - 1].value] else keys
  }

  /** The first key, in the given order, whose count reaches the threshold. */
  function FirstReaching(keys: seq<Gesture>, h: seq<Option<Gesture>>): (r: Option<Gesture>)
    ensures r.Some? ==> r.value in keys && Count(h, r.value) >= ConfidenceThreshold
    ensures r.None? ==> forall k :: k in keys ==> Count(h, k) < ConfidenceThreshold
  {
    if keys == [] then None
    else if Count(h, keys[0]) >= ConfidenceThreshold then Some(keys[0])
    else FirstReaching(keys[1..], h)
  }

  /** `dict.get(g, 0)` on a tally dictionary. */
  function CountOr0(counts: map<Gesture, nat>, g: Gesture): nat {
    if g in counts then counts[g] else 0
  }

  /** The tally dictionary the smoother builds, entry by entry, over a history. */
  function Tally(h: seq<Option<Gesture>>): map<Gesture, nat> {
    if h == [] then map[]
    else
      var counts := Tally(h[..|h| - 1]);
      var last := h[|h| - 1];
      if last.Some? then counts[last.value := CountOr0(counts, last.value) + 1] else counts
  }

  /** The tally holds every label of the history, with its count, and nothing else. */
  lemma {:induction false} TallyCounts(h: seq<Option<Gesture>>, g: Gesture)
    ensures CountOr0(Tally(h), g) == Count(h, g)
    ensures g in Tally(h) <==> g in FirstSeen(h)
  {
    if h != [] {
      TallyCounts(h[..|h| - 1], g);
      CountedIffOccurs(h[..|h| - 1], g);
    }
  }

  /** Extending a prefix of the history by one entry, for the tally loop. */
  lemma TallyStep(h: seq<Option<Gesture>>, i: nat)
    requires i < |h|
    ensures Tally(h[..i + 1]) ==
      if h[i].Some? then Tally(h[..i])[h[i].value := CountOr0(Tally(h[..i]), h[i].value) + 1] else Tally(h[..i])
    ensures FirstSeen(h[..i + 1]) ==
      if h[i].Some? && h[i].value !in FirstSeen(h[..i]) then FirstSeen(h[..i]) + [h[i].value]
      else FirstSeen(h[..i])
  {
    assert h[..i + 1][..i] == h[..i];
  }

  /** The smoothed gesture of a history: none below three entries, else the first label seen at least three times. */
  function Smoothed(h: seq<Option<Gesture>>): (r: Option<Gesture>)
    ensures |h| < ConfidenceThreshold ==> r == None
    ensures r.Some? ==> Some(r.value) in h && Count(h, r.value) >= ConfidenceThreshold
  {
    if |h| < ConfidenceThreshold then None else FirstReaching(FirstSeen(h), h)
  }

  /** Three of five wins; three different labels with one each do not. */
  lemma SmootherScenarios()
    ensures Smoothed([Some(PointUp), Some(PointUp), None, Some(PointUp), Some(Fist)]) == Some(PointUp)
    ensures Smoothed([Some(PointUp), Some(Fist), Some(PointLeft), None, Some(Peace)]) == None
    ensures Smoothed([Some(Fist), Some(Fist)]) == None
  {
    var agree := [Some(PointUp), Some(PointUp), None, Some(PointUp), Some(Fist)];
    CountIsMultiplicity(agree, PointUp);
    SmoothedIsMajority(agree, PointUp);
    var scattered := [Some(PointUp), Some(Fist), Some(PointLeft), None, Some(Peace)];
    forall g
      ensures Smoothed(scattered) != Some(g)
    {
      CountIsMultiplicity(scattered, g);
      SmoothedIsMajority(scattered, g);
    }
  }

  /** Two different labels together occur at most once per entry. */
  lemma {:induction false} CountsOfTwoLabels(h: seq<Option<Gesture>>, a: Gesture, b: Gesture)
    requires a != b
    ensures Count(h, a) + Count(h, b) <= |h|
  {
    if h != [] {
      CountsOfTwoLabels(h[..|h| - 1], a, b);
    }
  }

  /** In a window of at most five entries at most one label reaches three. */
  lemma MajorityIsUnique(h: seq<Option<Gesture>>, a: Gesture, b: Gesture)
    requires |h| <= GestureCapacity
    requires Count(h, a) >= ConfidenceThreshold && Count(h, b) >= ConfidenceThreshold
    ensures a == b
  {
    if a != b {
      CountsOfTwoLabels(h, a, b);
    }
  }

  lemma {:induction false} FirstReachingFindsMajority(keys: seq<Gesture>, h: seq<Option<Gesture>>, g: Gesture)
    requires |h| <= GestureCapacity
    requires g in keys && Count(h, g) >= ConfidenceThreshold
    ensures FirstReaching(keys, h) == Some(g)
  {
    if keys[0] != g {
      if Count(h, keys[0]) >= ConfidenceThreshold {
        MajorityIsUnique(h, keys[0], g);
      }
      FirstReachingFindsMajority(keys[1..], h, g);
    }
  }

  /**
   * On a history of at most five entries the smoother emits g exactly when
   * the history holds at least three entries and g occurs at least three
   * times among them: the dictionary's iteration order does not matter.
   */
  lemma SmoothedIsMajority(h: seq<Option<Gesture>>, g: Gesture)
    requires |h| <= GestureCapacity
    ensures Smoothed(h) == Some(g) <==> |h| >= ConfidenceThreshold && Count(h, g) >= ConfidenceThreshold
  {
    if |h| >= ConfidenceThreshold && Count(h, g) >= ConfidenceThreshold {
      assert Some(g) in h by { CountedIffOccurs(h, g); }
      FirstReachingFindsMajority(FirstSeen(h), h, g);
    }
  }

  /** A label is counted exactly when it occurs. */
  lemma {:induction false} CountedIffOccurs(h: seq<Option<Gesture>>, g: Gesture)
    ensures Count(h, g) > 0 <==> Some(g) in h
  {
    if h != [] {
      CountedIffOccurs(h[..|h| - 1], g);
      assert h == h[..|h| - 1] + [h[|h| - 1]];
    }
  }

  /** The count of a label is its multiplicity in the history. */
  lemma {:induction false} CountIsMultiplicity(h: seq<Option<Gesture>>, g: Gesture)
    ensures Count(h, g) == multiset(h)[Some(g)]
  {
    if h != [] {
      CountIsMultiplicity(h[..|h| - 1], g);
      assert h == h[..|h| - 1] + [h[|h| - 1]];
    }
  }

  /**
   * Reordering the entries of a window of at most five does not change the
   * smoothed gesture.
   */
  lemma SmoothedIgnoresOrder(h: seq<Option<Gesture>>, h': seq<Option<Gesture>>)
    requires |h| <= GestureCapacity
    requires multiset(h) == multiset(h')
    ensures Smoothed(h) == Smoothed(h')
  {
    assert |h| == |multiset(h)| == |h'|;
    forall g
      ensures Smoothed(h) == Some(g) <==> Smoothed(h') == Some(g)
    {
      CountIsMultiplicity(h, g);
      CountIsMultiplicity(h', g);
      SmoothedIsMajority(h, g);
      SmoothedIsMajority(h', g);
    }
  }

  // ---------------------------------------------------------------------------
  // The controller and its per-tick glue

  /** Every entry of a gesture history is a pose or none. */
  predicate PosesOnly(h: seq<Option<Gesture>>) {
    forall i :: 0 <= i < |h| && h[i].Some? ==> h[i].value.IsPose()
  }

  /** Appending a pose, or none, to a history of poses gives a history of poses. */
  lemma AppendKeepsPoses(h: seq<Option<Gesture>>, pose: Option<Gesture>, capacity: nat)
    requires 0 < capacity && |h| <= capacity
    requires PosesOnly(h) && (pose.Some? ==> pose.value.IsPose())
    ensures PosesOnly(Append(h, pose, capacity))
  {
    var r := Append(h, pose, capacity);
    forall i | 0 <= i < |r| && r[i].Some?
      ensures r[i].value.IsPose()
    {
      assert r[i] == (h + [pose])[i + |h| + 1 - |r|];
    }
  }

  class GestureController {
    const useSwipe: bool
    var positionHistory: seq<Sample>
    var lastSwipeTime: real
    var gestureHistory: seq<Option<Gesture>>

    /** Both histories stay within their capacities and hold poses only. */
    ghost predicate Valid()
      reads this
    {
      && |positionHistory| <= PositionCapacity
      && |gestureHistory| <= GestureCapacity
      && PosesOnly(gestureHistory)
    }

    constructor (useSwipe: bool)
      ensures Valid() && this.useSwipe == useSwipe
      ensures positionHistory == [] && gestureHistory == [] && lastSwipeTime == 0.0
    {
      this.useSwipe := useSwipe;
      positionHistory := [];
      gestureHistory := [];
      lastSwipeTime := 0.0;
    }

    /** The swipe test; a swipe restarts the cooldown, a rejection leaves it alone. */
    method DetectSwipe(x: real, y: real, now: real) returns (r: Option<Gesture>)
      modifies this`lastSwipeTime
      ensures r == SwipeOf(positionHistory, old(lastSwipeTime), x, y, now)
      ensures lastSwipeTime == if r.Some? then now else old(lastSwipeTime)
    {
      r := SwipeOf(positionHistory, lastSwipeTime, x, y, now);
      if r.Some? {
        lastSwipeTime := now;
      }
    }

    /**
     * The counting loop of the smoother: the tally dictionary of the labels
     * in `h`, and its keys in insertion order.
     */
    static method CountGestures(h: seq<Option<Gesture>>) returns (counts: map<Gesture, nat>, order: seq<Gesture>)
      ensures counts == Tally(h) && order == FirstSeen(h)
    {
      counts, order := map[], [];
      var i := 0;
      while i < |h|
        invariant 0 <= i <= |h|
        invariant counts == Tally(h[..i]) && order == FirstSeen(h[..i])
      {
        var entry := h[i];
        TallyStep(h, i);
        if entry.Some? {
          var g := entry.value;
          TallyCounts(h[..i], g);
          if g !in counts {
            order := order + [g];
          }
          counts := counts[g := CountOr0(counts, g) + 1];
        }
        i := i + 1;
      }
      assert h[..i] == h;
    }

    /** Returns the first label of the tally counted at least three times, none below three entries. */
    method SmoothedGesture() returns (r: Option<Gesture>)
      ensures r == Smoothed(gestureHistory)
    {
      if |gestureHistory| < ConfidenceThreshold {
        return None;
      }
      var counts, order := CountGestures(gestureHistory);
      var j := 0;
      while j < |order|
        invariant 0 <= j <= |order|
        invariant FirstReaching(order[j..], gestureHistory) == FirstReaching(order, gestureHistory)
      {
        TallyCounts(gestureHistory, order[j]);
        if counts[order[j]] >= ConfidenceThreshold {
          return Some(order[j]);
        }
        assert order[j..][1..] == order[j + 1..];
        j := j + 1;
      }
      return None;
    }

    /**
     * The path of a tick with a hand and no swipe: the wrist sample and the
     * classified pose (or none) are each appended once, and the smoothed
     * gesture of the new history is returned.
     */
    method TrackFrame(landmarks: seq<Landmark>, now: real) returns (r: Option<Gesture>)
      requires Valid() && |landmarks| == LandmarkCount
      modifies this`positionHistory, this`gestureHistory
      ensures Valid()
      ensures positionHistory ==
        Append(old(positionHistory), Sample(landmarks[Wrist].x, landmarks[Wrist].y, now), PositionCapacity)
      ensures gestureHistory == Append(old(gestureHistory), Classify(landmarks), GestureCapacity)
      ensures r == Smoothed(gestureHistory)
    {
      var wrist := landmarks[Wrist];
      positionHistory := Append(positionHistory, Sample(wrist.x, wrist.y, now), PositionCapacity);
      var pose := Classify(landmarks);
      AppendKeepsPoses(gestureHistory, pose, GestureCapacity);
      gestureHistory := Append(gestureHistory, pose, GestureCapacity);
      r := SmoothedGesture();
    }

    /**
     * One tick: no hand clears both histories; otherwise a swipe, when enabled
     * and detected, clears the gesture history and is emitted unsmoothed;
     * otherwise the wrist sample and the classified pose (or none) are each
     * appended once and the smoothed gesture is emitted.
     */
    method DetectGesture(hand: Option<seq<Landmark>>, now: real) returns (r: Option<Gesture>)
      requires Valid()
      requires hand.Some? ==> |hand.value| == LandmarkCount
      modifies this
      ensures Valid()
      ensures hand.None? ==>
        r == None && positionHistory == [] && gestureHistory == [] && lastSwipeTime == old(lastSwipeTime)
      ensures hand.Some? ==>
        var wrist := hand.value[Wrist];
        var swipe := if useSwipe then SwipeOf(old(positionHistory), old(lastSwipeTime), wrist.x, wrist.y, now) else None;
        if swipe.Some? then
          && r == swipe
          && gestureHistory == []
          && positionHistory == old(positionHistory)
          && lastSwipeTime == now
        else
          && positionHistory == Append(old(positionHistory), Sample(wrist.x, wrist.y, now), PositionCapacity)
          && gestureHistory == Append(old(gestureHistory), Classify(hand.value), GestureCapacity)
          && lastSwipeTime == old(lastSwipeTime)
          && r == Smoothed(gestureHistory)
      ensures r.Some? && r.value.IsSwipe() ==> now - old(lastSwipeTime) >= SwipeCooldown && lastSwipeTime == now
      ensures r.Some? && r.value.IsPose() ==> Count(gestureHistory, r.value) >= ConfidenceThreshold
    {
      if hand.None? {
        positionHistory := [];
        gestureHistory := [];
        return None;
      }
      var landmarks := hand.value;
      var wrist := landmarks[Wrist];
      if useSwipe {
        var swipe := DetectSwipe(wrist.x, wrist.y, now);
        if swipe.Some? {
          gestureHistory := [];
          return swipe;
        }
      }
      r := TrackFrame(landmarks, now);
    }
  }
}

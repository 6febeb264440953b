/**
 * How the two halves meet: the game loop hands each label the gesture
 * controller emits, by name, to the game's gesture handler.
 */
module Controls {
  import opened GestureControl
  import opened SnakeGame

  /** The screen step of a direction, in the real coordinates of the gesture pipeline. */
  function StepOf(d: Direction): (real, real) {
    (d.Delta().0 as real, d.Delta().1 as real)
  }

  /**
   * Every label the controller can emit is one the game steers by. Pointing
   * and swipe labels steer the way they point on screen (the frame is
   * mirrored before detection, so image and screen directions agree);
   * thumbs up and peace steer up, thumbs down and fist steer down.
   */
  lemma EveryLabelSteers(g: Gesture)
    ensures Name(g) in GestureDirections
    ensures g.Directional() ==> StepOf(GestureDirections[Name(g)]) == g.Heading()
    ensures g == ThumbsUp || g == Peace ==> GestureDirections[Name(g)] == Up
    ensures g == ThumbsDown || g == Fist ==> GestureDirections[Name(g)] == Down
  {
  }

  /** No other string than the twelve labels steers the game. */
  lemma OnlyLabelsSteer(s: string)
    requires s in GestureDirections
    ensures exists g :: Name(g) == s
  {
    assert s in {Name(PointUp), Name(PointDown), Name(PointLeft), Name(PointRight),
                 Name(ThumbsUp), Name(ThumbsDown), Name(Peace), Name(Fist),
                 Name(SwipeUp), Name(SwipeDown), Name(SwipeLeft), Name(SwipeRight)};
  }
}

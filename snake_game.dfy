/**
 * The grid simulation of the snake game: the snake's body, its queued turn,
 * growth and collisions, the food, and the game's control state (score,
 * game over, pause) driven by gestures, keys and ticks.
 *
 * Drawing, fonts, the display and event polling are not modelled; keys are an
 * enumeration, and the random draws of food positions are passed in as a
 * sequence of cells.
 */
module SnakeGame {
  import opened Optional

  /** A cell of the screen grid, in pixels; y grows downwards. */
  type Cell = (int, int)

  datatype Direction = Up | Down | Left | Right {
    /** The enum's value: a unit step on the screen. */
    function Delta(): (int, int) {
      match this
      case Up => (0, -1)
      case Down => (0, 1)
      case Left => (-1, 0)
      case Right => (1, 0)
    }
  }

  /** The table of reverse directions: the opposite step, and never the direction itself. */
  function Opposite(d: Direction): (o: Direction)
    ensures o.Delta() == (-d.Delta().0, -d.Delta().1)
    ensures o != d
  {
    match d
    case Up => Down
    case Down => Up
    case Left => Right
    case Right => Left
  }

  /** Where the head lands: one block from `head` in direction d. */
  function Advance(head: Cell, d: Direction, blockSize: int): Cell {
    (head.0 + d.Delta().0 * blockSize, head.1 + d.Delta().1 * blockSize)
  }

  /** The queued direction after asking for `requested`: a reversal is ignored. */
  function Steer(queued: Direction, current: Direction, requested: Direction): (next: Direction)
    ensures next == requested || next == queued
    ensures queued != Opposite(current) ==> next != Opposite(current)
    ensures next == requested <==> requested != Opposite(current) || requested == queued
  {
    if requested != Opposite(current) then requested else queued
  }

  class Snake {
    var body: seq<Cell>
    var direction: Direction
    var nextDirection: Direction
    const blockSize: int
    var grow: bool

    /** The body is never empty and the queued direction never reverses the current one. */
    ghost predicate Valid()
      reads this
    {
      |body| >= 1 && nextDirection != Opposite(direction)
    }

    constructor (start: Cell, blockSize: int)
      ensures Valid()
      ensures body == [start] && direction == Right && nextDirection == Right && !grow
      ensures this.blockSize == blockSize
    {
      body := [start];
      direction := Right;
      nextDirection := Right;
      this.blockSize := blockSize;
      grow := false;
    }

    /**
     * Takes the queued direction and puts a new head one block ahead; the
     * tail is dropped unless a growth was pending, which is then used up.
     */
    method Move()
      requires Valid()
      modifies this
      ensures Valid()
      ensures direction == old(nextDirection) && nextDirection == old(nextDirection)
      ensures body[0] == Advance(old(body[0]), direction, blockSize)
      ensures body[1..] == if old(grow) then old(body) else old(body)[..|old(body)| - 1]
      ensures |body| == |old(body)| + if old(grow) then 1 else 0
      ensures !grow
    {
      direction := nextDirection;
      body := [Advance(body[0], direction, blockSize)] + body;
      if !grow {
        body := body[..|body| - 1];
      } else {
        grow := false;
      }
    }

    /** Queues a new direction unless it is the reverse of the current one. */
    method ChangeDirection(newDirection: Direction)
      requires Valid()
      modifies this`nextDirection
      ensures Valid()
      ensures nextDirection == Steer(old(nextDirection), direction, newDirection)
    {
      if newDirection != Opposite(direction) {
        nextDirection := newDirection;
      }
    }

    /** The head is off the grid, or on a cell the rest of the body occupies. */
    function CheckCollision(width: int, height: int): (collides: bool)
      reads this
      requires |body| >= 1
      ensures collides <==>
        || !(0 <= body[0].0 < width && 0 <= body[0].1 < height)
        || exists i :: 1 <= i < |body| && body[i] == body[0]
    {
      var head := body[0];
      if head.0 < 0 || head.0 >= width || head.1 < 0 || head.1 >= height then true
      else head in body[1..]
    }

    /** The head is on the food; eating makes the snake grow on its next move. */
    method EatFood(foodPos: Cell) returns (eaten: bool)
      requires Valid()
      modifies this`grow
      ensures Valid()
      ensures eaten == (body[0] == foodPos)
      ensures grow == (old(grow) || eaten)
    {
      if body[0] == foodPos {
        grow := true;
        return true;
      }
      return false;
    }
  }

  /**
   * The first of the random draws that misses the snake, if any. The
   * respawn loop keeps drawing until it finds one.
   */
  function FirstFree(draws: seq<Cell>, snakeBody: seq<Cell>): (r: Option<Cell>)
    ensures r.Some? ==> r.value in draws && r.value !in snakeBody
    ensures r.None? <==> forall i :: 0 <= i < |draws| ==> draws[i] in snakeBody
  {
    if draws == [] then None
    else if draws[0] !in snakeBody then Some(draws[0])
    else FirstFree(draws[1..], snakeBody)
  }

  /**
   * The food's position after the respawn loop has consumed `draws`: the
   * first free draw, or, when every draw hit the snake, the last one tried.
   */
  function Respawned(draws: seq<Cell>, snakeBody: seq<Cell>, current: Cell): Cell {
    match FirstFree(draws, snakeBody)
    case Some(c) => c
    case None => if draws == [] then current else draws[|draws| - 1]
  }

  class Food {
    const blockSize: int
    const width: int
    const height: int
    var position: Cell

    /** The random first position is the draw `first`. */
    constructor (blockSize: int, width: int, height: int, first: Cell)
      ensures this.blockSize == blockSize && this.width == width && this.height == height
      ensures position == first
    {
      this.blockSize := blockSize;
      this.width := width;
      this.height := height;
      position := first;
    }

    /** Draws positions until one misses the snake. */
    method Respawn(draws: seq<Cell>, snakeBody: seq<Cell>)
      modifies this`position
      ensures position == Respawned(draws, snakeBody, old(position))
      ensures FirstFree(draws, snakeBody).Some? ==> position !in snakeBody
    {
      var i := 0;
      while i < |draws|
        invariant 0 <= i <= |draws|
        invariant FirstFree(draws, snakeBody) == FirstFree(draws[i..], snakeBody)
        invariant position == if i == 0 then old(position) else draws[i - 1]
      {
        position := draws[i];
        if position !in snakeBody {
          return;
        }
        assert draws[i..][1..] == draws[i + 1..];
        i := i + 1;
      }
    }
  }

  /** The keys the game reacts to; every other key is OtherKey. */
  datatype Key = KeyR | KeyP | KeyUp | KeyDown | KeyLeft | KeyRight | KeyW | KeyS | KeyA | KeyD | OtherKey

  /** Arrow keys and WASD steer. */
  function KeyDirection(k: Key): (d: Option<Direction>)
    ensures d.None? <==> k in {KeyR, KeyP, OtherKey}
  {
    match k
    case KeyUp | KeyW => Some(Up)
    case KeyDown | KeyS => Some(Down)
    case KeyLeft | KeyA => Some(Left)
    case KeyRight | KeyD => Some(Right)
    case _ => None
  }

  /** The labels the game steers by. */
  const GestureDirections: map<string, Direction> := map[
    "swipe_up" := Up, "swipe_down" := Down, "swipe_left" := Left, "swipe_right" := Right,
    "point_up" := Up, "point_down" := Down, "point_left" := Left, "point_right" := Right,
    "thumbs_up" := Up, "thumbs_down" := Down, "peace" := Up, "fist" := Down]

  /** The largest multiple of the block size that does not exceed `size`. */
  function GridExtent(size: int, blockSize: int): (extent: int)
    requires blockSize > 0
    ensures extent % blockSize == 0
    ensures extent <= size < extent + blockSize
  {
    MultipleHasNoRemainder(size / blockSize, blockSize);
    (size / blockSize) * blockSize
  }

  lemma MultipleHasNoRemainder(q: int, b: int)
    requires b > 0
    ensures (q * b) % b == 0
  {
    var d, m := (q * b) / b, (q * b) % b;
    assert q * b == d * b + m && 0 <= m < b;
    assert (q - d) * b == m;
    ProductOfNonzero(q - d, b);
  }

  lemma ProductOfNonzero(k: int, b: int)
    requires b > 0
    ensures k >= 1 ==> k * b >= b
    ensures k <= -1 ==> k * b <= -b
  {
    if k >= 1 {
      assert (k - 1) * b >= 0;
    } else if k <= -1 {
      assert (-k - 1) * b >= 0;
    }
  }

  /** The start cell: the middle of the grid, rounded down. */
  function StartCell(gridWidth: int, gridHeight: int): (c: Cell)
    ensures 2 * c.0 <= gridWidth <= 2 * c.0 + 1 && 2 * c.1 <= gridHeight <= 2 * c.1 + 1
    ensures 0 < gridWidth ==> 0 <= c.0 < gridWidth
    ensures 0 < gridHeight ==> 0 <= c.1 < gridHeight
  {
    (gridWidth / 2, gridHeight / 2)
  }

  /** A move keeps the head's offset from the block lattice: the snake only ever visits cells congruent to its start. */
  lemma AdvanceKeepsLattice(head: Cell, d: Direction, blockSize: int)
    requires blockSize > 0
    ensures Advance(head, d, blockSize).0 % blockSize == head.0 % blockSize
    ensures Advance(head, d, blockSize).1 % blockSize == head.1 % blockSize
  {
    ShiftByBlock(head.0, d.Delta().0, blockSize);
    ShiftByBlock(head.1, d.Delta().1, blockSize);
  }

  lemma ShiftByBlock(x: int, k: int, b: int)
    requires b > 0 && -1 <= k <= 1
    ensures (x + k * b) % b == x % b
  {
    var q, m := x / b, x % b;
    assert x == q * b + m && 0 <= m < b;
    assert x + k * b == (q + k) * b + m;
    RemainderIsUnique(x + k * b, b, q + k, m);
  }

  lemma RemainderIsUnique(y: int, b: int, q: int, m: int)
    requires b > 0 && y == q * b + m && 0 <= m < b
    ensures y % b == m
  {
    var d, r := y / b, y % b;
    assert y == d * b + r && 0 <= r < b;
    assert (q - d) * b == r - m;
    ProductOfNonzero(q - d, b);
  }

  /**
   * With an odd number of cells across, the start cell is half a block off
   * the lattice that the food is drawn from: on a 620-pixel-wide window of
   * 20-pixel blocks the snake starts at x = 310.
   */
  lemma StartCellOffLattice()
    ensures GridExtent(620, 20) == 620
    ensures StartCell(GridExtent(620, 20), GridExtent(600, 20)) == (310, 300)
    ensures StartCell(GridExtent(620, 20), GridExtent(600, 20)).0 % 20 == 10
  {
  }

  /** The control state of one game. */
  class SnakeGame {
    const width: int
    const height: int
    const blockSize: int
    const gridWidth: int
    const gridHeight: int
    var snake: Snake
    var food: Food
    var score: int
    var gameOver: bool
    var paused: bool

    /**
     * The grid is the largest block multiple inside the window, the snake is
     * valid, and the score is 10 per food eaten: the snake's length plus a
     * pending growth is one more than score / 10.
     */
    ghost predicate Valid()
      reads this, snake
    {
      && blockSize > 0
      && gridWidth == GridExtent(width, blockSize)
      && gridHeight == GridExtent(height, blockSize)
      && snake.Valid()
      && snake.blockSize == blockSize
      && score >= 0 && score % 10 == 0
      && |snake.body| + (if snake.grow then 1 else 0) == 1 + score / 10
    }

    /** A new round: a one-cell snake at the start cell heading right, and food placed off it. */
    static method NewRound(gridWidth: int, gridHeight: int, blockSize: int, draws: seq<Cell>)
      returns (snake: Snake, food: Food)
      requires |draws| >= 1
      ensures fresh(snake) && fresh(food)
      ensures snake.Valid() && snake.blockSize == blockSize
      ensures snake.body == [StartCell(gridWidth, gridHeight)]
      ensures snake.direction == Right && snake.nextDirection == Right && !snake.grow
      ensures food.position == Respawned(draws[1..], snake.body, draws[0])
    {
      snake := new Snake(StartCell(gridWidth, gridHeight), blockSize);
      food := new Food(blockSize, gridWidth, gridHeight, draws[0]);
      food.Respawn(draws[1..], snake.body);
    }

    constructor (width: int, height: int, blockSize: int, draws: seq<Cell>)
      requires blockSize > 0 && |draws| >= 1
      ensures Valid() && fresh(snake) && fresh(food)
      ensures this.width == width && this.height == height && this.blockSize == blockSize
      ensures snake.body == [StartCell(gridWidth, gridHeight)]
      ensures snake.direction == Right && snake.nextDirection == Right && !snake.grow
      ensures food.position == Respawned(draws[1..], snake.body, draws[0])
      ensures score == 0 && !gameOver && !paused
    {
      this.width := width;
      this.height := height;
      this.blockSize := blockSize;
      var gw := (width / blockSize) * blockSize;
      var gh := (height / blockSize) * blockSize;
      gridWidth, gridHeight := gw, gh;
      // the reset_game call at the end of __init__
      var newSnake, newFood := NewRound(gw, gh, blockSize, draws);
      snake, food := newSnake, newFood;
      score, gameOver, paused := 0, false, false;
    }

    method ResetGame(draws: seq<Cell>)
      requires blockSize > 0 && gridWidth == GridExtent(width, blockSize) && gridHeight == GridExtent(height, blockSize)
      requires |draws| >= 1
      modifies this
      ensures Valid() && fresh(snake) && fresh(food)
      ensures snake.body == [StartCell(gridWidth, gridHeight)]
      ensures snake.direction == Right && snake.nextDirection == Right && !snake.grow
      ensures food.position == Respawned(draws[1..], snake.body, draws[0])
      ensures score == 0 && !gameOver && !paused
    {
      snake, food := NewRound(gridWidth, gridHeight, blockSize, draws);
      score := 0;
      gameOver := false;
      paused := false;
    }

    /** Steers by a gesture label unless the game is over or paused; unknown labels do nothing. */
    method HandleGesture(gesture: Option<string>)
      requires Valid()
      modifies snake`nextDirection
      ensures Valid()
      ensures
        if gameOver || paused || gesture.None? || gesture.value !in GestureDirections then
          snake.nextDirection == old(snake.nextDirection)
        else
          snake.nextDirection == Steer(old(snake.nextDirection), snake.direction, GestureDirections[gesture.value])
    {
      if gameOver || paused {
        return;
      }
      if gesture.Some? && gesture.value in GestureDirections {
        snake.ChangeDirection(GestureDirections[gesture.value]);
      }
    }

    /**
     * After the game is over only R does anything (a new round); otherwise P
     * toggles the pause, and while not paused the arrow keys and WASD steer.
     */
    method HandleKeyboard(key: Key, draws: seq<Cell>)
      requires Valid() && |draws| >= 1
      modifies this, snake
      ensures Valid()
      ensures old(gameOver) && key == KeyR ==>
        && fresh(snake) && fresh(food)
        && snake.body == [StartCell(gridWidth, gridHeight)]
        && snake.direction == Right && snake.nextDirection == Right && !snake.grow
        && food.position == Respawned(draws[1..], snake.body, draws[0])
        && score == 0 && !gameOver && !paused
      ensures old(gameOver) && key != KeyR ==>
        unchanged(this) && unchanged(snake)
      ensures !old(gameOver) ==>
        && snake == old(snake) && food == old(food)
        && score == old(score) && !gameOver
        && paused == (if key == KeyP then !old(paused) else old(paused))
        && unchanged(snake`body, snake`direction, snake`grow)
        && snake.nextDirection ==
             if key == KeyP || old(paused) || KeyDirection(key).None? then old(snake.nextDirection)
             else Steer(old(snake.nextDirection), snake.direction, KeyDirection(key).value)
    {
      if gameOver {
        if key == KeyR {
          ResetGame(draws);
        }
        return;
      }
      if key == KeyP {
        paused := !paused;
        return;
      }
      if paused {
        return;
      }
      var d := KeyDirection(key);
      if d.Some? {
        snake.ChangeDirection(d.value);
      }
    }

    /**
     * One tick, unless the game is over or paused: move the snake, score 10
     * and respawn the food when the new head is on it, and end the game when
     * the new head collides.
     */
    method Update(draws: seq<Cell>)
      requires Valid()
      modifies this, snake, food
      ensures Valid() && snake == old(snake) && food == old(food)
      ensures old(gameOver) || old(paused) ==>
        unchanged(this) && unchanged(snake) && unchanged(food)
      ensures !old(gameOver) && !old(paused) ==>
        var ate := snake.body[0] == old(food.position);
        && snake.direction == old(snake.nextDirection)
        && snake.nextDirection == old(snake.nextDirection)
        && snake.body[0] == Advance(old(snake.body[0]), snake.direction, blockSize)
        && snake.body[1..] == (if old(snake.grow) then old(snake.body) else old(snake.body)[..|old(snake.body)| - 1])
        && snake.grow == ate
        && score == old(score) + (if ate then 10 else 0)
        && food.position == (if ate then Respawned(draws, snake.body, old(food.position)) else old(food.position))
        && gameOver == snake.CheckCollision(gridWidth, gridHeight)
        && paused == old(paused)
    {
      if gameOver || paused {
        return;
      }
      snake.Move();
      var ate := snake.EatFood(food.position);
      if ate {
        score := score + 10;
        food.Respawn(draws, snake.body);
      }
      if snake.CheckCollision(gridWidth, gridHeight) {
        gameOver := true;
      }
    }
  }
}

/** The snake mini-game (Project/scr/code2_linaV38.py): a body of grid cells moving one
    segment per tick in one of four directions, growing and speeding up when the head reaches
    the food, and stopping when the head leaves the field or runs into the body. The canvas and
    the timer are left to the caller; the random food position is a parameter. */
module Snake {

  const WIDTH := 600
  const HEIGHT := 400
  const SEGMENT_SIZE := 20
  const INITIAL_SPEED := 150
  const MIN_SPEED := 50
  const SPEED_STEP := 5

  const UP := "Up"
  const DOWN := "Down"
  const LEFT := "Left"
  const RIGHT := "Right"

  type Cell = (int, int)

  const INITIAL_BODY: seq<Cell> := [(100, 100), (80, 100), (60, 100)]

  predicate IsDirection(d: string) {
    d == UP || d == DOWN || d == LEFT || d == RIGHT
  }

  function Opposite(d: string): string
    requires IsDirection(d)
  {
    if d == UP then DOWN else if d == DOWN then UP else if d == LEFT then RIGHT else LEFT
  }

  /** `on_key_press`: the key becomes the direction when it is one of the four and is not the
      reverse of the current one; any other key is ignored. */
  function Turn(current: string, key: string): (d: string)
    ensures IsDirection(current) ==> IsDirection(d)
    ensures IsDirection(key) ==> d == if current == Opposite(key) then current else key
    ensures !IsDirection(key) ==> d == current
  {
    if (key == UP && current != DOWN) || (key == DOWN && current != UP) ||
       (key == LEFT && current != RIGHT) || (key == RIGHT && current != LEFT)
    then key
    else current
  }

  /** One key press never turns the snake straight back. */
  lemma TurnNeverReverses(current: string, key: string)
    requires IsDirection(current)
    ensures Turn(current, key) != Opposite(current)
  {
  }

  /** Two presses between ticks can, though, whatever the direction: first a quarter turn,
      then the reverse of the original direction (Up then Left while moving right). */
  lemma TwoTurnsReverse(d: string)
    requires IsDirection(d)
    ensures exists k1, k2 :: Turn(Turn(d, k1), k2) == Opposite(d)
  {
    var k1 := if d == UP || d == DOWN then LEFT else UP;
    assert Turn(Turn(d, k1), Opposite(d)) == Opposite(d);
  }

  /** The cell one segment away from `head` in direction `d`. */
  function NextHead(head: Cell, d: string): (h: Cell)
    requires IsDirection(d)
    ensures Adjacent(h, head)
    ensures d == UP || d == DOWN ==> h.0 == head.0
    ensures d == LEFT || d == RIGHT ==> h.1 == head.1
    ensures d == DOWN || d == RIGHT <==> h.0 + h.1 > head.0 + head.1
  {
    if d == UP then (head.0, head.1 - SEGMENT_SIZE)
    else if d == DOWN then (head.0, head.1 + SEGMENT_SIZE)
    else if d == LEFT then (head.0 - SEGMENT_SIZE, head.1)
    else (head.0 + SEGMENT_SIZE, head.1)
  }

  /** Two cells one segment apart, horizontally or vertically. */
  predicate Adjacent(a: Cell, b: Cell) {
    (a.0 == b.0 && (a.1 - b.1 == SEGMENT_SIZE || b.1 - a.1 == SEGMENT_SIZE)) ||
    (a.1 == b.1 && (a.0 - b.0 == SEGMENT_SIZE || b.0 - a.0 == SEGMENT_SIZE))
  }

  /** A cell `create_events` can return: `randint(1, (size - 20) // 20) * 20` on each axis. */
  predicate FoodCell(c: Cell) {
    SEGMENT_SIZE <= c.0 <= (WIDTH - SEGMENT_SIZE) / SEGMENT_SIZE * SEGMENT_SIZE && c.0 % SEGMENT_SIZE == 0 &&
    SEGMENT_SIZE <= c.1 <= (HEIGHT - SEGMENT_SIZE) / SEGMENT_SIZE * SEGMENT_SIZE && c.1 % SEGMENT_SIZE == 0
  }

  /** Every segment sits on the 20-pixel grid the food is placed on. */
  predicate OnGrid(body: seq<Cell>) {
    forall i :: 0 <= i < |body| ==> body[i].0 % SEGMENT_SIZE == 0 && body[i].1 % SEGMENT_SIZE == 0
  }

  /** Each segment lies next to the one before it. */
  predicate Connected(body: seq<Cell>) {
    forall i :: 0 < i < |body| ==> Adjacent(body[i - 1], body[i])
  }

  /** The speed after eating `score` times: 5 ms faster per meal, never under 50 ms. */
  function SpeedFor(score: nat): int {
    if INITIAL_SPEED - SPEED_STEP * score > MIN_SPEED then INITIAL_SPEED - SPEED_STEP * score else MIN_SPEED
  }

  /** `max(50, GAME_SPEED - 5)` applied to the speed for a score gives the speed for the next
      score. */
  lemma SlowDownFollowsScore(score: nat)
    ensures (if SpeedFor(score) - SPEED_STEP > MIN_SPEED then SpeedFor(score) - SPEED_STEP else MIN_SPEED) ==
            SpeedFor(score + 1)
    ensures MIN_SPEED <= SpeedFor(score + 1) <= SpeedFor(score) <= INITIAL_SPEED
  {
  }

  /** `check_collisions()` on a body: the head outside the field, or (for a body longer than
      three) the head on a segment from the fourth on. */
  predicate Collides(body: seq<Cell>)
    requires body != []
  {
    var head := body[0];
    head.0 < 0 || head.0 >= WIDTH || head.1 < 0 || head.1 >= HEIGHT ||
    (|body| > 3 && head in body[3..])
  }

  /** The game's state at a tick. */
  datatype Snap = Snap(direction: string, score: int, player: seq<Cell>, events: Cell, speed: int)

  /** One tick of `move_player`, before the collision test: a new head in front; on the food
      the body keeps its tail, the score rises, new food appears and the game speeds up;
      otherwise the tail goes. */
  function Advance(s: Snap, nextFood: Cell): (r: Snap)
    requires IsDirection(s.direction) && s.player != []
    ensures r.direction == s.direction && r.player != []
    ensures r.player[0] == NextHead(s.player[0], s.direction) && Adjacent(r.player[0], s.player[0])
    ensures r.player[0] == s.events ==>
      r.player[1..] == s.player && r.score == s.score + 1 && r.events == nextFood &&
      r.speed == if s.speed - SPEED_STEP > MIN_SPEED then s.speed - SPEED_STEP else MIN_SPEED
    ensures r.player[0] != s.events ==>
      r.player[1..] == s.player[..|s.player| - 1] && r.score == s.score && r.events == s.events && r.speed == s.speed
  {
    var head := NextHead(s.player[0], s.direction);
    var body := [head] + s.player;
    if head == s.events then
      s.(score := s.score + 1, player := body, events := nextFood,
         speed := if s.speed - SPEED_STEP > MIN_SPEED then s.speed - SPEED_STEP else MIN_SPEED)
    else
      s.(player := body[..|body| - 1])
  }

  /** A tick keeps the body connected and on the grid. */
  lemma AdvanceKeepsShape(s: Snap, nextFood: Cell)
    requires IsDirection(s.direction) && s.player != [] && Connected(s.player) && OnGrid(s.player)
    ensures Connected(Advance(s, nextFood).player) && OnGrid(Advance(s, nextFood).player)
  {
    var r := Advance(s, nextFood);
    forall i | 0 < i < |r.player|
      ensures Adjacent(r.player[i - 1], r.player[i])
    {
      if i > 1 {
        assert r.player[i - 1] == s.player[i - 2] && r.player[i] == s.player[i - 1];
      }
    }
    forall i | 0 < i < |r.player|
      ensures r.player[i].0 % SEGMENT_SIZE == 0 && r.player[i].1 % SEGMENT_SIZE == 0
    {
      assert r.player[i] == s.player[i - 1];
    }
  }

  /** Food lies inside the field, so a head that reaches it is never out of bounds. */
  lemma EatingStaysInside(s: Snap, nextFood: Cell)
    requires IsDirection(s.direction) && s.player != [] && FoodCell(s.events)
    requires Advance(s, nextFood).player[0] == s.events
    ensures var head := Advance(s, nextFood).player[0];
      0 <= head.0 < WIDTH && 0 <= head.1 < HEIGHT
  {
  }

  /** A step that turns the head back onto the neck (possible after a double turn) puts the
      head on the segment at index 2, which the body test skips: it starts at index 3. For a
      three-segment snake inside the field no collision is reported at all. */
  lemma ReversalIsNotACollision(s: Snap, nextFood: Cell)
    requires IsDirection(s.direction) && |s.player| >= 3 && Connected(s.player)
    requires NextHead(s.player[0], s.direction) == s.player[1]
    ensures var r := Advance(s, nextFood);
      |r.player| >= 3 && r.player[0] == r.player[2]
    ensures |s.player| == 3 && 0 <= s.player[1].0 < WIDTH && 0 <= s.player[1].1 < HEIGHT ==>
      !Collides(Advance(s, nextFood).player)
  {
    var r := Advance(s, nextFood);
    assert r.player[2] == r.player[1..][1];
    if |s.player| == 3 && r.player[0] == s.events {
      assert r.player[3..] == [s.player[2]];
      assert Adjacent(s.player[1], s.player[2]);
    }
  }

  /** The double turn of `TwoTurnsReverse` from the initial body: its head lands on the neck
      with no collision. */
  lemma InitialReversalIsNotACollision(nextFood: Cell)
    ensures var s := Snap(LEFT, 0, INITIAL_BODY, (300, 300), INITIAL_SPEED);
      Advance(s, nextFood).player[0] == INITIAL_BODY[1] && !Collides(Advance(s, nextFood).player)
  {
    ReversalIsNotACollision(Snap(LEFT, 0, INITIAL_BODY, (300, 300), INITIAL_SPEED), nextFood);
  }

  class Game {
    var direction: string
    var score: int
    var player: seq<Cell>
    var events: Cell
    var gameSpeed: int

    function Snapshot(): Snap
      reads this
    {
      Snap(direction, score, player, events, gameSpeed)
    }

    /** The direction is one of four, the body is connected and one segment longer than three
        per point scored, and the speed is the one the score dictates. */
    ghost predicate Valid()
      reads this
    {
      IsDirection(direction) && score >= 0 && |player| == score + 3 && Connected(player) &&
      OnGrid(player) && FoodCell(events) && gameSpeed == SpeedFor(score)
    }

    /** `Game(root)` up to its first `move_player` call. */
    constructor (food: Cell)
      requires FoodCell(food)
      ensures Valid()
      ensures direction == RIGHT && score == 0 && player == INITIAL_BODY && events == food
      ensures gameSpeed == INITIAL_SPEED
    {
      direction := RIGHT;
      score := 0;
      player := INITIAL_BODY;
      events := food;
      gameSpeed := INITIAL_SPEED;
    }

    method OnKeyPress(key: string)
      requires Valid()
      modifies this`direction
      ensures Valid()
      ensures direction == Turn(old(direction), key)
    {
      if (key == UP && direction != DOWN) || (key == DOWN && direction != UP) ||
         (key == LEFT && direction != RIGHT) || (key == RIGHT && direction != LEFT) {
        direction := key;
      }
    }

    /** `check_collisions()`. */
    function CheckCollisions(): (hit: bool)
      reads this
      requires player != []
      ensures hit <==> (player[0].0 < 0 || player[0].0 >= WIDTH || player[0].1 < 0 || player[0].1 >= HEIGHT ||
                        exists i :: 3 <= i < |player| && player[i] == player[0])
    {
      assert |player| > 3 ==> forall c :: c in player[3..] <==> exists i :: 3 <= i < |player| && player[i] == c by {
        if |player| > 3 {
          forall c | c in player[3..]
            ensures exists i :: 3 <= i < |player| && player[i] == c
          {
            var j :| 0 <= j < |player[3..]| && player[3..][j] == c;
            assert player[j + 3] == c;
          }
          forall c | exists i :: 3 <= i < |player| && player[i] == c
            ensures c in player[3..]
          {
            var i :| 3 <= i < |player| && player[i] == c;
            assert player[3..][i - 3] == c;
          }
        }
      }
      Collides(player)
    }

    /** `move_player()`: one tick; the result says whether the game is over, in which case no
        further tick is scheduled. */
    method MovePlayer(nextFood: Cell) returns (gameOver: bool)
      requires Valid() && FoodCell(nextFood)
      modifies this
      ensures Valid()
      ensures Snapshot() == Advance(old(Snapshot()), nextFood)
      ensures gameOver == Collides(player)
    {
      var head := player[0];
      var newHead := NextHead(head, direction);
      ghost var before := Snapshot();
      player := [newHead] + player;
      if player[0] == events {
        score := score + 1;
        events := nextFood;
        SlowDownFollowsScore(score - 1);
        gameSpeed := if gameSpeed - SPEED_STEP > MIN_SPEED then gameSpeed - SPEED_STEP else MIN_SPEED;
      } else {
        player := player[..|player| - 1];
      }
      AdvanceKeepsShape(before, nextFood);
      gameOver := CheckCollisions();
    }

    /** `restart_game()` up to its `move_player` call: the initial state with new food. */
    method RestartGame(food: Cell)
      requires FoodCell(food)
      modifies this
      ensures Valid()
      ensures direction == RIGHT && score == 0 && player == INITIAL_BODY && events == food
      ensures gameSpeed == INITIAL_SPEED
    {
      direction := RIGHT;
      score := 0;
      player := INITIAL_BODY;
      events := food;
      gameSpeed := INITIAL_SPEED;
    }
  }
}

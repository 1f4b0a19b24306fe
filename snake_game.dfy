/**
 * The snake game: a snake of up to 112 segments on a 16 x 7 grid whose edges
 * wrap around, steered by the accelerometer, growing when it eats food that
 * is placed by rejection sampling with rand().
 *
 * The pure part states what one call does to the game as a value
 * (GameState); the class Game holds the state as the source does, in two
 * coordinate arrays and a length, and its methods are proved to do what the
 * pure functions say.  rand() is the sequence `draws` of the values it
 * returns, in call order.
 */
module SnakeGame {
  import opened LcdBitmap
  import opened LcdNokia

  const GridWidth: int := 16
  const GridHeight: int := 7
  /** Cell size in pixels. */
  const CellSize: int := 5
  /** First pixel row of the play area. */
  const GameAreaTop: int := 2 * CellSize
  const MaxSnakeLength: int := GridWidth * GridHeight

  datatype Option<T> = None | Some(value: T)

  datatype Direction = Up | Down | Left | Right

  datatype Cell = Cell(x: int, y: int)

  predicate InGrid(c: Cell)
  {
    0 <= c.x < GridWidth && 0 <= c.y < GridHeight
  }

  function Opposite(d: Direction): Direction
  {
    match d
    case Up => Down
    case Down => Up
    case Left => Right
    case Right => Left
  }

  // ---------------------------------------------------------------- steering

  /**
   * update_direction: the heading after reading the tilt (accX, accY).  A tilt
   * beyond 0.5 turns the snake that way unless that would reverse it; x is
   * looked at before y.
   */
  function NewHeading(dir: Direction, accX: real, accY: real): Direction
  {
    if accX > 0.5 && dir != Left then Right
    else if accX < -0.5 && dir != Right then Left
    else if accY > 0.5 && dir != Down then Up
    else if accY < -0.5 && dir != Up then Down
    else dir
  }

  /**
   * The snake never reverses; it keeps its heading when no tilt exceeds 0.5;
   * an allowed x tilt wins over any y tilt; and it only turns toward a tilt
   * that exceeds 0.5.
   */
  lemma NewHeadingRules(dir: Direction, accX: real, accY: real)
    ensures var r := NewHeading(dir, accX, accY);
      && r != Opposite(dir)
      && (-0.5 <= accX <= 0.5 && -0.5 <= accY <= 0.5 ==> r == dir)
      && (accX > 0.5 && dir != Left ==> r == Right)
      && (accX < -0.5 && dir != Right ==> r == Left)
      && (r != dir ==> (r == Right && accX > 0.5) || (r == Left && accX < -0.5)
                       || (r == Up && accY > 0.5) || (r == Down && accY < -0.5))
  {
  }

  // ---------------------------------------------------------------- movement

  function DeltaX(d: Direction): int
  {
    match d
    case Left => -1
    case Right => 1
    case _ => 0
  }

  function DeltaY(d: Direction): int
  {
    match d
    case Up => -1
    case Down => 1
    case _ => 0
  }

  /**
   * The head's next cell: one step in direction d, then the four edge checks
   * of update_game, which send a coordinate that left the grid to the other
   * edge.
   */
  function Advance(c: Cell, d: Direction): Cell
  {
    var x := c.x + DeltaX(d);
    var y := c.y + DeltaY(d);
    var x1 := if x < 0 then GridWidth - 1 else x;
    var x2 := if x1 >= GridWidth then 0 else x1;
    var y1 := if y < 0 then GridHeight - 1 else y;
    var y2 := if y1 >= GridHeight then 0 else y1;
    Cell(x2, y2)
  }

  /** From a cell of the grid the head moves exactly one step on the torus, and stays on the grid. */
  lemma AdvanceOnTorus(c: Cell, d: Direction)
    requires InGrid(c)
    ensures InGrid(Advance(c, d))
    ensures Advance(c, d) == Cell((c.x + DeltaX(d)) % GridWidth, (c.y + DeltaY(d)) % GridHeight)
  {
  }

  /** Every segment after the head takes the place of the one before it; the old tail cell is vacated. */
  function Moved(body: seq<Cell>, head: Cell): (r: seq<Cell>)
    requires |body| >= 1
  {
    [head] + body[..|body| - 1]
  }

  /** The new head runs into one of the other segments of the moved snake. */
  predicate Collides(body: seq<Cell>, head: Cell)
    requires |body| >= 1
  {
    head in body[..|body| - 1]
  }

  /**
   * Collides is the self-collision check of update_game: the moved body has
   * the new head first, then the old body without its tail, and the head
   * collides iff it equals one of the segments after it.
   */
  lemma CollidesMeaning(body: seq<Cell>, head: Cell)
    requires |body| >= 1
    ensures var m := Moved(body, head);
      && |m| == |body| && m[0] == head && m[1..] == body[..|body| - 1]
      && (Collides(body, head) <==> m[0] in m[1..])
  {
    var m := Moved(body, head);
    assert m[1..] == body[..|body| - 1];
  }

  /** Growth after eating: below the cap the snake gets one more segment, a copy of its last one. */
  function Grow(moved: seq<Cell>): seq<Cell>
    requires |moved| >= 1
  {
    if |moved| < MaxSnakeLength then moved + [moved[|moved| - 1]] else moved
  }

  // ---------------------------------------------------------------- food

  datatype FoodPick = FoodPick(food: Cell, used: nat)

  /**
   * place_food from the draw at index k on: each attempt takes the next two
   * draws as a cell and keeps it if it is off the snake.  None when the draws
   * run out first; the source then keeps calling rand() indefinitely.
   */
  function PickFrom(body: seq<Cell>, draws: seq<nat>, k: nat): Option<FoodPick>
    decreases |draws| - k
  {
    if k + 2 > |draws| then None
    else
      var c := Cell(draws[k] % GridWidth, draws[k + 1] % GridHeight);
      if c !in body then Some(FoodPick(c, k + 2)) else PickFrom(body, draws, k + 2)
  }

  /** The cell place_food chooses and the number of rand() values it takes. */
  function FoodChoice(body: seq<Cell>, draws: seq<nat>): Option<FoodPick>
  {
    PickFrom(body, draws, 0)
  }

  /** The cell tried by attempt number a (from 0). */
  function Attempt(draws: seq<nat>, a: nat): Cell
    requires 2 * a + 1 < |draws|
  {
    Cell(draws[2 * a] % GridWidth, draws[2 * a + 1] % GridHeight)
  }

  lemma {:induction false} PickFromFirstFree(body: seq<Cell>, draws: seq<nat>, k: nat)
    requires k % 2 == 0
    ensures match PickFrom(body, draws, k)
      case Some(p) =>
        && p.used % 2 == 0 && k + 2 <= p.used <= |draws|
        && p.food == Attempt(draws, p.used / 2 - 1)
        && InGrid(p.food) && p.food !in body
        && (forall a :: k / 2 <= a < p.used / 2 - 1 ==> Attempt(draws, a) in body)
      case None =>
        forall a :: k / 2 <= a && 2 * a + 1 < |draws| ==> Attempt(draws, a) in body
    decreases |draws| - k
  {
    if k + 2 <= |draws| {
      PickFromFirstFree(body, draws, k + 2);
      assert Attempt(draws, k / 2) == Cell(draws[k] % GridWidth, draws[k + 1] % GridHeight);
    }
  }

  /**
   * place_food settles on the first attempt that lands off the snake: its
   * cell is on the grid and off the snake, and every earlier attempt hit the
   * snake.  If it does not settle within the draws, every attempt hit the snake.
   */
  lemma FoodChoiceFirstFree(body: seq<Cell>, draws: seq<nat>)
    ensures match FoodChoice(body, draws)
      case Some(p) =>
        && p.used % 2 == 0 && 2 <= p.used <= |draws|
        && p.food == Attempt(draws, p.used / 2 - 1)
        && InGrid(p.food) && p.food !in body
        && (forall a :: 0 <= a < p.used / 2 - 1 ==> Attempt(draws, a) in body)
      case None =>
        forall a :: 0 <= a && 2 * a + 1 < |draws| ==> Attempt(draws, a) in body
  {
    PickFromFirstFree(body, draws, 0);
  }

  /**
   * A snake that covers every cell of the grid leaves place_food nothing to
   * pick, however many values rand() supplies: its loop never ends.
   */
  lemma FullBoardNoFood(body: seq<Cell>, draws: seq<nat>)
    requires forall c :: InGrid(c) ==> c in body
    ensures FoodChoice(body, draws).None?
  {
    PickFromFirstFree(body, draws, 0);
  }

  // ---------------------------------------------------------------- the step

  /** The variables of snake_game.c: the snake, its heading, the food, the score and the game-over flag. */
  datatype GameState = GameState(body: seq<Cell>, dir: Direction, food: Cell, score: int, gameOver: bool)

  /** What holds of the game between calls. */
  predicate Inv(g: GameState)
  {
    && 1 <= |g.body| <= MaxSnakeLength
    && (forall i :: 0 <= i < |g.body| ==> InGrid(g.body[i]))
    && InGrid(g.food)
    && g.food !in g.body
    && g.score >= 0
  }

  /** init_game's snake: three segments heading right from the middle of the grid. */
  function InitialBody(): seq<Cell>
  {
    [Cell(GridWidth / 2, GridHeight / 2), Cell(GridWidth / 2 - 1, GridHeight / 2), Cell(GridWidth / 2 - 2, GridHeight / 2)]
  }

  /** init_game, given the draws its place_food call reads. */
  function Init(draws: seq<nat>): (r: (GameState, nat))
    requires FoodChoice(InitialBody(), draws).Some?
  {
    var pick := FoodChoice(InitialBody(), draws).value;
    (GameState(InitialBody(), Right, pick.food, 0, false), pick.used)
  }

  /** init_game starts at length 3, heading right on (8,3), (7,3), (6,3), score 0, with food off the snake. */
  lemma InitValid(draws: seq<nat>)
    requires FoodChoice(InitialBody(), draws).Some?
    ensures var g := Init(draws).0;
      && Inv(g) && |g.body| == 3 && g.dir == Right && g.score == 0 && !g.gameOver
      && g.body == [Cell(8, 3), Cell(7, 3), Cell(6, 3)]
  {
    FoodChoiceFirstFree(InitialBody(), draws);
  }

  function NextHead(g: GameState): Cell
    requires |g.body| >= 1
  {
    Advance(g.body[0], g.dir)
  }

  /** The move ends on the food without a collision. */
  predicate Eats(g: GameState)
    requires |g.body| >= 1
  {
    !Collides(g.body, NextHead(g)) && NextHead(g) == g.food
  }

  /** place_food, if update_game calls it, settles within the draws. */
  predicate FoodPlaceable(g: GameState, draws: seq<nat>)
    requires |g.body| >= 1
  {
    Eats(g) ==> FoodChoice(Grow(Moved(g.body, NextHead(g))), draws).Some?
  }

  /** update_game, and the number of rand() values it takes. */
  function Update(g: GameState, draws: seq<nat>): (r: (GameState, nat))
    requires |g.body| >= 1 && FoodPlaceable(g, draws)
  {
    var head := NextHead(g);
    var moved := Moved(g.body, head);
    if Collides(g.body, head) then (g.(body := moved, gameOver := true), 0)
    else if head == g.food then
      var grown := Grow(moved);
      var pick := FoodChoice(grown, draws).value;
      (g.(body := grown, food := pick.food, score := g.score + 1), pick.used)
    else (g.(body := moved), 0)
  }

  /** A step keeps the game inside the grid, the length within [1, 112] and the food off the snake. */
  lemma UpdateKeepsInv(g: GameState, draws: seq<nat>)
    requires Inv(g) && FoodPlaceable(g, draws)
    ensures Inv(Update(g, draws).0)
  {
    var head := NextHead(g);
    AdvanceOnTorus(g.body[0], g.dir);
    var moved := Moved(g.body, head);
    assert forall i :: 1 <= i < |moved| ==> moved[i] == g.body[i - 1];
    if !Collides(g.body, head) && head == g.food {
      FoodChoiceFirstFree(Grow(moved), draws);
    } else if !Collides(g.body, head) {
      assert g.food !in moved;
    } else {
      assert g.food != head;
      assert g.food !in moved;
    }
  }

  /**
   * The shape of a step: the heading is kept, the head moves one step on the
   * torus, every other segment takes its predecessor's old cell, and the
   * length changes only by growth when eating below the cap.
   */
  lemma UpdateMoves(g: GameState, draws: seq<nat>)
    requires Inv(g) && FoodPlaceable(g, draws)
    ensures var n := Update(g, draws).0;
      && n.dir == g.dir
      && n.body[0] == Cell((g.body[0].x + DeltaX(g.dir)) % GridWidth, (g.body[0].y + DeltaY(g.dir)) % GridHeight)
      && (forall i :: 1 <= i < |g.body| ==> n.body[i] == g.body[i - 1])
      && |n.body| == (if Eats(g) && |g.body| < MaxSnakeLength then |g.body| + 1 else |g.body|)
  {
    AdvanceOnTorus(g.body[0], g.dir);
  }

  /**
   * Self-collision ends the game and changes nothing else but the move;
   * eating scores one point, grows the snake by one (up to 112) with a new
   * last segment equal to the previous last one, and places new food off the
   * snake; any other move leaves score, food and flag alone.
   */
  lemma UpdateOutcomes(g: GameState, draws: seq<nat>)
    requires Inv(g) && FoodPlaceable(g, draws)
    ensures var (n, used) := Update(g, draws);
      && (Collides(g.body, NextHead(g)) ==>
            n.gameOver && n.score == g.score && n.food == g.food && |n.body| == |g.body| && used == 0)
      && (Eats(g) ==>
            && n.score == g.score + 1 && n.gameOver == g.gameOver
            && |n.body| == (if |g.body| < MaxSnakeLength then |g.body| + 1 else MaxSnakeLength)
            && (|g.body| < MaxSnakeLength ==> n.body[|n.body| - 1] == n.body[|n.body| - 2])
            && n.food !in n.body && InGrid(n.food) && used >= 2)
      && (!Collides(g.body, NextHead(g)) && !Eats(g) ==>
            n.score == g.score && n.food == g.food && n.gameOver == g.gameOver && used == 0)
  {
    if Eats(g) {
      FoodChoiceFirstFree(Grow(Moved(g.body, NextHead(g))), draws);
    }
  }

  /** Update, read off from which of the three outcomes a step took. */
  lemma UpdateByCases(g: GameState, draws: seq<nat>, n: GameState, used: nat, hit: bool, ate: bool)
    requires |g.body| >= 1 && FoodPlaceable(g, draws)
    requires hit <==> Collides(g.body, NextHead(g))
    requires ate <==> !hit && NextHead(g) == g.food
    requires hit ==> n == g.(body := Moved(g.body, NextHead(g)), gameOver := true) && used == 0
    requires ate ==> var pick := FoodChoice(Grow(Moved(g.body, NextHead(g))), draws).value;
      n == g.(body := Grow(Moved(g.body, NextHead(g))), food := pick.food, score := g.score + 1) && used == pick.used
    requires !hit && !ate ==> n == g.(body := Moved(g.body, NextHead(g))) && used == 0
    ensures (n, used) == Update(g, draws)
  {
  }

  // ---------------------------------------------------------------- timing

  /** The frame delay of snake_game's main loop, in milliseconds. */
  function SleepTime(score: int): int
  {
    var t := 300 - 15 * score;
    if t < 100 then 100 else t
  }

  /** The delay is max(300 - 15 * score, 100): never below 100, never above 300 for a score >= 0, and it never grows as the score grows. */
  lemma SleepTimeBounds(score: int, later: int)
    requires score <= later
    ensures SleepTime(score) >= 100
    ensures score >= 0 ==> SleepTime(score) <= 300
    ensures SleepTime(later) <= SleepTime(score)
    ensures SleepTime(score) == 100 <==> score >= 14
  {
  }

  // ---------------------------------------------------------------- rendering

  /** Top-left pixel of the 5 x 5 block that shows cell c. */
  function CellPixel(c: Cell): Point
  {
    Point(c.x * CellSize, c.y * CellSize + GameAreaTop)
  }

  /** Pixel p belongs to the block of cell c. */
  predicate InBlock(c: Cell, p: Point)
  {
    var q := CellPixel(c);
    q.x <= p.x < q.x + CellSize && q.y <= p.y < q.y + CellSize
  }

  /** The points render_game's snake loop plots: a filled block per segment, head first. */
  function SnakePoints(body: seq<Cell>): seq<Point>
    decreases |body|
  {
    if body == [] then []
    else
      var p := CellPixel(body[|body| - 1]);
      SnakePoints(body[..|body| - 1]) + FilledPoints(p.x, p.y, CellSize, CellSize)
  }

  /** The play-area border: the outline from (0, 10) to (80, 45). */
  function BorderPoints(): seq<Point>
  {
    RectanglePoints(0, GameAreaTop, GridWidth * CellSize, GridHeight * CellSize)
  }

  /** The food: the outline of its cell's block. */
  function FoodPoints(food: Cell): seq<Point>
  {
    var f := CellPixel(food);
    RectanglePoints(f.x, f.y, CellSize, CellSize)
  }

  /** Everything render_game plots into the cleared bitmap, in order. */
  function RenderPoints(g: GameState): seq<Point>
  {
    BorderPoints() + SnakePoints(g.body) + FoodPoints(g.food)
  }

  /** The frame render_game hands to the display: the three drawing steps applied to a cleared bitmap, in order. */
  function Frame(g: GameState): (r: seq<bv8>)
    ensures |r| == BitmapSize
  {
    Plot(Plot(Plot(Blank(), BorderPoints()), SnakePoints(g.body)), FoodPoints(g.food))
  }

  /** Pixel p lies in the block of some segment of body. */
  predicate InSnake(body: seq<Cell>, p: Point)
  {
    exists i :: 0 <= i < |body| && InBlock(body[i], p)
  }

  lemma InSnakeSnoc(body: seq<Cell>, p: Point)
    requires body != []
    ensures InSnake(body, p) <==> InSnake(body[..|body| - 1], p) || InBlock(body[|body| - 1], p)
  {
    var init := body[..|body| - 1];
    if InSnake(init, p) {
      var i :| 0 <= i < |init| && InBlock(init[i], p);
      assert body[i] == init[i];
    }
    if InSnake(body, p) {
      var i :| 0 <= i < |body| && InBlock(body[i], p);
      if i < |init| {
        assert init[i] == body[i];
      }
    }
  }

  /** A pixel is plotted for the snake exactly when it lies in some segment's block. */
  lemma {:induction false} SnakeMembers(body: seq<Cell>, p: Point)
    ensures p in SnakePoints(body) <==> InSnake(body, p)
    decreases |body|
  {
    if body != [] {
      var init, last := body[..|body| - 1], body[|body| - 1];
      SnakeMembers(init, p);
      InSnakeSnoc(body, p);
      var c := CellPixel(last);
      BlockMembers(last, p);
      var block := FilledPoints(c.x, c.y, CellSize, CellSize);
      assert SnakePoints(body) == SnakePoints(init) + block;
      assert p in SnakePoints(body) <==> p in SnakePoints(init) || p in block;
    }
  }

  /** The filled rectangle drawn for cell c is c's block. */
  lemma BlockMembers(c: Cell, p: Point)
    ensures var q := CellPixel(c);
      p in FilledPoints(q.x, q.y, CellSize, CellSize) <==> InBlock(c, p)
  {
    var q := CellPixel(c);
    FilledMembers(q.x, q.y, CellSize, CellSize);
  }

  /** Plotting segment i, whose block starts at (px, py), after segments 0 .. i - 1. */
  lemma SnakePointsSnoc(b: seq<bv8>, body: seq<Cell>, i: int, px: int, py: int)
    requires |b| == BitmapSize && 0 <= i < |body| && CellPixel(body[i]) == Point(px, py)
    ensures Plot(b, SnakePoints(body[..i + 1])) == Plot(Plot(b, SnakePoints(body[..i])), FilledPoints(px, py, CellSize, CellSize))
  {
    assert body[..i + 1][..i] == body[..i];
    PlotAppend(b, SnakePoints(body[..i]), FilledPoints(px, py, CellSize, CellSize));
  }

  /** The pixels a frame of game g should show: the border, the segment blocks and the food outline. */
  ghost function Shown(g: GameState): iset<Point>
  {
    var f := CellPixel(g.food);
    iset p |
      || OnOutline(0, GameAreaTop, GridWidth * CellSize, GridHeight * CellSize, p)
      || InSnake(g.body, p)
      || OnOutline(f.x, f.y, CellSize, CellSize, p)
  }

  /** The frame shows exactly Shown(g): an on-screen pixel is lit iff it lies on the border, a segment or the food. */
  lemma RenderPainted(g: GameState)
    ensures Painted(Blank(), Frame(g), Shown(g))
  {
    var f := CellPixel(g.food);
    PlotAppend(Blank(), BorderPoints(), SnakePoints(g.body));
    PlotAppend(Blank(), BorderPoints() + SnakePoints(g.body), FoodPoints(g.food));
    PlotPaints(Blank(), RenderPoints(g));
    RectangleOutline(0, GameAreaTop, GridWidth * CellSize, GridHeight * CellSize);
    RectangleOutline(f.x, f.y, CellSize, CellSize);
    forall p | p in RenderPoints(g) || InSnake(g.body, p) {
      SnakeMembers(g.body, p);
    }
    PaintedSame(Blank(), Frame(g), (iset p | p in RenderPoints(g)), Shown(g));
  }

  /**
   * A frame that shows exactly Shown(g) of a game in the grid (as Frame(g)
   * does, by RenderPainted) draws every segment as a whole 5 x 5 block inside
   * the play area [0, 80) x [10, 45) and the whole food outline, and leaves
   * rows 0 to 9, where the score is written, blank.
   */
  lemma RenderOnScreen(g: GameState, b: seq<bv8>)
    requires Inv(g) && Painted(Blank(), b, Shown(g))
    ensures forall i, p :: 0 <= i < |g.body| && InBlock(g.body[i], p) ==>
      Lit(b, p.x, p.y) && 0 <= p.x < 80 && GameAreaTop <= p.y < 45
    ensures var f := CellPixel(g.food);
      forall q :: OnOutline(f.x, f.y, CellSize, CellSize, q) ==> Lit(b, q.x, q.y)
    ensures forall x, y :: 0 <= y < GameAreaTop ==> !Lit(b, x, y)
  {
    forall i, p | 0 <= i < |g.body| && InBlock(g.body[i], p)
      ensures Lit(b, p.x, p.y) && 0 <= p.x < 80 && GameAreaTop <= p.y < 45
    {
      assert InGrid(g.body[i]);
      assert InSnake(g.body, p);
    }
    forall x, y | 0 <= y < GameAreaTop
      ensures !Lit(b, x, y)
    {
      if InSnake(g.body, Point(x, y)) {
        var i :| 0 <= i < |g.body| && InBlock(g.body[i], Point(x, y));
        assert InGrid(g.body[i]);
      }
    }
  }

  /** In a valid game the frame leaves the score rows blank. */
  lemma FrameLeavesScoreRows(g: GameState)
    requires Inv(g)
    ensures forall x, y :: 0 <= y < GameAreaTop ==> !Lit(Frame(g), x, y)
  {
    RenderPainted(g);
    RenderOnScreen(g, Frame(g));
  }

  // ---------------------------------------------------------------- the class

  /** Two parallel coordinate sequences read as a list of cells. */
  function Zip(xs: seq<int>, ys: seq<int>): (r: seq<Cell>)
    requires |xs| == |ys|
    ensures |r| == |xs| && forall i :: 0 <= i < |xs| ==> r[i] == Cell(xs[i], ys[i])
  {
    seq(|xs|, i requires 0 <= i < |xs| => Cell(xs[i], ys[i]))
  }

  /** The static state of snake_game.c: the struct s_Snake (xs, ys, length, dir), food, score and game_over. */
  class Game {
    const xs: array<int>
    const ys: array<int>
    var length: int
    var dir: Direction
    var food: Cell
    var score: int
    var gameOver: bool

    ghost predicate Allocated()
    {
      xs.Length == MaxSnakeLength && ys.Length == MaxSnakeLength && xs != ys
    }

    /** The snake's segments, head first. */
    function Body(): (b: seq<Cell>)
      reads this`length, xs, ys
      requires Allocated() && 0 <= length <= MaxSnakeLength
      ensures |b| == length && forall i :: 0 <= i < length ==> b[i] == Cell(xs[i], ys[i])
    {
      Zip(xs[..length], ys[..length])
    }

    function State(): GameState
      reads this, xs, ys
      requires Allocated() && 0 <= length <= MaxSnakeLength
    {
      GameState(Body(), dir, food, score, gameOver)
    }

    ghost predicate Valid()
      reads this, xs, ys
    {
      Allocated() && 0 <= length <= MaxSnakeLength && Inv(State())
    }

    /** The statics as the C runtime leaves them: zeroed. */
    constructor ()
      ensures Allocated() && fresh(xs) && fresh(ys)
      ensures length == 0 && dir == Up && food == Cell(0, 0) && score == 0 && !gameOver
    {
      xs := new int[MaxSnakeLength](_ => 0);
      ys := new int[MaxSnakeLength](_ => 0);
      length := 0;
      dir := Up;
      food := Cell(0, 0);
      score := 0;
      gameOver := false;
    }

    /** init_game. */
    method InitGame(draws: seq<nat>) returns (used: nat)
      requires Allocated()
      requires FoodChoice(InitialBody(), draws).Some?
      modifies this, xs, ys
      ensures Valid()
      ensures (State(), used) == Init(draws)
    {
      length := 3;
      dir := Right;
      var startX := GridWidth / 2;
      var startY := GridHeight / 2;
      var i := 0;
      while i < length
        invariant 0 <= i <= length == 3 && dir == Right
        invariant forall j :: 0 <= j < i ==> xs[j] == startX - j && ys[j] == startY
      {
        xs[i] := startX - i;
        ys[i] := startY;
        i := i + 1;
      }
      assert Body() == InitialBody();
      used := PlaceFood(draws);
      assert Body() == InitialBody();
      gameOver := false;
      score := 0;
      InitValid(draws);

    }

    /** place_food: draw cells until one is off the snake. */
    method PlaceFood(draws: seq<nat>) returns (used: nat)
      requires Allocated() && 0 <= length <= MaxSnakeLength
      requires FoodChoice(Body(), draws).Some?
      modifies this
      ensures FoodPick(food, used) == FoodChoice(old(Body()), draws).value
      ensures length == old(length) && dir == old(dir) && score == old(score) && gameOver == old(gameOver)
    {
      ghost var body := Body();
      var valid := false;
      used := 0;
      while !valid
        invariant used <= |draws|
        invariant !valid ==> PickFrom(body, draws, used) == FoodChoice(body, draws)
        invariant valid ==> FoodPick(food, used) == FoodChoice(body, draws).value
        invariant length == old(length) && dir == old(dir) && score == old(score) && gameOver == old(gameOver)
        decreases |draws| - used
      {
        food := Cell(draws[used] % GridWidth, draws[used + 1] % GridHeight);
        used := used + 2;
        valid := true;
        var i := 0;
        while i < length
          invariant 0 <= i <= length
          invariant forall j :: 0 <= j < i ==> body[j] != food
        {
          if xs[i] == food.x && ys[i] == food.y {
            valid := false;
            break;
          }
          i := i + 1;
        }
      }
    }

    /**
     * The drawing part of render_game on a valid game: the frame, with the
     * score rows above the play area left blank for the text.
     */
    method Render(bitmap: array<bv8>)
      requires Valid() && bitmap.Length == BitmapSize
      modifies bitmap
      ensures bitmap[..] == Frame(State())
      ensures forall x, y :: 0 <= y < GameAreaTop ==> !Lit(bitmap[..], x, y)
    {
      DrawFrame(bitmap);
      FrameLeavesScoreRows(State());
    }

    /**
     * Clear the bitmap, draw the border, a filled block per segment and the
     * food outline.
     */
    method DrawFrame(bitmap: array<bv8>)
      requires Allocated() && 0 <= length <= MaxSnakeLength && bitmap.Length == BitmapSize
      modifies bitmap
      ensures bitmap[..] == Frame(State())
    {
      forall k | 0 <= k < bitmap.Length {
        bitmap[k] := 0;
      }
      assert bitmap[..] == Blank();
      DrawRectangle(bitmap, 0, GameAreaTop, GridWidth * CellSize, GridHeight * CellSize);
      ghost var border := bitmap[..];
      assert border == Plot(Blank(), BorderPoints());
      ghost var body := Body();
      var i := 0;
      while i < length
        invariant 0 <= i <= length
        invariant bitmap[..] == Plot(border, SnakePoints(body[..i]))
      {
        var pixel := CellPixel(Cell(xs[i], ys[i]));
        SnakePointsSnoc(border, body, i, pixel.x, pixel.y);
        DrawFilledRectangle(bitmap, pixel.x, pixel.y, CellSize, CellSize);
        i := i + 1;
      }
      assert body[..length] == body;
      assert bitmap[..] == Plot(border, SnakePoints(Body()));
      var foodPixel := CellPixel(food);
      DrawRectangle(bitmap, foodPixel.x, foodPixel.y, CellSize, CellSize);
    }

    /** update_direction, with the tilt read from the shared accelerometer values. */
    method UpdateDirection(accX: real, accY: real)
      modifies this
      ensures dir == NewHeading(old(dir), accX, accY)
      ensures length == old(length) && food == old(food) && score == old(score) && gameOver == old(gameOver)
      ensures old(Valid()) ==> Valid()
    {
      var threshold := 0.5;
      if accX > threshold && dir != Left {
        dir := Right;
      } else if accX < -threshold && dir != Right {
        dir := Left;
      } else if accY > threshold && dir != Down {
        dir := Up;
      } else if accY < -threshold && dir != Up {
        dir := Down;
      }
    }

    /**
     * update_game: move, wrap, check for self-collision, eat.  A step from a
     * valid game leaves a valid game (UpdateKeepsInv, about Update).
     */
    method UpdateGame(draws: seq<nat>) returns (used: nat)
      requires Allocated() && 1 <= length <= MaxSnakeLength && FoodPlaceable(State(), draws)
      modifies this, xs, ys
      ensures 1 <= length <= MaxSnakeLength
      ensures (State(), used) == Update(old(State()), draws)
      ensures old(Valid()) ==> Valid()
    {
      ghost var g := State();
      var hit := MoveAndCheck();
      used := 0;
      ghost var ate := false;
      if hit {
        gameOver := true;
      } else if xs[0] == food.x && ys[0] == food.y {
        ate := true;
        used := EatFood(draws);
      }
      UpdateByCases(g, draws, State(), used, hit, ate);
      if Inv(g) {
        UpdateKeepsInv(g, draws);
      }
    }

    /** The move and the self-collision check of update_game. */
    method MoveAndCheck() returns (hit: bool)
      requires Allocated() && 1 <= length <= MaxSnakeLength
      modifies xs, ys
      ensures var head := Advance(old(Body())[0], dir);
        && Body() == Moved(old(Body()), head)
        && Body()[0] == head
        && (hit <==> Collides(old(Body()), head))
    {
      ghost var body := Body();
      ghost var head := Advance(body[0], dir);
      CollidesMeaning(body, head);
      MoveSnake();
      hit := HitsBody();
    }

    /** The eating branch of update_game: grow (below the cap), score, place new food. */
    method EatFood(draws: seq<nat>) returns (used: nat)
      requires Allocated() && 1 <= length <= MaxSnakeLength
      requires FoodChoice(Grow(Body()), draws).Some?
      modifies this, xs, ys
      ensures 1 <= length <= MaxSnakeLength
      ensures var pick := FoodChoice(Grow(old(Body())), draws).value;
        && State() == old(State()).(body := Grow(old(Body())), food := pick.food, score := old(score) + 1)
        && used == pick.used
    {
      if length < MaxSnakeLength {
        GrowTail();
      }
      score := score + 1;
      used := PlaceFood(draws);
    }

    /** The body and head moves of update_game. */
    method MoveSnake()
      requires Allocated() && 1 <= length <= MaxSnakeLength
      modifies xs, ys
      ensures Body() == Moved(old(Body()), Advance(old(Body())[0], dir))
    {
      ghost var body := Body();
      ShiftBody();
      MoveHead();
    }

    /** Growth in update_game: one more segment, a copy of the last one. */
    method GrowTail()
      requires Allocated() && 1 <= length < MaxSnakeLength
      modifies this, xs, ys
      ensures length == old(length) + 1
      ensures Body() == Grow(old(Body()))
      ensures dir == old(dir) && food == old(food) && score == old(score) && gameOver == old(gameOver)
    {
      length := length + 1;
      xs[length - 1] := xs[length - 2];
      ys[length - 1] := ys[length - 2];
    }

    /** The self-collision loop of update_game: does the head share a cell with another segment? */
    method HitsBody() returns (hit: bool)
      requires Allocated() && 1 <= length <= MaxSnakeLength
      ensures hit <==> Body()[0] in Body()[1..]
    {
      var i := 1;
      while i < length
        invariant 1 <= i <= length
        invariant forall j :: 1 <= j < i ==> Body()[j] != Body()[0]
      {
        if xs[0] == xs[i] && ys[0] == ys[i] {
          assert Body()[1..][i - 1] == Body()[0];
          return true;
        }
        i := i + 1;
      }
      return false;
    }

    /** The body loop of update_game: segment i takes segment i - 1's cell, from the tail down. */
    method ShiftBody()
      requires Allocated() && 1 <= length <= MaxSnakeLength
      modifies xs, ys
      ensures forall j :: 1 <= j < length ==> xs[j] == old(xs[j - 1]) && ys[j] == old(ys[j - 1])
      ensures xs[0] == old(xs[0]) && ys[0] == old(ys[0])
      ensures forall j :: length <= j < MaxSnakeLength ==> xs[j] == old(xs[j]) && ys[j] == old(ys[j])
    {
      var i := length - 1;
      while i > 0
        invariant 0 <= i <= length - 1
        invariant forall j :: 0 <= j <= i ==> xs[j] == old(xs[j]) && ys[j] == old(ys[j])
        invariant forall j :: i < j < length ==> xs[j] == old(xs[j - 1]) && ys[j] == old(ys[j - 1])
        invariant forall j :: length <= j < MaxSnakeLength ==> xs[j] == old(xs[j]) && ys[j] == old(ys[j])
      {
        xs[i] := xs[i - 1];
        ys[i] := ys[i - 1];
        i := i - 1;
      }
    }

    /** The head move and the four edge checks of update_game. */
    method MoveHead()
      requires Allocated()
      modifies xs, ys
      ensures Cell(xs[0], ys[0]) == Advance(Cell(old(xs[0]), old(ys[0])), dir)
      ensures forall j :: 1 <= j < MaxSnakeLength ==> xs[j] == old(xs[j]) && ys[j] == old(ys[j])
    {
      match dir {
        case Up => ys[0] := ys[0] - 1;
        case Down => ys[0] := ys[0] + 1;
        case Left => xs[0] := xs[0] - 1;
        case Right => xs[0] := xs[0] + 1;
      }
      if xs[0] < 0 {
        xs[0] := GridWidth - 1;
      }
      if xs[0] >= GridWidth {
        xs[0] := 0;
      }
      if ys[0] < 0 {
        ys[0] := GridHeight - 1;
      }
      if ys[0] >= GridHeight {
        ys[0] := 0;
      }
    }
  }
}

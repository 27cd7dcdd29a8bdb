/**
 * The `game` object of script.js: the status state machine and the per-tick
 * step that moves the snake, eats food and ends the game on a collision.
 */
module GameEngine {
  import opened Grid
  import opened SnakeState
  import opened FoodPool
  import opened Scoring
  import opened Tiles

  /** The status the page shows as a class of the game container. */
  datatype Status = Started | Paused | Stopped

  datatype Option<T> = None | Some(value: T)

  /** `keysHandler`: the arrow keys' codes; every other key is ignored. */
  function KeyDirection(keyCode: int): (r: Option<Direction>)
    ensures r.Some? <==> keyCode in {37, 38, 39, 40}
    ensures r == Some(Up) <==> keyCode == 38
    ensures r == Some(Down) <==> keyCode == 40
    ensures r == Some(Left) <==> keyCode == 37
    ensures r == Some(Right) <==> keyCode == 39
  {
    if keyCode == 38 then Some(Up)
    else if keyCode == 40 then Some(Down)
    else if keyCode == 37 then Some(Left)
    else if keyCode == 39 then Some(Right)
    else None
  }

  /** The food pool holds FoodMax items, none on the last row or column. */
  ghost predicate ValidPool(items: seq<Coord>) {
    |items| == FoodMax && forall c :: c in items ==> InFoodRange(c)
  }

  class Game {
    const snake: Snake
    const food: Food
    const score: Score
    var status: Status

    /**
     * What every operation keeps: a valid snake body, a full food pool and
     * a current score between 0 and the high score.
     */
    ghost predicate Valid()
      reads this, snake, food, score
    {
      && ValidBody(snake.parts, Size)
      && ValidPool(food.items)
      && 0 <= score.current <= score.high
    }

    /** The page after loading: the objects as declared, then `init`'s `game.reset()`. */
    constructor (draws: seq<Draw>)
      requires ValidDraws(draws)
      ensures fresh(snake) && fresh(food) && fresh(score)
      ensures Valid() && status == Stopped
      ensures snake.parts == InitialParts && snake.direction == Right
      ensures forall i :: 0 <= i < FoodMax ==> food.items[i] == NewItem(draws[i])
      ensures score.current == 0 && score.high == 0
    {
      snake := new Snake();
      food := new Food();
      score := new Score();
      status := Stopped;
      new;
      Reset(draws);
    }

    /**
     * `reset`: status Stopped, the initial snake, a fresh food pool from the
     * draws, current score 0; the high score is kept.
     */
    method Reset(draws: seq<Draw>)
      requires ValidDraws(draws) && score.high >= 0
      modifies this, snake, food, score
      ensures Valid() && status == Stopped
      ensures snake.parts == InitialParts && snake.direction == Right
      ensures forall i :: 0 <= i < FoodMax ==> food.items[i] == NewItem(draws[i])
      ensures score.current == 0 && score.high == old(score.high)
    {
      status := Stopped;
      snake.Reset();
      food.Reset(draws);
      score.ResetScore();
      InitialBodyValid(Size);
    }

    /**
     * `start`: from Stopped it resets the game first; from Paused it resumes
     * without a reset; while Started it does nothing. It always ends Started.
     */
    method Start(draws: seq<Draw>)
      requires Valid() && ValidDraws(draws)
      modifies this, snake, food, score
      ensures Valid() && status == Started
      ensures old(status) == Stopped ==>
        && snake.parts == InitialParts && snake.direction == Right
        && (forall i :: 0 <= i < FoodMax ==> food.items[i] == NewItem(draws[i]))
        && score.current == 0 && score.high == old(score.high)
      ensures old(status) != Stopped ==>
        && snake.parts == old(snake.parts) && snake.direction == old(snake.direction)
        && food.items == old(food.items)
        && score.current == old(score.current) && score.high == old(score.high)
    {
      if status == Stopped {
        Reset(draws);
      }
      if status != Started {
        status := Started;
      }
    }

    /** `pause`: only a started game becomes Paused. */
    method Pause()
      requires Valid()
      modifies this
      ensures Valid()
      ensures status == if old(status) == Started then Paused else old(status)
    {
      if status == Started {
        status := Paused;
      }
    }

    /** `stop`: any game that is not stopped becomes Stopped. */
    method Stop()
      requires Valid()
      modifies this
      ensures Valid()
      ensures status == Stopped
    {
      if status != Stopped {
        status := Stopped;
      }
    }

    /** `keysHandler`: an arrow key asks the snake to turn; other keys do nothing. */
    method KeysHandler(keyCode: int)
      requires Valid()
      modifies snake
      ensures Valid()
      ensures snake.parts == old(snake.parts)
      ensures snake.direction ==
        match KeyDirection(keyCode)
        case None => old(snake.direction)
        case Some(d) => GuardDirection(old(snake.direction), d)
    {
      match KeyDirection(keyCode)
      case None =>
        return;
      case Some(d) =>
        snake.SetDirection(d);
    }

    /**
     * `move`, one tick. When the next head cell is already a segment (the
     * tail included) the game stops and nothing else changes. On food the
     * snake grows onto it, the eaten item is removed, the score rises by one
     * and one new item is generated from the draw. Otherwise the snake steps
     * forward at the same length.
     */
    method Move(draw: Draw)
      requires Valid() && ValidDraw(draw)
      modifies this, snake, food, score
      ensures Valid()
      ensures snake.direction == old(snake.direction)
      ensures old(snake.GetNextPosition()) in old(snake.parts) ==>
        && status == Stopped
        && snake.parts == old(snake.parts) && food.items == old(food.items)
        && score.current == old(score.current) && score.high == old(score.high)
      ensures old(snake.GetNextPosition()) !in old(snake.parts) ==>
        var next := old(snake.GetNextPosition());
        var i := FindIndex(old(food.items), next);
        && status == old(status)
        && (i != -1 ==>
              && snake.parts == old(snake.parts) + [next]
              && food.items == SpliceOne(old(food.items), i) + [NewItem(draw)]
              && score.current == old(score.current) + 1
              && score.high == Max(old(score.high), score.current))
        && (i == -1 ==>
              && snake.parts == old(snake.parts)[1..] + [next]
              && food.items == old(food.items)
              && score.current == old(score.current) && score.high == old(score.high))
    {
      var nextPosition := snake.GetNextPosition();
      assert Adjacent(snake.parts[|snake.parts| - 1], nextPosition, Size);

      if nextPosition in snake.parts {
        Stop();
        return;
      }

      var foundFood := FindIndex(food.items, nextPosition);
      if foundFood != -1 {
        AdvanceKeepsBody(snake.parts, nextPosition, false, Size);
        snake.SetPosition(nextPosition, false);
        food.RemoveItem(foundFood);
        score.ChangeScore(1);
        food.GenerateItem(draw);
      } else {
        AdvanceKeepsBody(snake.parts, nextPosition, true, Size);
        snake.SetPosition(nextPosition, true);
      }
    }

    /** The tile names of the current snake all name preloaded images. */
    lemma TilesOfValidGameKnown()
      requires Valid()
      ensures forall i :: 0 <= i < |snake.parts| ==> TileNames(snake.parts)[i] in KnownTiles
    {
      SnakeTilesKnown(snake.parts, Size);
    }
  }

  /**
   * Three scenarios on two new games: a plain tick, a tick onto food, and a
   * reverse key press that is ignored.
   */
  method Scenarios() {
    var corner := Draw(0.0, 0.0);
    RandomNumberReaches(0, Size - 1, 3);
    var ahead := Draw(0.0, 3.0 / 15.0);
    assert NewItem(corner) == Coord(0, 0);
    assert NewItem(ahead) == Coord(0, 3);

    var g := new Game([corner, corner, corner]);
    g.Start([corner, corner, corner]);
    assert g.snake.GetNextPosition() == Coord(0, 3);
    g.Move(corner);
    assert g.snake.parts == [Coord(0, 1), Coord(0, 2), Coord(0, 3)];

    var h := new Game([corner, corner, corner]);
    h.Start([ahead, corner, corner]);
    assert h.food.items[0] == Coord(0, 3);
    h.Move(corner);
    assert h.snake.parts == [Coord(0, 0), Coord(0, 1), Coord(0, 2), Coord(0, 3)];
    assert |h.food.items| == FoodMax && h.score.current == 1;

    h.KeysHandler(37);
    assert h.snake.direction == Right;
  }
}

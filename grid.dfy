/**
 * Coordinates on the square, toroidal game board and the one-cell moves of
 * the snake's head (`snake.getNextPosition` in script.js).
 */
module Grid {

  /** `config.size`: the board is Size x Size cells. */
  const Size: int := 16

  /** A cell, counted from the top and from the left border. */
  datatype Coord = Coord(top: int, left: int)

  datatype Direction = Up | Down | Left | Right

  function Opposite(d: Direction): (r: Direction)
    ensures r != d
    ensures d in {Up, Down} <==> r in {Up, Down}
  {
    match d
    case Up => Down
    case Down => Up
    case Left => Right
    case Right => Left
  }

  predicate InBounds(c: Coord, size: int) {
    0 <= c.top < size && 0 <= c.left < size
  }

  /** Row change of one step in direction d (the top coordinate grows downwards). */
  function DeltaTop(d: Direction): int {
    match d
    case Up => -1
    case Down => 1
    case _ => 0
  }

  function DeltaLeft(d: Direction): int {
    match d
    case Left => -1
    case Right => 1
    case _ => 0
  }

  /**
   * The wrap-around of one axis after a step: -1 becomes size-1 and anything
   * past size-1 becomes 0. For a value at most one step outside the board
   * this is exactly reduction modulo size.
   */
  function Wrap(v: int, size: int): (r: int)
    ensures 1 <= size && -1 <= v <= size ==> 0 <= r < size && r == v % size
  {
    if v == -1 then
      assert 1 <= size ==> (-1) % size == size - 1 by {
        if 1 <= size { assert -1 == (-1) * size + (size - 1); }
      }
      size - 1
    else if v > size - 1 then
      assert 1 <= size && v <= size ==> v % size == 0 by {
        if 1 <= size && v <= size { assert v == 1 * size + 0; }
      }
      0
    else v
  }

  /**
   * The head's next cell: a copy of the head moved one cell in direction d,
   * then both axes wrapped. From a cell on the board the result is the
   * torus neighbour in that direction and stays on the board; the axis the
   * move does not follow is unchanged.
   */
  function NextPosition(head: Coord, d: Direction, size: int): (r: Coord)
    ensures 1 <= size && InBounds(head, size) ==>
      && InBounds(r, size)
      && r.top == (head.top + DeltaTop(d)) % size
      && r.left == (head.left + DeltaLeft(d)) % size
    ensures InBounds(head, size) && d in {Up, Down} ==> r.left == head.left
    ensures InBounds(head, size) && d in {Left, Right} ==> r.top == head.top
  {
    var top := head.top + DeltaTop(d);
    var left := head.left + DeltaLeft(d);
    Coord(Wrap(top, size), Wrap(left, size))
  }

  /** b is one step away from a on the torus. */
  ghost predicate Adjacent(a: Coord, b: Coord, size: int) {
    exists d :: b == NextPosition(a, d, size)
  }

  /** Stepping off the top edge re-enters at the bottom row, and vice versa. */
  lemma {:induction false} WrapEdges(c: Coord, size: int)
    requires 1 <= size && InBounds(c, size)
    ensures c.top == 0 ==> NextPosition(c, Up, size).top == size - 1
    ensures c.top == size - 1 ==> NextPosition(c, Down, size).top == 0
    ensures c.left == 0 ==> NextPosition(c, Left, size).left == size - 1
    ensures c.left == size - 1 ==> NextPosition(c, Right, size).left == 0
  {
  }

  /** A step followed by a step in the opposite direction returns to the start. */
  lemma {:induction false} StepBack(c: Coord, d: Direction, size: int)
    requires 1 <= size && InBounds(c, size)
    ensures NextPosition(NextPosition(c, d, size), Opposite(d), size) == c
  {
  }

  /** A step moves the head off its cell once the board is wider than one cell. */
  lemma {:induction false} StepMoves(c: Coord, d: Direction, size: int)
    requires 2 <= size && InBounds(c, size)
    ensures NextPosition(c, d, size) != c
  {
  }
}

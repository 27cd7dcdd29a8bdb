/**
 * The `snake` object of script.js: its body, tail first and head last, and
 * its stored direction of travel.
 */
module SnakeState {
  import opened Grid

  /**
   * `setDirection`'s guard: a request that is the exact opposite of the
   * stored direction is dropped, every other request (the stored direction
   * itself included) replaces it.
   */
  function GuardDirection(current: Direction, requested: Direction): (r: Direction)
    ensures requested == Opposite(current) ==> r == current
    ensures requested != Opposite(current) ==> r == requested
  {
    if || (current == Up && requested == Down)
       || (current == Down && requested == Up)
       || (current == Left && requested == Right)
       || (current == Right && requested == Left)
    then current
    else requested
  }

  /** The outcome of the guard is never the reverse of the stored direction. */
  lemma {:induction false} GuardNeverReverses(current: Direction, requested: Direction)
    ensures GuardDirection(current, requested) != Opposite(current)
  {
    if requested == Opposite(current) {
      assert GuardDirection(current, requested) == current;
    }
  }

  /**
   * The guard looks only at the stored direction, not at the direction of
   * the last tick: two presses between ticks, first a perpendicular one and
   * then the reverse, leave the snake heading back into its own neck.
   */
  lemma {:induction false} TwoPressesReverse(d: Direction)
    ensures var turn := if d in {Up, Down} then Left else Up;
      GuardDirection(GuardDirection(d, turn), Opposite(d)) == Opposite(d)
  {
    var turn := if d in {Up, Down} then Left else Up;
    assert GuardDirection(d, turn) == turn;
  }

  /** `parts.shift()`: drop the first element; an empty array stays empty. */
  function Shift(parts: seq<Coord>): (r: seq<Coord>)
    ensures |parts| == 0 ==> r == []
    ensures |parts| > 0 ==> |r| == |parts| - 1 && forall i :: 0 <= i < |r| ==> r[i] == parts[i + 1]
  {
    if |parts| == 0 then parts else parts[1..]
  }

  /**
   * `setPosition(p, shift)`: the new head p is appended; with shift the
   * tail is dropped first. The kept segments stay in their order and p is
   * the last segment.
   */
  function Advance(parts: seq<Coord>, p: Coord, shift: bool): (r: seq<Coord>)
    ensures var dropped := if shift && |parts| > 0 then 1 else 0;
      && |r| == |parts| + 1 - dropped
      && r[|r| - 1] == p
      && forall i :: 0 <= i < |r| - 1 ==> r[i] == parts[i + dropped]
  {
    (if shift then Shift(parts) else parts) + [p]
  }

  /** The body `snake.reset` lays out: three cells of the top row. */
  const InitialParts: seq<Coord> := [Coord(0, 0), Coord(0, 1), Coord(0, 2)]

  /**
   * What holds of the body during a game: at least three segments, all on
   * the board, no cell twice, and every segment one step from the one
   * before it.
   */
  ghost predicate ValidBody(parts: seq<Coord>, size: int) {
    && |parts| >= 3
    && (forall i :: 0 <= i < |parts| ==> InBounds(parts[i], size))
    && (forall i, j :: 0 <= i < j < |parts| ==> parts[i] != parts[j])
    && (forall i :: 0 <= i < |parts| - 1 ==> Adjacent(parts[i], parts[i + 1], size))
  }

  lemma {:induction false} InitialBodyValid(size: int)
    requires 3 <= size
    ensures ValidBody(InitialParts, size)
  {
    assert InitialParts[1] == NextPosition(InitialParts[0], Right, size);
    assert InitialParts[2] == NextPosition(InitialParts[1], Right, size);
  }

  /**
   * A tick that does not collide keeps the body valid: the new head is a
   * neighbour of the old head and is not on the body, whether the tail is
   * dropped or the snake grows.
   */
  lemma {:induction false} AdvanceKeepsBody(parts: seq<Coord>, p: Coord, shift: bool, size: int)
    requires ValidBody(parts, size)
    requires InBounds(p, size) && p !in parts
    requires Adjacent(parts[|parts| - 1], p, size)
    ensures ValidBody(Advance(parts, p, shift), size)
  {
    var r := Advance(parts, p, shift);
    var dropped := if shift then 1 else 0;
    assert forall i :: 0 <= i < |r| - 1 ==> r[i] == parts[i + dropped];
    forall i, j | 0 <= i < j < |r|
      ensures r[i] != r[j]
    {
      if j == |r| - 1 {
        assert r[i] in parts;
      }
    }
    forall i | 0 <= i < |r| - 1
      ensures Adjacent(r[i], r[i + 1], size)
    {
      if i + 1 < |r| - 1 {
        assert r[i + 1] == parts[i + 1 + dropped];
      } else {
        assert r[i] == parts[|parts| - 1];
      }
    }
  }

  class Snake {
    var direction: Direction
    var parts: seq<Coord>

    /** The object literal: an empty body (its placeholder direction is taken as Right). */
    constructor ()
      ensures parts == [] && direction == Right
    {
      parts := [];
      direction := Right;
    }

    method SetDirection(requested: Direction)
      modifies this`direction
      ensures direction == GuardDirection(old(direction), requested)
    {
      direction := GuardDirection(direction, requested);
    }

    /** `getNextPosition`: reads the head and the direction, changes nothing. */
    function GetNextPosition(): (r: Coord)
      reads this
      requires |parts| > 0
      ensures r == NextPosition(parts[|parts| - 1], direction, Size)
      ensures InBounds(parts[|parts| - 1], Size) ==>
        && InBounds(r, Size) && r != parts[|parts| - 1]
        && Adjacent(parts[|parts| - 1], r, Size)
    {
      var head := parts[|parts| - 1];
      assert InBounds(head, Size) ==> NextPosition(head, direction, Size) != head by {
        if InBounds(head, Size) { StepMoves(head, direction, Size); }
      }
      NextPosition(head, direction, Size)
    }

    method SetPosition(position: Coord, shift: bool)
      modifies this`parts
      ensures parts == Advance(old(parts), position, shift)
    {
      if shift {
        parts := Shift(parts);
      }
      parts := parts + [position];
    }

    method Reset()
      modifies this
      ensures parts == InitialParts && direction == Right
    {
      parts := [];
      parts := parts + [Coord(0, 0)];
      parts := parts + [Coord(0, 1)];
      parts := parts + [Coord(0, 2)];
      direction := Right;
    }
  }
}

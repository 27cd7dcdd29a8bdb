/**
 * Tile orientation: the image names `cells.renderSnake` in script.js
 * composes for the tail, the head and each body segment, from the relative
 * position of the neighbouring segments (`getSuffix`).
 */
module Tiles {
  import opened Grid
  import opened SnakeState

  const TileHead: string := "head"
  const TileTail: string := "tail"
  const TileBody: string := "body"
  const TileLeft: string := "_l"
  const TileRight: string := "_r"
  const TileUp: string := "_u"
  const TileDown: string := "_d"

  /**
   * `getSuffix(first, second)`: the side of `first` on which `second` lies.
   * The horizontal difference is looked at before the vertical one, and a
   * difference of more than one cell counts as a neighbour across the wrap.
   */
  function Suffix(first: Coord, second: Coord): (r: string)
    ensures r in {"", TileLeft, TileRight, TileUp, TileDown}
    ensures r in {TileLeft, TileRight} <==> first.left != second.left
    ensures r in {TileUp, TileDown} <==> first.left == second.left && first.top != second.top
  {
    var dx := first.left - second.left;
    var dy := first.top - second.top;
    if dx == -1 || dx > 1 then TileRight
    else if dx == 1 || dx < -1 then TileLeft
    else if dy == -1 || dy > 1 then TileDown
    else if dy == 1 || dy < -1 then TileUp
    else ""
  }

  /** The suffix naming a direction. */
  function DirSuffix(d: Direction): string {
    match d
    case Up => TileUp
    case Down => TileDown
    case Left => TileLeft
    case Right => TileRight
  }

  /** Swapping the two cells gives the opposite suffix. */
  function OppositeSuffix(s: string): string {
    if s == TileRight then TileLeft
    else if s == TileLeft then TileRight
    else if s == TileDown then TileUp
    else if s == TileUp then TileDown
    else s
  }

  /** The suffix is empty exactly for two equal cells. */
  lemma {:induction false} SuffixEmpty(a: Coord, b: Coord)
    ensures Suffix(a, b) == "" <==> a == b
  {
    if a != b {
      assert a.left != b.left || a.top != b.top;
    }
  }

  lemma {:induction false} SuffixSwap(a: Coord, b: Coord)
    ensures Suffix(b, a) == OppositeSuffix(Suffix(a, b))
  {
  }

  /**
   * For a board wider than two cells the suffix of a torus neighbour names
   * the direction of the step, whether or not the step crosses the wrap; seen
   * from the neighbour, it names the opposite direction.
   */
  lemma {:induction false} SuffixOfStep(a: Coord, d: Direction, size: int)
    requires 2 < size && InBounds(a, size)
    ensures Suffix(a, NextPosition(a, d, size)) == DirSuffix(d)
    ensures Suffix(NextPosition(a, d, size), a) == DirSuffix(Opposite(d))
  {
    var b := NextPosition(a, d, size);
    match d
    case Up =>
      assert b.left == a.left;
      assert b.top == a.top - 1 || (a.top == 0 && b.top == size - 1);
    case Down =>
      assert b.left == a.left;
      assert b.top == a.top + 1 || (a.top == size - 1 && b.top == 0);
    case Left =>
      assert b.left == a.left - 1 || (a.left == 0 && b.left == size - 1);
    case Right =>
      assert b.left == a.left + 1 || (a.left == size - 1 && b.left == 0);
  }

  /** The head (0, 0) and the wrap neighbour (0, size - 1) on its left: "_l". */
  lemma {:induction false} WrapNeighbourSuffix(size: int)
    requires 2 < size
    ensures Coord(0, size - 1) == NextPosition(Coord(0, 0), Left, size)
    ensures Suffix(Coord(0, 0), Coord(0, size - 1)) == TileLeft
  {
  }

  /**
   * The name of segment i's tile: tail, head, or body. On a valid body the
   * name points at the neighbouring segments: the tail towards the segment
   * after it, the head back towards the segment before it, and a body
   * segment first towards the one before it and then towards the one after.
   */
  function TileName(coords: seq<Coord>, i: int): (r: string)
    requires 2 <= |coords| && 0 <= i < |coords|
    ensures |r| >= 4
    ensures r[..4] == if i == 0 then TileTail else if i == |coords| - 1 then TileHead else TileBody
    ensures ValidBody(coords, Size) && i == 0 ==>
      forall d :: coords[1] == NextPosition(coords[0], d, Size) ==> r == TileTail + DirSuffix(d)
    ensures ValidBody(coords, Size) && i == |coords| - 1 ==>
      forall d :: coords[i] == NextPosition(coords[i - 1], d, Size) ==>
        r == TileHead + DirSuffix(Opposite(d))
    ensures ValidBody(coords, Size) && 0 < i < |coords| - 1 ==>
      forall d1, d2 ::
        coords[i] == NextPosition(coords[i - 1], d1, Size) &&
        coords[i + 1] == NextPosition(coords[i], d2, Size) ==>
        r == TileBody + DirSuffix(Opposite(d1)) + DirSuffix(d2)
  {
    if i == 0 then
      assert ValidBody(coords, Size) ==>
        forall d :: coords[1] == NextPosition(coords[0], d, Size) ==>
          Suffix(coords[0], coords[1]) == DirSuffix(d) by {
        if ValidBody(coords, Size) {
          forall d | coords[1] == NextPosition(coords[0], d, Size)
            ensures Suffix(coords[0], coords[1]) == DirSuffix(d)
          {
            SuffixOfStep(coords[0], d, Size);
          }
        }
      }
      TileTail + Suffix(coords[0], coords[1])
    else if i == |coords| - 1 then
      assert ValidBody(coords, Size) ==>
        forall d :: coords[i] == NextPosition(coords[i - 1], d, Size) ==>
          Suffix(coords[i], coords[i - 1]) == DirSuffix(Opposite(d)) by {
        if ValidBody(coords, Size) {
          forall d | coords[i] == NextPosition(coords[i - 1], d, Size)
            ensures Suffix(coords[i], coords[i - 1]) == DirSuffix(Opposite(d))
          {
            SuffixOfStep(coords[i - 1], d, Size);
          }
        }
      }
      TileHead + Suffix(coords[i], coords[i - 1])
    else
      assert ValidBody(coords, Size) ==>
        && (forall d1 :: coords[i] == NextPosition(coords[i - 1], d1, Size) ==>
              Suffix(coords[i], coords[i - 1]) == DirSuffix(Opposite(d1)))
        && (forall d2 :: coords[i + 1] == NextPosition(coords[i], d2, Size) ==>
              Suffix(coords[i], coords[i + 1]) == DirSuffix(d2)) by {
        if ValidBody(coords, Size) {
          forall d1 | coords[i] == NextPosition(coords[i - 1], d1, Size)
            ensures Suffix(coords[i], coords[i - 1]) == DirSuffix(Opposite(d1))
          {
            SuffixOfStep(coords[i - 1], d1, Size);
          }
          forall d2 | coords[i + 1] == NextPosition(coords[i], d2, Size)
            ensures Suffix(coords[i], coords[i + 1]) == DirSuffix(d2)
          {
            SuffixOfStep(coords[i], d2, Size);
          }
        }
      }
      TileBody + Suffix(coords[i], coords[i - 1]) + Suffix(coords[i], coords[i + 1])
  }

  /** The tile names renderSnake draws, one per segment, tail first. */
  function TileNames(coords: seq<Coord>): (r: seq<string>)
    requires 2 <= |coords|
    ensures |r| == |coords|
    ensures forall i :: 0 <= i < |r| ==>
      && |r[i]| >= 4
      && r[i][..4] == if i == 0 then TileTail else if i == |r| - 1 then TileHead else TileBody
  {
    var r := seq(|coords|, i requires 0 <= i < |coords| => TileName(coords, i));
    assert forall i :: 0 <= i < |r| ==> r[i] == TileName(coords, i);
    r
  }

  /** The tile images the page preloads. */
  const KnownTiles: seq<string> := [
    "ground", "food",
    "tail_d", "tail_u", "tail_l", "tail_r",
    "head_d", "head_u", "head_l", "head_r",
    "body_l_r", "body_r_l", "body_d_u", "body_u_d",
    "body_l_d", "body_l_u", "body_r_d", "body_r_u",
    "body_u_l", "body_u_r", "body_d_l", "body_d_r"
  ]

  lemma {:induction false} EndTilesKnown(d: Direction)
    ensures TileTail + DirSuffix(d) in KnownTiles
    ensures TileHead + DirSuffix(d) in KnownTiles
  {
    match d
    case Up =>
      assert TileTail + DirSuffix(d) == KnownTiles[3];
      assert TileHead + DirSuffix(d) == KnownTiles[7];
    case Down =>
      assert TileTail + DirSuffix(d) == KnownTiles[2];
      assert TileHead + DirSuffix(d) == KnownTiles[6];
    case Left =>
      assert TileTail + DirSuffix(d) == KnownTiles[4];
      assert TileHead + DirSuffix(d) == KnownTiles[8];
    case Right =>
      assert TileTail + DirSuffix(d) == KnownTiles[5];
      assert TileHead + DirSuffix(d) == KnownTiles[9];
  }

  lemma {:induction false} BodyTileKnown(d1: Direction, d2: Direction)
    requires d1 != d2
    ensures TileBody + DirSuffix(d1) + DirSuffix(d2) in KnownTiles
  {
    var name := TileBody + DirSuffix(d1) + DirSuffix(d2);
    match (d1, d2)
    case (Left, Right) => assert name == KnownTiles[10];
    case (Right, Left) => assert name == KnownTiles[11];
    case (Down, Up) => assert name == KnownTiles[12];
    case (Up, Down) => assert name == KnownTiles[13];
    case (Left, Down) => assert name == KnownTiles[14];
    case (Left, Up) => assert name == KnownTiles[15];
    case (Right, Down) => assert name == KnownTiles[16];
    case (Right, Up) => assert name == KnownTiles[17];
    case (Up, Left) => assert name == KnownTiles[18];
    case (Up, Right) => assert name == KnownTiles[19];
    case (Down, Left) => assert name == KnownTiles[20];
    case (Down, Right) => assert name == KnownTiles[21];
  }

  /**
   * Every tile name composed for a valid body on a board wider than two
   * cells is one of the preloaded images: its neighbours are single steps
   * away, and the two neighbours of a body segment lie on different sides
   * because the body never holds a cell twice.
   */
  lemma {:induction false} SnakeTilesKnown(parts: seq<Coord>, size: int)
    requires 2 < size && ValidBody(parts, size)
    ensures forall i :: 0 <= i < |parts| ==> TileNames(parts)[i] in KnownTiles
  {
    var names := TileNames(parts);
    forall i | 0 <= i < |parts|
      ensures names[i] in KnownTiles
    {
      var n := |parts|;
      if i == 0 {
        assert Adjacent(parts[0], parts[1], size);
        var d :| parts[1] == NextPosition(parts[0], d, size);
        SuffixOfStep(parts[0], d, size);
        EndTilesKnown(d);
      } else if i == n - 1 {
        assert Adjacent(parts[i - 1], parts[i], size);
        var d :| parts[i] == NextPosition(parts[i - 1], d, size);
        SuffixOfStep(parts[i - 1], d, size);
        EndTilesKnown(Opposite(d));
      } else {
        assert Adjacent(parts[i - 1], parts[i], size);
        assert Adjacent(parts[i], parts[i + 1], size);
        var d1 :| parts[i] == NextPosition(parts[i - 1], d1, size);
        var d2 :| parts[i + 1] == NextPosition(parts[i], d2, size);
        SuffixOfStep(parts[i - 1], d1, size);
        SuffixOfStep(parts[i], d2, size);
        if d2 == Opposite(d1) {
          // the next segment would be the previous one
          StepBack(parts[i - 1], d1, size);
          assert false;
        }
        BodyTileKnown(Opposite(d1), d2);
      }
    }
  }

  /** The freshly reset snake is drawn as tail, straight body and head, all pointing right. */
  lemma {:induction false} InitialTiles()
    ensures TileNames(InitialParts) == ["tail_r", "body_l_r", "head_l"]
  {
    assert TileName(InitialParts, 0) == "tail_r";
    assert TileName(InitialParts, 1) == "body_l_r";
    assert TileName(InitialParts, 2) == "head_l";
  }
}

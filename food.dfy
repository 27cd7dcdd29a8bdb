/**
 * The `food` object of script.js (an array of food cells) and
 * `getRandomNumber`, which places new food.
 */
module FoodPool {
  import opened Grid

  /** `FOOD_MAX`: the number of food items on the board. */
  const FoodMax: int := 3

  /** `Math.trunc`: rounds toward zero. */
  function Trunc(x: real): (r: int)
    ensures 0.0 <= x ==> r as real <= x < r as real + 1.0
    ensures x < 0.0 ==> r as real - 1.0 < x <= r as real
  {
    if x >= 0.0 then x.Floor else -((-x).Floor)
  }

  /** `random * (max - min) + min`: a draw in [0, 1) lands in [min, max). */
  function Scaled(min: int, max: int, random: real): (x: real)
    ensures 0 <= min < max && 0.0 <= random < 1.0 ==> min as real <= x < max as real
  {
    var k := (max - min) as real;
    assert 0 <= min < max && 0.0 <= random < 1.0 ==> 0.0 <= random * k < k by {
      if 0 <= min < max && 0.0 <= random < 1.0 {
        assert k - random * k == (1.0 - random) * k;
        assert 0.0 < (1.0 - random) * k;
      }
    }
    random * k + min as real
  }

  /**
   * `getRandomNumber(min, max)` for a value `random` of `Math.random()`,
   * computed on exact reals. Every draw in [0, 1) yields a number in
   * [min, max - 1]: max itself is never reached.
   */
  function RandomNumber(min: int, max: int, random: real): (r: int)
    ensures 0 <= min < max && 0.0 <= random < 1.0 ==> min <= r < max
  {
    Trunc(Scaled(min, max, random))
  }

  /** Every number in [min, max - 1] comes from some draw in [0, 1). */
  lemma {:induction false} RandomNumberReaches(min: int, max: int, n: int)
    requires 0 <= min <= n < max
    ensures var random := (n - min) as real / (max - min) as real;
      0.0 <= random < 1.0 && RandomNumber(min, max, random) == n
  {
    var k := (max - min) as real;
    var random := (n - min) as real / k;
    assert random * k == (n - min) as real;
    assert random * k + min as real == n as real;
  }

  /** The two values of `Math.random()` that `generateItem` consumes, top first. */
  datatype Draw = Draw(top: real, left: real)

  predicate ValidDraw(d: Draw) {
    0.0 <= d.top < 1.0 && 0.0 <= d.left < 1.0
  }

  predicate ValidDraws(draws: seq<Draw>) {
    |draws| == FoodMax && forall i :: 0 <= i < |draws| ==> ValidDraw(draws[i])
  }

  /** Food lies in [0, Size - 2] on both axes: the last row and column never get food. */
  predicate InFoodRange(c: Coord) {
    0 <= c.top <= Size - 2 && 0 <= c.left <= Size - 2
  }

  /** The item `generateItem` builds from one draw. */
  function NewItem(d: Draw): (c: Coord)
    requires ValidDraw(d)
    ensures InFoodRange(c) && InBounds(c, Size)
  {
    Coord(RandomNumber(0, Size - 1, d.top), RandomNumber(0, Size - 1, d.left))
  }

  /** Every cell off the last row and column is a possible new item. */
  lemma {:induction false} NewItemReaches(c: Coord)
    requires InFoodRange(c)
    ensures exists d :: ValidDraw(d) && NewItem(d) == c
  {
    RandomNumberReaches(0, Size - 1, c.top);
    RandomNumberReaches(0, Size - 1, c.left);
    var d := Draw(c.top as real / (Size - 1) as real, c.left as real / (Size - 1) as real);
    assert NewItem(d) == c;
  }

  /**
   * `foundPosition`: the first index whose item has the same top and left as
   * p, or -1 when there is none.
   */
  function FindIndex(items: seq<Coord>, p: Coord): (r: int)
    ensures -1 <= r < |items|
    ensures r == -1 <==> p !in items
    ensures 0 <= r ==> items[r] == p && forall j :: 0 <= j < r ==> items[j] != p
  {
    if |items| == 0 then -1
    else if items[0].top == p.top && items[0].left == p.left then 0
    else
      var k := FindIndex(items[1..], p);
      if k == -1 then -1 else k + 1
  }

  /**
   * `items.splice(start, 1)`: a negative start counts from the end (and one
   * before the first item means the first), a start past the end removes
   * nothing. Otherwise exactly the item at that position is taken out and
   * the others keep their order.
   */
  function SpliceOne(s: seq<Coord>, start: int): (r: seq<Coord>)
    ensures forall x :: x in r ==> x in s
    ensures var k := if start >= 0 then start else if |s| + start < 0 then 0 else |s| + start;
      && (k < |s| ==>
            && |r| == |s| - 1
            && (forall j :: 0 <= j < k ==> r[j] == s[j])
            && (forall j :: k <= j < |r| ==> r[j] == s[j + 1]))
      && (k >= |s| ==> r == s)
  {
    var k :=
      if start < 0 then (if |s| + start < 0 then 0 else |s| + start)
      else (if start > |s| then |s| else start);
    if k < |s| then s[..k] + s[k + 1..] else s
  }

  class Food {
    var items: seq<Coord>

    constructor ()
      ensures items == []
    {
      items := [];
    }

    /** Empties the pool and generates FoodMax items, the i-th from draws[i]. */
    method Reset(draws: seq<Draw>)
      requires ValidDraws(draws)
      modifies this`items
      ensures |items| == FoodMax
      ensures forall i :: 0 <= i < FoodMax ==> items[i] == NewItem(draws[i])
    {
      items := [];
      for i := 0 to FoodMax
        invariant |items| == i
        invariant forall j :: 0 <= j < i ==> items[j] == NewItem(draws[j])
      {
        GenerateItem(draws[i]);
      }
    }

    method RemoveItem(foundPosition: int)
      modifies this`items
      ensures items == SpliceOne(old(items), foundPosition)
    {
      items := SpliceOne(items, foundPosition);
    }

    /** Appends one item; no check against existing food or the snake. */
    method GenerateItem(d: Draw)
      requires ValidDraw(d)
      modifies this`items
      ensures items == old(items) + [NewItem(d)]
    {
      items := items + [NewItem(d)];
    }
  }
}

/** Pieces: the polyomino value and its pure geometric transforms
    (getPosition, clone, cloneMoved, cloneRotatedRight, cloneRotatedLeft).

    A piece is an immutable value: every transform returns a new value, so
    a "clone" is the value itself and no two pieces can share state. */
module Pieces {

  /** The seven tetromino types, in the order the family table lists them. */
  datatype Kind = I | O | T | S | Z | J | L

  /** An integer cell offset relative to a piece's origin. */
  datatype Offset = Offset(x: int, y: int)

  /** An absolute board cell (column x, row y; rows grow downwards). */
  datatype Point = Point(x: int, y: int)

  /** A rotation pivot with half-integer coordinates, stored doubled:
      the pivot is (x2 / 2, y2 / 2). */
  datatype HalfPoint = HalfPoint(x2: int, y2: int)

  /** A pivot about which a quarter turn maps integer offsets to integer
      offsets: cx + cy (and so cy - cx) is a whole number. */
  type Pivot = c: HalfPoint | (c.x2 + c.y2) % 2 == 0 witness HalfPoint(0, 0)

  /** cx + cy of the pivot, a whole number. */
  function PivotSum(c: Pivot): int { (c.x2 + c.y2) / 2 }

  /** cy - cx of the pivot, a whole number. */
  function PivotDiff(c: Pivot): int { (c.y2 - c.x2) / 2 }

  /** A polyomino instance: its type, its offsets, its display colour
      (opaque to the logic), its rotation pivot and its origin. */
  datatype Polyomino = Polyomino(
    kind: Kind,
    shape: seq<Offset>,
    color: string,
    center: Pivot,
    x: int,
    y: int)

  /** Absolute cells occupied by `p`: its origin plus each shape offset, in
      shape order. */
  function Positions(p: Polyomino): (r: seq<Point>)
    ensures |r| == |p.shape|
    ensures forall i :: 0 <= i < |r| ==> r[i] == Point(p.x + p.shape[i].x, p.y + p.shape[i].y)
  {
    seq(|p.shape|, i requires 0 <= i < |p.shape| => Point(p.x + p.shape[i].x, p.y + p.shape[i].y))
  }

  /** A copy of `p` with its origin shifted by (dx, dy). */
  function Moved(p: Polyomino, dx: int, dy: int): (r: Polyomino)
    ensures r.kind == p.kind && r.shape == p.shape && r.color == p.color && r.center == p.center
    ensures r.x == p.x + dx && r.y == p.y + dy
  {
    p.(x := p.x + dx, y := p.y + dy)
  }

  /** A copy of `p` whose origin row is `row` (the same piece dropped or
      raised to that row). */
  function AtRow(p: Polyomino, row: int): (r: Polyomino)
    ensures r == Moved(p, 0, row - p.y)
  {
    p.(y := row)
  }

  /** One offset turned a quarter clockwise (screen coordinates) about `c`:
      (x, y) -> (cx - (y - cy), cy + (x - cx)). */
  function TurnRight(c: Pivot, o: Offset): Offset
  {
    Offset(PivotSum(c) - o.y, PivotDiff(c) + o.x)
  }

  /** One offset turned a quarter anticlockwise about `c`:
      (x, y) -> (cx + (y - cy), cy - (x - cx)). */
  function TurnLeft(c: Pivot, o: Offset): Offset
  {
    Offset(o.y - PivotDiff(c), PivotSum(c) - o.x)
  }

  /** A copy of `p` whose every offset is turned clockwise about its pivot. */
  function RotatedRight(p: Polyomino): (r: Polyomino)
    ensures r.kind == p.kind && r.color == p.color && r.center == p.center
    ensures r.x == p.x && r.y == p.y && |r.shape| == |p.shape|
  {
    p.(shape := seq(|p.shape|, i requires 0 <= i < |p.shape| => TurnRight(p.center, p.shape[i])))
  }

  /** A copy of `p` whose every offset is turned anticlockwise about its pivot. */
  function RotatedLeft(p: Polyomino): (r: Polyomino)
    ensures r.kind == p.kind && r.color == p.color && r.center == p.center
    ensures r.x == p.x && r.y == p.y && |r.shape| == |p.shape|
  {
    p.(shape := seq(|p.shape|, i requires 0 <= i < |p.shape| => TurnLeft(p.center, p.shape[i])))
  }

  // ---------------------------------------------------------------------
  // The rotation formula over the rationals, as sketch.js evaluates it
  // with the pivot's fractional coordinates.

  /** The pivot's x coordinate as a rational number. */
  function CenterX(c: HalfPoint): real { c.x2 as real / 2.0 }

  /** The pivot's y coordinate as a rational number. */
  function CenterY(c: HalfPoint): real { c.y2 as real / 2.0 }

  /** Clockwise turn of (x, y) about (cx, cy), computed on rationals. */
  function RealTurnRight(c: HalfPoint, x: real, y: real): (real, real)
  {
    (CenterX(c) - (y - CenterY(c)), CenterY(c) + (x - CenterX(c)))
  }

  /** Anticlockwise turn of (x, y) about (cx, cy), computed on rationals. */
  function RealTurnLeft(c: HalfPoint, x: real, y: real): (real, real)
  {
    (CenterX(c) + (y - CenterY(c)), CenterY(c) - (x - CenterX(c)))
  }

  /** The integer turns agree with the rational formulas: for every pivot
      whose coordinate sum is whole, turning an integer offset yields
      exactly the (integer) point the rational formula yields. */
  lemma TurnsMatchRationalFormula(c: Pivot, o: Offset)
    ensures RealTurnRight(c, o.x as real, o.y as real)
         == ((TurnRight(c, o).x) as real, (TurnRight(c, o).y) as real)
    ensures RealTurnLeft(c, o.x as real, o.y as real)
         == ((TurnLeft(c, o).x) as real, (TurnLeft(c, o).y) as real)
  {
    var k := (c.x2 + c.y2) / 2;
    assert c.x2 + c.y2 == 2 * k;
    assert c.y2 - c.x2 == 2 * (k - c.x2);
    assert PivotSum(c) == k;
    assert PivotDiff(c) == k - c.x2;
  }

  /** Turning an offset right and then left (or left and then right) about
      the same pivot gives the offset back. */
  lemma TurnsInverse(c: Pivot, o: Offset)
    ensures TurnLeft(c, TurnRight(c, o)) == o
    ensures TurnRight(c, TurnLeft(c, o)) == o
  {
  }

  /** Rotating right then left restores the piece exactly (shape, origin,
      type, colour and pivot). */
  lemma RotateRightThenLeft(p: Polyomino)
    ensures RotatedLeft(RotatedRight(p)) == p
  {
    var q := RotatedLeft(RotatedRight(p));
    forall i | 0 <= i < |p.shape|
      ensures q.shape[i] == p.shape[i]
    {
      TurnsInverse(p.center, p.shape[i]);
    }
  }

  /** Rotating left then right restores the piece exactly. */
  lemma RotateLeftThenRight(p: Polyomino)
    ensures RotatedRight(RotatedLeft(p)) == p
  {
    var q := RotatedRight(RotatedLeft(p));
    forall i | 0 <= i < |p.shape|
      ensures q.shape[i] == p.shape[i]
    {
      TurnsInverse(p.center, p.shape[i]);
    }
  }

  /** Four right rotations restore the piece: a quarter turn has order 4. */
  lemma FourRightTurnsIdentity(p: Polyomino)
    ensures RotatedRight(RotatedRight(RotatedRight(RotatedRight(p)))) == p
  {
    var q := RotatedRight(RotatedRight(RotatedRight(RotatedRight(p))));
    forall i | 0 <= i < |p.shape|
      ensures q.shape[i] == p.shape[i]
    {
      var c := p.center;
      var k := (c.x2 + c.y2) / 2;
      assert c.y2 - c.x2 == 2 * (k - c.x2);
    }
  }

  /** A rotation moves no cell of the piece relative to another except by
      the turn: distinct offsets stay distinct. */
  lemma RotationKeepsCellsDistinct(p: Polyomino)
    requires forall i, j :: 0 <= i < j < |p.shape| ==> p.shape[i] != p.shape[j]
    ensures forall i, j :: 0 <= i < j < |p.shape| ==> RotatedRight(p).shape[i] != RotatedRight(p).shape[j]
    ensures forall i, j :: 0 <= i < j < |p.shape| ==> RotatedLeft(p).shape[i] != RotatedLeft(p).shape[j]
  {
    forall i, j | 0 <= i < j < |p.shape|
      ensures RotatedRight(p).shape[i] != RotatedRight(p).shape[j]
      ensures RotatedLeft(p).shape[i] != RotatedLeft(p).shape[j]
    {
      TurnsInverse(p.center, p.shape[i]);
      TurnsInverse(p.center, p.shape[j]);
    }
  }

  /** Moving commutes with rotating: the turn acts on offsets only. */
  lemma MoveCommutesWithRotation(p: Polyomino, dx: int, dy: int)
    ensures RotatedRight(Moved(p, dx, dy)) == Moved(RotatedRight(p), dx, dy)
    ensures RotatedLeft(Moved(p, dx, dy)) == Moved(RotatedLeft(p), dx, dy)
  {
  }

  /** Moving shifts every absolute cell by (dx, dy), and moves compose. */
  lemma MovedPositions(p: Polyomino, dx: int, dy: int, ex: int, ey: int)
    ensures forall i :: 0 <= i < |p.shape| ==>
      Positions(Moved(p, dx, dy))[i] == Point(Positions(p)[i].x + dx, Positions(p)[i].y + dy)
    ensures Moved(Moved(p, dx, dy), ex, ey) == Moved(p, dx + ex, dy + ey)
    ensures Moved(p, 0, 0) == p
  {
  }
}

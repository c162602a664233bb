/** Tetrominoes: the family table (shape, pivot and colour of each type)
    and `create`, which builds a piece of a type at the spawn origin. */
module Tetrominoes {
  import opened Pieces

  /** Default spawn origin of every new piece. */
  const SpawnX: int := 4
  const SpawnY: int := 0

  /** Number of cells of every piece of the family. */
  const CellCount: nat := 4

  /** The registered types in table order (the order of the table's keys). */
  const AllKinds: seq<Kind> := [I, O, T, S, Z, J, L]

  /** Shape offsets of each type. */
  function ShapeOf(k: Kind): (r: seq<Offset>)
    ensures |r| == CellCount
  {
    match k
    case I => [Offset(0, 0), Offset(1, 0), Offset(2, 0), Offset(3, 0)]
    case O => [Offset(0, 0), Offset(1, 0), Offset(0, 1), Offset(1, 1)]
    case T => [Offset(1, 0), Offset(0, 1), Offset(1, 1), Offset(2, 1)]
    case S => [Offset(1, 0), Offset(2, 0), Offset(0, 1), Offset(1, 1)]
    case Z => [Offset(0, 0), Offset(1, 0), Offset(1, 1), Offset(2, 1)]
    case J => [Offset(0, 0), Offset(0, 1), Offset(1, 1), Offset(2, 1)]
    case L => [Offset(2, 0), Offset(0, 1), Offset(1, 1), Offset(2, 1)]
  }

  /** Rotation pivot of each type, doubled: I turns about (1.5, 0.5),
      O about (0.5, 0.5), the other five about (1, 1). Each of them is a
      Pivot, so every type turns onto whole offsets. */
  function CenterOf(k: Kind): Pivot
  {
    match k
    case I => HalfPoint(3, 1)
    case O => HalfPoint(1, 1)
    case _ => HalfPoint(2, 2)
  }

  /** Display colour of each type. */
  function ColorOf(k: Kind): string
  {
    match k
    case I => "cyan"
    case O => "yellow"
    case T => "purple"
    case S => "green"
    case Z => "red"
    case J => "blue"
    case L => "orange"
  }

  /** A fresh piece of type `k` at the spawn origin, built from the table. */
  function Create(k: Kind): (p: Polyomino)
    ensures p.kind == k && p.x == SpawnX && p.y == SpawnY
    ensures |p.shape| == CellCount && p.color == ColorOf(k)
  {
    Polyomino(k, ShapeOf(k), ColorOf(k), CenterOf(k), SpawnX, SpawnY)
  }

  /** A piece of the family: four cells. Moves and rotations keep it so. */
  predicate IsTetromino(p: Polyomino)
  {
    |p.shape| == CellCount
  }

  /** The table lists every type exactly once. */
  lemma AllKindsListsEachOnce(k: Kind)
    ensures k in AllKinds
    ensures multiset(AllKinds)[k] == 1
  {
    match k
    case I =>
    case O =>
    case T =>
    case S =>
    case Z =>
    case J =>
    case L =>
  }

  /** Every table shape has four distinct cells, and its rotations (in
      either direction) do too: no table piece collapses when turned. */
  lemma TableShapesRotateCleanly(k: Kind)
    ensures forall i, j :: 0 <= i < j < |ShapeOf(k)| ==> ShapeOf(k)[i] != ShapeOf(k)[j]
    ensures forall i, j :: 0 <= i < j < CellCount ==>
      RotatedRight(Create(k)).shape[i] != RotatedRight(Create(k)).shape[j]
    ensures forall i, j :: 0 <= i < j < CellCount ==>
      RotatedLeft(Create(k)).shape[i] != RotatedLeft(Create(k)).shape[j]
  {
    RotationKeepsCellsDistinct(Create(k));
  }

  /** For every table type, turning each offset with the rational formula
      about the table's fractional pivot lands on the integer offsets the
      model computes. */
  lemma TableRotatesToIntegers(k: Kind, i: nat)
    requires i < CellCount
    ensures RealTurnRight(CenterOf(k), ShapeOf(k)[i].x as real, ShapeOf(k)[i].y as real)
         == (RotatedRight(Create(k)).shape[i].x as real, RotatedRight(Create(k)).shape[i].y as real)
    ensures RealTurnLeft(CenterOf(k), ShapeOf(k)[i].x as real, ShapeOf(k)[i].y as real)
         == (RotatedLeft(Create(k)).shape[i].x as real, RotatedLeft(Create(k)).shape[i].y as real)
  {
    TurnsMatchRationalFormula(CenterOf(k), ShapeOf(k)[i]);
  }
}

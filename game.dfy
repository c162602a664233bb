/** Engine: the game session (class Game in sketch.js) — the piece under
    control, the queued piece, the hold slot, the ghost projection and
    gravity. The host's clock is the `now` argument; the shuffle draws a
    spawn may need are the `draws` argument. */
module Engine {
  import opened Pieces
  import opened Tetrominoes
  import opened Bag
  import opened Boards

  datatype Option<T> = None | Some(value: T)

  /** Gravity period in milliseconds. */
  const GravityMs: int := 1000

  /** The part of a session's state that player input can change: the
      pieces, the hold slot and flag, and the factory's bag. */
  datatype Snapshot = Snapshot(
    current: Polyomino,
    next: Polyomino,
    hold: Option<Polyomino>,
    canHold: bool,
    ghostPiece: Polyomino,
    bag: seq<Kind>)

  /** A piece moved back to the spawn origin, keeping its rotation. */
  function AtSpawn(p: Polyomino): (r: Polyomino)
    ensures r == Moved(p, SpawnX - p.x, SpawnY - p.y)
  {
    p.(x := SpawnX, y := SpawnY)
  }

  /** The projection loop of updateGhost: starting from `p`, move a copy
      down one row at a time while the next row fits on board `b`; the last
      fitting position is where `p` lands. */
  method Project(b: Board, p: Polyomino) returns (q: Polyomino)
    requires b.Valid() && IsTetromino(p)
    ensures Landing(b.grid, b.width, b.height, p, q)
  {
    q := p;
    PassesStart(b.grid, b.width, b.height, p);
    while b.CanPlace(Moved(q, 0, 1))
      invariant Passes(b.grid, b.width, b.height, p, q)
      decreases b.height - q.y - q.shape[0].y
    {
      assert Positions(Moved(q, 0, 1))[0].y < b.height;
      PassesStep(b.grid, b.width, b.height, p, q);
      q := Moved(q, 0, 1);
    }
  }

  class Game {
    const board: Board
    const factory: Factory

    var current: Polyomino
    var next: Polyomino
    var hold: Option<Polyomino>
    var canHold: bool
    var ghostPiece: Polyomino
    var dropInterval: int
    var lastDropTime: int
    /** Set when a freshly spawned piece collides; sketch.js stores a
        GameOverState in a field nothing reads, so it blocks nothing. */
    var gameOver: bool

    /** The session invariant: the board keeps its shape, the bag holds
        distinct types, every piece has four cells and the queued piece is
        fresh from the factory (at the spawn origin, unrotated). */
    ghost predicate Valid()
      reads this, board, factory
    {
      board.Valid() && factory.Valid() &&
      IsTetromino(current) && IsTetromino(ghostPiece) &&
      next == Create(next.kind) &&
      (hold.Some? ==> IsTetromino(hold.value))
    }

    /** The session's input-facing state as a value. */
    ghost function View(): Snapshot
      reads this, factory
    {
      Snapshot(current, next, hold, canHold, ghostPiece, factory.bag)
    }

    /** The ghost is where the current piece would land on the board. */
    ghost predicate GhostAccurate()
      reads this, board
      requires board.Valid()
    {
      Landing(board.grid, board.width, board.height, current, ghostPiece)
    }

    /** The session starts with two pieces from the bag, an empty hold slot
        and a computed ghost. */
    constructor(factory: Factory, board: Board, now: int, first: Draws, second: Draws)
      requires factory.Valid() && board.Valid()
      modifies factory
      ensures Valid() && GhostAccurate()
      ensures this.factory == factory && this.board == board
      ensures current.kind == Draw(old(factory.bag), Shuffled(first)).0
      ensures current == Create(current.kind)
      ensures (next.kind, factory.bag) == Draw(Draw(old(factory.bag), Shuffled(first)).1, Shuffled(second))
      ensures hold == None && canHold && !gameOver
      ensures dropInterval == GravityMs && lastDropTime == now
      ensures board.grid == old(board.grid)
    {
      var c := factory.CreateSevenBag(first);
      var n := factory.CreateSevenBag(second);
      var g := Project(board, c);
      this.factory := factory;
      this.board := board;
      current := c;
      next := n;
      hold := None;
      canHold := true;
      ghostPiece := g;
      dropInterval := GravityMs;
      lastDropTime := now;
      gameOver := false;
    }

    /** updateGhost: the ghost is recomputed from the current piece. */
    method UpdateGhost()
      requires Valid()
      modifies this`ghostPiece
      ensures Valid() && GhostAccurate()
    {
      ghostPiece := Project(board, current);
    }

    /** move: commit the moved piece if it can be placed; report whether it
        was. */
    method Move(dx: int, dy: int) returns (moved: bool)
      requires Valid()
      modifies this`current
      ensures Valid()
      ensures moved == board.CanPlace(Moved(old(current), dx, dy))
      ensures current == if moved then Moved(old(current), dx, dy) else old(current)
      ensures board.CanPlace(old(current)) ==> board.CanPlace(current)
    {
      var candidate := Moved(current, dx, dy);
      if board.CanPlace(candidate) {
        current := candidate;
        return true;
      }
      return false;
    }

    /** rotateRight: commit the clockwise turn if it can be placed (no kicks). */
    method RotateRight()
      requires Valid()
      modifies this`current
      ensures Valid()
      ensures current == if board.CanPlace(RotatedRight(old(current))) then RotatedRight(old(current)) else old(current)
      ensures board.CanPlace(old(current)) ==> board.CanPlace(current)
    {
      var rotated := RotatedRight(current);
      if board.CanPlace(rotated) {
        current := rotated;
      }
    }

    /** rotateLeft: commit the anticlockwise turn if it can be placed. */
    method RotateLeft()
      requires Valid()
      modifies this`current
      ensures Valid()
      ensures current == if board.CanPlace(RotatedLeft(old(current))) then RotatedLeft(old(current)) else old(current)
      ensures board.CanPlace(old(current)) ==> board.CanPlace(current)
    {
      var rotated := RotatedLeft(current);
      if board.CanPlace(rotated) {
        current := rotated;
      }
    }

    /** spawnNext: the queued piece becomes current, a new one is queued from
        the bag, holding is allowed again and the ghost is recomputed. */
    method SpawnNext(draws: Draws)
      requires Valid()
      modifies this`current, this`next, this`canHold, this`ghostPiece, factory
      ensures Valid() && GhostAccurate()
      ensures current == old(next) && canHold
      ensures (next.kind, factory.bag) == Draw(old(factory.bag), Shuffled(draws))
    {
      current := next;
      next := factory.CreateSevenBag(draws);
      canHold := true;
      UpdateGhost();
    }

    /** swapHold: at most once per spawned piece, exchange the current piece
        with the held one (or stash it and take the queued piece when the
        slot is empty), then put the new current piece at the spawn origin.
        The held piece keeps the position and rotation it had. */
    method SwapHold(draws: Draws)
      requires Valid()
      modifies this`current, this`next, this`hold, this`canHold, this`ghostPiece, factory
      ensures Valid() && !canHold
      ensures !old(canHold) ==>
        current == old(current) && next == old(next) && hold == old(hold) &&
        ghostPiece == old(ghostPiece) && factory.bag == old(factory.bag)
      ensures old(canHold) ==> hold == Some(old(current))
      ensures old(canHold) && old(hold).Some? ==>
        current == AtSpawn(old(hold).value) && next == old(next) &&
        ghostPiece == old(ghostPiece) && factory.bag == old(factory.bag)
      ensures old(canHold) && old(hold).None? ==>
        current == old(next) && GhostAccurate() &&
        (next.kind, factory.bag) == Draw(old(factory.bag), Shuffled(draws))
    {
      if canHold {
        if hold.Some? {
          var held := hold.value;
          hold := Some(current);
          current := held;
        } else {
          hold := Some(current);
          SpawnNext(draws);
        }
        current := AtSpawn(current);
        canHold := false;
      }
    }

    /** The lock step of update: fix the piece into the grid, clear full
        rows, spawn the queued piece and flag game over when it does not fit. */
    method Lock(draws: Draws)
      requires Valid()
      modifies this`current, this`next, this`canHold, this`ghostPiece, this`gameOver, board, factory
      ensures Valid() && GhostAccurate()
      ensures board.grid == Cleared(Stamp(old(board.grid), board.width, board.height, Positions(old(current)),
                                          Block(old(current).kind, old(current).color)), board.width, board.height)
      ensures current == old(next) && canHold
      ensures (next.kind, factory.bag) == Draw(old(factory.bag), Shuffled(draws))
      ensures gameOver == (old(gameOver) || !board.CanSpawn(current))
    {
      board.Fix(current);
      var _ := board.ClearLines();
      SpawnNext(draws);
      if !board.CanSpawn(current) {
        gameOver := true;
      }
    }

    /** The gravity step of update: move the piece down one row, or lock it
        when that row does not fit. A successful step leaves the ghost as it
        was, which is still where the piece lands. */
    method Fall(draws: Draws)
      requires Valid()
      modifies this`current, this`next, this`canHold, this`ghostPiece, this`gameOver, board, factory
      ensures Valid()
      ensures old(board.CanPlace(Moved(current, 0, 1))) ==>
        current == Moved(old(current), 0, 1) && next == old(next) && canHold == old(canHold) &&
        ghostPiece == old(ghostPiece) && gameOver == old(gameOver) &&
        board.grid == old(board.grid) && factory.bag == old(factory.bag)
      ensures !old(board.CanPlace(Moved(current, 0, 1))) ==>
        board.grid == Cleared(Stamp(old(board.grid), board.width, board.height, Positions(old(current)),
                                    Block(old(current).kind, old(current).color)), board.width, board.height) &&
        current == old(next) && canHold && GhostAccurate() &&
        (next.kind, factory.bag) == Draw(old(factory.bag), Shuffled(draws)) &&
        gameOver == (old(gameOver) || !board.CanSpawn(current))
      ensures old(GhostAccurate()) ==> GhostAccurate()
    {
      ghost var before := current;
      var moved := Move(0, 1);
      if !moved {
        Lock(draws);
      } else if old(GhostAccurate()) {
        LandingAfterStepDown(board.grid, board.width, board.height, before, ghostPiece);
      }
    }

    /** update: once more than `dropInterval` milliseconds have passed since
        the last gravity tick, record the tick and take a gravity step. The
        host's clock is read twice: `now` for the test, `tickAt` for the
        recorded tick. */
    method Update(now: int, tickAt: int, draws: Draws)
      requires Valid()
      modifies this`current, this`next, this`canHold, this`ghostPiece, this`gameOver, this`lastDropTime, board, factory
      ensures Valid()
      ensures !(now - old(lastDropTime) > dropInterval) ==>
        current == old(current) && next == old(next) && canHold == old(canHold) &&
        ghostPiece == old(ghostPiece) && lastDropTime == old(lastDropTime) && gameOver == old(gameOver) &&
        board.grid == old(board.grid) && factory.bag == old(factory.bag)
      ensures now - old(lastDropTime) > dropInterval ==> lastDropTime == tickAt
      ensures now - old(lastDropTime) > dropInterval && old(board.CanPlace(Moved(current, 0, 1))) ==>
        current == Moved(old(current), 0, 1) && next == old(next) && canHold == old(canHold) &&
        ghostPiece == old(ghostPiece) && gameOver == old(gameOver) &&
        board.grid == old(board.grid) && factory.bag == old(factory.bag)
      ensures now - old(lastDropTime) > dropInterval && !old(board.CanPlace(Moved(current, 0, 1))) ==>
        board.grid == Cleared(Stamp(old(board.grid), board.width, board.height, Positions(old(current)),
                                    Block(old(current).kind, old(current).color)), board.width, board.height) &&
        current == old(next) && canHold && GhostAccurate() &&
        (next.kind, factory.bag) == Draw(old(factory.bag), Shuffled(draws)) &&
        gameOver == (old(gameOver) || !board.CanSpawn(current))
      ensures old(GhostAccurate()) ==> GhostAccurate()
    {
      if now - lastDropTime > dropInterval {
        lastDropTime := tickAt;
        Fall(draws);
      }
    }
  }
}

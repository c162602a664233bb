/** Input: the keyboard handler (class InputHandler in sketch.js) — which
    key does what to the session, and the auto-repeat of held keys. The
    host's clock readings are passed in as arguments. */
module Input {
  import opened Pieces
  import opened Bag
  import opened Boards
  import opened Engine

  /** Delay before a held horizontal key starts repeating (ms). */
  const DasMs: int := 150
  /** Interval between repeats of a held horizontal key (ms). */
  const ArrMs: int := 30
  /** Interval between repeats of a held soft-drop key (ms). */
  const SdiMs: int := 50

  /** Shuffle draws handed to keys that never take a piece from the bag:
      only the hold key can, and auto-repeat never presses it. */
  const IdleDraws: Draws := [0, 0, 0, 0, 0, 0]

  /** What the handler remembers about a held key. */
  datatype KeyState = KeyState(timePressed: int, lastAct: int)

  // ---------------------------------------------------------------------
  // Key names are compared in lower case (letters A-Z only).

  function LowerChar(c: char): (r: char)
    ensures 'A' <= c <= 'Z' ==> r as int == c as int + 32
    ensures !('A' <= c <= 'Z') ==> r == c
    ensures !('A' <= r <= 'Z')
  {
    if 'A' <= c <= 'Z' then (c as int + 32) as char else c
  }

  /** A key name with no upper-case letter. */
  predicate IsLower(s: string)
  {
    forall i :: 0 <= i < |s| ==> !('A' <= s[i] <= 'Z')
  }

  /** toLowerCase on key names. */
  function ToLower(s: string): (r: string)
    ensures |r| == |s| && IsLower(r)
    ensures forall i :: 0 <= i < |s| ==> r[i] == LowerChar(s[i])
  {
    seq(|s|, i requires 0 <= i < |s| => LowerChar(s[i]))
  }

  /** Lower-casing changes nothing in a lower-case name, so it is idempotent. */
  lemma ToLowerIdempotent(s: string)
    ensures IsLower(s) ==> ToLower(s) == s
    ensures ToLower(ToLower(s)) == ToLower(s)
  {
  }

  // ---------------------------------------------------------------------
  // What one key press does to the session

  /** The actions bound to keys. */
  datatype Action = Drop | Left | Down | Right | Clockwise | Anticlockwise | Hold

  /** The key bindings: w hard-drops, a / s / d move left / down / right,
      e / q turn clockwise / anticlockwise, c uses the hold slot; any other
      key is bound to nothing. */
  function ActionOf(key: string): (r: Option<Action>)
    ensures r.Some? ==> |key| == 1 && IsLower(key)
  {
    if key == "w" then Some(Drop)
    else if key == "a" then Some(Left)
    else if key == "s" then Some(Down)
    else if key == "d" then Some(Right)
    else if key == "e" then Some(Clockwise)
    else if key == "q" then Some(Anticlockwise)
    else if key == "c" then Some(Hold)
    else None
  }

  /** The key each action is bound to. */
  function KeyOf(a: Action): (k: string)
    ensures |k| == 1 && IsLower(k)
  {
    match a
    case Drop => "w"
    case Left => "a"
    case Down => "s"
    case Right => "d"
    case Clockwise => "e"
    case Anticlockwise => "q"
    case Hold => "c"
  }

  /** Every action has exactly one key: the binding table is a bijection
      between the seven keys and the seven actions. */
  lemma BindingsRoundTrip(a: Action, key: string)
    ensures ActionOf(KeyOf(a)) == Some(a)
    ensures ActionOf(key) == Some(a) ==> key == KeyOf(a)
  {
  }

  /** A move or turn is committed only if the new position fits. */
  function Tried(g: Grid, w: nat, h: nat, from: Polyomino, to: Polyomino): Polyomino
    requires WellShaped(g, w, h)
  {
    if Fits(g, w, h, Positions(to)) then to else from
  }

  /** The hold key: once per spawned piece, swap with the held piece (moved
      back to the spawn origin) or, with the slot empty, stash the piece
      and take the queued one; the queue is refilled from the bag. */
  ghost predicate Swapped(s: Snapshot, t: Snapshot, draws: Draws)
  {
    !t.canHold &&
    (!s.canHold ==>
      t.current == s.current && t.next == s.next && t.hold == s.hold && t.bag == s.bag) &&
    (s.canHold ==> t.hold == Some(s.current)) &&
    (s.canHold && s.hold.Some? ==>
      t.current == AtSpawn(s.hold.value) && t.next == s.next && t.bag == s.bag) &&
    (s.canHold && s.hold.None? ==>
      t.current == s.next && (t.next.kind, t.bag) == Draw(s.bag, Shuffled(draws)))
  }

  /** Where the piece is after action `a` (other than hold) on grid `g`. */
  ghost predicate Acted(g: Grid, w: nat, h: nat, a: Option<Action>, p: Polyomino, q: Polyomino)
    requires WellShaped(g, w, h)
  {
    match a
    case None => q == p
    case Some(Drop) => Landing(g, w, h, p, q)
    case Some(Left) => q == Tried(g, w, h, p, Moved(p, -1, 0))
    case Some(Down) => q == Tried(g, w, h, p, Moved(p, 0, 1))
    case Some(Right) => q == Tried(g, w, h, p, Moved(p, 1, 0))
    case Some(Clockwise) => q == Tried(g, w, h, p, RotatedRight(p))
    case Some(Anticlockwise) => q == Tried(g, w, h, p, RotatedLeft(p))
    case Some(Hold) => true
  }

  /** The effect of action `a` on a session in state `s`, leaving it in
      state `t`, on grid `g`: the hold action swaps, every other action
      moves the current piece only, and in every case the ghost is
      recomputed. */
  ghost predicate Responds(g: Grid, w: nat, h: nat, a: Option<Action>, s: Snapshot, t: Snapshot, draws: Draws)
    requires WellShaped(g, w, h)
  {
    Landing(g, w, h, t.current, t.ghostPiece) &&
    Acted(g, w, h, a, s.current, t.current) &&
    (a == Some(Hold) ==> Swapped(s, t, draws)) &&
    (a != Some(Hold) ==>
      t.next == s.next && t.hold == s.hold && t.canHold == s.canHold && t.bag == s.bag)
  }

  /** Moves, turns and drops never take the piece to a position that does
      not fit, when it started from one that does. */
  lemma ActedKeepsFit(g: Grid, w: nat, h: nat, a: Option<Action>, p: Polyomino, q: Polyomino)
    requires WellShaped(g, w, h) && a != Some(Hold)
    requires Acted(g, w, h, a, p, q) && Fits(g, w, h, Positions(p))
    ensures Fits(g, w, h, Positions(q))
  {
    if a == Some(Drop) {
      LandingFits(g, w, h, p, q);
    }
  }

  /** A hard drop lands exactly where the ghost showed, when the ghost was
      up to date before the key was pressed. */
  lemma HardDropMeetsGhost(g: Grid, w: nat, h: nat, s: Snapshot, t: Snapshot, draws: Draws)
    requires WellShaped(g, w, h)
    requires Responds(g, w, h, Some(Drop), s, t, draws)
    requires Landing(g, w, h, s.current, s.ghostPiece)
    ensures t.current == s.ghostPiece
  {
    LandingUnique(g, w, h, s.current, t.current, s.ghostPiece);
  }

  /** After a hard drop the piece is its own ghost: it cannot move down,
      and a further press of w or s leaves it where it is. */
  lemma HardDropSettles(g: Grid, w: nat, h: nat, s: Snapshot, t: Snapshot, u: Snapshot, a: Option<Action>, draws: Draws)
    requires WellShaped(g, w, h)
    requires Responds(g, w, h, Some(Drop), s, t, draws)
    requires a == Some(Drop) || a == Some(Down)
    requires Responds(g, w, h, a, t, u, draws)
    ensures t.ghostPiece == t.current
    ensures u.current == t.current
  {
    var q := t.current;
    assert Landing(g, w, h, q, q) by {
      assert AtRow(q, q.y) == q;
    }
    LandingUnique(g, w, h, q, q, t.ghostPiece);
    if a == Some(Drop) {
      LandingUnique(g, w, h, q, q, u.current);
    }
  }

  /** A step left that succeeded is undone by a step right (the piece came
      from a position that fits), and vice versa. */
  lemma StepBackRestores(g: Grid, w: nat, h: nat, p: Polyomino, dx: int)
    requires WellShaped(g, w, h)
    requires Fits(g, w, h, Positions(p))
    requires Fits(g, w, h, Positions(Moved(p, dx, 0)))
    ensures Tried(g, w, h, Moved(p, dx, 0), Moved(Moved(p, dx, 0), -dx, 0)) == p
  {
    assert Moved(Moved(p, dx, 0), -dx, 0) == p;
  }

  /** A clockwise turn that succeeded is undone by an anticlockwise one, and
      the other way round. */
  lemma TurnBackRestores(g: Grid, w: nat, h: nat, p: Polyomino)
    requires WellShaped(g, w, h)
    requires Fits(g, w, h, Positions(p))
    ensures Fits(g, w, h, Positions(RotatedRight(p))) ==>
      Tried(g, w, h, RotatedRight(p), RotatedLeft(RotatedRight(p))) == p
    ensures Fits(g, w, h, Positions(RotatedLeft(p))) ==>
      Tried(g, w, h, RotatedLeft(p), RotatedRight(RotatedLeft(p))) == p
  {
    RotateRightThenLeft(p);
    RotateLeftThenRight(p);
  }

  // ---------------------------------------------------------------------
  // Auto-repeat

  /** A held horizontal key repeats once the delay has passed since it was
      pressed and the interval has passed since it last acted. */
  predicate RepeatDue(st: KeyState, now: int): (due: bool)
    ensures due <==> now >= st.timePressed + DasMs && now >= st.lastAct + ArrMs
  {
    now - st.timePressed >= DasMs && now - st.lastAct >= ArrMs
  }

  /** A held soft-drop key repeats once its interval has passed since it
      last acted; it has no initial delay. */
  predicate SoftDropDue(st: KeyState, now: int): (due: bool)
    ensures due <==> now >= st.lastAct + SdiMs
  {
    now - st.lastAct >= SdiMs
  }

  /** `key`'s entry after a repeat check at `now` that fires or not. */
  function Touched(m: map<string, KeyState>, key: string, fire: bool, now: int): map<string, KeyState>
  {
    if fire && key in m then m[key := m[key].(lastAct := now)] else m
  }

  /** The held-key table after one auto-repeat pass at `now`: a, then d,
      under the horizontal rule, then s under the soft-drop rule. */
  function Repeated(m: map<string, KeyState>, now: int): (r: map<string, KeyState>)
    ensures r.Keys == m.Keys
    ensures !AnyDue(m, now) ==> r == m
  {
    var m1 := Touched(m, "a", "a" in m && RepeatDue(m["a"], now), now);
    var m2 := Touched(m1, "d", "d" in m1 && RepeatDue(m1["d"], now), now);
    Touched(m2, "s", "s" in m2 && SoftDropDue(m2["s"], now), now)
  }

  /** A repeat check of `key` leaves every other key's entry alone. */
  lemma TouchedKeepsOthers(m: map<string, KeyState>, key: string, fire: bool, now: int, other: string)
    requires other != key
    ensures (other in Touched(m, key, fire, now)) == (other in m)
    ensures other in m ==> Touched(m, key, fire, now)[other] == m[other]
  {
  }

  /** One repeat check of the held key `key` at `now`, taking the table
      from `m` to `m'` and the session from `s` to `t`: the key fires
      exactly when it is held and due (under the horizontal rule, or the
      soft-drop rule), a key that fires is handled and gets `now` as its
      last action, and a key that does not fire changes nothing. */
  ghost predicate RepeatStep(g: Grid, w: nat, h: nat, key: string, horizontal: bool, now: int,
                             m: map<string, KeyState>, m': map<string, KeyState>, s: Snapshot, t: Snapshot, fired: bool)
    requires WellShaped(g, w, h)
  {
    fired == (key in m && if horizontal then RepeatDue(m[key], now) else SoftDropDue(m[key], now)) &&
    m' == Touched(m, key, fired, now) &&
    (fired ==> Responds(g, w, h, ActionOf(key), s, t, IdleDraws)) &&
    (!fired ==> t == s)
  }

  /** The three repeat checks of one pass, each described on its own by
      the table before it, compose into RepeatedPiece judged on the table
      before the pass; if any key fired, the last one recomputed the
      ghost. */
  lemma RepeatPassMoves(g: Grid, w: nat, h: nat, now: int, m0: map<string, KeyState>, m1: map<string, KeyState>,
                        m2: map<string, KeyState>, m3: map<string, KeyState>, s0: Snapshot, s1: Snapshot, s2: Snapshot, s3: Snapshot,
                        fa: bool, fd: bool, fs: bool)
    requires WellShaped(g, w, h)
    requires RepeatStep(g, w, h, "a", true, now, m0, m1, s0, s1, fa)
    requires RepeatStep(g, w, h, "d", true, now, m1, m2, s1, s2, fd)
    requires RepeatStep(g, w, h, "s", false, now, m2, m3, s2, s3, fs)
    ensures m3 == Repeated(m0, now)
    ensures s3.current == RepeatedPiece(g, w, h, m0, now, s0.current)
    ensures AnyDue(m0, now) ==> Landing(g, w, h, s3.current, s3.ghostPiece)
    ensures !AnyDue(m0, now) ==> s3 == s0
    ensures s3.next == s0.next && s3.hold == s0.hold && s3.canHold == s0.canHold && s3.bag == s0.bag
  {
    assert ActionOf("a") == Some(Left) && ActionOf("d") == Some(Right) && ActionOf("s") == Some(Down);
    TouchedKeepsOthers(m0, "a", fa, now, "d");
    TouchedKeepsOthers(m0, "a", fa, now, "s");
    TouchedKeepsOthers(m1, "d", fd, now, "s");
  }

  /** Some held key is due to repeat at `now`. */
  predicate AnyDue(m: map<string, KeyState>, now: int)
  {
    ("a" in m && RepeatDue(m["a"], now)) ||
    ("d" in m && RepeatDue(m["d"], now)) ||
    ("s" in m && SoftDropDue(m["s"], now))
  }

  /** A key that was pressed and handled at `t0` (both clock readings of
      onKeyDown equal) first repeats once the delay has passed, or for the
      soft-drop key once its interval has; after a repeat at `t1`, a key
      repeats again no sooner than one interval later. */
  lemma RepeatCadence(t0: int, t1: int, now: int)
    ensures RepeatDue(KeyState(t0, t0), now) <==> now >= t0 + DasMs
    ensures SoftDropDue(KeyState(t0, t0), now) <==> now >= t0 + SdiMs
    ensures now < t1 + ArrMs ==> !RepeatDue(KeyState(t0, t1), now)
    ensures now < t1 + SdiMs ==> !SoftDropDue(KeyState(t0, t1), now)
  {
  }

  /** Where one auto-repeat pass leaves piece `p` on grid `g`: a due a
      tries one column left, then a due d one column right, then a due s
      one row down; whether each key is due is judged on the table `m` as
      it was before the pass. A key not held never moves the piece. */
  function RepeatedPiece(g: Grid, w: nat, h: nat, m: map<string, KeyState>, now: int, p: Polyomino): (r: Polyomino)
    requires WellShaped(g, w, h)
    ensures Fits(g, w, h, Positions(p)) ==> Fits(g, w, h, Positions(r))
    ensures !AnyDue(m, now) ==> r == p
  {
    var p1 := if "a" in m && RepeatDue(m["a"], now) then Tried(g, w, h, p, Moved(p, -1, 0)) else p;
    var p2 := if "d" in m && RepeatDue(m["d"], now) then Tried(g, w, h, p1, Moved(p1, 1, 0)) else p1;
    if "s" in m && SoftDropDue(m["s"], now) then Tried(g, w, h, p2, Moved(p2, 0, 1)) else p2
  }

  /** An auto-repeat pass keeps the set of held keys and their press times,
      stamps `now` as the last action of exactly the keys that were due,
      and leaves every other key's entry alone. */
  lemma RepeatedStamps(m: map<string, KeyState>, now: int)
    ensures Repeated(m, now).Keys == m.Keys
    ensures forall k :: k in m ==> Repeated(m, now)[k].timePressed == m[k].timePressed
    ensures "a" in m ==>
      Repeated(m, now)["a"].lastAct == if RepeatDue(m["a"], now) then now else m["a"].lastAct
    ensures "d" in m ==>
      Repeated(m, now)["d"].lastAct == if RepeatDue(m["d"], now) then now else m["d"].lastAct
    ensures "s" in m ==>
      Repeated(m, now)["s"].lastAct == if SoftDropDue(m["s"], now) then now else m["s"].lastAct
    ensures forall k :: k in m && k != "a" && k != "d" && k != "s" ==> Repeated(m, now)[k] == m[k]
    ensures !AnyDue(m, now) ==> Repeated(m, now) == m
  {
    assert "a" != "d" && "a" != "s" && "d" != "s";
  }

  class InputHandler {
    const game: Game
    /** The keys currently held, by lower-case name. */
    var pressed: map<string, KeyState>

    ghost predicate Valid()
      reads this, game, game.board, game.factory
    {
      game.Valid() && forall k :: k in pressed ==> IsLower(k)
    }

    constructor(game: Game)
      requires game.Valid()
      ensures Valid() && this.game == game && pressed == map[]
    {
      this.game := game;
      pressed := map[];
    }

    /** The w key: move down one row at a time while the move succeeds. */
    method HardDrop()
      requires Valid()
      modifies game`current
      ensures Valid()
      ensures Landing(game.board.grid, game.board.width, game.board.height, old(game.current), game.current)
    {
      ghost var start := game.current;
      ghost var g, w, h := game.board.grid, game.board.width, game.board.height;
      PassesStart(g, w, h, start);
      var moved := game.Move(0, 1);
      if moved {
        PassesStep(g, w, h, start, start);
      }
      while moved
        invariant game.Valid()
        invariant Passes(g, w, h, start, game.current)
        invariant moved ==> Fits(g, w, h, Positions(game.current))
        invariant !moved ==> !Fits(g, w, h, Positions(Moved(game.current, 0, 1)))
        decreases h - game.current.y - game.current.shape[0].y, moved
      {
        ghost var here := game.current;
        assert Positions(here)[0].y < h;
        moved := game.Move(0, 1);
        if moved {
          PassesStep(g, w, h, start, here);
        }
      }
    }

    /** The moves of handle: every action but hold changes only the current
        piece. */
    method Shift(a: Option<Action>)
      requires Valid() && a != Some(Hold)
      modifies game`current
      ensures Valid()
      ensures Acted(game.board.grid, game.board.width, game.board.height, a, old(game.current), game.current)
    {
      if a == Some(Drop) {
        HardDrop();
      } else if a == Some(Left) {
        var _ := game.Move(-1, 0);
      } else if a == Some(Down) {
        var _ := game.Move(0, 1);
      } else if a == Some(Right) {
        var _ := game.Move(1, 0);
      } else if a == Some(Clockwise) {
        game.RotateRight();
      } else if a == Some(Anticlockwise) {
        game.RotateLeft();
      }
    }

    /** handle: apply the action bound to the key, then recompute the
        ghost. */
    method Handle(key: string, draws: Draws)
      requires Valid()
      modifies game`current, game`next, game`hold, game`canHold, game`ghostPiece, game.factory
      ensures Valid()
      ensures Responds(game.board.grid, game.board.width, game.board.height, ActionOf(key), old(game.View()), game.View(), draws)
    {
      var a := ActionOf(key);
      if a == Some(Hold) {
        game.SwapHold(draws);
      } else {
        Shift(a);
      }
      game.UpdateGhost();
    }

    /** onKeyDown: lower-case the key, start tracking it (pressed at
        `pressedAt`, never acted) unless it is already held, handle it,
        then record `actedAt` as its last action. The two times are the
        two clock readings the handler takes. */
    method OnKeyDown(key: string, pressedAt: int, actedAt: int, draws: Draws)
      requires Valid()
      modifies this`pressed, game`current, game`next, game`hold, game`canHold, game`ghostPiece, game.factory
      ensures Valid()
      ensures Responds(game.board.grid, game.board.width, game.board.height, ActionOf(ToLower(key)), old(game.View()), game.View(), draws)
      ensures pressed == old(pressed)[ToLower(key) :=
        KeyState(if ToLower(key) in old(pressed) then old(pressed)[ToLower(key)].timePressed else pressedAt, actedAt)]
    {
      var k := ToLower(key);
      if k !in pressed {
        pressed := pressed[k := KeyState(pressedAt, 0)];
      }
      Handle(k, draws);
      pressed := pressed[k := pressed[k].(lastAct := actedAt)];
    }

    /** onKeyUp: forget the (lower-cased) key. */
    method OnKeyUp(key: string)
      requires Valid()
      modifies this`pressed
      ensures Valid()
      ensures pressed == old(pressed) - {ToLower(key)}
      ensures ToLower(key) !in pressed
    {
      var k := ToLower(key);
      pressed := pressed - {k};
    }

    /** One auto-repeat check of the held key `key`, under the horizontal
        rule (delay and interval) or the soft-drop rule (interval only). */
    method Repeat(key: string, now: int, horizontal: bool) returns (fired: bool)
      requires Valid() && ActionOf(key) != Some(Hold)
      modifies this`pressed, game`current, game`next, game`hold, game`canHold, game`ghostPiece, game.factory
      ensures Valid()
      ensures RepeatStep(game.board.grid, game.board.width, game.board.height, key, horizontal, now,
                         old(pressed), pressed, old(game.View()), game.View(), fired)
      ensures game.board.CanPlace(old(game.current)) ==> game.board.CanPlace(game.current)
    {
      fired := false;
      if key in pressed {
        var state := pressed[key];
        if (if horizontal then RepeatDue(state, now) else SoftDropDue(state, now)) {
          ghost var before := game.current;
          Handle(key, IdleDraws);
          if game.board.CanPlace(before) {
            ActedKeepsFit(game.board.grid, game.board.width, game.board.height, ActionOf(key), before, game.current);
          }
          pressed := pressed[key := state.(lastAct := now)];
          fired := true;
        }
      }
    }

    /** update: repeat a held a, then a held d, under the delay and interval
        rules, then a held s under its own interval. */
    method Update(now: int)
      requires Valid()
      modifies this`pressed, game`current, game`next, game`hold, game`canHold, game`ghostPiece, game.factory
      ensures Valid()
      ensures pressed == Repeated(old(pressed), now)
      ensures game.next == old(game.next) && game.hold == old(game.hold)
      ensures game.canHold == old(game.canHold) && game.factory.bag == old(game.factory.bag)
      ensures game.current ==
        RepeatedPiece(game.board.grid, game.board.width, game.board.height, old(pressed), now, old(game.current))
      ensures AnyDue(old(pressed), now) ==> game.GhostAccurate()
      ensures !AnyDue(old(pressed), now) ==> game.View() == old(game.View())
      ensures game.board.CanPlace(old(game.current)) ==> game.board.CanPlace(game.current)
    {
      ghost var m0, s0 := pressed, game.View();
      var fa := Repeat("a", now, true);
      ghost var m1, s1 := pressed, game.View();
      var fd := Repeat("d", now, true);
      ghost var m2, s2 := pressed, game.View();
      var fs := Repeat("s", now, false);
      RepeatPassMoves(game.board.grid, game.board.width, game.board.height, now, m0, m1, m2, pressed, s0, s1, s2, game.View(), fa, fd, fs);
    }
  }
}

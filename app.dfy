// The earlier, single-file revision of the game loop: one application state
// holding grid, piece, input, flags, score and gravity period; keyboard and
// gamepad handlers with their own pause and restart rules; a count-based
// move; and an update that runs the input window and the gravity step on
// timers.  The clock is a parameter.

module App {
  import opened World
  import opened Input
  import opened Piece
  import Level

  /** inputMs: the length of the input window. */
  const InputMs := 100

  datatype Option<T> = None | Some(value: T)

  /** The keys the keyboard handler looks at; every other key is OtherKey. */
  datatype Key = KeyR | KeyEscape | KeyP | KeyLeft | KeyRight | KeyDown | KeySpace | OtherKey

  /** The gamepad buttons the gamepad handler looks at. */
  datatype PadButton =
    | Start | Back
    | DpadLeft | LeftShoulder | LeftPaddle1 | LeftPaddle2
    | DpadRight | RightShoulder | RightPaddle1 | RightPaddle2
    | DpadDown | South
    | OtherButton

  /** The pause and game-over flags. */
  datatype Flags = Flags(paused: bool, gameOver: bool)

  function KeyButton(key: Key): (id: Option<ButtonId>)
    ensures id.Some? <==> key in {KeyLeft, KeyRight, KeyDown, KeySpace}
  {
    match key
    case KeyLeft => Some(LeftButton)
    case KeyRight => Some(RightButton)
    case KeyDown => Some(DownButton)
    case KeySpace => Some(RotateButton)
    case _ => None
  }

  function PadButtonId(b: PadButton): (id: Option<ButtonId>)
    ensures id.Some? <==> b !in {Start, Back, OtherButton}
    ensures id == Some(LeftButton) <==> b in {DpadLeft, LeftShoulder, LeftPaddle1, LeftPaddle2}
    ensures id == Some(RightButton) <==> b in {DpadRight, RightShoulder, RightPaddle1, RightPaddle2}
    ensures id == Some(DownButton) <==> b == DpadDown
    ensures id == Some(RotateButton) <==> b == South
  {
    match b
    case DpadLeft | LeftShoulder | LeftPaddle1 | LeftPaddle2 => Some(LeftButton)
    case DpadRight | RightShoulder | RightPaddle1 | RightPaddle2 => Some(RightButton)
    case DpadDown => Some(DownButton)
    case South => Some(RotateButton)
    case _ => None
  }

  /** R pressed restarts, whatever the flags. */
  predicate KeyRestarts(key: Key, isDown: bool) {
    isDown && key == KeyR
  }

  /** The flags after a key event: R restarts; P or Escape flips paused
      unless the game is over; releases change nothing. */
  function KeyFlags(f: Flags, key: Key, isDown: bool): (r: Flags)
    ensures !isDown ==> r == f
    ensures KeyRestarts(key, isDown) ==> r == Flags(false, false)
    ensures f.gameOver && !KeyRestarts(key, isDown) ==> r == f
    ensures r.gameOver ==> f.gameOver
  {
    if !isDown then f
    else if key == KeyR then Flags(false, false)
    else if (key == KeyEscape || key == KeyP) && !f.gameOver then Flags(!f.paused, f.gameOver)
    else f
  }

  /** Start restarts a finished game; Back restarts any game. */
  predicate PadRestarts(f: Flags, b: PadButton, isDown: bool) {
    isDown && (b == Back || (b == Start && f.gameOver))
  }

  /** The flags after a gamepad button event: Start flips paused while the
      game runs and restarts it once over; Back restarts. */
  function PadFlags(f: Flags, b: PadButton, isDown: bool): (r: Flags)
    ensures !isDown ==> r == f
    ensures PadRestarts(f, b, isDown) ==> r == Flags(false, false)
    ensures !PadRestarts(f, b, isDown) ==> r.gameOver == f.gameOver
    ensures b !in {Start, Back} ==> r == f
    ensures isDown && b == Start && !f.gameOver ==> r == Flags(!f.paused, false)
  {
    if !isDown then f
    else if b == Start then (if !f.gameOver then Flags(!f.paused, f.gameOver) else Flags(false, false))
    else if b == Back then Flags(false, false)
    else f
  }

  /** A button report goes through only while the game runs (judged on the
      flags after the event). */
  function Gated(s: InputState, id: Option<ButtonId>, isDown: bool, running: bool): (r: InputState)
    ensures !running || id.None? ==> r == s
    ensures running && id.Some? ==>
      r.At(id.value) == Edge(s.At(id.value), isDown)
      && forall other :: other != id.value ==> r.At(other) == s.At(other)
  {
    if running && id.Some? then s.With(id.value, Edge(s.At(id.value), isDown)) else s
  }

  /** Pausing by key, or by Start while the game runs, is the same toggle as
      ToggleLevelPaused of the later revision. */
  lemma PauseKeysToggle(f: Flags)
    requires !(f.paused && f.gameOver)
    ensures KeyFlags(f, KeyP, true).paused == Level.Toggled(f.paused, f.gameOver)
    ensures KeyFlags(f, KeyEscape, true).paused == Level.Toggled(f.paused, f.gameOver)
    ensures !f.gameOver ==> PadFlags(f, Start, true).paused == Level.Toggled(f.paused, f.gameOver)
  {
  }

  /** No event makes the game paused and over at once when it was not. */
  lemma EventsKeepFlagsExclusive(f: Flags, key: Key, b: PadButton, isDown: bool)
    requires !(f.paused && f.gameOver)
    ensures var r := KeyFlags(f, key, isDown); !(r.paused && r.gameOver)
    ensures var r := PadFlags(f, b, isDown); !(r.paused && r.gameOver)
  {
  }

  // ---- The count-based move ------------------------------------------------

  /** The single candidate of this revision's move: x goes left by the down
      count of left and right by the down count of right. */
  function CountShifted(pos: Vec2i, s: InputState): (t: Vec2i)
    ensures t.y == pos.y
    ensures t.x - pos.x == DownCount(s.right.isDown, s.right.transitionCount) - DownCount(s.left.isDown, s.left.transitionCount)
  {
    Vec2i(pos.x - DownCount(s.left.isDown, s.left.transitionCount)
      + DownCount(s.right.isDown, s.right.transitionCount), pos.y)
  }

  /** When both buttons saw edges in the window, the shift is the number of
      right presses minus the number of left presses. */
  lemma CountShiftCountsPresses(pos: Vec2i, s: InputState)
    requires s.left.transitionCount > 0 && s.right.transitionCount > 0
    ensures CountShifted(pos, s).x ==
      pos.x + PressEdges(StateBefore(s.right.isDown, s.right.transitionCount), s.right.transitionCount)
        - PressEdges(StateBefore(s.left.isDown, s.left.transitionCount), s.left.transitionCount)
  {
    DownCountCountsPresses(s.left.isDown, s.left.transitionCount);
    DownCountCountsPresses(s.right.isDown, s.right.transitionCount);
  }

  /** A window in which a button was idle and released, pressed once and held,
      released once, or tapped from released. */
  predicate SingleTap(b: ButtonState) {
    (b.transitionCount == 0 && !b.isDown) || b.transitionCount == 1 || (b.transitionCount == 2 && !b.isDown)
  }

  /** On such windows the two revisions pick the same candidate. */
  lemma CountShiftMatchesPressedOnce(pos: Vec2i, s: InputState)
    requires SingleTap(s.left) && SingleTap(s.right)
    ensures CountShifted(pos, s) == Level.Shifted(pos,
      PressedOnce(s.left.isDown, s.left.transitionCount),
      PressedOnce(s.right.isDown, s.right.transitionCount))
  {
  }

  /** A held button with no new edge keeps moving the piece in this revision
      (one column per window) and not in the later one. */
  lemma HeldButtonRepeats(pos: Vec2i, s: InputState)
    requires s.left == ButtonState(true, 0) && s.right == ButtonState(false, 0)
    ensures CountShifted(pos, s) == Vec2i(pos.x - 1, pos.y)
    ensures Level.Shifted(pos,
      PressedOnce(s.left.isDown, s.left.transitionCount),
      PressedOnce(s.right.isDown, s.right.transitionCount)) == pos
  {
  }

  /** MovePlayer of this revision: one candidate from the down counts, kept
      only if the shape fits there, then a rotation attempt when rotate was
      pressed once. */
  method MovePlayer(world: Grid, player: Player, input: GameInput)
    requires world.Valid() && player.Valid() && input.Valid()
    modifies player`position, player.grid
    ensures player.Valid()
    ensures player.position ==
      Level.MovedTo(world.Snapshot(), old(player.Data()), old(player.position), CountShifted(old(player.position), input.State()))
    ensures player.Data() ==
      if PressedOnce(input.rotate.isDown, input.rotate.transitionCount)
      then RotateResult(world.Snapshot(), old(player.Data()), player.position)
      else old(player.Data())
  {
    var newPosition := player.position;
    newPosition := newPosition.(x := newPosition.x - DownCount(input.left.isDown, input.left.transitionCount));
    newPosition := newPosition.(x := newPosition.x + DownCount(input.right.isDown, input.right.transitionCount));
    assert newPosition == CountShifted(player.position, input.State());
    Level.TryMove(world, player, newPosition);
    if PressedOnce(input.rotate.isDown, input.rotate.transitionCount) {
      player.Rotate(world);
    }
  }

  // ---- The application state ---------------------------------------------

  /** The grid and piece of SDL_AppInit: a zeroed 16 x 24 grid, a piece
      whose first "next" pair is drawn, and that pair spawned. */
  method NewPlayfield(firstKind: int, firstValue: int, newNextKind: int, newNextValue: int)
    returns (world: Grid, player: Player)
    requires 0 <= firstKind < KindCount && 1 <= firstValue <= ValueCount
    requires 0 <= newNextKind < KindCount && 1 <= newNextValue <= ValueCount
    ensures fresh(world) && fresh(world.data) && fresh(player) && fresh(player.grid)
    ensures world.Valid() && player.Valid() && world.width == 16 && world.height == 24
    ensures world.Snapshot().rows == EmptyRows(16, 24) && Level.Fits(world, player)
    ensures player.Data() == Kind(firstKind) && player.value == firstValue
    ensures player.position == SpawnPosition(16, player.dim)
    ensures player.nextKindId == newNextKind && player.nextValue == newNextValue
  {
    world := new Grid(16, 24);
    player := new Player(firstKind, firstValue);
    Level.Respawn(world, player, newNextKind, newNextValue);
  }

  /** `app_state_t` together with the two frame timers, which the source
      keeps in globals. */
  class App {
    const world: Grid
    const player: Player
    const input: GameInput
    var paused: bool
    var gameOver: bool
    var score: nat
    var stepMs: Level.U64
    var inputTimer: nat
    var playerTimer: nat

    /** The grid is at least as wide as the widest piece and small enough for
        the int8 row index of DestroyFilledRows, and the gravity period stays
        between MIN_STEP_MS and MAX_STEP_MS (so its uint64 never wraps). */
    ghost predicate Sound()
      reads this`stepMs, player, input.Repr()
    {
      && world.Valid() && player.Valid() && input.Valid()
      && 4 <= world.width && world.height <= 127
      && Level.MinStepMs <= stepMs <= Level.MaxStepMs
    }

    /** Sound, and the active piece never overlaps a settled block. */
    ghost predicate Valid()
      reads this`stepMs, player, player.grid, world.data, input.Repr()
    {
      Sound() && Level.Fits(world, player)
    }

    /** The state of a game just (re)started: flags cleared, score 0, the
        slowest gravity, an empty grid and the former "next" piece spawned. */
    ghost predicate Restarted(oldKind: int, oldValue: int, newNextKind: int, newNextValue: int)
      requires Valid() && 0 <= oldKind < KindCount
      reads this, player, player.grid, world.data, input.Repr()
    {
      && !paused && !gameOver && score == 0 && stepMs == Level.MaxStepMs
      && world.Snapshot().rows == EmptyRows(world.width, world.height)
      && player.Data() == Kind(oldKind) && player.value == oldValue
      && player.position == SpawnPosition(world.width, player.dim)
      && player.nextKindId == newNextKind && player.nextValue == newNextValue
    }

    /** SDL_AppInit's part of the game: a 16 x 24 grid, a first "next" pair
        drawn, and a piece spawned from it (which draws the next one). */
    constructor (firstKind: int, firstValue: int, newNextKind: int, newNextValue: int)
      requires 0 <= firstKind < KindCount && 1 <= firstValue <= ValueCount
      requires 0 <= newNextKind < KindCount && 1 <= newNextValue <= ValueCount
      ensures Valid() && world.width == 16 && world.height == 24
      ensures Restarted(firstKind, firstValue, newNextKind, newNextValue)
      ensures inputTimer == 0 && playerTimer == 0
      ensures !input.left.isDown && !input.right.isDown && !input.down.isDown && !input.rotate.isDown
    {
      paused, gameOver, score, stepMs := false, false, 0, Level.MaxStepMs;
      var w, p := NewPlayfield(firstKind, firstValue, newNextKind, newNextValue);
      world, player := w, p;
      input := new GameInput();
      inputTimer, playerTimer := 0, 0;
    }

    /** ResetAppState */
    method ResetAppState()
      modifies this`paused, this`gameOver, this`score, this`stepMs
      ensures !paused && !gameOver && score == 0 && stepMs == Level.MaxStepMs
    {
      paused := false;
      gameOver := false;
      score := 0;
      stepMs := Level.MaxStepMs;
    }

    /** Restart of this revision: reset the flags, empty the grid, spawn. */
    method Restart(newNextKind: int, newNextValue: int)
      requires Valid()
      requires 0 <= newNextKind < KindCount && 1 <= newNextValue <= ValueCount
      modifies this`paused, this`gameOver, this`score, this`stepMs, world.data, player, player.grid
      ensures Valid()
      ensures Restarted(old(player.nextKindId), old(player.nextValue), newNextKind, newNextValue)
    {
      ResetAppState();
      world.Reset();
      player.Spawn(world, newNextKind, newNextValue);
      SpawnIsPlaceable(world.Snapshot(), old(player.nextKindId));
    }

    /** HandleKeyboardEvent: R restarts, P or Escape toggle the pause unless
        the game is over; then the arrow keys and space reach their buttons
        only while the game runs. */
    method HandleKeyboardEvent(key: Key, isDown: bool, newNextKind: int, newNextValue: int)
      requires Valid() && input.HasHeadroom()
      requires 0 <= newNextKind < KindCount && 1 <= newNextValue <= ValueCount
      modifies this`paused, this`gameOver, this`score, this`stepMs, world.data, player, player.grid, input.Repr()
      ensures Valid()
      ensures Flags(paused, gameOver) == KeyFlags(Flags(old(paused), old(gameOver)), key, isDown)
      ensures input.State() == Gated(old(input.State()), KeyButton(key), isDown, !paused && !gameOver)
      ensures KeyRestarts(key, isDown) ==>
        Restarted(old(player.nextKindId), old(player.nextValue), newNextKind, newNextValue)
      ensures !KeyRestarts(key, isDown) ==>
        && score == old(score) && stepMs == old(stepMs) && world.Snapshot() == old(world.Snapshot())
        && player.position == old(player.position) && player.Data() == old(player.Data())
        && player.value == old(player.value)
        && player.nextKindId == old(player.nextKindId) && player.nextValue == old(player.nextValue)
    {
      if isDown {
        match key
        case KeyR =>
          Restart(newNextKind, newNextValue);
        case KeyEscape | KeyP =>
          if !gameOver {
            paused := !paused;
          }
        case _ =>
      }
      if !paused && !gameOver {
        var id := KeyButton(key);
        if id.Some? {
          input.SetButtonDown(id.value, isDown);
        }
      }
    }

    /** HandleGamepadButtonEvent: Start toggles the pause while the game runs
        and restarts it once over, Back restarts; then the d-pad, shoulders,
        paddles and South reach their buttons only while the game runs. */
    method HandleGamepadButtonEvent(button: PadButton, isDown: bool, newNextKind: int, newNextValue: int)
      requires Valid() && input.HasHeadroom()
      requires 0 <= newNextKind < KindCount && 1 <= newNextValue <= ValueCount
      modifies this`paused, this`gameOver, this`score, this`stepMs, world.data, player, player.grid, input.Repr()
      ensures Valid()
      ensures Flags(paused, gameOver) == PadFlags(Flags(old(paused), old(gameOver)), button, isDown)
      ensures input.State() == Gated(old(input.State()), PadButtonId(button), isDown, !paused && !gameOver)
      ensures PadRestarts(Flags(old(paused), old(gameOver)), button, isDown) ==>
        Restarted(old(player.nextKindId), old(player.nextValue), newNextKind, newNextValue)
      ensures !PadRestarts(Flags(old(paused), old(gameOver)), button, isDown) ==>
        && score == old(score) && stepMs == old(stepMs) && world.Snapshot() == old(world.Snapshot())
        && player.position == old(player.position) && player.Data() == old(player.Data())
        && player.value == old(player.value)
        && player.nextKindId == old(player.nextKindId) && player.nextValue == old(player.nextValue)
    {
      if isDown {
        match button
        case Start =>
          if !gameOver {
            paused := !paused;
          } else {
            Restart(newNextKind, newNextValue);
          }
        case Back =>
          Restart(newNextKind, newNextValue);
        case _ =>
      }
      if !paused && !gameOver {
        var id := PadButtonId(button);
        if id.Some? {
          input.SetButtonDown(id.value, isDown);
        }
      }
    }

    /** The landing of this revision: like the later one, except that the game
        is ended by setting gameOver alone. */
    method Land(newNextKind: int, newNextValue: int)
      requires Valid() && !paused && !gameOver
      requires 0 <= newNextKind < KindCount && 1 <= newNextValue <= ValueCount
      modifies this`gameOver, this`score, this`stepMs, world.data, player, player.grid
      ensures Valid()
      ensures var stamped := Stamp(old(world.Snapshot()), old(player.Data()), old(player.position), old(player.value));
        var landed := Level.Compacted(stamped);
        var cleared := Level.FilledCount(stamped.rows);
        && world.Snapshot() == landed
        && score == old(score) + cleared * Level.ScorePerRow
        && stepMs == Level.SpeedUp(old(stepMs), cleared)
        && gameOver == Level.TopRowOccupied(landed)
      ensures player.Data() == Kind(old(player.nextKindId)) && player.value == old(player.nextValue)
      ensures player.position == SpawnPosition(world.width, player.dim)
      ensures player.nextKindId == newNextKind && player.nextValue == newNextValue
    {
      var destroyedRows := Level.Settle(world, player);
      FinishLanding(destroyedRows, newNextKind, newNextValue);
    }

    /** The rest of a landing once the rows are cleared. */
    method FinishLanding(destroyedRows: nat, newNextKind: int, newNextValue: int)
      requires Sound() && !gameOver
      requires 0 <= newNextKind < KindCount && 1 <= newNextValue <= ValueCount
      modifies this`gameOver, this`score, this`stepMs, player, player.grid
      ensures Valid()
      ensures score == old(score) + destroyedRows * Level.ScorePerRow
      ensures stepMs == Level.SpeedUp(old(stepMs), destroyedRows)
      ensures gameOver == Level.TopRowOccupied(world.Snapshot())
      ensures player.Data() == Kind(old(player.nextKindId)) && player.value == old(player.nextValue)
      ensures player.position == SpawnPosition(world.width, player.dim)
      ensures player.nextKindId == newNextKind && player.nextValue == newNextValue
    {
      score := score + destroyedRows * Level.ScorePerRow;
      Level.Respawn(world, player, newNextKind, newNextValue);
      if destroyedRows > 0 {
        var d := Level.SubU64(stepMs, Level.DeltaStepMs);
        stepMs := if Level.MinStepMs > d then Level.MinStepMs else d;
      }
      var over := Level.CheckGameOver(world, player);
      if over {
        gameOver := true;
      }
    }

    /** One gravity tick of a running game: fall one row or land. */
    method Tick(newNextKind: int, newNextValue: int)
      requires Valid() && !paused && !gameOver
      requires 0 <= newNextKind < KindCount && 1 <= newNextValue <= ValueCount
      modifies this`gameOver, this`score, this`stepMs, world.data, player, player.grid
      ensures Valid()
      ensures Placeable(old(world.Snapshot()), old(player.Data()), old(player.position).Add(Vec2i(0, 1))) ==>
        && world.Snapshot() == old(world.Snapshot()) && player.Data() == old(player.Data())
        && player.position == old(player.position).Add(Vec2i(0, 1))
        && !gameOver && score == old(score) && stepMs == old(stepMs)
        && player.value == old(player.value) && player.nextKindId == old(player.nextKindId) && player.nextValue == old(player.nextValue)
      ensures !Placeable(old(world.Snapshot()), old(player.Data()), old(player.position).Add(Vec2i(0, 1))) ==>
        var stamped := Stamp(old(world.Snapshot()), old(player.Data()), old(player.position), old(player.value));
        var landed := Level.Compacted(stamped);
        var cleared := Level.FilledCount(stamped.rows);
        && world.Snapshot() == landed
        && score == old(score) + cleared * Level.ScorePerRow
        && stepMs == Level.SpeedUp(old(stepMs), cleared)
        && gameOver == Level.TopRowOccupied(landed)
        && player.Data() == Kind(old(player.nextKindId)) && player.value == old(player.nextValue)
        && player.position == SpawnPosition(world.width, player.dim)
        && player.nextKindId == newNextKind && player.nextValue == newNextValue
    {
      var newPosition := player.position.Add(Vec2i(0, 1));
      var valid := IsPlayerPositionValid(world, player.dim, player.grid, newPosition);
      if valid {
        player.position := newPosition;
      } else {
        Land(newNextKind, newNextValue);
      }
    }

    /** The input half of the update: once per window of InputMs, run the
        window and restart its timer. */
    method InputWindow(now: nat)
      requires Valid() && inputTimer <= now
      modifies player`position, player.grid, input.Repr(), this`inputTimer
      ensures Valid()
      ensures inputTimer == if now - old(inputTimer) >= InputMs then now else old(inputTimer)
      ensures input.State() == if now - old(inputTimer) >= InputMs then Flushed(old(input.State())) else old(input.State())
      ensures now - old(inputTimer) < InputMs || paused || gameOver ==>
        player.position == old(player.position) && player.Data() == old(player.Data())
      ensures now - old(inputTimer) >= InputMs && !paused && !gameOver ==>
        && player.position == Level.MovedTo(world.Snapshot(), old(player.Data()), old(player.position),
          CountShifted(old(player.position), old(input.State())))
        && player.Data() ==
          if PressedOnce(old(input.rotate.isDown), old(input.rotate.transitionCount))
          then RotateResult(world.Snapshot(), old(player.Data()), player.position)
          else old(player.Data())
    {
      if now - inputTimer >= InputMs {
        RunInputWindow();
        inputTimer := now;
      }
    }

    /** The end of an input window: move the piece if the game runs, then
        flush the input whatever the flags. */
    method RunInputWindow()
      requires Valid()
      modifies player`position, player.grid, input.Repr()
      ensures Valid()
      ensures input.State() == Flushed(old(input.State()))
      ensures paused || gameOver ==>
        player.position == old(player.position) && player.Data() == old(player.Data())
      ensures !paused && !gameOver ==>
        && player.position == Level.MovedTo(world.Snapshot(), old(player.Data()), old(player.position),
          CountShifted(old(player.position), old(input.State())))
        && player.Data() ==
          if PressedOnce(old(input.rotate.isDown), old(input.rotate.transitionCount))
          then RotateResult(world.Snapshot(), old(player.Data()), player.position)
          else old(player.Data())
    {
      if !paused && !gameOver {
        MovePlayer(world, player, input);
      }
      input.Flush();
    }

    /** The gravity half of the update: once per `period`, tick if the game
        runs and restart the timer.  The tick never reads the timer, so
        restarting it first gives the same state as the source's order. */
    method GravityWindow(now: nat, period: int, newNextKind: int, newNextValue: int)
      requires Valid() && playerTimer <= now
      requires 0 <= newNextKind < KindCount && 1 <= newNextValue <= ValueCount
      modifies this`gameOver, this`score, this`stepMs, this`playerTimer, world.data, player, player.grid
      ensures Valid()
      ensures playerTimer == if now - old(playerTimer) >= period then now else old(playerTimer)
      ensures now - old(playerTimer) < period || paused || old(gameOver) ==>
        && world.Snapshot() == old(world.Snapshot()) && player.Data() == old(player.Data())
        && player.position == old(player.position)
        && gameOver == old(gameOver) && score == old(score) && stepMs == old(stepMs)
        && player.value == old(player.value) && player.nextKindId == old(player.nextKindId) && player.nextValue == old(player.nextValue)
      ensures (now - old(playerTimer) >= period && !paused && !old(gameOver)
        && Placeable(old(world.Snapshot()), old(player.Data()), old(player.position).Add(Vec2i(0, 1)))) ==>
        && world.Snapshot() == old(world.Snapshot()) && player.Data() == old(player.Data())
        && player.position == old(player.position).Add(Vec2i(0, 1))
        && !gameOver && score == old(score) && stepMs == old(stepMs)
        && player.value == old(player.value) && player.nextKindId == old(player.nextKindId) && player.nextValue == old(player.nextValue)
      ensures (now - old(playerTimer) >= period && !paused && !old(gameOver)
        && !Placeable(old(world.Snapshot()), old(player.Data()), old(player.position).Add(Vec2i(0, 1)))) ==>
        var stamped := Stamp(old(world.Snapshot()), old(player.Data()), old(player.position), old(player.value));
        var landed := Level.Compacted(stamped);
        var cleared := Level.FilledCount(stamped.rows);
        && world.Snapshot() == landed
        && score == old(score) + cleared * Level.ScorePerRow
        && stepMs == Level.SpeedUp(old(stepMs), cleared)
        && gameOver == Level.TopRowOccupied(landed)
        && player.Data() == Kind(old(player.nextKindId)) && player.value == old(player.nextValue)
        && player.position == SpawnPosition(world.width, player.dim)
        && player.nextKindId == newNextKind && player.nextValue == newNextValue
    {
      if now - playerTimer >= period {
        playerTimer := now;
        TickIfRunning(newNextKind, newNextValue);
      }
    }

    /** The body of a gravity window: tick if the game runs. */
    method TickIfRunning(newNextKind: int, newNextValue: int)
      requires Valid()
      requires 0 <= newNextKind < KindCount && 1 <= newNextValue <= ValueCount
      modifies this`gameOver, this`score, this`stepMs, world.data, player, player.grid
      ensures Valid()
      ensures paused || old(gameOver) ==>
        && world.Snapshot() == old(world.Snapshot()) && player.Data() == old(player.Data())
        && player.position == old(player.position)
        && gameOver == old(gameOver) && score == old(score) && stepMs == old(stepMs)
        && player.value == old(player.value) && player.nextKindId == old(player.nextKindId) && player.nextValue == old(player.nextValue)
      ensures (!paused && !old(gameOver)
        && Placeable(old(world.Snapshot()), old(player.Data()), old(player.position).Add(Vec2i(0, 1)))) ==>
        && world.Snapshot() == old(world.Snapshot()) && player.Data() == old(player.Data())
        && player.position == old(player.position).Add(Vec2i(0, 1))
        && !gameOver && score == old(score) && stepMs == old(stepMs)
        && player.value == old(player.value) && player.nextKindId == old(player.nextKindId) && player.nextValue == old(player.nextValue)
      ensures (!paused && !old(gameOver)
        && !Placeable(old(world.Snapshot()), old(player.Data()), old(player.position).Add(Vec2i(0, 1)))) ==>
        var stamped := Stamp(old(world.Snapshot()), old(player.Data()), old(player.position), old(player.value));
        var landed := Level.Compacted(stamped);
        var cleared := Level.FilledCount(stamped.rows);
        && world.Snapshot() == landed
        && score == old(score) + cleared * Level.ScorePerRow
        && stepMs == Level.SpeedUp(old(stepMs), cleared)
        && gameOver == Level.TopRowOccupied(landed)
        && player.Data() == Kind(old(player.nextKindId)) && player.value == old(player.nextValue)
        && player.position == SpawnPosition(world.width, player.dim)
        && player.nextKindId == newNextKind && player.nextValue == newNextValue
    {
      if !paused && !gameOver {
        Tick(newNextKind, newNextValue);
      }
    }

    /** The update block of SDL_AppIterate at time `now` (milliseconds of a
        clock that never goes back): the gravity period is fixed first, then
        the input window runs, then the gravity window. */
    method Update(now: nat, newNextKind: int, newNextValue: int)
      requires Valid() && inputTimer <= now && playerTimer <= now
      requires 0 <= newNextKind < KindCount && 1 <= newNextValue <= ValueCount
      modifies this`gameOver, this`score, this`stepMs, this`inputTimer, this`playerTimer
      modifies world.data, player, player.grid, input.Repr()
      ensures Valid()
      ensures inputTimer == if now - old(inputTimer) >= InputMs then now else old(inputTimer)
      ensures playerTimer ==
        if now - old(playerTimer) >= Level.GravityPeriod(old(input.down.isDown), old(stepMs)) then now else old(playerTimer)
      ensures input.State() == if now - old(inputTimer) >= InputMs then Flushed(old(input.State())) else old(input.State())
      ensures paused || old(gameOver) ==> gameOver == old(gameOver) && score == old(score) && stepMs == old(stepMs)
    {
      var period := Level.GravityPeriod(input.down.isDown, stepMs);
      InputWindow(now);
      ghost var afterInput := input.State();
      GravityWindow(now, period, newNextKind, newNextValue);
      assert input.State() == afterInput;
    }
  }
}

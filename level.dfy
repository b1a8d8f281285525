// The level controller: pause and game-over flags, score, gravity period,
// the input-driven move, the gravity step with landing, row clearing and
// restart.

module Level {
  import opened World
  import opened Input
  import opened Piece

  /** SCORE_PER_ROW */
  const ScorePerRow := 100
  /** MIN_STEP_MS: the fastest gravity period, also used while down is held. */
  const MinStepMs := 50
  /** MAX_STEP_MS: the gravity period of a fresh game. */
  const MaxStepMs := 500
  /** DELTA_STEP_MS: how much faster gravity gets after a landing that clears rows. */
  const DeltaStepMs := 25

  // ---- Row clearing -------------------------------------------------------

  /** The rows a clear keeps: the rows that are not filled, in their order. */
  function Kept(rows: seq<seq<Byte>>): seq<seq<Byte>> {
    if rows == [] then [] else (if Filled(rows[0]) then [] else [rows[0]]) + Kept(rows[1..])
  }

  /** How many rows are filled. */
  function FilledCount(rows: seq<seq<Byte>>): nat {
    if rows == [] then 0 else (if Filled(rows[0]) then 1 else 0) + FilledCount(rows[1..])
  }

  /** Every row is either kept or counted as cleared. */
  lemma {:induction false} KeptLength(rows: seq<seq<Byte>>)
    ensures |Kept(rows)| + FilledCount(rows) == |rows|
  {
    if rows != [] {
      KeptLength(rows[1..]);
    }
  }

  /** A kept row is a row of the input and is not filled; every unfilled row
      of the input is kept. */
  lemma {:induction false} KeptRows(rows: seq<seq<Byte>>)
    ensures forall i :: 0 <= i < |Kept(rows)| ==> !Filled(Kept(rows)[i]) && Kept(rows)[i] in rows
    ensures forall r :: r in rows && !Filled(r) ==> r in Kept(rows)
  {
    if rows != [] {
      KeptRows(rows[1..]);
      var head := if Filled(rows[0]) then [] else [rows[0]];
      assert Kept(rows) == head + Kept(rows[1..]);
      forall r | r in rows && !Filled(r)
        ensures r in Kept(rows)
      {
        if r != rows[0] {
          assert r in rows[1..];
        }
      }
    }
  }

  /** Rows that are all unfilled are all kept. */
  lemma {:induction false} KeptUnfilledRows(rows: seq<seq<Byte>>)
    requires forall i :: 0 <= i < |rows| ==> !Filled(rows[i])
    ensures Kept(rows) == rows && FilledCount(rows) == 0
  {
    if rows != [] {
      KeptUnfilledRows(rows[1..]);
    }
  }

  /** Keeping distributes over concatenation. */
  lemma {:induction false} KeptAppend(a: seq<seq<Byte>>, b: seq<seq<Byte>>)
    ensures Kept(a + b) == Kept(a) + Kept(b)
    ensures FilledCount(a + b) == FilledCount(a) + FilledCount(b)
  {
    if a != [] {
      assert (a + b)[1..] == a[1..] + b;
      KeptAppend(a[1..], b);
    } else {
      assert a + b == b;
    }
  }

  /** The grid after DestroyFilledRows: the kept rows slid to the bottom in
      their order, with as many empty rows on top as were cleared. */
  function Compacted(b: Board): (r: Board)
    requires b.WellFormed()
    ensures r.WellFormed() && r.width == b.width && r.height == b.height
  {
    KeptLength(b.rows);
    KeptRows(b.rows);
    Board(b.width, b.height, EmptyRows(b.width, FilledCount(b.rows)) + Kept(b.rows))
  }

  /** With at least one column, no row is filled after a clear. */
  lemma NoFilledRowAfterClear(b: Board)
    requires b.WellFormed() && b.width >= 1
    ensures forall y :: 0 <= y < b.height ==> !Filled(Compacted(b).rows[y])
  {
    KeptRows(b.rows);
    KeptLength(b.rows);
    var c := Compacted(b);
    var n := FilledCount(b.rows);
    forall y | 0 <= y < b.height
      ensures !Filled(c.rows[y])
    {
      if y < n {
        assert c.rows[y][0] == 0;
      } else {
        assert c.rows[y] == Kept(b.rows)[y - n];
      }
    }
  }

  /** Clearing twice is clearing once. */
  lemma CompactedIdempotent(b: Board)
    requires b.WellFormed() && b.width >= 1
    ensures Compacted(Compacted(b)) == Compacted(b)
  {
    NoFilledRowAfterClear(b);
    var c := Compacted(b);
    KeptUnfilledRows(c.rows);
  }

  /** A grid without filled rows is left as it is. */
  lemma CompactedWithoutFilledRows(b: Board)
    requires b.WellFormed()
    requires forall y :: 0 <= y < b.height ==> !Filled(b.rows[y])
    ensures Compacted(b) == b && FilledCount(b.rows) == 0
  {
    KeptUnfilledRows(b.rows);
  }

  /** For y inside the grid, Board.RowFilled is Filled of that row. */
  lemma RowFilledIsFilled(b: Board, y: int)
    requires b.WellFormed() && 0 <= y < b.height
    ensures b.RowFilled(y) <==> Filled(b.rows[y])
  {
    if b.RowFilled(y) {
      forall x | 0 <= x < |b.rows[y]|
        ensures !IsValueEmpty(b.rows[y][x])
      {
        assert b.ValueAt(Vec2i(x, y)) == b.rows[y][x];
      }
    }
  }

  /** The rows after removing row y of `rows` and adding an empty row on
      top, which is what one clear does. */
  function Collapsed(rows: seq<seq<Byte>>, width: nat, y: nat): seq<seq<Byte>>
    requires y < |rows|
  {
    [EmptyRow(width)] + rows[..y] + rows[y + 1..]
  }

  /** One clear of row y of a grid: rows 1 .. y take the contents of the row
      above them and row 0 is emptied, as the two loops of DestroyFilledRows do. */
  method CollapseRow(world: Grid, y: int)
    requires world.Valid() && 0 <= y < world.height
    modifies world.data
    ensures world.Snapshot().rows == Collapsed(old(world.Snapshot()).rows, world.width, y)
  {
    ghost var b := world.Snapshot();
    var row := y;
    while row > 0
      invariant 0 <= row <= y
      invariant forall r, c :: 0 <= r < world.height && 0 <= c < world.width ==>
        world.data[r, c] == if row < r <= y then b.rows[r - 1][c] else b.rows[r][c]
    {
      CopyRowDown(world, row);
      row := row - 1;
    }
    ClearTopRow(world);
    CollapsedCells(b, y, world.Snapshot());
  }

  /** The inner loop of the shift: row `row` takes the contents of row - 1. */
  method CopyRowDown(world: Grid, row: int)
    requires world.Valid() && 0 < row < world.height
    modifies world.data
    ensures forall r, c :: 0 <= r < world.height && 0 <= c < world.width ==>
      world.data[r, c] == if r == row then old(world.data[row - 1, c]) else old(world.data[r, c])
  {
    var x := 0;
    while x < world.width
      invariant 0 <= x <= world.width
      invariant forall r, c :: 0 <= r < world.height && 0 <= c < world.width ==>
        world.data[r, c] == if r == row && c < x then old(world.data[row - 1, c]) else old(world.data[r, c])
    {
      world.SetValueUnchecked(Vec2i(x, row), world.GetValueUnchecked(Vec2i(x, row - 1)));
      x := x + 1;
    }
  }

  /** The second loop of a clear: row 0 is emptied. */
  method ClearTopRow(world: Grid)
    requires world.Valid() && 0 < world.height
    modifies world.data
    ensures forall r, c :: 0 <= r < world.height && 0 <= c < world.width ==>
      world.data[r, c] == if r == 0 then 0 else old(world.data[r, c])
  {
    var x := 0;
    while x < world.width
      invariant 0 <= x <= world.width
      invariant forall r, c :: 0 <= r < world.height && 0 <= c < world.width ==>
        world.data[r, c] == if r == 0 && c < x then 0 else old(world.data[r, c])
    {
      world.SetValueUnchecked(Vec2i(x, 0), 0);
      x := x + 1;
    }
  }

  /** A board whose row 0 is empty, whose rows 1 .. y hold the rows above
      them in `b` and whose other rows are as in `b` holds Collapsed(b, y). */
  lemma CollapsedCells(b: Board, y: int, after: Board)
    requires b.WellFormed() && after.WellFormed() && after.width == b.width && after.height == b.height
    requires 0 <= y < b.height
    requires forall r, c :: 0 <= r < b.height && 0 <= c < b.width ==>
      after.rows[r][c] == if r == 0 then 0 else if r <= y then b.rows[r - 1][c] else b.rows[r][c]
    ensures after.rows == Collapsed(b.rows, b.width, y)
  {
    var expected := Board(b.width, b.height, Collapsed(b.rows, b.width, y));
    forall r, c | 0 <= r < b.height && 0 <= c < b.width
      ensures after.rows[r][c] == expected.rows[r][c]
    {
      if r == 0 {
      } else if r <= y {
        assert expected.rows[r] == b.rows[r - 1];
      } else {
        assert expected.rows[r] == b.rows[r];
      }
    }
    BoardsEqual(after, expected);
  }

  /** The grid in the middle of the scan of DestroyFilledRows. */
  function ScanState(width: nat, p: seq<seq<Byte>>, cleared: nat, j: nat): seq<seq<Byte>>
    requires j <= |p|
  {
    EmptyRows(width, cleared) + p[..j] + Kept(p[j..])
  }

  /** The scan finds P[j-1] at row cleared + j - 1. */
  lemma ScanRowAt(width: nat, p: seq<seq<Byte>>, cleared: nat, j: nat)
    requires 0 < j <= |p|
    ensures var s := ScanState(width, p, cleared, j);
      cleared + j - 1 < |s| && s[cleared + j - 1] == p[j - 1]
  {
  }

  /** Clearing the filled row P[j-1] gives the next scan state, one more
      empty row on top. */
  lemma ScanCleared(width: nat, p: seq<seq<Byte>>, cleared: nat, j: nat)
    requires 0 < j <= |p| && Filled(p[j - 1])
    ensures cleared + j - 1 < |ScanState(width, p, cleared, j)|
    ensures Collapsed(ScanState(width, p, cleared, j), width, cleared + j - 1) == ScanState(width, p, cleared + 1, j - 1)
    ensures FilledCount(p[j - 1..]) == 1 + FilledCount(p[j..])
  {
    var s := ScanState(width, p, cleared, j);
    assert p[j - 1..][1..] == p[j..];
    assert p[..j] == p[..j - 1] + [p[j - 1]];
    var z := EmptyRows(width, cleared);
    assert s == z + p[..j - 1] + [p[j - 1]] + Kept(p[j..]);
    var y := cleared + j - 1;
    assert s[..y] == z + p[..j - 1];
    assert s[y + 1..] == Kept(p[j..]);
    assert [EmptyRow(width)] + z == EmptyRows(width, cleared + 1);
  }

  /** Stepping past the unfilled row P[j-1] leaves the grid as it is: that
      row now counts as kept. */
  lemma ScanKept(width: nat, p: seq<seq<Byte>>, cleared: nat, j: nat)
    requires 0 < j <= |p| && !Filled(p[j - 1])
    ensures ScanState(width, p, cleared, j) == ScanState(width, p, cleared, j - 1)
    ensures FilledCount(p[j - 1..]) == FilledCount(p[j..])
  {
    assert p[j - 1..][1..] == p[j..];
    assert p[..j] == p[..j - 1] + [p[j - 1]];
  }

  /** The loop invariant of DestroyFilledRows: the grid is `rows`, the scan
      is at row y with `cleared` rows cleared and P[..j] still to examine. */
  ghost predicate Scanning(rows: seq<seq<Byte>>, width: nat, p: seq<seq<Byte>>, cleared: nat, j: nat, y: int) {
    && j <= |p|
    && (j > 0 ==> y == cleared + j - 1)
    && (j == 0 ==> y < cleared)
    && rows == ScanState(width, p, cleared, j)
    && cleared == FilledCount(p[j..])
  }

  /** A clear at the scan row keeps the invariant with the same row index. */
  lemma ScanClearStep(rows: seq<seq<Byte>>, width: nat, p: seq<seq<Byte>>, cleared: nat, j: nat, y: int)
    requires Scanning(rows, width, p, cleared, j, y) && 0 < j && Filled(p[j - 1])
    ensures 0 <= y < |rows|
    ensures Scanning(Collapsed(rows, width, y), width, p, cleared + 1, j - 1, y)
  {
    ScanCleared(width, p, cleared, j);
  }

  /** Stepping past an unfilled row keeps the invariant one row up. */
  lemma ScanSkipStep(rows: seq<seq<Byte>>, width: nat, p: seq<seq<Byte>>, cleared: nat, j: nat, y: int)
    requires Scanning(rows, width, p, cleared, j, y) && !(0 < j && Filled(p[j - 1]))
    ensures Scanning(rows, width, p, cleared, if j > 0 then j - 1 else 0, y - 1)
  {
    if j > 0 {
      ScanKept(width, p, cleared, j);
    }
  }

  /** The row the scan tests is filled exactly when it is the next pending
      row of the original grid and that row was filled; the rows already
      cleared in on top are empty. */
  lemma ScanTest(b: Board, p: seq<seq<Byte>>, cleared: nat, j: nat, y: int)
    requires b.WellFormed() && b.width >= 1 && j <= |p| && 0 <= y < b.height
    requires b.rows == ScanState(b.width, p, cleared, j)
    requires j > 0 ==> y == cleared + j - 1
    requires j == 0 ==> y < cleared
    ensures b.RowFilled(y) <==> j > 0 && Filled(p[j - 1])
  {
    RowFilledIsFilled(b, y);
    if j > 0 {
      ScanRowAt(b.width, p, cleared, j);
    } else {
      assert b.rows[y] == EmptyRow(b.width);
      assert b.rows[y][0] == 0;
    }
  }

  /** DestroyFilledRows: scans from the bottom row up; a filled row is
      cleared and the same row index is examined again.  Returns the number
      of rows cleared. */
  method DestroyFilledRows(world: Grid) returns (destroyedRows: nat)
    requires world.Valid() && world.width >= 1 && world.height <= 127
    modifies world.data
    ensures world.Snapshot() == Compacted(old(world.Snapshot()))
    ensures destroyedRows == FilledCount(old(world.Snapshot()).rows)
  {
    ghost var p := world.Snapshot().rows;
    destroyedRows := 0;
    var y := world.height - 1;
    ghost var j: nat := world.height;
    while y >= 0
      invariant -1 <= y < world.height
      invariant Scanning(world.Snapshot().rows, world.width, p, destroyedRows, j, y)
      decreases y + 1 + j
    {
      var filled := world.IsRowFilled(y);
      ScanTest(world.Snapshot(), p, destroyedRows, j, y);
      ghost var rows := world.Snapshot().rows;
      if filled {
        ScanClearStep(rows, world.width, p, destroyedRows, j, y);
        destroyedRows := destroyedRows + 1;
        CollapseRow(world, y);
        assert world.Snapshot().rows == Collapsed(rows, world.width, y);
        j := j - 1;
      } else {
        ScanSkipStep(rows, world.width, p, destroyedRows, j, y);
        if j > 0 {
          j := j - 1;
        }
        y := y - 1;
      }
    }
    assert j == 0;
    KeptLength(p);
    assert p[0..] == p;
    BoardsEqual(world.Snapshot(), Compacted(Board(world.width, world.height, p)));
  }

  /** The first half of a landing: merge the piece into the grid, then clear
      the filled rows; the result is the number of rows cleared. */
  method Settle(world: Grid, player: Player) returns (destroyedRows: nat)
    requires world.Valid() && player.Valid() && world.width >= 1 && world.height <= 127
    modifies world.data
    ensures var stamped := Stamp(old(world.Snapshot()), player.Data(), player.position, player.value);
      world.Snapshot() == Compacted(stamped) && destroyedRows == FilledCount(stamped.rows)
  {
    SavePlayerInWorld(world, player);
    destroyedRows := DestroyFilledRows(world);
  }

  /** The active piece does not overlap a settled block.  This is kept by
      every operation of the model, whose rotation uses the corrected check;
      the source's rotation check can break it. */
  ghost predicate Fits(world: Grid, player: Player)
    requires world.Valid() && player.Valid()
    reads world.data, player, player.grid
  {
    Placeable(world.Snapshot(), player.Data(), player.position)
  }

  /** The second half of a landing: the former "next" piece is spawned at
      the top, where it fits whatever the grid holds. */
  method Respawn(world: Grid, player: Player, newNextKind: int, newNextValue: int)
    requires world.Valid() && player.Valid() && world.width >= 4
    requires 0 <= newNextKind < KindCount && 1 <= newNextValue <= ValueCount
    modifies player, player.grid
    ensures player.Valid() && Fits(world, player) && world.Snapshot() == old(world.Snapshot())
    ensures player.Data() == Kind(old(player.nextKindId)) && player.value == old(player.nextValue)
    ensures player.position == SpawnPosition(world.width, player.dim)
    ensures player.nextKindId == newNextKind && player.nextValue == newNextValue
  {
    ghost var kindId := player.nextKindId;
    player.Spawn(world, newNextKind, newNextValue);
    SpawnIsPlaceable(world.Snapshot(), kindId);
  }

  // ---- Game over ---------------------------------------------------------

  /** Some cell of the top row of the grid holds a block. */
  predicate TopRowOccupied(b: Board)
    requires b.WellFormed()
  {
    exists x :: 0 <= x < b.width && !IsValueEmpty(b.ValueAt(Vec2i(x, 0)))
  }

  /** CheckGameOver: true exactly when a settled block reaches row 0.  The
      piece test after the scan returns false on both of its branches. */
  method CheckGameOver(world: Grid, player: Player) returns (over: bool)
    requires world.Valid() && player.Valid()
    ensures over <==> TopRowOccupied(world.Snapshot())
  {
    var x := 0;
    while x < world.width
      invariant 0 <= x <= world.width
      invariant forall c :: 0 <= c < x ==> IsValueEmpty(world.GetValue(Vec2i(c, 0)))
    {
      if !IsValueEmpty(world.GetValue(Vec2i(x, 0))) {
        return true;
      }
      x := x + 1;
    }
    var valid := IsPlayerPositionValid(world, player.dim, player.grid, player.position);
    if !valid {
      return false;
    }
    return false;
  }

  // ---- Moving the piece ----------------------------------------------------

  /** The candidate of a horizontal move: one column left when left was
      pressed once, one column right when right was, both cancelling out. */
  function Shifted(pos: Vec2i, left: bool, right: bool): (t: Vec2i)
    ensures t.y == pos.y && pos.x - 1 <= t.x <= pos.x + 1
    ensures left == right ==> t == pos
    ensures left && !right ==> t.x == pos.x - 1
    ensures right && !left ==> t.x == pos.x + 1
  {
    Vec2i(pos.x - (if left then 1 else 0) + (if right then 1 else 0), pos.y)
  }

  /** Where a move leaves the piece: the candidate when the shape fits there,
      otherwise where it was. */
  function MovedTo(b: Board, s: Shape, pos: Vec2i, target: Vec2i): (p: Vec2i)
    requires b.WellFormed() && s.WellFormed()
    ensures p == target || p == pos
  {
    if Placeable(b, s, target) then target else pos
  }

  /** Moves the piece to `target` when its shape fits there (the test and
      assignment shared by MovePlayer and the gravity step). */
  method TryMove(world: Grid, player: Player, target: Vec2i)
    requires world.Valid() && player.Valid()
    modifies player`position
    ensures player.Valid()
    ensures player.position == MovedTo(world.Snapshot(), player.Data(), old(player.position), target)
  {
    var valid := IsPlayerPositionValid(world, player.dim, player.grid, target);
    if valid {
      player.position := target;
    }
  }

  /** MovePlayer: the horizontal move first (kept only if the shape fits),
      then a rotation attempt when rotate was pressed once. */
  method MovePlayer(world: Grid, player: Player, input: GameInput)
    requires world.Valid() && player.Valid() && input.Valid()
    modifies player`position, player.grid
    ensures player.Valid()
    ensures player.position == MovedTo(world.Snapshot(), old(player.Data()), old(player.position),
      Shifted(old(player.position),
        PressedOnce(input.left.isDown, input.left.transitionCount),
        PressedOnce(input.right.isDown, input.right.transitionCount)))
    ensures player.Data() ==
      if PressedOnce(input.rotate.isDown, input.rotate.transitionCount)
      then RotateResult(world.Snapshot(), old(player.Data()), player.position)
      else old(player.Data())
  {
    var newPosition := player.position;
    if PressedOnce(input.left.isDown, input.left.transitionCount) {
      newPosition := newPosition.Add(Vec2i(-1, 0));
    }
    if PressedOnce(input.right.isDown, input.right.transitionCount) {
      newPosition := newPosition.Add(Vec2i(1, 0));
    }
    assert newPosition == Shifted(player.position,
      PressedOnce(input.left.isDown, input.left.transitionCount),
      PressedOnce(input.right.isDown, input.right.transitionCount));
    ghost var s := player.Data();
    TryMove(world, player, newPosition);
    assert player.Data() == s;
    if PressedOnce(input.rotate.isDown, input.rotate.transitionCount) {
      player.Rotate(world);
    }
  }

  /** The piece goes to the candidate exactly when it fits there, and a move
      (rotation included) never makes a fitting piece overlap the grid. */
  lemma MoveKeepsFit(b: Board, s: Shape, pos: Vec2i, target: Vec2i, rotate: bool)
    requires b.WellFormed() && s.WellFormed() && s.Square()
    ensures MovedTo(b, s, pos, target) == target <==> Placeable(b, s, target) || target == pos
    ensures Placeable(b, s, pos) ==>
      var p := MovedTo(b, s, pos, target);
      Placeable(b, if rotate then RotateResult(b, s, p) else s, p)
  {
    var p := MovedTo(b, s, pos, target);
    if Placeable(b, s, pos) && rotate {
      RotateKeepsFit(b, s, p);
    }
  }

  // ---- Speed -------------------------------------------------------------

  /** uint64: stepMs, currentStepMs and stepAccumulator wrap modulo 2^64. */
  const U64Limit := 0x1_0000_0000_0000_0000
  type U64 = x: int | 0 <= x < U64Limit

  /** uint64 subtraction: it wraps below 0. */
  function SubU64(a: U64, b: U64): (r: U64)
    ensures a >= b ==> r == a - b
    ensures a < b ==> r == a - b + U64Limit
  {
    (a - b) % U64Limit
  }

  /** uint64 addition: it wraps at 2^64. */
  function AddU64(a: U64, b: U64): (r: U64)
    ensures a + b < U64Limit ==> r == a + b
    ensures a + b >= U64Limit ==> r == a + b - U64Limit
  {
    (a + b) % U64Limit
  }

  /** The gravity period after a landing that cleared `cleared` rows:
      SDL_max(MIN_STEP_MS, stepMs - DELTA_STEP_MS) on a uint64, so a period
      below 25 wraps to a huge one instead of becoming 50. */
  function SpeedUp(stepMs: U64, cleared: nat): (r: U64)
    ensures cleared == 0 ==> r == stepMs
    ensures MinStepMs <= stepMs ==> MinStepMs <= r <= stepMs
    ensures cleared > 0 && stepMs - DeltaStepMs >= MinStepMs ==> r == stepMs - DeltaStepMs
    ensures cleared > 0 && DeltaStepMs <= stepMs < DeltaStepMs + MinStepMs ==> r == MinStepMs
    ensures cleared > 0 && stepMs < DeltaStepMs ==> r == stepMs + U64Limit - DeltaStepMs
  {
    if cleared > 0 then
      var d := SubU64(stepMs, DeltaStepMs);
      if MinStepMs > d then MinStepMs else d
    else stepMs
  }

  /** The gravity period in force: the fast one while down is held. */
  function GravityPeriod(downHeld: bool, stepMs: U64): (p: U64)
    ensures downHeld ==> p == MinStepMs
    ensures !downHeld ==> p == stepMs
    ensures MinStepMs <= stepMs ==> MinStepMs <= p <= stepMs
  {
    if downHeld then MinStepMs else stepMs
  }

  /** The period after k landings that each cleared rows. */
  function PeriodAfter(stepMs: U64, k: nat): U64 {
    if k == 0 then stepMs else SpeedUp(PeriodAfter(stepMs, k - 1), 1)
  }

  /** From a fresh game, k clearing landings leave the period at
      max(50, 500 - 25 k): gravity bottoms out after 18 of them. */
  lemma {:induction false} PeriodAfterFresh(k: nat)
    ensures PeriodAfter(MaxStepMs, k) == if MaxStepMs - DeltaStepMs * k > MinStepMs then MaxStepMs - DeltaStepMs * k else MinStepMs
  {
    if k > 0 {
      PeriodAfterFresh(k - 1);
    }
  }

  // ---- Pause -------------------------------------------------------------

  /** ToggleLevelPaused on the two flags: resuming always works, pausing only
      while the game is not over. */
  function Toggled(paused: bool, gameOver: bool): (r: bool)
    ensures gameOver ==> !r
    ensures !gameOver ==> r == !paused
  {
    if paused then false else !gameOver
  }

  /** Toggling twice is a no-op while the game runs. */
  lemma ToggleTwice(paused: bool)
    ensures Toggled(Toggled(paused, false), false) == paused
  {
  }

  // ---- The level ---------------------------------------------------------

  /** `level_t`.  The grid and the piece are created once and kept; the
      integer fields are unbounded (score is a uint32 in the source). */
  class Level {
    const world: Grid
    const player: Player
    var paused: bool
    var gameOver: bool
    var score: nat
    var stepMs: U64
    var currentStepMs: U64
    var stepAccumulator: U64

    /** The grid is at least as wide as the widest piece and small enough for
        the int8 row index of DestroyFilledRows, and the game is never paused
        and over at once. */
    ghost predicate Sound()
      reads this, player
    {
      && world.Valid() && player.Valid()
      && 4 <= world.width && world.height <= 127
      && !(paused && gameOver)
    }

    /** Sound, and the active piece never overlaps a settled block. */
    ghost predicate Valid()
      reads this, player, player.grid, world.data
    {
      Sound() && Fits(world, player)
    }

    /** A zero-initialised level on a 16 x 24 grid (InitWorld, InitPlayer). */
    constructor (nextKind: int, nextVal: int)
      requires 0 <= nextKind < KindCount && 1 <= nextVal <= ValueCount
      ensures Valid() && fresh(world) && fresh(world.data) && fresh(player) && fresh(player.grid)
      ensures world.width == 16 && world.height == 24
      ensures !paused && !gameOver && score == 0
      ensures stepMs == 0 && currentStepMs == 0 && stepAccumulator == 0
    {
      world := new Grid(16, 24);
      player := new Player(nextKind, nextVal);
      paused, gameOver, score := false, false, 0;
      stepMs, currentStepMs, stepAccumulator := 0, 0, 0;
    }

    /** ResumeLevel */
    method Resume()
      requires Valid()
      modifies this`paused
      ensures Valid() && !paused
    {
      paused := false;
    }

    /** PauseLevel: ignored once the game is over. */
    method Pause()
      requires Valid()
      modifies this`paused
      ensures Valid()
      ensures paused == (old(paused) || !gameOver)
    {
      if !gameOver {
        paused := true;
      }
    }

    /** ToggleLevelPaused */
    method TogglePaused()
      requires Valid()
      modifies this`paused
      ensures Valid()
      ensures paused == Toggled(old(paused), gameOver)
    {
      if paused {
        Resume();
      } else {
        Pause();
      }
    }

    /** SetLevelGameOver: the game is over and no longer paused. */
    method SetGameOver()
      requires Valid()
      modifies this`gameOver, this`paused
      ensures Valid() && gameOver && !paused
    {
      gameOver := true;
      paused := false;
    }

    /** ResetLevel: flags, score and gravity period back to a fresh game;
        currentStepMs and stepAccumulator are left as they were. */
    method ResetLevel()
      requires Valid()
      modifies this`paused, this`gameOver, this`score, this`stepMs
      ensures Valid()
      ensures !paused && !gameOver && score == 0 && stepMs == MaxStepMs
    {
      paused := false;
      gameOver := false;
      score := 0;
      stepMs := MaxStepMs;
    }

    /** Restart: a fresh game on an empty grid with a newly spawned piece. */
    method Restart(newNextKind: int, newNextValue: int)
      requires Valid()
      requires 0 <= newNextKind < KindCount && 1 <= newNextValue <= ValueCount
      modifies this`paused, this`gameOver, this`score, this`stepMs, world.data, player, player.grid
      ensures Valid()
      ensures !paused && !gameOver && score == 0 && stepMs == MaxStepMs
      ensures world.Snapshot().rows == EmptyRows(world.width, world.height)
      ensures player.Data() == Kind(old(player.nextKindId)) && player.value == old(player.nextValue)
      ensures player.position == SpawnPosition(world.width, player.dim)
      ensures player.nextKindId == newNextKind && player.nextValue == newNextValue
    {
      ResetLevel();
      world.Reset();
      player.Spawn(world, newNextKind, newNextValue);
      SpawnIsPlaceable(world.Snapshot(), old(player.nextKindId));
    }

    /** ApplyLevelInput: while the game runs, move the piece and pick the
        gravity period (the fast one while down is held).  `dt` is unused. */
    method ApplyLevelInput(dt: U64, input: GameInput)
      requires Valid() && input.Valid()
      modifies this`currentStepMs, player`position, player.grid
      ensures Valid()
      ensures old(paused) || old(gameOver) ==>
        currentStepMs == old(currentStepMs) && player.position == old(player.position) && player.Data() == old(player.Data())
      ensures !old(paused) && !old(gameOver) ==>
        && currentStepMs == GravityPeriod(input.down.isDown, stepMs)
        && player.position == MovedTo(world.Snapshot(), old(player.Data()), old(player.position),
          Shifted(old(player.position),
            PressedOnce(input.left.isDown, input.left.transitionCount),
            PressedOnce(input.right.isDown, input.right.transitionCount)))
        && player.Data() ==
          if PressedOnce(input.rotate.isDown, input.rotate.transitionCount)
          then RotateResult(world.Snapshot(), old(player.Data()), player.position)
          else old(player.Data())
    {
      if !paused && !gameOver {
        MovePlayer(world, player, input);
        currentStepMs := GravityPeriod(input.down.isDown, stepMs);
      }
    }

    /** The landing branch of DoLevelStep: merge the piece, clear rows, then
        finish the landing. */
    method Land(newNextKind: int, newNextValue: int)
      requires Valid() && !paused && !gameOver
      requires 0 <= newNextKind < KindCount && 1 <= newNextValue <= ValueCount
      modifies this`paused, this`gameOver, this`score, this`stepMs, world.data, player, player.grid
      ensures Valid()
      ensures var landed := Compacted(Stamp(old(world.Snapshot()), old(player.Data()), old(player.position), old(player.value)));
        var cleared := FilledCount(Stamp(old(world.Snapshot()), old(player.Data()), old(player.position), old(player.value)).rows);
        && world.Snapshot() == landed
        && score == old(score) + cleared * ScorePerRow
        && stepMs == SpeedUp(old(stepMs), cleared)
        && gameOver == TopRowOccupied(landed) && !paused
      ensures player.Data() == Kind(old(player.nextKindId)) && player.value == old(player.nextValue)
      ensures player.position == SpawnPosition(world.width, player.dim)
      ensures player.nextKindId == newNextKind && player.nextValue == newNextValue
    {
      var destroyedRows := Settle(world, player);
      FinishLanding(destroyedRows, newNextKind, newNextValue);
    }

    /** The rest of a landing once the rows are cleared: score them, spawn
        the next piece, speed up, and end the game if a block sits in the top
        row. */
    method FinishLanding(destroyedRows: nat, newNextKind: int, newNextValue: int)
      requires Sound() && !paused && !gameOver
      requires 0 <= newNextKind < KindCount && 1 <= newNextValue <= ValueCount
      modifies this`paused, this`gameOver, this`score, this`stepMs, player, player.grid
      ensures Valid()
      ensures score == old(score) + destroyedRows * ScorePerRow
      ensures stepMs == SpeedUp(old(stepMs), destroyedRows)
      ensures gameOver == TopRowOccupied(world.Snapshot()) && !paused
      ensures player.Data() == Kind(old(player.nextKindId)) && player.value == old(player.nextValue)
      ensures player.position == SpawnPosition(world.width, player.dim)
      ensures player.nextKindId == newNextKind && player.nextValue == newNextValue
    {
      score := score + destroyedRows * ScorePerRow;
      Respawn(world, player, newNextKind, newNextValue);
      if destroyedRows > 0 {
        var d := SubU64(stepMs, DeltaStepMs);
        stepMs := if MinStepMs > d then MinStepMs else d;
      }
      var over := CheckGameOver(world, player);
      if over {
        SetGameOver();
      }
    }

    /** One gravity tick of a running game: the piece falls one row when it
        fits there and lands otherwise. */
    method Tick(newNextKind: int, newNextValue: int)
      requires Valid() && !paused && !gameOver
      requires 0 <= newNextKind < KindCount && 1 <= newNextValue <= ValueCount
      modifies this`paused, this`gameOver, this`score, this`stepMs, world.data, player, player.grid
      ensures Valid()
      ensures Placeable(old(world.Snapshot()), old(player.Data()), old(player.position).Add(Vec2i(0, 1))) ==>
        && world.Snapshot() == old(world.Snapshot()) && player.Data() == old(player.Data())
        && player.position == old(player.position).Add(Vec2i(0, 1))
        && !paused && !gameOver && score == old(score) && stepMs == old(stepMs)
        && player.value == old(player.value) && player.nextKindId == old(player.nextKindId) && player.nextValue == old(player.nextValue)
      ensures !Placeable(old(world.Snapshot()), old(player.Data()), old(player.position).Add(Vec2i(0, 1))) ==>
        var landed := Compacted(Stamp(old(world.Snapshot()), old(player.Data()), old(player.position), old(player.value)));
        var cleared := FilledCount(Stamp(old(world.Snapshot()), old(player.Data()), old(player.position), old(player.value)).rows);
        && world.Snapshot() == landed
        && score == old(score) + cleared * ScorePerRow
        && stepMs == SpeedUp(old(stepMs), cleared)
        && gameOver == TopRowOccupied(landed) && !paused
        && player.Data() == Kind(old(player.nextKindId)) && player.value == old(player.nextValue)
        && player.position == SpawnPosition(world.width, player.dim)
        && player.nextKindId == newNextKind && player.nextValue == newNextValue
    {
      var newPosition := player.position.Add(Vec2i(0, 1));
      var valid := IsPlayerPositionValid(world, player.dim, player.grid, newPosition);
      if valid {
        player.position := newPosition;
      } else {
        Land(newNextKind, newNextValue);
      }
    }

    /** DoLevelStep: `dt` is always added to the uint64 accumulator; once it
        reaches the current period the accumulator restarts from 0 and,
        unless the game is paused or over, the piece falls one row or lands.
        At most one row is fallen per call, whatever `dt` is.  The tick never
        reads or writes the accumulator, so storing it after the tick gives
        the same state as the source's order. */
    method DoLevelStep(dt: U64, newNextKind: int, newNextValue: int)
      requires Valid()
      requires 0 <= newNextKind < KindCount && 1 <= newNextValue <= ValueCount
      modifies this`paused, this`gameOver, this`score, this`stepMs, this`stepAccumulator
      modifies world.data, player, player.grid
      ensures Valid()
      ensures currentStepMs == old(currentStepMs)
      ensures stepAccumulator == if AddU64(old(stepAccumulator), dt) >= currentStepMs then 0 else AddU64(old(stepAccumulator), dt)
      ensures AddU64(old(stepAccumulator), dt) < currentStepMs || old(paused) || old(gameOver) ==>
        && world.Snapshot() == old(world.Snapshot()) && player.Data() == old(player.Data())
        && player.position == old(player.position)
        && paused == old(paused) && gameOver == old(gameOver) && score == old(score) && stepMs == old(stepMs)
        && player.value == old(player.value) && player.nextKindId == old(player.nextKindId) && player.nextValue == old(player.nextValue)
      ensures (AddU64(old(stepAccumulator), dt) >= currentStepMs && !old(paused) && !old(gameOver)
        && Placeable(old(world.Snapshot()), old(player.Data()), old(player.position).Add(Vec2i(0, 1)))) ==>
        && world.Snapshot() == old(world.Snapshot()) && player.Data() == old(player.Data())
        && player.position == old(player.position).Add(Vec2i(0, 1))
        && !paused && !gameOver && score == old(score) && stepMs == old(stepMs)
        && player.value == old(player.value) && player.nextKindId == old(player.nextKindId) && player.nextValue == old(player.nextValue)
      ensures (AddU64(old(stepAccumulator), dt) >= currentStepMs && !old(paused) && !old(gameOver)
        && !Placeable(old(world.Snapshot()), old(player.Data()), old(player.position).Add(Vec2i(0, 1)))) ==>
        var landed := Compacted(Stamp(old(world.Snapshot()), old(player.Data()), old(player.position), old(player.value)));
        var cleared := FilledCount(Stamp(old(world.Snapshot()), old(player.Data()), old(player.position), old(player.value)).rows);
        && world.Snapshot() == landed
        && score == old(score) + cleared * ScorePerRow
        && stepMs == SpeedUp(old(stepMs), cleared)
        && gameOver == TopRowOccupied(landed) && !paused
        && player.Data() == Kind(old(player.nextKindId)) && player.value == old(player.nextValue)
        && player.position == SpawnPosition(world.width, player.dim)
        && player.nextKindId == newNextKind && player.nextValue == newNextValue
    {
      var accumulated := AddU64(stepAccumulator, dt);
      if accumulated >= currentStepMs {
        if !paused && !gameOver {
          Tick(newNextKind, newNextValue);
        }
        stepAccumulator := 0;
      } else {
        stepAccumulator := accumulated;
      }
    }
  }
}

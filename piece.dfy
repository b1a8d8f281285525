// The falling piece ("player"): the catalog of seven shapes, the collision
// test against the grid, merging a landed piece into the grid, rotation and
// spawning from the "next" preview.

module Piece {
  import opened World

  /** PLAYER_DATA_GRID_MAX_SIZE: side of the buffer that holds a piece shape. */
  const MaxSize := 16
  /** PLAYER_DATA_KIND_COUNT */
  const KindCount := 7
  /** PLAYER_VALUE_COUNT: colours are 1 ..= ValueCount. */
  const ValueCount := 3

  /** `player_data_t` as a value: a `dim.x` by `dim.y` occupancy matrix,
      `cells[y][x]` non-zero where the piece has a block. */
  datatype Shape = Shape(dim: Vec2i, cells: seq<seq<Byte>>) {

    predicate WellFormed() {
      && 0 <= dim.x && 0 <= dim.y && |cells| == dim.y
      && forall y :: 0 <= y < dim.y ==> |cells[y]| == dim.x
    }

    predicate Square() {
      dim.x == dim.y
    }

    predicate Occupied(x: int, y: int)
      requires WellFormed()
    {
      0 <= x < dim.x && 0 <= y < dim.y && cells[y][x] != 0
    }

    ghost function OccupiedCells(): set<Vec2i>
      requires WellFormed()
    {
      set y, x | 0 <= y < dim.y && 0 <= x < dim.x && cells[y][x] != 0 :: Vec2i(x, y)
    }
  }

  /** Two well-formed shapes of one size with the same cells are equal. */
  lemma ShapesEqual(a: Shape, b: Shape)
    requires a.WellFormed() && b.WellFormed() && a.dim == b.dim
    requires forall y, x :: 0 <= y < a.dim.y && 0 <= x < a.dim.x ==> a.cells[y][x] == b.cells[y][x]
    ensures a == b
  {
    forall y | 0 <= y < a.dim.y
      ensures a.cells[y] == b.cells[y]
    {
    }
  }

  /** GetPlayerKind: the lookup table has eight slots, of which the first
      seven are the catalog and the last is zero-initialised. */
  function Kind(id: int): (s: Shape)
    requires 0 <= id < 8
    ensures s.WellFormed() && s.Square() && s.dim.x <= MaxSize && s.dim.y * s.dim.x <= MaxSize * MaxSize
  {
    match id
    case 0 => Shape(Vec2i(4, 4), [[0, 0, 0, 0], [0, 0, 0, 0], [0, 0, 0, 0], [1, 1, 1, 1]])
    case 1 => Shape(Vec2i(2, 2), [[1, 1], [1, 1]])
    case 2 => Shape(Vec2i(3, 3), [[1, 0, 0], [1, 0, 0], [1, 1, 0]])
    case 3 => Shape(Vec2i(3, 3), [[1, 0, 0], [1, 1, 0], [0, 1, 0]])
    case 4 => Shape(Vec2i(3, 3), [[0, 0, 0], [1, 1, 1], [0, 1, 0]])
    case 5 => Shape(Vec2i(3, 3), [[0, 0, 1], [0, 0, 1], [0, 1, 1]])
    case 6 => Shape(Vec2i(3, 3), [[0, 0, 1], [0, 1, 1], [0, 1, 0]])
    case _ => Shape(Vec2i(0, 0), [])
  }

  /** Every catalog entry is a tetromino: four blocks on a square of side
      4 (I), 2 (O) or 3 (the other five). */
  lemma KindIsTetromino(id: int)
    requires 0 <= id < KindCount
    ensures Kind(id).dim.x == (if id == 0 then 4 else if id == 1 then 2 else 3)
    ensures |Kind(id).OccupiedCells()| == 4
  {
    var s := Kind(id);
    forall y, x | 0 <= y < s.dim.y && 0 <= x < s.dim.x
      ensures s.cells[y][x] != 0 <==> Vec2i(x, y) in KindBlocks(id)
    {
      match id
      case 0 =>
      case 1 =>
      case 2 =>
      case 3 =>
      case 4 =>
      case 5 =>
      case 6 =>
    }
    CellsAre(s, KindBlocks(id));
  }

  /** A shape whose blocks are exactly the in-range positions of a set has
      that set as its occupied cells. */
  lemma CellsAre(s: Shape, blocks: set<Vec2i>)
    requires s.WellFormed()
    requires forall p :: p in blocks ==> 0 <= p.x < s.dim.x && 0 <= p.y < s.dim.y
    requires forall y, x :: 0 <= y < s.dim.y && 0 <= x < s.dim.x ==> (s.cells[y][x] != 0 <==> Vec2i(x, y) in blocks)
    ensures s.OccupiedCells() == blocks
  {
    forall p | p in blocks
      ensures p in s.OccupiedCells()
    {
      assert s.cells[p.y][p.x] != 0;
    }
  }

  /** The blocks of each catalog entry, listed. */
  function KindBlocks(id: int): (blocks: set<Vec2i>)
    requires 0 <= id < KindCount
    ensures |blocks| == 4
    ensures forall p :: p in blocks ==> 0 <= p.x < Kind(id).dim.x && 0 <= p.y < Kind(id).dim.y
  {
    match id
    case 0 => {Vec2i(0, 3), Vec2i(1, 3), Vec2i(2, 3), Vec2i(3, 3)}
    case 1 => {Vec2i(0, 0), Vec2i(1, 0), Vec2i(0, 1), Vec2i(1, 1)}
    case 2 => {Vec2i(0, 0), Vec2i(0, 1), Vec2i(0, 2), Vec2i(1, 2)}
    case 3 => {Vec2i(0, 0), Vec2i(0, 1), Vec2i(1, 1), Vec2i(1, 2)}
    case 4 => {Vec2i(0, 1), Vec2i(1, 1), Vec2i(2, 1), Vec2i(1, 2)}
    case 5 => {Vec2i(2, 0), Vec2i(2, 1), Vec2i(1, 2), Vec2i(2, 2)}
    case _ => {Vec2i(2, 0), Vec2i(1, 1), Vec2i(2, 1), Vec2i(1, 2)}
  }

  /** The 90-degree clockwise turn of a square shape. */
  function Rotated(s: Shape): (r: Shape)
    requires s.WellFormed() && s.Square()
    ensures r.WellFormed() && r.Square() && r.dim == s.dim
    ensures forall i, j :: 0 <= i < s.dim.x && 0 <= j < s.dim.x ==>
      r.cells[j][s.dim.x - 1 - i] == s.cells[i][j]
  {
    var n := s.dim.x;
    Shape(s.dim, seq(n, y requires 0 <= y < n => seq(n, x requires 0 <= x < n => s.cells[n - 1 - x][y])))
  }

  /** Four turns give back the original matrix. */
  lemma RotateFourTimes(s: Shape)
    requires s.WellFormed() && s.Square()
    ensures Rotated(Rotated(Rotated(Rotated(s)))) == s
  {
    var n := s.dim.x;
    var r1 := Rotated(s);
    var r2 := Rotated(r1);
    var r4 := Rotated(Rotated(r2));
    forall y, x | 0 <= y < n && 0 <= x < n
      ensures r2.cells[y][x] == s.cells[n - 1 - y][n - 1 - x]
    {
      assert r2.cells[y][x] == r1.cells[n - 1 - x][y];
    }
    forall y, x | 0 <= y < n && 0 <= x < n
      ensures r4.cells[y][x] == s.cells[y][x]
    {
      assert r4.cells[y][x] == r2.cells[n - 1 - y][n - 1 - x];
    }
    ShapesEqual(r4, s);
  }

  /** Where a turn sends cell `p` of an `n` by `n` matrix. */
  function Turn(n: int, p: Vec2i): Vec2i {
    Vec2i(n - 1 - p.y, p.x)
  }

  lemma {:induction false} TurnKeepsCardinality(cells: set<Vec2i>, n: int)
    ensures |set p | p in cells :: Turn(n, p)| == |cells|
    decreases |cells|
  {
    if cells != {} {
      var q :| q in cells;
      var rest := cells - {q};
      TurnKeepsCardinality(rest, n);
      assert (set p | p in cells :: Turn(n, p)) == (set p | p in rest :: Turn(n, p)) + {Turn(n, q)};
    }
  }

  /** A turn moves every block and keeps the number of blocks. */
  lemma RotationKeepsBlocks(s: Shape)
    requires s.WellFormed() && s.Square()
    ensures Rotated(s).OccupiedCells() == set p | p in s.OccupiedCells() :: Turn(s.dim.x, p)
    ensures |Rotated(s).OccupiedCells()| == |s.OccupiedCells()|
  {
    var n := s.dim.x;
    var r := Rotated(s);
    forall p | p in r.OccupiedCells()
      ensures p in set q | q in s.OccupiedCells() :: Turn(n, q)
    {
      var old_ := Vec2i(p.y, n - 1 - p.x);
      assert old_ in s.OccupiedCells();
      assert Turn(n, old_) == p;
    }
    forall q | q in s.OccupiedCells()
      ensures Turn(n, q) in r.OccupiedCells()
    {
      assert r.cells[q.x][n - 1 - q.y] == s.cells[q.y][q.x];
    }
    TurnKeepsCardinality(s.OccupiedCells(), n);
  }

  /** IsPlayerPositionValid as a predicate: every block of `s`, placed with
      its top-left corner at `pos`, lands on a valid and empty position. */
  predicate Placeable(b: Board, s: Shape, pos: Vec2i)
    requires b.WellFormed() && s.WellFormed()
  {
    forall y, x :: 0 <= y < s.dim.y && 0 <= x < s.dim.x && s.cells[y][x] != 0 ==>
      b.IsPositionValid(pos.Add(Vec2i(x, y))) && IsValueEmpty(b.ValueAt(pos.Add(Vec2i(x, y))))
  }

  /** Blocks above the grid never block a placement while their column is
      inside the grid: only blocks at y >= 0 are looked up. */
  lemma AboveGridIsFree(b: Board, s: Shape, pos: Vec2i)
    requires b.WellFormed() && s.WellFormed()
    requires forall y, x :: 0 <= y < s.dim.y && 0 <= x < s.dim.x && s.cells[y][x] != 0 ==>
      0 <= pos.x + x < b.width && pos.y + y < b.height
    ensures Placeable(b, s, pos) <==>
      forall y, x :: 0 <= y < s.dim.y && 0 <= x < s.dim.x && s.cells[y][x] != 0 && 0 <= pos.y + y ==>
        b.rows[pos.y + y][pos.x + x] == 0
  {
  }

  /** Filling more cells of the grid can only make a placement invalid. */
  lemma PlaceableAntitone(b: Board, c: Board, s: Shape, pos: Vec2i)
    requires b.WellFormed() && c.WellFormed() && s.WellFormed()
    requires b.width == c.width && b.height == c.height
    requires forall y, x :: 0 <= y < b.height && 0 <= x < b.width && b.rows[y][x] != 0 ==> c.rows[y][x] != 0
    ensures Placeable(c, s, pos) ==> Placeable(b, s, pos)
  {
  }

  /** Integer division by two as C does it: truncating toward zero. */
  function HalfTowardZero(a: int): (h: int)
    ensures a >= 0 ==> 0 <= h && 2 * h <= a < 2 * h + 2
    ensures a < 0 ==> h <= 0 && 2 * h - 2 < a <= 2 * h
  {
    if a >= 0 then a / 2 else -((-a) / 2)
  }

  /** The spawn anchor: centred horizontally, the whole box above the grid. */
  function SpawnPosition(width: int, dim: Vec2i): Vec2i {
    Vec2i(HalfTowardZero(width - dim.x), -dim.y)
  }

  /** A freshly spawned catalog piece has every block above the grid, so it
      is placeable whenever the grid is at least as wide as the piece. */
  lemma SpawnIsPlaceable(b: Board, id: int)
    requires b.WellFormed() && 0 <= id < 8 && Kind(id).dim.x <= b.width
    ensures SpawnPosition(b.width, Kind(id).dim).y + Kind(id).dim.y <= 0
    ensures Placeable(b, Kind(id), SpawnPosition(b.width, Kind(id).dim))
  {
    var s := Kind(id);
    var pos := SpawnPosition(b.width, s.dim);
    forall y, x | 0 <= y < s.dim.y && 0 <= x < s.dim.x
      ensures b.IsPositionValid(pos.Add(Vec2i(x, y))) && b.ValueAt(pos.Add(Vec2i(x, y))) == 0
    {
      assert 0 <= pos.x && pos.x + s.dim.x <= b.width;
    }
  }

  /** The grid after a piece is merged into it (SavePlayerInWorld): the
      piece's value in every cell of the grid covered by a block, nothing
      when the value is 0, and blocks outside the grid dropped. */
  function Stamp(b: Board, s: Shape, pos: Vec2i, value: Byte): (r: Board)
    requires b.WellFormed() && s.WellFormed()
    ensures r.WellFormed() && r.width == b.width && r.height == b.height
    ensures forall y, x :: 0 <= y < b.height && 0 <= x < b.width ==>
      r.rows[y][x] == if value != 0 && s.Occupied(x - pos.x, y - pos.y) then value else b.rows[y][x]
  {
    Board(b.width, b.height,
      seq(b.height, y requires 0 <= y < b.height =>
        seq(b.width, x requires 0 <= x < b.width =>
          if value != 0 && s.Occupied(x - pos.x, y - pos.y) then value else b.rows[y][x])))
  }

  /** Merging with value 0 leaves the grid as it was. */
  lemma StampZeroIsIdentity(b: Board, s: Shape, pos: Vec2i)
    requires b.WellFormed() && s.WellFormed()
    ensures Stamp(b, s, pos, 0) == b
  {
    BoardsEqual(Stamp(b, s, pos, 0), b);
  }

  /** A merge writes exactly the cells under the blocks of a piece that sit
      inside the grid at y >= 0, and changes no other cell. */
  lemma StampWritesBlocks(b: Board, s: Shape, pos: Vec2i, value: Byte, p: Vec2i)
    requires b.WellFormed() && s.WellFormed() && value != 0
    ensures Stamp(b, s, pos, value).ValueAt(p) ==
      if 0 <= p.y && b.IsPositionValid(p) && s.Occupied(p.x - pos.x, p.y - pos.y) then value else b.ValueAt(p)
  {
  }

  /** A piece entirely above the grid leaves no trace when merged. */
  lemma StampAboveGridDropped(b: Board, s: Shape, pos: Vec2i, value: Byte)
    requires b.WellFormed() && s.WellFormed() && pos.y + s.dim.y <= 0
    ensures Stamp(b, s, pos, value) == b
  {
    var r := Stamp(b, s, pos, value);
    forall y, x | 0 <= y < b.height && 0 <= x < b.width
      ensures r.rows[y][x] == b.rows[y][x]
    {
      assert !s.Occupied(x - pos.x, y - pos.y);
    }
    BoardsEqual(r, b);
  }

  /** A placeable piece merged with a non-zero value fills only cells that
      were empty, and every one of its blocks ends up inside the grid
      (when at y >= 0) holding that value. */
  lemma StampOfPlaceable(b: Board, s: Shape, pos: Vec2i, value: Byte)
    requires b.WellFormed() && s.WellFormed() && value != 0 && Placeable(b, s, pos)
    ensures forall y, x :: 0 <= y < s.dim.y && 0 <= x < s.dim.x && s.cells[y][x] != 0 && 0 <= pos.y + y ==>
      Stamp(b, s, pos, value).rows[pos.y + y][pos.x + x] == value
    ensures forall y, x :: 0 <= y < b.height && 0 <= x < b.width && b.rows[y][x] != 0 ==>
      Stamp(b, s, pos, value).rows[y][x] == b.rows[y][x]
  {
    forall y, x | 0 <= y < s.dim.y && 0 <= x < s.dim.x && s.cells[y][x] != 0
      ensures 0 <= pos.x + x < b.width && pos.y + y < b.height
    {
      assert b.IsPositionValid(pos.Add(Vec2i(x, y)));
    }
    StampCoversBlocks(b, s, pos, value);
    StampKeepsFilled(b, s, pos, value);
  }

  /** A merge with a non-zero value writes it under every block that lands
      in the grid. */
  lemma StampCoversBlocks(b: Board, s: Shape, pos: Vec2i, value: Byte)
    requires b.WellFormed() && s.WellFormed() && value != 0
    requires forall y, x :: 0 <= y < s.dim.y && 0 <= x < s.dim.x && s.cells[y][x] != 0 ==>
      0 <= pos.x + x < b.width && pos.y + y < b.height
    ensures forall y, x :: 0 <= y < s.dim.y && 0 <= x < s.dim.x && s.cells[y][x] != 0 && 0 <= pos.y + y ==>
      Stamp(b, s, pos, value).rows[pos.y + y][pos.x + x] == value
  {
    forall y, x | 0 <= y < s.dim.y && 0 <= x < s.dim.x && s.cells[y][x] != 0 && 0 <= pos.y + y
      ensures Stamp(b, s, pos, value).rows[pos.y + y][pos.x + x] == value
    {
      StampAt(b, s, pos, value, x, y);
    }
  }

  /** The merge at the grid cell under block (x, y). */
  lemma StampAt(b: Board, s: Shape, pos: Vec2i, value: Byte, x: int, y: int)
    requires b.WellFormed() && s.WellFormed() && value != 0 && s.Occupied(x, y)
    requires 0 <= pos.x + x < b.width && 0 <= pos.y + y < b.height
    ensures Stamp(b, s, pos, value).rows[pos.y + y][pos.x + x] == value
  {
    var row, col := pos.y + y, pos.x + x;
    assert col - pos.x == x && row - pos.y == y;
  }

  /** Merging a placeable piece never overwrites a settled block. */
  lemma StampKeepsFilled(b: Board, s: Shape, pos: Vec2i, value: Byte)
    requires b.WellFormed() && s.WellFormed() && value != 0 && Placeable(b, s, pos)
    ensures forall y, x :: 0 <= y < b.height && 0 <= x < b.width && b.rows[y][x] != 0 ==>
      Stamp(b, s, pos, value).rows[y][x] == b.rows[y][x]
  {
    var r := Stamp(b, s, pos, value);
    forall y, x | 0 <= y < b.height && 0 <= x < b.width && b.rows[y][x] != 0
      ensures !s.Occupied(x - pos.x, y - pos.y)
    {
      assert pos.Add(Vec2i(x - pos.x, y - pos.y)) == Vec2i(x, y);
      assert b.ValueAt(Vec2i(x, y)) != 0;
    }
  }

  /** Cell (x, y) of a shape buffer whose rows are `w` bytes long is byte
      y * w + x: the buffer of `player_data_t` is row-major with stride dim.x. */
  lemma OffsetInBuffer(w: int, h: int, x: int, y: int)
    requires 0 <= x < w && 0 <= y < h
    ensures 0 <= y * w + x < h * w
  {
    assert (h - 1 - y) * w >= 0;
    assert (h - 1) * w - y * w == (h - 1 - y) * w;
    assert (h - 1) * w + w == h * w;
  }

  /** Distinct cells of a row-major buffer are distinct bytes. */
  lemma OffsetsDistinct(w: int, x: int, y: int, x': int, y': int)
    requires 0 <= x < w && 0 <= x' < w && 0 <= y && 0 <= y'
    requires x != x' || y != y'
    ensures y * w + x != y' * w + x'
  {
    if y < y' {
      EarlierRowEarlierByte(w, x, y, x', y');
    } else if y' < y {
      EarlierRowEarlierByte(w, x', y', x, y);
    }
  }

  /** Every byte of an earlier row comes before every byte of a later one. */
  lemma EarlierRowEarlierByte(w: int, x: int, y: int, x': int, y': int)
    requires 0 <= x < w && 0 <= x' && 0 <= y < y'
    ensures y * w + x < y' * w + x'
  {
    assert y' * w == (y + 1) * w + (y' - y - 1) * w;
    assert (y' - y - 1) * w >= 0;
  }

  /** Stepping to the next row of an n-row buffer with stride n. */
  lemma NextRow(y: int, n: int)
    requires 0 <= y < n
    ensures (y + 1) * n == y * n + n && y * n + n <= n * n
  {
    assert (n - 1 - y) * n >= 0;
  }

  /** A shape side that fits the MaxSize x MaxSize buffer. */
  lemma SideFits(n: int)
    requires 0 <= n <= MaxSize
    ensures n * n <= MaxSize * MaxSize
  {
    assert n * n <= n * MaxSize;
  }

  /** Byte y * w + x of a row-major buffer whose rows are `w` bytes long is
      cell (x, y); the buffer of `player_data_t` has stride dim.x. */
  function CellAt(buf: seq<Byte>, w: int, h: int, x: int, y: int): Byte
    requires 0 <= x < w && 0 <= y < h && h * w <= |buf|
  {
    OffsetInBuffer(w, h, x, y);
    buf[y * w + x]
  }

  /** The first dim.y * dim.x bytes of a shape buffer, read as a shape. */
  function ShapeOf(dim: Vec2i, buf: seq<Byte>): (s: Shape)
    requires 0 <= dim.x && 0 <= dim.y && dim.y * dim.x <= |buf|
    ensures s.WellFormed() && s.dim == dim
    ensures forall y, x :: 0 <= y < dim.y && 0 <= x < dim.x ==> s.cells[y][x] == CellAt(buf, dim.x, dim.y, x, y)
  {
    Shape(dim,
      seq(dim.y, y requires 0 <= y < dim.y =>
        seq(dim.x, x requires 0 <= x < dim.x => CellAt(buf, dim.x, dim.y, x, y))))
  }

  /** Buffers that agree on their first n * n bytes hold the same n x n shape. */
  lemma ShapeOfPrefix(n: int, a: seq<Byte>, b: seq<Byte>)
    requires 0 <= n && n * n <= |a| && n * n <= |b|
    requires forall k :: 0 <= k < n * n ==> a[k] == b[k]
    ensures ShapeOf(Vec2i(n, n), a) == ShapeOf(Vec2i(n, n), b)
  {
    forall r, c | 0 <= r < n && 0 <= c < n
      ensures ShapeOf(Vec2i(n, n), a).cells[r][c] == ShapeOf(Vec2i(n, n), b).cells[r][c]
    {
      OffsetInBuffer(n, n, c, r);
    }
    ShapesEqual(ShapeOf(Vec2i(n, n), a), ShapeOf(Vec2i(n, n), b));
  }

  /** A buffer that starts with the row-major bytes of a shape holds it. */
  lemma ShapeOfRowMajor(s: Shape, buf: seq<Byte>)
    requires s.WellFormed() && s.dim.y * s.dim.x <= |buf|
    requires forall k :: 0 <= k < s.dim.y * s.dim.x ==> k < |RowMajor(s.cells)| && buf[k] == RowMajor(s.cells)[k]
    ensures ShapeOf(s.dim, buf) == s
  {
    forall r, c | 0 <= r < s.dim.y && 0 <= c < s.dim.x
      ensures ShapeOf(s.dim, buf).cells[r][c] == s.cells[r][c]
    {
      OffsetInBuffer(s.dim.x, s.dim.y, c, r);
      RowMajorIndex(s.cells, s.dim.x, c, r);
    }
    ShapesEqual(ShapeOf(s.dim, buf), s);
  }

  /** What the fill loop of RotatePlayer has written into `d` once it has
      visited source rows 0 .. i-1 and the first j cells of row i: source
      cell (c, r) of the n x n shape in `s` has gone to cell (n-1-r, c). */
  ghost predicate TurnedUpTo(d: seq<Byte>, s: seq<Byte>, n: int, i: int, j: int)
    requires 0 <= n && n * n <= |d| && n * n <= |s|
  {
    forall r, c :: 0 <= r < n && 0 <= c < n && (r < i || (r == i && c < j)) ==>
      CellAt(d, n, n, n - 1 - r, c) == CellAt(s, n, n, c, r)
  }

  /** One step of the fill loop keeps what earlier steps wrote. */
  lemma TurnStep(d: seq<Byte>, s: seq<Byte>, n: int, i: int, j: int)
    requires 0 <= i < n && 0 <= j < n && n * n <= |d| && n * n <= |s|
    requires TurnedUpTo(d, s, n, i, j)
    ensures 0 <= j * n + (n - 1 - i) < |d| && 0 <= i * n + j < |s|
    ensures TurnedUpTo(d[j * n + (n - 1 - i) := s[i * n + j]], s, n, i, j + 1)
  {
    OffsetInBuffer(n, n, n - 1 - i, j);
    OffsetInBuffer(n, n, j, i);
    var d' := d[j * n + (n - 1 - i) := s[i * n + j]];
    forall r, c | 0 <= r < n && 0 <= c < n && (r < i || (r == i && c < j + 1))
      ensures CellAt(d', n, n, n - 1 - r, c) == CellAt(s, n, n, c, r)
    {
      OffsetInBuffer(n, n, n - 1 - r, c);
      if r != i || c != j {
        OffsetsDistinct(n, n - 1 - r, c, n - 1 - i, j);
      }
    }
  }

  /** Once every source row is visited, `d` holds the turned shape. */
  lemma TurnedAll(d: seq<Byte>, s: seq<Byte>, n: int)
    requires 0 <= n && n * n <= |d| && n * n <= |s|
    requires TurnedUpTo(d, s, n, n, 0)
    ensures ShapeOf(Vec2i(n, n), d) == Rotated(ShapeOf(Vec2i(n, n), s))
  {
    var turned := Rotated(ShapeOf(Vec2i(n, n), s));
    forall y, x | 0 <= y < n && 0 <= x < n
      ensures ShapeOf(Vec2i(n, n), d).cells[y][x] == turned.cells[y][x]
    {
      assert CellAt(d, n, n, n - 1 - (n - 1 - x), y) == CellAt(s, n, n, y, n - 1 - x);
    }
    ShapesEqual(ShapeOf(Vec2i(n, n), d), turned);
  }

  /** IsPlayerPositionValid: stops at the first block that is out of bounds
      or lands on a non-empty cell. */
  method IsPlayerPositionValid(world: Grid, dim: Vec2i, cells: array<Byte>, testPosition: Vec2i)
    returns (valid: bool)
    requires world.Valid() && 0 <= dim.x && 0 <= dim.y && dim.y * dim.x <= cells.Length
    ensures valid == Placeable(world.Snapshot(), ShapeOf(dim, cells[..]), testPosition)
  {
    ghost var b := world.Snapshot();
    ghost var s := ShapeOf(dim, cells[..]);
    var y := 0;
    while y < dim.y
      invariant 0 <= y <= dim.y
      invariant forall r, c :: 0 <= r < y && 0 <= c < dim.x && s.cells[r][c] != 0 ==>
        b.IsPositionValid(testPosition.Add(Vec2i(c, r))) && IsValueEmpty(b.ValueAt(testPosition.Add(Vec2i(c, r))))
    {
      var x := 0;
      while x < dim.x
        invariant 0 <= x <= dim.x
        invariant forall r, c :: 0 <= r < y && 0 <= c < dim.x && s.cells[r][c] != 0 ==>
          b.IsPositionValid(testPosition.Add(Vec2i(c, r))) && IsValueEmpty(b.ValueAt(testPosition.Add(Vec2i(c, r))))
        invariant forall c :: 0 <= c < x && s.cells[y][c] != 0 ==>
          b.IsPositionValid(testPosition.Add(Vec2i(c, y))) && IsValueEmpty(b.ValueAt(testPosition.Add(Vec2i(c, y))))
      {
        OffsetInBuffer(dim.x, dim.y, x, y);
        if cells[y * dim.x + x] != 0 {
          var position := testPosition.Add(Vec2i(x, y));
          if !world.IsPositionValid(position) || !IsValueEmpty(world.GetValue(position)) {
            return false;
          }
        }
        x := x + 1;
      }
      y := y + 1;
    }
    return true;
  }

  /** The rotation RotatePlayer is meant to commit: the turned shape when
      it is placeable at the unchanged position, else the shape as it was.
      The source's own check inspects a different shape; see
      RotationAcceptedAsWritten. */
  function RotateResult(b: Board, s: Shape, pos: Vec2i): (r: Shape)
    requires b.WellFormed() && s.WellFormed() && s.Square()
    ensures r.WellFormed() && r.Square() && r.dim == s.dim
    ensures r == Rotated(s) || r == s
  {
    if Placeable(b, Rotated(s), pos) then Rotated(s) else s
  }

  /** Under the intended check, a rotation is committed exactly when the
      turned shape fits, so a fitting piece still fits afterwards.  The
      as-written check breaks this (RotationCheckAsWrittenMissesOverlap). */
  lemma RotateKeepsFit(b: Board, s: Shape, pos: Vec2i)
    requires b.WellFormed() && s.WellFormed() && s.Square()
    ensures RotateResult(b, s, pos) == Rotated(s) <==> Placeable(b, Rotated(s), pos) || Rotated(s) == s
    ensures Placeable(b, s, pos) ==> Placeable(b, RotateResult(b, s, pos), pos)
  {
  }

  /** The fill loop of RotatePlayer, writing the turned n x n shape into a
      fresh scratch buffer.  The source's scratch is a 16 x 16 matrix (row
      stride 16); this one has stride n, like the piece buffer, which is the
      layout the intended check needs. */
  method TurnedCopy(src: array<Byte>, n: int) returns (dst: array<Byte>)
    requires 0 <= n <= MaxSize && n * n <= src.Length
    ensures fresh(dst) && dst.Length == MaxSize * MaxSize
    ensures ShapeOf(Vec2i(n, n), dst[..]) == Rotated(ShapeOf(Vec2i(n, n), src[..]))
  {
    SideFits(n);
    dst := new Byte[MaxSize * MaxSize];
    var i := 0;
    while i < n
      invariant 0 <= i <= n && TurnedUpTo(dst[..], src[..], n, i, 0)
    {
      var j := 0;
      while j < n
        invariant 0 <= j <= n && TurnedUpTo(dst[..], src[..], n, i, j)
      {
        ghost var before := dst[..];
        TurnStep(before, src[..], n, i, j);
        dst[j * n + (n - 1 - i)] := src[i * n + j];
        assert dst[..] == before[j * n + (n - 1 - i) := src[i * n + j]];
        j := j + 1;
      }
      i := i + 1;
    }
    TurnedAll(dst[..], src[..], n);
  }

  /** The copy-back loop of RotatePlayer: the first n * n bytes of `src`
      are written over those of `dst`. */
  method CopyCorner(dst: array<Byte>, src: array<Byte>, n: int)
    requires 0 <= n && n * n <= dst.Length && n * n <= src.Length
    modifies dst
    ensures ShapeOf(Vec2i(n, n), dst[..]) == ShapeOf(Vec2i(n, n), src[..])
  {
    var y, base := 0, 0;
    while y < n
      invariant 0 <= y <= n && base == y * n && base <= n * n
      invariant forall k :: 0 <= k < base ==> dst[k] == src[k]
    {
      NextRow(y, n);
      var x := 0;
      while x < n
        invariant 0 <= x <= n && base + n <= n * n
        invariant forall k :: 0 <= k < base + x ==> dst[k] == src[k]
      {
        dst[base + x] := src[base + x];
        x := x + 1;
      }
      y, base := y + 1, base + n;
    }
    ShapeOfPrefix(n, dst[..], src[..]);
  }

  /** The active piece, `player_t`.  `grid` is the MaxSize * MaxSize byte
      buffer; its first dim.y * dim.x bytes hold the current shape, row by
      row with stride dim.x. */
  class Player {
    var position: Vec2i
    var dim: Vec2i
    const grid: array<Byte>
    var value: Byte
    var nextKindId: int
    var nextValue: int

    ghost predicate Valid()
      reads this
    {
      && grid.Length == MaxSize * MaxSize
      && 0 <= dim.x == dim.y <= MaxSize && dim.y * dim.x <= grid.Length
      && 0 <= nextKindId < KindCount && 1 <= nextValue <= ValueCount
    }

    /** The current shape as a value. */
    ghost function Data(): (s: Shape)
      requires Valid()
      reads this, grid
      ensures s.WellFormed() && s.Square() && s.dim == dim
    {
      ShapeOf(dim, grid[..])
    }

    /** InitPlayer: the first "next" pair is drawn, the buffer zeroed. */
    constructor (nextKind: int, nextVal: int)
      requires 0 <= nextKind < KindCount && 1 <= nextVal <= ValueCount
      ensures Valid() && fresh(grid)
      ensures position == Vec2i(0, 0) && dim == Vec2i(0, 0) && value == 0
      ensures nextKindId == nextKind && nextValue == nextVal
    {
      position, dim, value := Vec2i(0, 0), Vec2i(0, 0), 0;
      nextKindId, nextValue := nextKind, nextVal;
      grid := new Byte[MaxSize * MaxSize](_ => 0);
    }

    /** RotatePlayer with its validity check corrected: turns the shape in a
        scratch buffer and copies it back only if the turned shape is
        placeable where the piece is.  The source tests the scratch bytes
        with the wrong stride instead (RotationAcceptedAsWritten).  Position,
        size and value are left alone. */
    method Rotate(world: Grid)
      requires Valid() && world.Valid()
      modifies grid
      ensures Valid()
      ensures Data() == RotateResult(world.Snapshot(), old(Data()), position)
    {
      var newData := TurnedCopy(grid, dim.x);
      var ok := IsPlayerPositionValid(world, dim, newData, position);
      if ok {
        CopyCorner(grid, newData, dim.x);
      }
    }

    /** SpawnPlayer: the preview pair becomes the active piece and a new
        preview pair (drawn by the caller) replaces it.  The catalog entry
        is copied byte by byte in row-major order. */
    method Spawn(world: Grid, newNextKind: int, newNextValue: int)
      requires Valid() && world.Valid()
      requires 0 <= newNextKind < KindCount && 1 <= newNextValue <= ValueCount
      modifies this, grid
      ensures Valid()
      ensures value == old(nextValue)
      ensures nextKindId == newNextKind && nextValue == newNextValue
      ensures Data() == Kind(old(nextKindId))
      ensures position == SpawnPosition(world.width, dim)
    {
      value := nextValue;
      var kindId := nextKindId;
      nextKindId := newNextKind;
      nextValue := newNextValue;
      var kind := Kind(kindId);
      var n := kind.dim.x;
      var flat := RowMajor(kind.cells);
      RowMajorLength(kind.cells, n);
      dim := kind.dim;
      var y, base := 0, 0;
      while y < n
        modifies grid
        invariant 0 <= y <= n && base == y * n && base <= n * n
        invariant forall k :: 0 <= k < base ==> grid[k] == flat[k]
      {
        NextRow(y, n);
        var x := 0;
        while x < n
          modifies grid
          invariant 0 <= x <= n && base + n <= n * n
          invariant forall k :: 0 <= k < base + x ==> grid[k] == flat[k]
        {
          grid[base + x] := flat[base + x];
          x := x + 1;
        }
        y, base := y + 1, base + n;
      }
      ShapeOfRowMajor(kind, grid[..]);
      position := SpawnPosition(world.width, dim);
    }
  }

  /** SavePlayerInWorld: writes the piece's value into the grid under each of
      its blocks (through SetWorldValue, so blocks outside the grid or above
      it are dropped); nothing happens when the value is 0. */
  method SavePlayerInWorld(world: Grid, player: Player)
    requires world.Valid() && player.Valid()
    modifies world.data
    ensures world.Snapshot() == Stamp(old(world.Snapshot()), player.Data(), player.position, player.value)
  {
    ghost var b := world.Snapshot();
    ghost var s := player.Data();
    var pos, v := player.position, player.value;
    if v != 0 {
      var y := 0;
      while y < player.dim.y
        invariant 0 <= y <= player.dim.y
        invariant forall r, c :: 0 <= r < world.height && 0 <= c < world.width ==>
          world.data[r, c] == if r - pos.y < y && s.Occupied(c - pos.x, r - pos.y) then v else b.rows[r][c]
      {
        SaveRow(world, player, y);
        y := y + 1;
      }
      ghost var g := world.Snapshot();
      forall r, c | 0 <= r < world.height && 0 <= c < world.width
        ensures g.rows[r][c] == if r - pos.y < s.dim.y && s.Occupied(c - pos.x, r - pos.y) then v else b.rows[r][c]
      {
        assert g.rows[r][c] == world.data[r, c];
      }
      StampFromCells(b, s, pos, v, g);
    } else {
      StampZeroIsIdentity(b, s, pos);
    }
  }

  /** One row of SavePlayerInWorld: the piece's value goes under the blocks
      of shape row y, every other cell keeps its value. */
  method SaveRow(world: Grid, player: Player, y: int)
    requires world.Valid() && player.Valid() && 0 <= y < player.dim.y
    modifies world.data
    ensures forall r, c :: 0 <= r < world.height && 0 <= c < world.width ==>
      world.data[r, c] ==
        if r - player.position.y == y && player.Data().Occupied(c - player.position.x, y)
        then player.value else old(world.data[r, c])
  {
    ghost var s := player.Data();
    var pos, v := player.position, player.value;
    var x := 0;
    while x < player.dim.x
      invariant 0 <= x <= player.dim.x
      invariant forall r, c :: 0 <= r < world.height && 0 <= c < world.width ==>
        world.data[r, c] ==
          if r - pos.y == y && c - pos.x < x && s.Occupied(c - pos.x, y) then v else old(world.data[r, c])
    {
      OffsetInBuffer(player.dim.x, player.dim.y, x, y);
      if player.grid[y * player.dim.x + x] != 0 {
        world.SetValue(pos.Add(Vec2i(x, y)), v);
      }
      x := x + 1;
    }
  }

  /** A board holding the piece's value exactly under its blocks, and the old
      contents elsewhere, is the merge. */
  lemma StampFromCells(b: Board, s: Shape, pos: Vec2i, value: Byte, g: Board)
    requires b.WellFormed() && s.WellFormed() && g.WellFormed()
    requires g.width == b.width && g.height == b.height
    requires forall y, x :: 0 <= y < b.height && 0 <= x < b.width ==>
      g.rows[y][x] == if y - pos.y < s.dim.y && s.Occupied(x - pos.x, y - pos.y) then value else b.rows[y][x]
    requires value != 0
    ensures g == Stamp(b, s, pos, value)
  {
    BoardsEqual(g, Stamp(b, s, pos, value));
  }

  // ---- RotatePlayer as written -------------------------------------------
  // The validity test in RotatePlayer is handed the scratch matrix
  // `uint8 newData[16][16]` as a flat byte buffer, but reads it with row
  // stride dim.x instead of 16.  Block (x, y) of the shape it tests is byte
  // y * n + x of the matrix, i.e. newData[(y * n + x) / 16][(y * n + x) % 16].
  // For the catalog sides (n <= 4) that is row 0 of the turned shape followed
  // by bytes the fill loop never wrote.

  /** A 16 x 16 matrix: the never-written bytes of the scratch matrix. */
  predicate IsScratch(m: seq<seq<Byte>>) {
    |m| == MaxSize && forall r :: 0 <= r < MaxSize ==> |m[r]| == MaxSize
  }

  /** Byte (r, c) of the scratch matrix after the fill loop. */
  function ScratchAt(turned: Shape, garbage: seq<seq<Byte>>, r: int, c: int): Byte
    requires turned.WellFormed() && IsScratch(garbage) && 0 <= r < MaxSize && 0 <= c < MaxSize
  {
    if r < turned.dim.y && c < turned.dim.x then turned.cells[r][c] else garbage[r][c]
  }

  /** Block (x, y) of an n-wide shape read with stride n from the flat
      scratch matrix: byte y * n + x, i.e. row (y * n + x) / 16 and column
      (y * n + x) % 16. */
  function SeenCell(turned: Shape, garbage: seq<seq<Byte>>, x: int, y: int): Byte
    requires turned.WellFormed() && turned.Square() && turned.dim.x <= MaxSize && IsScratch(garbage)
    requires 0 <= x < turned.dim.x && 0 <= y < turned.dim.x
  {
    var n := turned.dim.x;
    var k := y * n + x;
    assert 0 <= k < MaxSize * MaxSize by {
      assert y * n <= (n - 1) * n;
      assert (n - 1) * n + n == n * n;
      assert n * n <= MaxSize * MaxSize;
    }
    ScratchAt(turned, garbage, k / MaxSize, k % MaxSize)
  }

  /** The shape the validity test of RotatePlayer actually inspects. */
  function SeenByRotationCheck(turned: Shape, garbage: seq<seq<Byte>>): (s: Shape)
    requires turned.WellFormed() && turned.Square() && turned.dim.x <= MaxSize && IsScratch(garbage)
    ensures s.WellFormed() && s.dim == turned.dim
    ensures forall y, x :: 0 <= y < turned.dim.x && 0 <= x < turned.dim.x ==>
      s.cells[y][x] == SeenCell(turned, garbage, x, y)
  {
    var n := turned.dim.x;
    Shape(turned.dim, seq(n, y requires 0 <= y < n =>
      seq(n, x requires 0 <= x < n => SeenCell(turned, garbage, x, y))))
  }

  /** The decision of RotatePlayer as written, for a given content of the
      never-written scratch bytes. */
  predicate RotationAcceptedAsWritten(b: Board, s: Shape, pos: Vec2i, garbage: seq<seq<Byte>>)
    requires b.WellFormed() && s.WellFormed() && s.Square() && s.dim.x <= MaxSize && IsScratch(garbage)
  {
    Placeable(b, SeenByRotationCheck(Rotated(s), garbage), pos)
  }

  function ZeroScratch(): (m: seq<seq<Byte>>)
    ensures IsScratch(m)
  {
    seq(MaxSize, _ => EmptyRow(MaxSize))
  }

  /** A 16 x 24 grid whose only block is at (5, 11). */
  function OneBlockBoard(): (b: Board)
    ensures b.WellFormed() && b.width == 16 && b.height == 24
  {
    Board(16, 24, seq(24, y => seq(16, x => if x == 5 && y == 11 then 1 else 0)))
  }

  /** The I piece lying at (5, 10) has its blocks on row 13, clear of the
      block at (5, 11). */
  lemma LyingBarFits()
    ensures Placeable(OneBlockBoard(), Kind(0), Vec2i(5, 10))
  {
  }

  /** Its turn, a bar on column 5 from row 10 to row 13, meets that block. */
  lemma StandingBarOverlaps()
    ensures !Placeable(OneBlockBoard(), Rotated(Kind(0)), Vec2i(5, 10))
  {
    var s := Kind(0);
    var t := Rotated(s);
    assert t.cells[1][0] == s.cells[3][1] == 1;
    assert OneBlockBoard().ValueAt(Vec2i(5, 10).Add(Vec2i(0, 1))) == 1;
  }

  /** With zeroed scratch bytes the check sees only block (0, 0) of the
      turned I piece. */
  lemma ZeroScratchSeesOneBlock()
    ensures var seen := SeenByRotationCheck(Rotated(Kind(0)), ZeroScratch());
      forall y, x :: 0 <= y < 4 && 0 <= x < 4 ==> seen.cells[y][x] == if y == 0 && x == 0 then 1 else 0
  {
    var s := Kind(0);
    var t := Rotated(s);
    var seen := SeenByRotationCheck(t, ZeroScratch());
    forall y, x | 0 <= y < 4 && 0 <= x < 4
      ensures seen.cells[y][x] == if y == 0 && x == 0 then 1 else 0
    {
      var k := y * 4 + x;
      assert 0 <= k < 16;
      assert k / MaxSize == 0 && k % MaxSize == k;
      if k < 4 {
        assert seen.cells[y][x] == t.cells[0][k] == s.cells[3 - k][0];
      } else {
        assert seen.cells[y][x] == ZeroScratch()[0][k];
      }
    }
  }

  /** A shape whose only block is its corner (0, 0) fits wherever that
      one cell is free. */
  lemma CornerOnlyFits(b: Board, s: Shape, pos: Vec2i)
    requires b.WellFormed() && s.WellFormed()
    requires forall y, x :: 0 <= y < s.dim.y && 0 <= x < s.dim.x && s.cells[y][x] != 0 ==> y == 0 && x == 0
    requires b.IsPositionValid(pos) && IsValueEmpty(b.ValueAt(pos))
    ensures Placeable(b, s, pos)
  {
    assert pos.Add(Vec2i(0, 0)) == pos;
  }

  /** The I piece lying at (5, 10) is placeable and its turn would overlap
      the block at (5, 11); yet with zeroed scratch bytes RotatePlayer as
      written accepts the turn, because it only tests block (0, 0) of the
      turned shape. */
  lemma RotationCheckAsWrittenMissesOverlap()
    ensures Placeable(OneBlockBoard(), Kind(0), Vec2i(5, 10))
    ensures !Placeable(OneBlockBoard(), Rotated(Kind(0)), Vec2i(5, 10))
    ensures RotationAcceptedAsWritten(OneBlockBoard(), Kind(0), Vec2i(5, 10), ZeroScratch())
  {
    LyingBarFits();
    StandingBarOverlaps();
    ZeroScratchSeesOneBlock();
    CornerOnlyFits(OneBlockBoard(), SeenByRotationCheck(Rotated(Kind(0)), ZeroScratch()), Vec2i(5, 10));
  }
}

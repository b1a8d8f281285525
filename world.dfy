// The playfield ("world") of the game: a fixed-size grid of byte cells,
// 0 meaning empty, stored row-major.  Rows above the grid (negative y) are
// a spawn buffer that is valid and always empty.

module World {

  /** An integer 2-D vector; x grows to the right, y grows downwards. */
  datatype Vec2i = Vec2i(x: int, y: int) {
    function Add(other: Vec2i): Vec2i {
      Vec2i(x + other.x, y + other.y)
    }
  }

  /** The 8-bit unsigned cell type of the grid and of piece shapes. */
  type Byte = b: int | 0 <= b < 256

  predicate IsValueEmpty(value: Byte) {
    value == 0
  }

  /** Bounds test shared by the grid and its value view: x inside the
      columns, y anywhere above the bottom edge (negative y included). */
  predicate InBounds(width: int, height: int, p: Vec2i) {
    0 <= p.x < width && p.y < height
  }

  /** A row whose every column is non-empty. */
  predicate Filled(row: seq<Byte>) {
    forall x :: 0 <= x < |row| ==> !IsValueEmpty(row[x])
  }

  function EmptyRow(width: nat): (row: seq<Byte>)
    ensures |row| == width && forall x :: 0 <= x < width ==> row[x] == 0
  {
    seq(width, _ => 0)
  }

  /** n empty rows of the given width. */
  function EmptyRows(width: nat, n: nat): (rows: seq<seq<Byte>>)
    ensures |rows| == n && forall i :: 0 <= i < n ==> rows[i] == EmptyRow(width)
  {
    seq(n, _ => EmptyRow(width))
  }

  /** The contents of a grid as a value: `rows[y][x]` is cell (x, y). */
  datatype Board = Board(width: int, height: int, rows: seq<seq<Byte>>) {

    predicate WellFormed() {
      && 0 <= width && 0 <= height && |rows| == height
      && forall y :: 0 <= y < height ==> |rows[y]| == width
    }

    predicate IsPositionValid(p: Vec2i) {
      InBounds(width, height, p)
    }

    /** What the game reads at `p`: the stored value inside the grid, and
        0 for any position above the grid or outside it. */
    function ValueAt(p: Vec2i): Byte
      requires WellFormed()
    {
      if p.y < 0 || !IsPositionValid(p) then 0 else rows[p.y][p.x]
    }

    /** Every column of `row` holds a non-empty value, as read by ValueAt. */
    predicate RowFilled(row: int)
      requires WellFormed()
    {
      forall x :: 0 <= x < width ==> !IsValueEmpty(ValueAt(Vec2i(x, row)))
    }
  }

  /** Two well-formed boards of one size with the same cells are equal. */
  lemma BoardsEqual(a: Board, b: Board)
    requires a.WellFormed() && b.WellFormed() && a.width == b.width && a.height == b.height
    requires forall y, x :: 0 <= y < a.height && 0 <= x < a.width ==> a.rows[y][x] == b.rows[y][x]
    ensures a == b
  {
    forall y | 0 <= y < a.height
      ensures a.rows[y] == b.rows[y]
    {
    }
  }

  /** The row-major byte buffer of a board: the concatenation of its rows. */
  function RowMajor(rows: seq<seq<Byte>>): seq<Byte> {
    if rows == [] then [] else rows[0] + RowMajor(rows[1..])
  }

  /** Cell (x, y) of a board of width w is byte y * w + x of its row-major buffer. */
  lemma {:induction false} RowMajorIndex(rows: seq<seq<Byte>>, w: nat, x: int, y: int)
    requires forall r :: 0 <= r < |rows| ==> |rows[r]| == w
    requires 0 <= y < |rows| && 0 <= x < w
    ensures |RowMajor(rows)| == |rows| * w
    ensures y * w + x < |RowMajor(rows)| && RowMajor(rows)[y * w + x] == rows[y][x]
  {
    RowMajorLength(rows, w);
    if y > 0 {
      RowMajorIndex(rows[1..], w, x, y - 1);
      assert y * w + x == w + ((y - 1) * w + x);
    }
  }

  lemma {:induction false} RowMajorLength(rows: seq<seq<Byte>>, w: nat)
    requires forall r :: 0 <= r < |rows| ==> |rows[r]| == w
    ensures |RowMajor(rows)| == |rows| * w
  {
    if rows != [] {
      RowMajorLength(rows[1..], w);
      assert |rows| * w == w + (|rows| - 1) * w;
    }
  }

  /** The grid, `world_t`.  Its size is fixed at creation; `data[y, x]` holds
      cell (x, y), so each row is contiguous as in the row-major buffer. */
  class Grid {
    const width: int
    const height: int
    const data: array2<Byte>

    ghost predicate Valid() {
      0 <= width && 0 <= height && data.Length0 == height && data.Length1 == width
    }

    /** The current contents as a value. */
    ghost function Snapshot(): (b: Board)
      requires Valid()
      reads data
      ensures b.WellFormed() && b.width == width && b.height == height
      ensures forall y, x :: 0 <= y < height && 0 <= x < width ==> b.rows[y][x] == data[y, x]
    {
      Board(width, height,
        seq(height, y requires 0 <= y < height reads data =>
          seq(width, x requires 0 <= x < width reads data => data[y, x])))
    }

    /** A zero-filled grid (the calloc of InitWorld). */
    constructor (w: nat, h: nat)
      ensures Valid() && width == w && height == h && fresh(data)
      ensures Snapshot().rows == EmptyRows(w, h)
    {
      width, height := w, h;
      data := new Byte[h, w]((_, _) => 0);
      new;
      ghost var b := Snapshot();
      forall r | 0 <= r < h
        ensures b.rows[r] == EmptyRow(w)
      {
      }
    }

    predicate IsPositionValid(p: Vec2i)
      ensures IsPositionValid(p) <==> 0 <= p.x < width && p.y < height
    {
      InBounds(width, height, p)
    }

    function GetValue(p: Vec2i): (v: Byte)
      requires Valid()
      reads data
      ensures v == Snapshot().ValueAt(p)
      ensures p.y < 0 || !IsPositionValid(p) ==> v == 0
      ensures 0 <= p.y && IsPositionValid(p) ==> v == data[p.y, p.x]
    {
      if p.y < 0 then 0
      else if IsPositionValid(p) then data[p.y, p.x]
      else 0
    }

    /** Reads without the bounds test; callers pass a position inside the
        grid or above it. */
    function GetValueUnchecked(p: Vec2i): (v: Byte)
      requires Valid()
      requires p.y < 0 || (0 <= p.x < width && p.y < height)
      reads data
      ensures v == GetValue(p)
      ensures p.y < 0 ==> v == 0
    {
      if p.y < 0 then 0 else data[p.y, p.x]
    }

    /** Writes without the bounds test; a write above the grid is dropped. */
    method SetValueUnchecked(p: Vec2i, value: Byte)
      requires Valid()
      requires p.y < 0 || (0 <= p.x < width && p.y < height)
      modifies data
      ensures p.y < 0 ==> unchanged(data)
      ensures forall y, x :: 0 <= y < height && 0 <= x < width ==>
        data[y, x] == if y == p.y && x == p.x then value else old(data[y, x])
    {
      if p.y >= 0 {
        data[p.y, p.x] := value;
      }
    }

    /** Writes `value` at `p` when `p` is a valid position inside the grid;
        otherwise nothing changes. */
    method SetValue(p: Vec2i, value: Byte)
      requires Valid()
      modifies data
      ensures !IsPositionValid(p) || p.y < 0 ==> unchanged(data)
      ensures forall y, x :: 0 <= y < height && 0 <= x < width ==>
        data[y, x] == if y == p.y && x == p.x then value else old(data[y, x])
      ensures 0 <= p.y && IsPositionValid(p) ==> GetValue(p) == value
    {
      if IsPositionValid(p) {
        SetValueUnchecked(p, value);
      }
    }

    /** IsWorldRowFilled: stops at the first empty column. */
    method IsRowFilled(row: int) returns (filled: bool)
      requires Valid()
      ensures filled <==> Snapshot().RowFilled(row)
    {
      var x := 0;
      while x < width
        invariant 0 <= x <= width
        invariant forall c :: 0 <= c < x ==> !IsValueEmpty(GetValue(Vec2i(c, row)))
      {
        if IsValueEmpty(GetValue(Vec2i(x, row))) {
          return false;
        }
        x := x + 1;
      }
      return true;
    }

    /** ResetWorld: empties every cell, whatever the grid held before. */
    method Reset()
      requires Valid()
      modifies data
      ensures Snapshot().rows == EmptyRows(width, height)
    {
      var y := 0;
      while y < height
        invariant 0 <= y <= height
        invariant forall r, c :: 0 <= r < y && 0 <= c < width ==> data[r, c] == 0
      {
        var x := 0;
        while x < width
          invariant 0 <= x <= width
          invariant forall r, c :: 0 <= r < y && 0 <= c < width ==> data[r, c] == 0
          invariant forall c :: 0 <= c < x ==> data[y, c] == 0
        {
          SetValueUnchecked(Vec2i(x, y), 0);
          x := x + 1;
        }
        y := y + 1;
      }
      ghost var b := Snapshot();
      forall r | 0 <= r < height
        ensures b.rows[r] == EmptyRow(width)
      {
      }
    }
  }
}

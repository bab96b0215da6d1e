/** The areas spells hit: bit matrices with a centre, turned and mirrored into the other directions. */
module CombatArea {
  import opened Positions

  datatype Quarter = Rotate90 | Rotate180 | Rotate270

  /** Column and row offsets after an exact quarter turn: x cos - y sin and x sin + y cos. */
  function TurnX(op: Quarter, dy: int, dx: int): int {
    match op case Rotate90 => -dy case Rotate180 => -dx case Rotate270 => dy
  }

  function TurnY(op: Quarter, dy: int, dx: int): int {
    match op case Rotate90 => dx case Rotate180 => -dy case Rotate270 => -dx
  }

  ghost function Inverse(op: Quarter): Quarter {
    match op case Rotate90 => Rotate270 case Rotate180 => Rotate180 case Rotate270 => Rotate90
  }

  class MatrixArea {
    var centerY: int
    var centerX: int
    const rows: nat
    const cols: nat
    const data: array2<bool>

    ghost predicate Valid()
      reads this
    {
      data.Length0 == rows && data.Length1 == cols
    }

    /** Whether the cell at this offset from the centre exists and is set. */
    ghost predicate Covers(dy: int, dx: int)
      requires Valid()
      reads this, data
    {
      0 <= centerY + dy < rows && 0 <= centerX + dx < cols && data[centerY + dy, centerX + dx]
    }

    ghost predicate Blank()
      requires Valid()
      reads this, data
    {
      forall y, x | 0 <= y < rows && 0 <= x < cols :: !data[y, x]
    }

    ghost predicate CenterInside()
      reads this
    {
      0 <= centerY < rows && 0 <= centerX < cols
    }

    constructor (rows: nat, cols: nat)
      ensures Valid() && fresh(data) && this.rows == rows && this.cols == cols && centerY == centerX == 0
      ensures Blank()
    {
      this.rows, this.cols, centerY, centerX := rows, cols, 0, 0;
      data := new bool[rows, cols]((_, _) => false);
    }

    method SetCenter(y: int, x: int)
      modifies this`centerY, this`centerX
      ensures centerY == y && centerX == x
    {
      centerY, centerX := y, x;
    }
  }

  // ----- Copying one matrix into another -----

  function Longer(a: nat, b: nat): (m: nat)
    ensures a <= m && b <= m && (m == a || m == b)
  {
    if a < b then b else a
  }

  /** A quarter turn about the centre into a blank square matrix twice as large as the input is long.
      Nothing is written outside it, and the offsets covered are the input's, turned. */
  method Rotate(input: MatrixArea, output: MatrixArea, op: Quarter)
    requires input.Valid() && output.Valid() && input != output && input.data != output.data
    requires input.rows > 0 && input.cols > 0 ==> input.CenterInside()
    requires output.rows == output.cols == 2 * Longer(input.rows, input.cols)
    requires output.Blank()
    modifies output, output.data
    ensures IsTurned(input, output, op)
  {
    hide TurnX, TurnY, IsTurned;
    var rotateCenterX := output.cols / 2 - 1;
    var rotateCenterY := output.rows / 2 - 1;
    for x := 0 to input.cols
      invariant Turned(input, output, op, x, 0)
    {
      for y := 0 to input.rows
        invariant Turned(input, output, op, x, y)
      {
        PlaceTurned(input, output, op, x, y);
      }
    }
    output.SetCenter(rotateCenterY, rotateCenterX);
    TurnedCovers(input, output, op);
  }

  /** The offsets covered by the output are the input's, turned about the centre. */
  ghost predicate IsTurned(input: MatrixArea, output: MatrixArea, op: Quarter)
    requires input.Valid() && output.Valid()
    reads input, input.data, output, output.data
  {
    forall dy, dx :: output.Covers(TurnY(op, dy, dx), TurnX(op, dy, dx)) <==> input.Covers(dy, dx)
  }

  /** The rotated offset of input cell (y, x), written relative to the output's centre. */
  method PlaceTurned(input: MatrixArea, output: MatrixArea, op: Quarter, x: nat, y: nat)
    requires input.Valid() && output.Valid() && input != output && input.data != output.data
    requires input.CenterInside() && y < input.rows && x < input.cols
    requires output.rows == output.cols == 2 * Longer(input.rows, input.cols)
    requires Turned(input, output, op, x, y)
    modifies output.data
    ensures Turned(input, output, op, x, y + 1)
  {
    hide Source, TurnX, TurnY;
    var newX, newY := x - input.centerX, y - input.centerY;
    var rotatedX, rotatedY := TurnX(op, newY, newX), TurnY(op, newY, newX);
    TurnInside(op, newY, newX, Longer(input.rows, input.cols));
    SourceStep(input, op, x, y);
    output.data[rotatedY + (output.rows / 2 - 1), rotatedX + (output.cols / 2 - 1)] := input.data[y, x];
  }

  /** A turn leads no further away from the centre, so nothing is written outside. */
  lemma TurnInside(op: Quarter, dy: int, dx: int, n: int)
    requires -n < dy < n && -n < dx < n
    ensures -n < TurnY(op, dy, dx) < n && -n < TurnX(op, dy, dx) < n
  {
  }

  ghost function Cos(op: Quarter): int { if op == Rotate180 then -1 else 0 }

  ghost function Sin(op: Quarter): int { match op case Rotate90 => 1 case Rotate180 => 0 case Rotate270 => -1 }

  /** The turns are rotations: the products of an offset and the turned one, scalar and cross, are its squared
      length times the cosine and the sine of the angle. */
  lemma TurnIsRotation(op: Quarter, dy: int, dx: int)
    ensures var (ty, tx) := (TurnY(op, dy, dx), TurnX(op, dy, dx));
            dx * tx + dy * ty == Cos(op) * (dx * dx + dy * dy) &&
            dx * ty - dy * tx == Sin(op) * (dx * dx + dy * dy) &&
            ty * ty + tx * tx == dy * dy + dx * dx
  {
  }

  lemma TurnBack(op: Quarter, dy: int, dx: int)
    ensures TurnY(Inverse(op), TurnY(op, dy, dx), TurnX(op, dy, dx)) == dy
    ensures TurnX(Inverse(op), TurnY(op, dy, dx), TurnX(op, dy, dx)) == dx
  {
  }

  /** Copying input cell (y, x) adds exactly the offset it turns onto. */
  lemma SourceStep(input: MatrixArea, op: Quarter, x: nat, y: nat)
    requires input.Valid() && y < input.rows && x < input.cols
    ensures var newX, newY := x - input.centerX, y - input.centerY;
            forall dy, dx {:trigger Source(input, op, dy, dx, x, y)} {:trigger Source(input, op, dy, dx, x, y + 1)} ::
              Source(input, op, dy, dx, x, y + 1) ==
              if dy == TurnY(op, newY, newX) && dx == TurnX(op, newY, newX) then input.data[y, x]
              else Source(input, op, dy, dx, x, y)
  {
  }

  /** Every output cell shows the input cell that turns onto it, if that cell was copied already:
      columns before x entirely, column x in its rows before y. */
  ghost predicate Turned(input: MatrixArea, output: MatrixArea, op: Quarter, x: nat, y: nat)
    requires input.Valid() && output.Valid()
    reads input, input.data, output, output.data
  {
    forall r, c {:trigger output.data[r, c]} | 0 <= r < output.rows && 0 <= c < output.cols ::
      output.data[r, c] == Source(input, op, r - (output.rows / 2 - 1), c - (output.cols / 2 - 1), x, y)
  }

  ghost predicate Source(input: MatrixArea, op: Quarter, dy: int, dx: int, x: nat, y: nat)
    requires input.Valid()
    reads input, input.data
  {
    var r := input.centerY + TurnY(Inverse(op), dy, dx);
    var c := input.centerX + TurnX(Inverse(op), dy, dx);
    0 <= r < input.rows && 0 <= c < input.cols && (c < x || (c == x && r < y)) && input.data[r, c]
  }

  lemma TurnedCovers(input: MatrixArea, output: MatrixArea, op: Quarter)
    requires input.Valid() && output.Valid() && (input.rows > 0 && input.cols > 0 ==> input.CenterInside())
    requires output.rows == output.cols == 2 * Longer(input.rows, input.cols)
    requires output.centerY == output.rows / 2 - 1 && output.centerX == output.cols / 2 - 1
    requires Turned(input, output, op, input.cols, 0)
    ensures IsTurned(input, output, op)
  {
    hide Turned, Source, TurnY, TurnX, MatrixArea.Covers;
    forall dy, dx
      ensures output.Covers(TurnY(op, dy, dx), TurnX(op, dy, dx)) <==> input.Covers(dy, dx)
    {
      TurnedOffset(input, output, op, dy, dx);
    }
  }

  lemma TurnedOffset(input: MatrixArea, output: MatrixArea, op: Quarter, dy: int, dx: int)
    requires input.Valid() && output.Valid() && (input.rows > 0 && input.cols > 0 ==> input.CenterInside())
    requires output.rows == output.cols == 2 * Longer(input.rows, input.cols)
    requires output.centerY == output.rows / 2 - 1 && output.centerX == output.cols / 2 - 1
    requires Turned(input, output, op, input.cols, 0)
    ensures output.Covers(TurnY(op, dy, dx), TurnX(op, dy, dx)) <==> input.Covers(dy, dx)
  {
    hide Source, TurnY, TurnX;
    var ty, tx := TurnY(op, dy, dx), TurnX(op, dy, dx);
    SourceOfTurn(input, op, dy, dx);
    if input.Covers(dy, dx) {
      TurnInside(op, dy, dx, Longer(input.rows, input.cols));
    }
    if 0 <= output.centerY + ty < output.rows && 0 <= output.centerX + tx < output.cols {
      assert output.data[output.centerY + ty, output.centerX + tx] == Source(input, op, ty, tx, input.cols, 0);
    }
  }

  /** What turns onto a turned offset is the offset. */
  lemma SourceOfTurn(input: MatrixArea, op: Quarter, dy: int, dx: int)
    requires input.Valid()
    ensures Source(input, op, TurnY(op, dy, dx), TurnX(op, dy, dx), input.cols, 0) == input.Covers(dy, dx)
  {
    hide TurnY, TurnX;
    TurnBack(op, dy, dx);
  }

  /** Columns in reverse order. The centre's column is counted from the number of rows, so the offsets
      covered are the input's, mirrored and then moved right by cols - rows. */
  method Mirror(input: MatrixArea, output: MatrixArea)
    requires input.Valid() && output.Valid() && input != output && input.data != output.data
    requires input.rows <= output.rows && input.cols <= output.cols && output.Blank()
    modifies output, output.data
    ensures IsMirrored(input, output)
  {
    for y := 0 to input.rows
      invariant forall r, c {:trigger output.data[r, c]} | 0 <= r < output.rows && 0 <= c < output.cols ::
                  output.data[r, c] == (r < y && c < input.cols && input.data[r, input.cols - 1 - c])
    {
      var rx := 0;
      for x := input.cols downto 0
        invariant rx == input.cols - x
        invariant forall r, c {:trigger output.data[r, c]} | 0 <= r < output.rows && 0 <= c < output.cols ::
                    output.data[r, c] ==
                    ((r < y || (r == y && c < rx)) && c < input.cols && input.data[r, input.cols - 1 - c])
      {
        output.data[y, rx] := input.data[y, x];
        rx := rx + 1;
      }
    }
    output.SetCenter(input.centerY, input.rows - 1 - input.centerX);
  }

  /** Rows in reverse order, the centre's row counted from the number of columns. */
  method Flip(input: MatrixArea, output: MatrixArea)
    requires input.Valid() && output.Valid() && input != output && input.data != output.data
    requires input.rows <= output.rows && input.cols <= output.cols && output.Blank()
    modifies output, output.data
    ensures IsFlipped(input, output)
  {
    for x := 0 to input.cols
      invariant forall r, c {:trigger output.data[r, c]} | 0 <= r < output.rows && 0 <= c < output.cols ::
                  output.data[r, c] == (c < x && r < input.rows && input.data[input.rows - 1 - r, c])
    {
      var ry := 0;
      for y := input.rows downto 0
        invariant ry == input.rows - y
        invariant forall r, c {:trigger output.data[r, c]} | 0 <= r < output.rows && 0 <= c < output.cols ::
                    output.data[r, c] ==
                    ((c < x || (c == x && r < ry)) && r < input.rows && input.data[input.rows - 1 - r, c])
      {
        output.data[ry, x] := input.data[y, x];
        ry := ry + 1;
      }
    }
    output.SetCenter(input.cols - 1 - input.centerY, input.centerX);
  }

  ghost predicate IsMirrored(input: MatrixArea, output: MatrixArea)
    requires input.Valid() && output.Valid()
    reads input, input.data, output, output.data
  {
    output.centerY == input.centerY && output.centerX == input.rows - 1 - input.centerX &&
    input.rows <= output.rows && input.cols <= output.cols &&
    forall y, x {:trigger output.data[y, x]} | 0 <= y < output.rows && 0 <= x < output.cols ::
      output.data[y, x] == (y < input.rows && x < input.cols && input.data[y, input.cols - 1 - x])
  }

  ghost predicate IsFlipped(input: MatrixArea, output: MatrixArea)
    requires input.Valid() && output.Valid()
    reads input, input.data, output, output.data
  {
    output.centerY == input.cols - 1 - input.centerY && output.centerX == input.centerX &&
    input.rows <= output.rows && input.cols <= output.cols &&
    forall y, x {:trigger output.data[y, x]} | 0 <= y < output.rows && 0 <= x < output.cols ::
      output.data[y, x] == (y < input.rows && x < input.cols && input.data[input.rows - 1 - y, x])
  }

  lemma MirrorShifts(input: MatrixArea, output: MatrixArea, dy: int, dx: int)
    requires input.Valid() && output.Valid() && IsMirrored(input, output)
    ensures output.Covers(dy, input.cols - input.rows - dx) <==> input.Covers(dy, dx)
  {
    var y, x := input.centerY + dy, input.centerX + dx;
    if 0 <= y < input.rows && 0 <= x < input.cols {
      assert output.data[y, input.cols - 1 - x] == input.data[y, x];
    }
  }

  lemma FlipShifts(input: MatrixArea, output: MatrixArea, dy: int, dx: int)
    requires input.Valid() && output.Valid() && IsFlipped(input, output)
    ensures output.Covers(input.rows - input.cols - dy, dx) <==> input.Covers(dy, dx)
  {
    var y, x := input.centerY + dy, input.centerX + dx;
    if 0 <= y < input.rows && 0 <= x < input.cols {
      assert output.data[input.rows - 1 - y, x] == input.data[y, x];
    }
  }

  /** A matrix that covers, with every offset, the one k columns further covers none. */
  lemma {:induction false} ColumnShiftRunsOut(area: MatrixArea, k: int, dy: int, dx: int)
    requires area.Valid() && k != 0
    requires forall y, x :: area.Covers(y, x) ==> area.Covers(y, x + k)
    ensures !area.Covers(dy, dx)
    decreases if k > 0 then area.cols - (area.centerX + dx) else area.centerX + dx + 1
  {
    if area.Covers(dy, dx) {
      ColumnShiftRunsOut(area, k, dy, dx + k);
    }
  }

  lemma {:induction false} RowShiftRunsOut(area: MatrixArea, k: int, dy: int, dx: int)
    requires area.Valid() && k != 0
    requires forall y, x :: area.Covers(y, x) ==> area.Covers(y + k, x)
    ensures !area.Covers(dy, dx)
    decreases if k > 0 then area.rows - (area.centerY + dy) else area.centerY + dy + 1
  {
    if area.Covers(dy, dx) {
      RowShiftRunsOut(area, k, dy + k, dx);
    }
  }

  ghost predicate CoversNothing(area: MatrixArea)
    requires area.Valid()
    reads area, area.data
  {
    forall dy, dx :: !area.Covers(dy, dx)
  }

  /** When mirroring is right: exactly for square matrices, and for those that cover nothing. */
  lemma MirrorExact(input: MatrixArea, output: MatrixArea)
    requires input.Valid() && output.Valid() && IsMirrored(input, output)
    ensures (forall dy, dx :: output.Covers(dy, -dx) <==> input.Covers(dy, dx)) <==>
            (input.rows == input.cols || CoversNothing(input))
  {
    hide IsMirrored, MatrixArea.Covers;
    var k := input.cols - input.rows;
    forall dy, dx {:trigger input.Covers(dy, dx)} {:trigger output.Covers(dy, -dx)}
      ensures output.Covers(dy, -dx) <==> input.Covers(dy, dx + k)
    {
      MirrorShifts(input, output, dy, dx + k);
      assert -dx == k - (dx + k);
    }
    if k != 0 && forall dy, dx :: output.Covers(dy, -dx) <==> input.Covers(dy, dx) {
      forall dy, dx ensures !input.Covers(dy, dx) {
        ColumnShiftRunsOut(input, k, dy, dx);
      }
    }
  }

  /** A row of two cells with the first set, mirrored: the cell set lands one column off. */
  method MirroredRow() returns (input: MatrixArea, output: MatrixArea)
    ensures input.Valid() && input.rows == 1 && input.cols == 2 && input.Covers(0, 0)
    ensures output.Valid() && IsMirrored(input, output) && !output.Covers(0, 0) && output.Covers(0, 1)
  {
    input := new MatrixArea(1, 2);
    input.data[0, 0] := true;
    output := new MatrixArea(2, 2);
    Mirror(input, output);
    assert output.data[0, 1];
  }

  /** When flipping is right: the same condition. */
  lemma FlipExact(input: MatrixArea, output: MatrixArea)
    requires input.Valid() && output.Valid() && IsFlipped(input, output)
    ensures (forall dy, dx :: output.Covers(-dy, dx) <==> input.Covers(dy, dx)) <==>
            (input.rows == input.cols || CoversNothing(input))
  {
    hide IsFlipped, MatrixArea.Covers;
    var k := input.rows - input.cols;
    forall dy, dx {:trigger input.Covers(dy, dx)} {:trigger output.Covers(-dy, dx)}
      ensures output.Covers(-dy, dx) <==> input.Covers(dy + k, dx)
    {
      FlipShifts(input, output, dy + k, dx);
      assert -dy == k - (dy + k);
    }
    if k != 0 && forall dy, dx :: output.Covers(-dy, dx) <==> input.Covers(dy, dx) {
      forall dy, dx ensures !input.Covers(dy, dx) {
        RowShiftRunsOut(input, k, dy, dx);
      }
    }
  }

  // ----- Reading a script's list into a matrix -----

  ghost function Cell(cols: nat, y: nat, x: nat): nat { y * cols + x }

  /** The centre mark (2 or 3) read last among the first n cells. */
  ghost function LastMark(list: seq<int>, n: nat): int
    requires n <= |list|
  {
    if n == 0 then -1 else if list[n - 1] == 2 || list[n - 1] == 3 then n - 1 else LastMark(list, n - 1)
  }

  lemma NextCell(cols: nat, y: nat, x: nat, rows: nat)
    requires x < cols && Cell(cols, y, x) < rows * cols
    ensures y < rows
    ensures x + 1 == cols ==> Cell(cols, y, x) + 1 == Cell(cols, y + 1, 0)
  {
    if y >= rows {
      LessRow(cols, y, rows);
    }
  }

  lemma LessRow(cols: nat, a: nat, b: nat)
    requires a >= b
    ensures a * cols >= b * cols
  {
  }

  lemma SameCell(cols: nat, y: nat, x: nat, r: nat, c: nat)
    requires x < cols && c < cols
    ensures Cell(cols, y, x) == Cell(cols, r, c) ==> y == r && x == c
  {
    if y < r {
      LessRow(cols, r, y + 1);
    } else if r < y {
      LessRow(cols, y, r + 1);
    }
  }

  /** Whether the i-th mark of the list, among its first n, sets a cell. */
  ghost predicate Sets(list: seq<int>, n: nat, i: nat) {
    i < n <= |list| && (list[i] == 1 || list[i] == 3)
  }

  ghost predicate Filled(area: MatrixArea, list: seq<int>, n: nat)
    requires area.Valid()
    reads area, area.data
  {
    forall r, c {:trigger area.data[r, c]} | 0 <= r < area.rows && 0 <= c < area.cols ::
      area.data[r, c] == Sets(list, n, Cell(area.cols, r, c))
  }

  ghost predicate Centered(area: MatrixArea, list: seq<int>, n: nat)
    requires n <= |list|
    reads area
  {
    if LastMark(list, n) == -1 then area.centerY == area.centerX == 0
    else area.CenterInside() && Cell(area.cols, area.centerY, area.centerX) == LastMark(list, n)
  }

  method ReadMark(area: MatrixArea, ghost list: seq<int>, mark: int, y: nat, x: nat)
    requires area.Valid() && y < area.rows && x < area.cols && Cell(area.cols, y, x) < |list|
    requires mark == list[Cell(area.cols, y, x)]
    requires Filled(area, list, Cell(area.cols, y, x)) && Centered(area, list, Cell(area.cols, y, x))
    modifies area`centerY, area`centerX, area.data
    ensures Filled(area, list, Cell(area.cols, y, x) + 1) && Centered(area, list, Cell(area.cols, y, x) + 1)
  {
    hide Cell;
    ghost var k := Cell(area.cols, y, x);
    forall r, c {:trigger area.data[r, c]} | 0 <= r < area.rows && 0 <= c < area.cols
      ensures Sets(list, k + 1, Cell(area.cols, r, c)) ==
              if r == y && c == x then list[k] == 1 || list[k] == 3 else area.data[r, c]
    {
      SameCell(area.cols, y, x, r, c);
    }
    if mark == 1 || mark == 3 {
      area.data[y, x] := true;
    }
    if mark == 2 || mark == 3 {
      area.SetCenter(y, x);
    }
  }

  /** 1 and 3 set a cell, 2 and 3 make it the centre; rows are read one after another. */
  method CreateArea(list: seq<int>, rows: nat) returns (area: MatrixArea)
    requires rows > 0 && |list| == rows * (|list| / rows)
    ensures fresh(area) && fresh(area.data) && area.Valid() && area.rows == rows && area.cols == |list| / rows
    ensures area.cols > 0 ==> area.CenterInside()
    ensures Filled(area, list, |list|) && Centered(area, list, |list|)
  {
    hide Cell, LastMark;
    var cols := |list| / rows;
    area := new MatrixArea(rows, cols);
    var x, y := 0, 0;
    assert Cell(cols, 0, 0) == 0 && LastMark(list, 0) == -1 by {
      FirstCell(cols, list);
    }
    for k := 0 to |list|
      invariant cols > 0 ==> x < cols && k == Cell(cols, y, x)
      invariant Filled(area, list, k) && Centered(area, list, k)
    {
      NextCell(cols, y, x, rows);
      ReadMark(area, list, list[k], y, x);
      CellStep(cols, y, x);
      x := x + 1;
      if cols == x {
        x := 0;
        y := y + 1;
      }
    }
  }

  lemma FirstCell(cols: nat, list: seq<int>)
    ensures Cell(cols, 0, 0) == 0 && LastMark(list, 0) == -1
  {
  }

  lemma CellStep(cols: nat, y: nat, x: nat)
    ensures Cell(cols, y, x + 1) == Cell(cols, y, x) + 1
  {
  }

  // ----- The areas of a spell -----

  datatype Direction = North | East | South | West | SouthWest | SouthEast | NorthWest | NorthEast

  /** Where there can be a tile. */
  ghost predicate OnMap(p: Position) {
    0 <= p.x < 0xFFFF && 0 <= p.y < 0xFFFF && 0 <= p.z < MAP_MAX_LAYERS
  }

  method RotatedCopy(area: MatrixArea, op: Quarter) returns (turned: MatrixArea)
    requires area.Valid() && (area.rows > 0 && area.cols > 0 ==> area.CenterInside())
    ensures fresh(turned) && fresh(turned.data) && turned.Valid() && IsTurned(area, turned, op)
    ensures turned.rows == turned.cols == 2 * Longer(area.rows, area.cols)
  {
    hide IsTurned, MatrixArea.Blank;
    var maxOutput := Longer(area.rows, area.cols) * 2;
    turned := new MatrixArea(maxOutput, maxOutput);
    Rotate(area, turned, op);
  }

  method MirroredCopy(area: MatrixArea, size: nat) returns (mirrored: MatrixArea)
    requires area.Valid() && area.rows <= size && area.cols <= size
    ensures fresh(mirrored) && fresh(mirrored.data) && mirrored.Valid() && IsMirrored(area, mirrored)
    ensures mirrored.rows == mirrored.cols == size
  {
    hide IsMirrored, MatrixArea.Blank;
    mirrored := new MatrixArea(size, size);
    Mirror(area, mirrored);
  }

  method FlippedCopy(area: MatrixArea, size: nat) returns (flipped: MatrixArea)
    requires area.Valid() && area.rows <= size && area.cols <= size
    ensures fresh(flipped) && fresh(flipped.data) && flipped.Valid() && IsFlipped(area, flipped)
    ensures flipped.rows == flipped.cols == size
  {
    hide IsFlipped, MatrixArea.Blank;
    flipped := new MatrixArea(size, size);
    Flip(area, flipped);
  }

  class AreaCombat {
    var areas: map<Direction, MatrixArea>
    var hasExtArea: bool

    constructor ()
      ensures areas == map[] && !hasExtArea
    {
      areas, hasExtArea := map[], false;
    }

    /** The four straight areas: the script's own for north, its quarter turns for the rest. Other areas stay. */
    method SetupArea(list: seq<int>, rows: nat)
      requires rows > 0 && |list| == rows * (|list| / rows)
      modifies this`areas
      ensures areas.Keys == old(areas).Keys + {North, East, South, West}
      ensures forall d | d in old(areas) && d !in {North, East, South, West} :: areas[d] == old(areas)[d]
      ensures areas[North].Valid() && areas[East].Valid() && areas[South].Valid() && areas[West].Valid()
      ensures areas[North].rows == rows && Filled(areas[North], list, |list|) && Centered(areas[North], list, |list|)
      ensures IsTurned(areas[North], areas[East], Rotate90)
      ensures IsTurned(areas[North], areas[South], Rotate180)
      ensures IsTurned(areas[North], areas[West], Rotate270)
    {
      hide IsTurned, Filled, Centered;
      var area := CreateArea(list, rows);
      var southArea := RotatedCopy(area, Rotate180);
      var eastArea := RotatedCopy(area, Rotate90);
      var westArea := RotatedCopy(area, Rotate270);
      areas := areas[North := area][South := southArea][East := eastArea][West := westArea];
    }

    /** The four diagonal areas: the script's own, mirrored, flipped, and flipped then mirrored. */
    method SetupExtArea(list: seq<int>, rows: nat)
      requires rows > 0 && |list| == rows * (|list| / rows)
      modifies this
      ensures list == [] ==> areas == old(areas) && hasExtArea == old(hasExtArea)
      ensures list != [] ==>
                hasExtArea && areas.Keys == old(areas).Keys + {NorthWest, NorthEast, SouthWest, SouthEast} &&
                forall d | d in old(areas) && d !in {NorthWest, NorthEast, SouthWest, SouthEast} ::
                  areas[d] == old(areas)[d]
      ensures list != [] ==>
                areas[NorthWest].Valid() && areas[NorthEast].Valid() && areas[SouthWest].Valid() &&
                areas[SouthEast].Valid()
      ensures list != [] ==>
                areas[NorthWest].rows == rows && areas[SouthWest].rows == areas[SouthWest].cols &&
                Filled(areas[NorthWest], list, |list|) && Centered(areas[NorthWest], list, |list|)
      ensures list != [] ==>
                areas[NorthEast].rows == areas[NorthEast].cols == areas[SouthWest].rows ==
                2 * Longer(areas[NorthWest].rows, areas[NorthWest].cols) &&
                areas[SouthEast].rows == areas[SouthEast].cols == areas[SouthWest].rows &&
                IsMirrored(areas[NorthWest], areas[NorthEast]) && IsFlipped(areas[NorthWest], areas[SouthWest]) &&
                IsMirrored(areas[SouthWest], areas[SouthEast])
    {
      hide Filled, Centered, IsMirrored, IsFlipped;
      if list == [] {
        return;
      }
      hasExtArea := true;
      var area := CreateArea(list, rows);
      var maxOutput := Longer(area.cols, area.rows) * 2;
      var neArea := MirroredCopy(area, maxOutput);
      var swArea := FlippedCopy(area, maxOutput);
      var seArea := MirroredCopy(swArea, maxOutput);
      areas := areas[NorthWest := area][NorthEast := neArea][SouthWest := swArea][SouthEast := seArea];
    }

    /** getArea: the area in the direction of the target. */
    method GetArea(center: Position, target: Position) returns (area: MatrixArea?)
      ensures var d := Aim(target.y - center.y, target.x - center.x, hasExtArea);
              area == if d in areas then areas[d] else null
    {
      var dx, dy := target.x - center.x, target.y - center.y;
      var dir := North;
      if dx < 0 {
        dir := West;
      } else if dx > 0 {
        dir := East;
      } else if dy < 0 {
        dir := North;
      } else {
        dir := South;
      }
      if hasExtArea {
        if dx < 0 && dy < 0 {
          dir := NorthWest;
        } else if dx > 0 && dy < 0 {
          dir := NorthEast;
        } else if dx < 0 && dy > 0 {
          dir := SouthWest;
        } else if dx > 0 && dy > 0 {
          dir := SouthEast;
        }
      }
      OneDirection(dir, Aim(dy, dx, hasExtArea));
      return if dir in areas then areas[dir] else null;
    }

    /** The tiles hit: exactly the covered offsets around the target that lie on the map and in sight, row by
        row and each once. The area is the one that points from the caster to the target. */
    method GetList(center: Position, target: Position, sightClear: Position -> bool)
      returns (ok: bool, list: seq<Position>)
      requires forall d | d in areas :: areas[d].Valid()
      ensures ok <==> Aim(target.y - center.y, target.x - center.x, hasExtArea) in areas
      ensures !ok ==> list == []
      ensures ok ==> var area := areas[Aim(target.y - center.y, target.x - center.x, hasExtArea)];
                     Struck(area, target, sightClear, list)
      ensures forall i, j | 0 <= i < j < |list| :: Before(list[i], list[j])
    {
      hide Aim;
      list := [];
      var found := GetArea(center, target);
      if found == null {
        return false, [];
      }
      ok := true;
      var area: MatrixArea := found;
      var tmpPosX := target.x - area.centerX;
      var tmpPosY := target.y - area.centerY;
      for y := 0 to area.rows
        invariant tmpPosX == target.x - area.centerX && tmpPosY == target.y - area.centerY + y
        invariant forall p :: p in list <==> Hit(area, target, sightClear, p, y, 0)
        invariant forall i, j | 0 <= i < j < |list| :: Before(list[i], list[j])
      {
        for x := 0 to area.cols
          invariant tmpPosX == target.x - area.centerX + x
          invariant forall p :: p in list <==> Hit(area, target, sightClear, p, y, x)
          invariant forall i, j | 0 <= i < j < |list| :: Before(list[i], list[j])
        {
          var p := Position(tmpPosX, tmpPosY, target.z);
          if area.data[y, x] {
            if 0 <= p.x < 0xFFFF && 0 <= p.y < 0xFFFF && 0 <= p.z < MAP_MAX_LAYERS && sightClear(p) {
              assert forall q | q in list :: Before(q, p);
              list := list + [p];
            }
          }
          tmpPosX := tmpPosX + 1;
        }
        tmpPosX := tmpPosX - area.cols;
        tmpPosY := tmpPosY + 1;
      }
    }
  }

  // ----- Where an area points -----

  ghost function Sign(n: int): int {
    if n < 0 then -1 else if n > 0 then 1 else 0
  }

  /** One step into the direction: rows down and columns to the right. */
  ghost function Ahead(d: Direction): (int, int) {
    match d
    case North => (-1, 0)
    case East => (0, 1)
    case South => (1, 0)
    case West => (0, -1)
    case SouthWest => (1, -1)
    case SouthEast => (1, 1)
    case NorthWest => (-1, -1)
    case NorthEast => (-1, 1)
  }

  lemma OneDirection(d: Direction, e: Direction)
    ensures Ahead(d) == Ahead(e) <==> d == e
  {
  }

  /** The direction towards a target that far away. Without diagonal areas the columns go first; the caster's
      own tile counts as south. */
  ghost function Aim(dy: int, dx: int, diagonal: bool): (d: Direction)
    ensures diagonal && dx != 0 && dy != 0 ==> Ahead(d) == (Sign(dy), Sign(dx))
    ensures (!diagonal || dy == 0) && dx != 0 ==> Ahead(d) == (0, Sign(dx))
    ensures dx == 0 && dy != 0 ==> Ahead(d) == (Sign(dy), 0)
    ensures dx == 0 && dy == 0 ==> d == South
  {
    var step := if diagonal && dx != 0 && dy != 0 then (Sign(dy), Sign(dx))
                else if dx != 0 then (0, Sign(dx))
                else (if dy == 0 then 1 else Sign(dy), 0);
    assert exists d :: Ahead(d) == step by {
      SomeDirection(step);
    }
    var d :| Ahead(d) == step;
    OneDirection(d, South);
    d
  }

  lemma SomeDirection(step: (int, int))
    requires -1 <= step.0 <= 1 && -1 <= step.1 <= 1 && step != (0, 0)
    ensures exists d :: Ahead(d) == step
  {
    var d := if step == (-1, 0) then North else if step == (0, 1) then East else if step == (1, 0) then South
             else if step == (0, -1) then West else if step == (1, -1) then SouthWest
             else if step == (1, 1) then SouthEast else if step == (-1, -1) then NorthWest else NorthEast;
    assert Ahead(d) == step;
  }

  /** A target straight ahead, turned about the caster, lies in the direction turned as far. */
  lemma AimTurns(op: Quarter, n: int)
    requires n > 0
    ensures Aim(-n, 0, false) == North
    ensures Aim(TurnY(op, -n, 0), TurnX(op, -n, 0), false) ==
            match op case Rotate90 => East case Rotate180 => South case Rotate270 => West
  {
    var d := match op case Rotate90 => East case Rotate180 => South case Rotate270 => West;
    OneDirection(Aim(-n, 0, false), North);
    OneDirection(Aim(TurnY(op, -n, 0), TurnX(op, -n, 0), false), d);
  }

  function Moved(p: Position, dy: int, dx: int): Position {
    Position(p.x + dx, p.y + dy, p.z)
  }

  /** A spell with straight areas follows its caster: aimed at a target n tiles north and at that target turned
      about the caster, it hits tiles that are turned as far about the targets. */
  method AimBothWays(list: seq<int>, rows: nat, center: Position, n: int, op: Quarter, sightClear: Position -> bool)
    returns (area: MatrixArea, north: seq<Position>, turned: seq<Position>)
    requires rows > 0 && |list| == rows * (|list| / rows) && n > 0
    ensures area.Valid() && Filled(area, list, |list|) && Centered(area, list, |list|)
    ensures var (from, to) := (Moved(center, -n, 0), Moved(center, TurnY(op, -n, 0), TurnX(op, -n, 0)));
            forall dy, dx ::
              var (p, q) := (Moved(from, dy, dx), Moved(to, TurnY(op, dy, dx), TurnX(op, dy, dx)));
              (p in north <==> OnMap(p) && sightClear(p) && area.Covers(dy, dx)) &&
              (q in turned <==> OnMap(q) && sightClear(q) && area.Covers(dy, dx))
  {
    hide TurnX, TurnY, MatrixArea.Covers, Filled, Centered, Aim, IsTurned, Moved, Struck;
    var spell := new AreaCombat();
    spell.SetupArea(list, rows);
    area := spell.areas[North];
    var ok, also;
    AimTurns(op, n);
    Around(center, -n, 0);
    Around(center, TurnY(op, -n, 0), TurnX(op, -n, 0));
    ok, north := spell.GetList(center, Moved(center, -n, 0), sightClear);
    var from, to := Moved(center, -n, 0), Moved(center, TurnY(op, -n, 0), TurnX(op, -n, 0));
    also, turned := spell.GetList(center, to, sightClear);
    ghost var side := spell.areas[Aim(TurnY(op, -n, 0), TurnX(op, -n, 0), false)];
    assert IsTurned(area, side, op);
    forall dy, dx
      ensures var (p, q) := (Moved(from, dy, dx), Moved(to, TurnY(op, dy, dx), TurnX(op, dy, dx)));
              (p in north <==> OnMap(p) && sightClear(p) && area.Covers(dy, dx)) &&
              (q in turned <==> OnMap(q) && sightClear(q) && area.Covers(dy, dx))
    {
      StruckAt(area, from, sightClear, north, dy, dx);
      StruckAt(side, to, sightClear, turned, TurnY(op, dy, dx), TurnX(op, dy, dx));
      TurnedAt(area, side, op, dy, dx);
    }
  }

  lemma Around(p: Position, dy: int, dx: int)
    ensures var q := Moved(p, dy, dx);
            q.y - p.y == dy && q.x - p.x == dx && q.z == p.z &&
            (OnMap(q) <==> 0 <= q.x < 0xFFFF && 0 <= q.y < 0xFFFF && 0 <= q.z < MAP_MAX_LAYERS)
  {
  }

  /** The tiles in the list are those the area covers around the target, on the map and in sight. */
  ghost predicate Struck(area: MatrixArea, target: Position, sightClear: Position -> bool, list: seq<Position>)
    requires area.Valid()
    reads area, area.data
  {
    forall p :: p in list <==>
      p.z == target.z && OnMap(p) && sightClear(p) && area.Covers(p.y - target.y, p.x - target.x)
  }

  lemma StruckAt(area: MatrixArea, target: Position, sightClear: Position -> bool, list: seq<Position>, dy: int,
                 dx: int)
    requires area.Valid() && Struck(area, target, sightClear, list)
    ensures var p := Moved(target, dy, dx);
            p in list <==> OnMap(p) && sightClear(p) && area.Covers(dy, dx)
  {
    Around(target, dy, dx);
  }

  lemma TurnedAt(input: MatrixArea, output: MatrixArea, op: Quarter, dy: int, dx: int)
    requires input.Valid() && output.Valid() && IsTurned(input, output, op)
    ensures output.Covers(TurnY(op, dy, dx), TurnX(op, dy, dx)) <==> input.Covers(dy, dx)
  {
  }

  /** Reading order. */
  ghost predicate Before(p: Position, q: Position) {
    p.y < q.y || (p.y == q.y && p.x < q.x)
  }

  /** p is hit by a cell in a row before y, or in row y before column x. */
  ghost predicate Hit(area: MatrixArea, target: Position, sightClear: Position -> bool, p: Position, y: nat, x: nat)
    requires area.Valid()
    reads area, area.data
  {
    var r, c := p.y - target.y + area.centerY, p.x - target.x + area.centerX;
    p.z == target.z && OnMap(p) && sightClear(p) && (r < y || (r == y && c < x)) &&
    area.Covers(p.y - target.y, p.x - target.x)
  }

  /** What SetupExtArea's four areas are to one another, for a square list. */
  lemma SquareDiagonals(nw: MatrixArea, ne: MatrixArea, sw: MatrixArea, se: MatrixArea, dy: int, dx: int)
    requires nw.Valid() && ne.Valid() && sw.Valid() && se.Valid() && nw.rows == nw.cols && sw.rows == sw.cols
    requires IsMirrored(nw, ne) && IsFlipped(nw, sw) && IsMirrored(sw, se)
    ensures nw.Covers(dy, dx) <==> ne.Covers(dy, -dx)
    ensures nw.Covers(dy, dx) <==> sw.Covers(-dy, dx)
    ensures nw.Covers(dy, dx) <==> se.Covers(-dy, -dx)
  {
    hide MatrixArea.Covers, IsMirrored, IsFlipped;
    MirrorShifts(nw, ne, dy, dx);
    FlipShifts(nw, sw, dy, dx);
    MirrorShifts(sw, se, -dy, dx);
  }
}

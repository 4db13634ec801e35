/** The host application's button grid (tools/paperspoon/src/application_ui.rs). */
module ButtonGrid {
  import opened Machine

  const GRID_COLUMNS: u16 := 3
  const GRID_ROWS: u16 := 3
  const CELL_MARGIN: u16 := 20
  const GRID_TOP_INSET: u16 := 60
  const STATUS_BAR_HEIGHT: u16 := 40
  const LABEL_TEXT_X_OFFSET: u16 := 3
  const LABEL_TEXT_Y_OFFSET: u16 := 5

  /** Half-open rectangle in remote-viewport coordinates. */
  datatype Rect = Rect(x: u16, y: u16, width: u16, height: u16)
  {
    predicate Contains(px: u16, py: u16) {
      px >= x && py >= y && px < x + width && py < y + height
    }
  }

  datatype ButtonLayout = ButtonLayout(id: byte, bounds: Rect, labelX: u16, labelBaseline: u16)

  function StatusRegion(width: u16, height: u16): Rect {
    var statusHeight := Min(STATUS_BAR_HEIGHT, height);
    Rect(0, height - statusHeight, width, statusHeight)
  }

  /** Square cells: as wide as a third of the viewport less its margins, as high as three rows leave room
      for. */
  function GridCellSide(width: u16, height: u16): (side: Option<u16>)
    ensures side.Some? <==> width >= 3 * (2 * CELL_MARGIN + 1) && height >= 183
    ensures side.Some? ==> 0 < side.value && 3 * (side.value + 2 * CELL_MARGIN) <= width && 3 * side.value + 180 <= height
    ensures side.Some? ==> 3 * (side.value + 1 + 2 * CELL_MARGIN) > width || 3 * (side.value + 1) + 180 > height
  {
    var rowGap: u16 := CELL_MARGIN * 2;
    var overhead: u16 := GRID_TOP_INSET + (GRID_ROWS - 1) * rowGap + STATUS_BAR_HEIGHT;
    var side: u16 := Min(SaturatingSub(width / GRID_COLUMNS, CELL_MARGIN * 2),
                         SaturatingSub(height, overhead) / GRID_ROWS);
    if width == 0 || height == 0 || side == 0 then None else Some(side)
  }

  function CellX(width: u16, side: u16, column: u16): (x: u16)
    requires column < GRID_COLUMNS && side + 2 * CELL_MARGIN <= width
    ensures x + side + CELL_MARGIN <= width
  {
    var innerWidth: u16 := width - CELL_MARGIN * 2;
    var slack: u16 := innerWidth - side;
    AtMostTwice(slack, column);
    CELL_MARGIN + slack * column / (GRID_COLUMNS - 1)
  }

  function CellY(height: u16, side: u16, row: u16): (y: u16)
    requires row < GRID_ROWS && 3 * side + 180 <= height
    ensures y + side + STATUS_BAR_HEIGHT <= height
  {
    var rowGap: u16 := CELL_MARGIN * 2;
    AtMostTwice(side + rowGap, row);
    var down: u16 := row * (side + rowGap);
    GRID_TOP_INSET + down
  }

  lemma AtMostTwice(a: nat, k: nat)
    requires k < 3
    ensures 0 <= a * k <= 2 * a
  {
  }

  /** One cell, in the source's 16-bit arithmetic: every intermediate value is a u16 or widened first. */
  function Cell(width: u16, height: u16, row: u16, column: u16): ButtonLayout
    requires GridCellSide(width, height).Some? && row < GRID_ROWS && column < GRID_COLUMNS
  {
    var side := GridCellSide(width, height).value;
    var x, y := CellX(width, side, column), CellY(height, side, row);
    Labelled(row * GRID_COLUMNS + column + 1, Rect(x, y, side, side))
  }

  function Labelled(id: byte, r: Rect): ButtonLayout
    requires r.x + r.width <= U16_MAX && r.y + r.height + STATUS_BAR_HEIGHT <= U16_MAX
  {
    var centerX: u32, centerY: u32 := r.x + r.width / 2, r.y + r.height / 2;
    var labelX: u16, labelY: u16 := SaturatingSub(centerX, LABEL_TEXT_X_OFFSET), centerY + LABEL_TEXT_Y_OFFSET;
    ButtonLayout(id, r, labelX, labelY)
  }

  /** `layout(...).buttons`, row by row. */
  function Buttons(width: u16, height: u16): (bs: seq<ButtonLayout>)
    ensures bs == [] <==> GridCellSide(width, height).None?
    ensures bs != [] ==> |bs| == 9 && forall i :: 0 <= i < 9 ==> bs[i] == Cell(width, height, i / 3, i % 3)
  {
    if GridCellSide(width, height).None? then []
    else seq(9, i requires 0 <= i < 9 => Cell(width, height, i / 3, i % 3))
  }

  method ButtonGridOf(width: u16, height: u16) returns (buttons: seq<ButtonLayout>)
    ensures buttons == Buttons(width, height)
  {
    hide Cell;
    buttons := [];
    if GridCellSide(width, height).None? {
      return;
    }
    for row: int := 0 to GRID_ROWS
      invariant |buttons| == 3 * row
      invariant forall i :: 0 <= i < |buttons| ==> buttons[i] == Cell(width, height, i / 3, i % 3)
    {
      for column: int := 0 to GRID_COLUMNS
        invariant |buttons| == 3 * row + column
        invariant forall i :: 0 <= i < |buttons| ==> buttons[i] == Cell(width, height, i / 3, i % 3)
      {
        buttons := buttons + [Cell(width, height, row, column)];
      }
    }
  }

  // ---------- Geometry of the grid ----------

  /** Where a cell starts: columns at least a side apart, rows a side and a gap apart. */
  lemma CellPlace(width: u16, height: u16, row: u16, column: u16)
    requires GridCellSide(width, height).Some? && row < GRID_ROWS && column < GRID_COLUMNS
    ensures var side, b := GridCellSide(width, height).value, Cell(width, height, row, column);
            var slack := width - 2 * CELL_MARGIN - side;
            && b.id == 3 * row + column + 1 && b.bounds.width == b.bounds.height == side
            && b.bounds.x == CELL_MARGIN + (if column == 0 then 0 else if column == 1 then slack / 2 else slack)
            && b.bounds.y == GRID_TOP_INSET + (if row == 0 then 0 else if row == 1 then side + 40 else 2 * side + 80)
            && slack >= 2 * side + 80
  {
  }

  /** Every button lies inside the viewport and above the status bar. */
  lemma GridInside(width: u16, height: u16, i: nat)
    requires i < |Buttons(width, height)|
    ensures var b, status := Buttons(width, height)[i].bounds, StatusRegion(width, height);
            && b.width > 0 && b.x + b.width + CELL_MARGIN <= width && b.y + b.height <= status.y
            && status.y + status.height == height
  {
    CellPlace(width, height, i / 3, i % 3);
    hide Cell;
  }

  /** No point is in two buttons. */
  lemma GridDisjoint(width: u16, height: u16, i: nat, j: nat, x: u16, y: u16)
    requires i < |Buttons(width, height)| && j < |Buttons(width, height)|
    requires Buttons(width, height)[i].bounds.Contains(x, y) && Buttons(width, height)[j].bounds.Contains(x, y)
    ensures i == j
  {
    CellPlace(width, height, i / 3, i % 3);
    CellPlace(width, height, j / 3, j % 3);
    hide Cell, GridCellSide;
    assert i / 3 == j / 3;
    assert i % 3 == j % 3;
  }

  /** `into_iter().find(...)`: the first button containing a point. */
  function FirstHit(bs: seq<ButtonLayout>, x: u16, y: u16): (r: Option<nat>)
    ensures r.Some? ==> r.value < |bs| && bs[r.value].bounds.Contains(x, y)
    ensures forall k :: 0 <= k < (if r.Some? then r.value else |bs|) ==> !bs[k].bounds.Contains(x, y)
  {
    if bs == [] then None
    else if bs[0].bounds.Contains(x, y) then Some(0)
    else
      match FirstHit(bs[1..], x, y)
      case None => None
      case Some(k) => Some(k + 1)
  }

  /** The button under a point of the viewport, by its identifier. */
  function ButtonAt(width: u16, height: u16, x: u16, y: u16): Option<byte> {
    match FirstHit(Buttons(width, height), x, y)
    case None => None
    case Some(k) => Some(Buttons(width, height)[k].id)
  }

  /** A button's own identifier is what a point in it resolves to, whatever order the search takes. */
  lemma OnlyHit(width: u16, height: u16, x: u16, y: u16, id: byte)
    ensures ButtonAt(width, height, x, y) == Some(id) <==>
            1 <= id <= |Buttons(width, height)| && Buttons(width, height)[id - 1].bounds.Contains(x, y)
  {
    hide Cell;
    var bs := Buttons(width, height);
    forall k | 0 <= k < |bs|
      ensures bs[k].id == k + 1
    {
      CellPlace(width, height, k / 3, k % 3);
    }
    hide Buttons;
    var hit := FirstHit(bs, x, y);
    if hit.Some? && 1 <= id <= |bs| && bs[id - 1].bounds.Contains(x, y) {
      GridDisjoint(width, height, hit.value, id - 1, x, y);
    }
  }

  /** Points outside the viewport are in no button. */
  lemma NoButtonOutside(width: u16, height: u16, x: u16, y: u16)
    requires x >= width || y >= height
    ensures ButtonAt(width, height, x, y) == None
  {
    var hit := FirstHit(Buttons(width, height), x, y);
    if hit.Some? {
      GridInside(width, height, hit.value);
    }
  }
}

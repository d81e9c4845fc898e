/**
 * GridInfo: the drop-zone grid of a GridLayout. The line arrays come from the
 * layout's axis locations, extended with 32-pixel cells up to the layout's
 * size and shifted into the layout's coordinates; a coordinate maps to the row
 * or column between two lines; the occupancy table records which child covers
 * each cell.
 */
module Grid {
  import opened Wrappers

  const NewCellSize: int := 32

  /** The exceptions the code throws: IllegalArgumentException, ArrayIndexOutOfBoundsException, AssertionError. */
  datatype GridError = IllegalArgument | IndexOutOfBounds | AssertionFailed

  datatype Insets = Insets(left: int, top: int, right: int, bottom: int) {
    function Width(): int { left + right }
    function Height(): int { top + bottom }
  }

  /** A row or column span of a child, [min, max). */
  datatype Span = Span(min: nat, max: int)

  /** A child of the layout: its identity, its bounds and its row and column spans. */
  datatype Child = Child(id: nat, x: int, y: int, w: int, h: int, rowSpan: Span, columnSpan: Span)

  /**
   * What GridInfo reads from the layout component and, by reflection, from its
   * GridLayout view: bounds, padding, children (None for a null child list; an
   * empty list is Some([])), axis locations and row and column counts.
   */
  datatype Layout = Layout(x: int, y: int, w: int, h: int, padding: Insets,
                           children: Option<seq<Child>>,
                           horizontalAxis: seq<int>, verticalAxis: seq<int>,
                           rowCount: nat, columnCount: nat)

  predicate Sorted(s: seq<int>) {
    forall i, j :: 0 <= i < j < |s| ==> s[i] <= s[j]
  }

  // ---------------------------------------------------------------------------
  // Line locations
  // ---------------------------------------------------------------------------

  /** Arrays.copyOf(s, n): the first n elements of s, padded with zeros. */
  function CopyOf(s: seq<int>, n: nat): (r: seq<int>)
    ensures |r| == n
    ensures forall i :: 0 <= i < n ==> r[i] == if i < |s| then s[i] else 0
  {
    seq(n, i requires 0 <= i < n => if i < |s| then s[i] else 0)
  }

  /** The number of lines before the final one is settled: one more per 32 pixels the layout is larger than its content. */
  function GeneratedLength(layoutSize: int, gridInfoSize: int, axis: seq<int>): nat {
    var difference := layoutSize - gridInfoSize;
    if difference > 0 then |axis| + difference / NewCellSize else |axis|
  }

  /**
   * The lines before the final one is settled: the axis locations, with the last
   * one replaced by the content size, then a line every 32 pixels after it. With
   * no axis locations the lines start at 0.
   */
  function Generated(layoutSize: int, gridInfoSize: int, axis: seq<int>): (r: seq<int>)
    ensures |r| == GeneratedLength(layoutSize, gridInfoSize, axis)
  {
    seq(GeneratedLength(layoutSize, gridInfoSize, axis),
        j requires 0 <= j => if |axis| == 0 then NewCellSize * j
             else if j < |axis| - 1 then axis[j]
             else gridInfoSize + NewCellSize * (j - (|axis| - 1)))
  }

  /**
   * initLineLocations: the generated lines, whose last one is replaced by
   * `layoutSize - 1` when it is `layoutSize` and otherwise followed by it. With
   * no axis locations and less than 32 pixels to fill there is no line at all,
   * and the code indexes an empty array.
   */
  function LineLocations(layoutSize: int, gridInfoSize: int, axis: seq<int>): (r: Result<seq<int>, GridError>)
    ensures r.Err? ==> r.error == IndexOutOfBounds
    ensures r.Ok? ==> var g := Generated(layoutSize, gridInfoSize, axis);
                      1 <= |r.value| <= |g| + 1 && r.value[..|r.value| - 1] == g[..|r.value| - 1]
  {
    var g := Generated(layoutSize, gridInfoSize, axis);
    if |g| == 0 then Err(IndexOutOfBounds)
    else if g[|g| - 1] != layoutSize then Ok(g + [layoutSize - 1])
    else Ok(g[..|g| - 1] + [layoutSize - 1])
  }

  /** The only failure: no axis locations and less than one new cell of room. */
  lemma LineLocationsFails(layoutSize: int, gridInfoSize: int, axis: seq<int>)
    ensures LineLocations(layoutSize, gridInfoSize, axis).Err?
            <==> |axis| == 0 && layoutSize - gridInfoSize < NewCellSize
  {
  }

  /**
   * The number of lines: the axis locations plus one per whole new cell, plus
   * one more when the last generated line is not at the layout's size.
   */
  lemma LineLocationsLength(layoutSize: int, gridInfoSize: int, axis: seq<int>)
    requires LineLocations(layoutSize, gridInfoSize, axis).Ok?
    ensures var d := layoutSize - gridInfoSize;
            var n := |axis| + (if d > 0 then d / NewCellSize else 0);
            var g := Generated(layoutSize, gridInfoSize, axis);
            n > 0 && |LineLocations(layoutSize, gridInfoSize, axis).value| == if g[n - 1] != layoutSize then n + 1 else n
  {
  }

  /** The last line is always one pixel before the layout's size. */
  lemma LineLocationsLast(layoutSize: int, gridInfoSize: int, axis: seq<int>)
    requires LineLocations(layoutSize, gridInfoSize, axis).Ok?
    ensures var r := LineLocations(layoutSize, gridInfoSize, axis).value;
            |r| > 0 && r[|r| - 1] == layoutSize - 1
  {
  }

  /**
   * Every line but the last: the axis locations before the last one, the content
   * size in the last one's place, then one line every 32 pixels.
   */
  lemma LineLocationsContents(layoutSize: int, gridInfoSize: int, axis: seq<int>, i: nat)
    requires LineLocations(layoutSize, gridInfoSize, axis).Ok?
    requires i < |LineLocations(layoutSize, gridInfoSize, axis).value| - 1
    ensures var r := LineLocations(layoutSize, gridInfoSize, axis).value;
            && (i < |axis| - 1 ==> r[i] == axis[i])
            && (|axis| > 0 && i == |axis| - 1 ==> r[i] == gridInfoSize)
            && (|axis| > 0 && i >= |axis| ==> r[i] == r[i - 1] + NewCellSize)
            && (|axis| == 0 ==> r[i] == NewCellSize * i)
  {
  }

  /**
   * When the layout is larger than its content and the axis locations are in
   * order up to the content size, the lines are in order.
   */
  lemma LineLocationsSorted(layoutSize: int, gridInfoSize: int, axis: seq<int>)
    requires |axis| > 0 && gridInfoSize < layoutSize
    requires Sorted(axis[..|axis| - 1] + [gridInfoSize])
    ensures LineLocations(layoutSize, gridInfoSize, axis).Ok?
    ensures Sorted(LineLocations(layoutSize, gridInfoSize, axis).value)
  {
    var g := Generated(layoutSize, gridInfoSize, axis);
    var n := |g|;
    var a := axis[..|axis| - 1] + [gridInfoSize];
    assert forall j :: 0 <= j < |axis| ==> g[j] == a[j];
    assert Sorted(g) by {
      forall i, j | 0 <= i < j < n
        ensures g[i] <= g[j]
      {
        if j < |axis| {
          assert g[i] == a[i] && g[j] == a[j];
        } else if i < |axis| {
          assert g[i] == a[i] && a[|axis| - 1] == gridInfoSize;
        }
      }
    }
    var d := layoutSize - gridInfoSize;
    assert g[n - 1] == gridInfoSize + NewCellSize * (d / NewCellSize);
    assert g[n - 1] <= layoutSize;
    var r := LineLocations(layoutSize, gridInfoSize, axis).value;
    if g[n - 1] != layoutSize {
      assert r == g + [layoutSize - 1];
    } else {
      assert n - 1 >= |axis|;
      assert g[n - 2] == g[n - 1] - NewCellSize;
      assert r == g[..n - 1] + [layoutSize - 1];
    }
  }

  /** Arrays.copyOf on an array: a fresh array of length n. */
  method CopyOfArray(a: array<int>, n: nat) returns (b: array<int>)
    ensures fresh(b)
    ensures b[..] == CopyOf(a[..], n)
  {
    b := new int[n];
    for i := 0 to n
      invariant forall j :: 0 <= j < i ==> b[j] == CopyOf(a[..], n)[j]
    {
      b[i] := if i < a.Length then a[i] else 0;
    }
  }

  /** The first part of initLineLocations: a copy of the axis locations, extended and filled in place. */
  method GenerateLines(layoutSize: int, gridInfoSize: int, axisLocations: array<int>) returns (lines: array<int>)
    ensures fresh(lines)
    ensures lines[..] == Generated(layoutSize, gridInfoSize, axisLocations[..])
  {
    ghost var g := Generated(layoutSize, gridInfoSize, axisLocations[..]);
    var difference := layoutSize - gridInfoSize;
    var length := if difference > 0 then axisLocations.Length + difference / NewCellSize else axisLocations.Length;
    lines := CopyOfArray(axisLocations, length);
    var start: nat;
    if axisLocations.Length == 0 {
      start := 1;
    } else {
      lines[axisLocations.Length - 1] := gridInfoSize;
      start := axisLocations.Length;
    }
    var i := start;
    while i < length
      invariant start <= i && (i <= length || length < start)
      invariant length < start ==> i == start
      invariant forall j :: 0 <= j < i && j < length ==> lines[j] == g[j]
    {
      lines[i] := lines[i - 1] + NewCellSize;
      i := i + 1;
    }
  }

  /**
   * initLineLocations: generates the lines, then makes room for a final line
   * unless the last one is at the layout's size, and sets the final line.
   */
  method InitLineLocations(layoutSize: int, gridInfoSize: int, axisLocations: array<int>)
    returns (r: Result<array<int>, GridError>)
    ensures LineLocations(layoutSize, gridInfoSize, axisLocations[..]).Err? ==> r == Err(IndexOutOfBounds)
    ensures LineLocations(layoutSize, gridInfoSize, axisLocations[..]).Ok? ==>
              r.Ok? && fresh(r.value) && r.value[..] == LineLocations(layoutSize, gridInfoSize, axisLocations[..]).value
  {
    var lines := GenerateLines(layoutSize, gridInfoSize, axisLocations);
    ghost var g := lines[..];
    if lines.Length == 0 {
      return Err(IndexOutOfBounds);
    }
    if lines[lines.Length - 1] != layoutSize {
      lines := CopyOfArray(lines, lines.Length + 1);
      assert lines[..] == g + [0];
    }
    lines[lines.Length - 1] := layoutSize - 1;
    r := Ok(lines);
  }

  /** Every line moved by `distance`. */
  function Shifted(s: seq<int>, distance: int): (r: seq<int>)
    ensures |r| == |s|
    ensures forall i :: 0 <= i < |s| ==> r[i] == s[i] + distance
  {
    seq(|s|, i requires 0 <= i < |s| => s[i] + distance)
  }

  /** translate: adds `distance` to every location, in place. */
  method Translate(locations: array<int>, distance: int)
    modifies locations
    ensures locations[..] == Shifted(old(locations[..]), distance)
  {
    for i := 0 to locations.Length
      invariant forall j :: 0 <= j < i ==> locations[j] == old(locations[j]) + distance
      invariant forall j :: i <= j < locations.Length ==> locations[j] == old(locations[j])
    {
      locations[i] := locations[i] + distance;
    }
  }

  /** Shifting keeps the lines in order. */
  lemma ShiftedSorted(s: seq<int>, distance: int)
    requires Sorted(s)
    ensures Sorted(Shifted(s, distance))
  {
  }

  // ---------------------------------------------------------------------------
  // Cell index
  // ---------------------------------------------------------------------------

  /** The first i from `from` on with lines[i] <= location < lines[i + 1]. */
  function FirstCellFrom(lines: seq<int>, location: int, from: nat): (r: Result<nat, GridError>)
    decreases |lines| - from
    ensures r.Ok? ==> from <= r.value < |lines| - 1 && lines[r.value] <= location < lines[r.value + 1]
    ensures r.Ok? ==> forall k :: from <= k < r.value ==> !(lines[k] <= location < lines[k + 1])
    ensures r.Err? ==> r.error == AssertionFailed
                       && forall k :: from <= k < |lines| - 1 ==> !(lines[k] <= location < lines[k + 1])
  {
    if from + 1 >= |lines| then Err(AssertionFailed)
    else if lines[from] <= location < lines[from + 1] then Ok(from)
    else FirstCellFrom(lines, location, from + 1)
  }

  /**
   * getIndex: fewer than two lines is an error; before the first line is cell 0;
   * at or after the last line is the last cell; otherwise the first cell whose
   * lines enclose the location, and an assertion failure when there is none.
   */
  function CellIndex(lines: seq<int>, location: int): (r: Result<nat, GridError>)
    ensures r == Err(IllegalArgument) <==> |lines| < 2
    ensures r.Ok? ==> r.value <= |lines| - 2
    ensures |lines| >= 2 && location < lines[0] ==> r == Ok(0)
    ensures |lines| >= 2 && lines[0] <= location && location >= lines[|lines| - 1] ==> r == Ok(|lines| - 2)
  {
    if |lines| < 2 then Err(IllegalArgument)
    else if location < lines[0] then Ok(0)
    else if location >= lines[|lines| - 1] then Ok(|lines| - 2)
    else FirstCellFrom(lines, location, 0)
  }

  /**
   * On lines in order, every location has a cell, and a location between the
   * first and the last line lies in the one cell whose lines enclose it.
   */
  lemma CellIndexSorted(lines: seq<int>, location: int, i: nat)
    requires Sorted(lines) && |lines| >= 2
    ensures CellIndex(lines, location).Ok?
    ensures lines[0] <= location < lines[|lines| - 1] ==>
              var c := CellIndex(lines, location).value;
              lines[c] <= location < lines[c + 1]
              && (i < |lines| - 1 && lines[i] <= location < lines[i + 1] ==> i == c)
  {
    if lines[0] <= location < lines[|lines| - 1] {
      var k := LastLineAtOrBefore(lines, location);
      var r := FirstCellFrom(lines, location, 0);
      assert lines[k] <= location < lines[k + 1];
      assert r.Ok?;
    }
  }

  /** The last line at or before a location between the first and the last line. */
  lemma LastLineAtOrBefore(lines: seq<int>, location: int) returns (k: nat)
    requires |lines| >= 2 && lines[0] <= location < lines[|lines| - 1]
    ensures k < |lines| - 1 && lines[k] <= location < lines[k + 1]
  {
    k := 0;
    while lines[k + 1] <= location
      invariant k < |lines| - 1 && lines[k] <= location
      decreases |lines| - k
    {
      k := k + 1;
    }
  }

  /** Moving the lines and the location by the same distance leaves the cell unchanged. */
  lemma CellIndexShifted(lines: seq<int>, location: int, distance: int)
    ensures CellIndex(Shifted(lines, distance), location + distance) == CellIndex(lines, location)
  {
    var shifted := Shifted(lines, distance);
    if |lines| >= 2 && lines[0] <= location < lines[|lines| - 1] {
      forall k | 0 <= k < |lines| - 1
        ensures (shifted[k] <= location + distance < shifted[k + 1]) == (lines[k] <= location < lines[k + 1])
      {
        assert shifted[k] == lines[k] + distance && shifted[k + 1] == lines[k + 1] + distance;
      }
    }
  }

  /** getIndex, scanning the cells in order. */
  method GetIndex(lineLocations: array<int>, location: int) returns (r: Result<nat, GridError>)
    ensures r == CellIndex(lineLocations[..], location)
  {
    if lineLocations.Length < 2 {
      return Err(IllegalArgument);
    } else if location < lineLocations[0] {
      return Ok(0);
    } else if location >= lineLocations[lineLocations.Length - 1] {
      return Ok(lineLocations.Length - 2);
    }
    for i := 0 to lineLocations.Length - 1
      invariant FirstCellFrom(lineLocations[..], location, i) == FirstCellFrom(lineLocations[..], location, 0)
    {
      if lineLocations[i] <= location && location < lineLocations[i + 1] {
        return Ok(i);
      }
    }
    return Err(AssertionFailed);
  }

  // ---------------------------------------------------------------------------
  // Size and occupancy
  // ---------------------------------------------------------------------------

  /** How far a child reaches right of the layout's content origin. */
  function RightEdge(layout: Layout, child: Child): int {
    child.x - layout.x - layout.padding.left + child.w
  }

  /** How far a child reaches below the layout's content origin. */
  function BottomEdge(layout: Layout, child: Child): int {
    child.y - layout.y - layout.padding.top + child.h
  }

  /** The content width: the furthest right edge of the children, and 0 when none reaches past the origin. */
  function ContentWidth(layout: Layout, children: seq<Child>): (r: int)
    ensures r >= 0
    ensures forall c :: c in children ==> RightEdge(layout, c) <= r
    ensures r == 0 || exists c :: c in children && RightEdge(layout, c) == r
  {
    if children == [] then 0
    else
      var rest := ContentWidth(layout, children[..|children| - 1]);
      var edge := RightEdge(layout, children[|children| - 1]);
      assert children == children[..|children| - 1] + [children[|children| - 1]];
      if edge > rest then edge else rest
  }

  /** The content height, as ContentWidth for bottom edges. */
  function ContentHeight(layout: Layout, children: seq<Child>): (r: int)
    ensures r >= 0
    ensures forall c :: c in children ==> BottomEdge(layout, c) <= r
    ensures r == 0 || exists c :: c in children && BottomEdge(layout, c) == r
  {
    if children == [] then 0
    else
      var rest := ContentHeight(layout, children[..|children| - 1]);
      var edge := BottomEdge(layout, children[|children| - 1]);
      assert children == children[..|children| - 1] + [children[|children| - 1]];
      if edge > rest then edge else rest
  }

  /** getSize: the content size, (0, 0) when the layout has no children. */
  method GetSize(layout: Layout) returns (width: int, height: int)
    ensures layout.children.None? ==> width == 0 && height == 0
    ensures layout.children.Some? ==>
              width == ContentWidth(layout, layout.children.value) && height == ContentHeight(layout, layout.children.value)
  {
    width, height := 0, 0;
    if layout.children.Some? {
      var children := layout.children.value;
      for i := 0 to |children|
        invariant width == ContentWidth(layout, children[..i])
        invariant height == ContentHeight(layout, children[..i])
      {
        assert children[..i + 1][..i] == children[..i];
        var child := children[i];
        width := if RightEdge(layout, child) > width then RightEdge(layout, child) else width;
        height := if BottomEdge(layout, child) > height then BottomEdge(layout, child) else height;
      }
      assert children[..|children|] == children;
    }
  }

  /** Whether a child's spans, clipped to the row and column counts, cover a cell. */
  predicate Covers(child: Child, row: int, column: int, rowCount: nat, columnCount: nat) {
    && child.rowSpan.min <= row < child.rowSpan.max && row < rowCount
    && child.columnSpan.min <= column < child.columnSpan.max && column < columnCount
  }

  /** The child initChildren leaves in a cell: the last child covering it, None when no child does. */
  function CellOwner(children: seq<Child>, row: int, column: int, rowCount: nat, columnCount: nat): (r: Option<nat>)
    ensures r.Some? ==> exists k :: 0 <= k < |children| && children[k].id == r.value
                                    && Covers(children[k], row, column, rowCount, columnCount)
  {
    if children == [] then None
    else if Covers(children[|children| - 1], row, column, rowCount, columnCount) then Some(children[|children| - 1].id)
    else CellOwner(children[..|children| - 1], row, column, rowCount, columnCount)
  }

  /** A cell holds a child that covers it when no later child covers it too. */
  lemma {:induction false} CellOwnerLastWins(children: seq<Child>, k: nat, row: int, column: int, rowCount: nat, columnCount: nat)
    requires k < |children| && Covers(children[k], row, column, rowCount, columnCount)
    requires forall j :: k < j < |children| ==> !Covers(children[j], row, column, rowCount, columnCount)
    ensures CellOwner(children, row, column, rowCount, columnCount) == Some(children[k].id)
  {
    if k < |children| - 1 {
      var init := children[..|children| - 1];
      assert init[k] == children[k];
      CellOwnerLastWins(init, k, row, column, rowCount, columnCount);
    }
  }

  /** A cell is empty exactly when no child covers it; in particular every cell outside the grid is empty. */
  lemma {:induction false} CellOwnerEmpty(children: seq<Child>, row: int, column: int, rowCount: nat, columnCount: nat)
    ensures CellOwner(children, row, column, rowCount, columnCount).None?
            <==> forall j :: 0 <= j < |children| ==> !Covers(children[j], row, column, rowCount, columnCount)
    ensures !(0 <= row < rowCount && 0 <= column < columnCount) ==> CellOwner(children, row, column, rowCount, columnCount).None?
  {
    if children != [] {
      var init := children[..|children| - 1];
      CellOwnerEmpty(init, row, column, rowCount, columnCount);
      assert forall j :: 0 <= j < |init| ==> init[j] == children[j];
    }
  }

  /**
   * The table after the children before `done` are written, and the child
   * `done` is written up to (but not including) cell (row, column).
   */
  ghost predicate TablePartlyWritten(table: array2<Option<nat>>, children: seq<Child>, done: nat, row: int, column: int, endColumn: int)
    requires done < |children|
    reads table
  {
    var child := children[done];
    forall r, c :: 0 <= r < table.Length0 && 0 <= c < table.Length1 ==>
      table[r, c] == if child.rowSpan.min <= r && child.columnSpan.min <= c < endColumn && (r < row || (r == row && c < column))
                     then Some(child.id)
                     else CellOwner(children[..done], r, c, table.Length0, table.Length1)
  }

  /** Every cell of the table holds the child initChildren leaves there. */
  ghost predicate Occupancy(table: array2<Option<nat>>, children: seq<Child>)
    reads table
  {
    forall r, c :: 0 <= r < table.Length0 && 0 <= c < table.Length1 ==>
      table[r, c] == CellOwner(children, r, c, table.Length0, table.Length1)
  }

  /** initChildren: writes each child, in order, into every cell its clipped spans cover. */
  method InitChildren(rowCount: nat, columnCount: nat, children: seq<Child>) returns (table: array2<Option<nat>>)
    ensures fresh(table)
    ensures table.Length0 == rowCount && table.Length1 == columnCount
    ensures Occupancy(table, children)
  {
    table := new Option<nat>[rowCount, columnCount]((r, c) => None);
    for k := 0 to |children|
      invariant forall r, c :: 0 <= r < rowCount && 0 <= c < columnCount ==>
                  table[r, c] == CellOwner(children[..k], r, c, rowCount, columnCount)
    {
      var child := children[k];
      var endRow := if child.rowSpan.max < rowCount then child.rowSpan.max else rowCount;
      var endColumn := if child.columnSpan.max < columnCount then child.columnSpan.max else columnCount;
      var row := child.rowSpan.min;
      while row < endRow
        invariant row == child.rowSpan.min || child.rowSpan.min <= row <= endRow
        invariant TablePartlyWritten(table, children, k, row, child.columnSpan.min, endColumn)
      {
        var column := child.columnSpan.min;
        while column < endColumn
          invariant column == child.columnSpan.min || child.columnSpan.min <= column <= endColumn
          invariant TablePartlyWritten(table, children, k, row, column, endColumn)
        {
          table[row, column] := Some(child.id);
          column := column + 1;
        }
        row := row + 1;
      }
      assert children[..k + 1][..k] == children[..k];
      assert children[..k + 1][k] == child;
    }
    assert children[..|children|] == children;
  }

  // ---------------------------------------------------------------------------
  // The grid
  // ---------------------------------------------------------------------------

  class GridInfo {
    const verticalLineLocations: array<int>
    const horizontalLineLocations: array<int>
    const children: array2<Option<nat>>
    const rowCount: nat
    const columnCount: nat

    ghost predicate Valid()
      reads this
    {
      children.Length0 == rowCount && children.Length1 == columnCount
    }

    constructor (vertical: array<int>, horizontal: array<int>, table: array2<Option<nat>>, rowCount: nat, columnCount: nat)
      requires table.Length0 == rowCount && table.Length1 == columnCount
      ensures Valid()
      ensures verticalLineLocations == vertical && horizontalLineLocations == horizontal && children == table
      ensures this.rowCount == rowCount && this.columnCount == columnCount
    {
      verticalLineLocations := vertical;
      horizontalLineLocations := horizontal;
      children := table;
      this.rowCount := rowCount;
      this.columnCount := columnCount;
    }

    /** getRow: the row of a y coordinate. */
    method GetRow(y: int) returns (r: Result<nat, GridError>)
      ensures r == CellIndex(horizontalLineLocations[..], y)
    {
      r := GetIndex(horizontalLineLocations, y);
    }

    /** getColumn: the column of an x coordinate. */
    method GetColumn(x: int) returns (r: Result<nat, GridError>)
      ensures r == CellIndex(verticalLineLocations[..], x)
    {
      r := GetIndex(verticalLineLocations, x);
    }

    /** cellHasChild: false outside the grid, otherwise whether the cell holds a child. */
    predicate CellHasChild(row: int, column: int)
      requires Valid()
      reads this, children
      ensures CellHasChild(row, column) ==> 0 <= row < rowCount && 0 <= column < columnCount
    {
      0 <= row < rowCount && 0 <= column < columnCount && children[row, column].Some?
    }
  }

  /**
   * initVerticalLineLocations / initHorizontalLineLocations: the lines of one
   * axis, moved to the layout's coordinates.
   */
  method AxisLineLocations(layoutSize: int, gridInfoSize: int, axisLocations: seq<int>, offset: int)
    returns (r: Result<array<int>, GridError>)
    ensures LineLocations(layoutSize, gridInfoSize, axisLocations).Err? ==> r == Err(IndexOutOfBounds)
    ensures LineLocations(layoutSize, gridInfoSize, axisLocations).Ok? ==>
              r.Ok? && fresh(r.value) && r.value[..] == Shifted(LineLocations(layoutSize, gridInfoSize, axisLocations).value, offset)
  {
    var axis := new int[|axisLocations|](i requires 0 <= i < |axisLocations| => axisLocations[i]);
    assert axis[..] == axisLocations;
    r := InitLineLocations(layoutSize, gridInfoSize, axis);
    if r.Ok? {
      Translate(r.value, offset);
    }
  }

  /** The vertical lines of a layout with children, before they are moved to the layout's coordinates. */
  function VerticalLines(layout: Layout): Result<seq<int>, GridError>
    requires layout.children.Some?
  {
    LineLocations(layout.w - layout.padding.Width(), ContentWidth(layout, layout.children.value), layout.horizontalAxis)
  }

  /** The horizontal lines of a layout with children, before they are moved to the layout's coordinates. */
  function HorizontalLines(layout: Layout): Result<seq<int>, GridError>
    requires layout.children.Some?
  {
    LineLocations(layout.h - layout.padding.Height(), ContentHeight(layout, layout.children.value), layout.verticalAxis)
  }

  /** A grid built from a layout: its lines, counts and occupancy table are those of the layout. */
  ghost predicate Describes(grid: GridInfo, layout: Layout)
    reads grid, grid.verticalLineLocations, grid.horizontalLineLocations, grid.children
    requires layout.children.Some?
  {
    && grid.Valid()
    && VerticalLines(layout).Ok? && HorizontalLines(layout).Ok?
    && grid.verticalLineLocations[..] == Shifted(VerticalLines(layout).value, layout.x + layout.padding.left)
    && grid.horizontalLineLocations[..] == Shifted(HorizontalLines(layout).value, layout.y + layout.padding.top)
    && grid.rowCount == layout.rowCount && grid.columnCount == layout.columnCount
    && Occupancy(grid.children, layout.children.value)
  }

  /** initVerticalLineLocations: the lines across the width, moved right by the layout's x plus its left padding. */
  method InitVerticalLineLocations(layout: Layout, width: int) returns (r: Result<array<int>, GridError>)
    requires layout.children.Some? && width == ContentWidth(layout, layout.children.value)
    ensures VerticalLines(layout).Err? ==> r == Err(IndexOutOfBounds)
    ensures VerticalLines(layout).Ok? ==>
              r.Ok? && fresh(r.value) && r.value[..] == Shifted(VerticalLines(layout).value, layout.x + layout.padding.left)
  {
    var size := layout.w - layout.padding.Width();
    assert VerticalLines(layout) == LineLocations(size, width, layout.horizontalAxis);
    r := AxisLineLocations(size, width, layout.horizontalAxis, layout.x + layout.padding.left);
  }

  /** initHorizontalLineLocations: the lines across the height, moved down by the layout's y plus its top padding. */
  method InitHorizontalLineLocations(layout: Layout, height: int) returns (r: Result<array<int>, GridError>)
    requires layout.children.Some? && height == ContentHeight(layout, layout.children.value)
    ensures HorizontalLines(layout).Err? ==> r == Err(IndexOutOfBounds)
    ensures HorizontalLines(layout).Ok? ==>
              r.Ok? && fresh(r.value) && r.value[..] == Shifted(HorizontalLines(layout).value, layout.y + layout.padding.top)
  {
    var size := layout.h - layout.padding.Height();
    assert HorizontalLines(layout) == LineLocations(size, height, layout.verticalAxis);
    r := AxisLineLocations(size, height, layout.verticalAxis, layout.y + layout.padding.top);
  }

  /** The rest of the constructor once both line arrays exist: the counts and the occupancy table. */
  method AssembleGrid(layout: Layout, vertical: array<int>, horizontal: array<int>) returns (grid: GridInfo)
    requires layout.children.Some?
    ensures fresh(grid) && fresh(grid.children)
    ensures grid.Valid()
    ensures grid.verticalLineLocations == vertical && grid.horizontalLineLocations == horizontal
    ensures grid.rowCount == layout.rowCount && grid.columnCount == layout.columnCount
    ensures Occupancy(grid.children, layout.children.value)
  {
    var table := InitChildren(layout.rowCount, layout.columnCount, layout.children.value);
    grid := new GridInfo(vertical, horizontal, table, layout.rowCount, layout.columnCount);
  }

  /**
   * The GridInfo constructor: a layout without children is rejected; otherwise
   * the vertical lines span the width and the horizontal lines the height (each
   * shifted by the layout's position plus padding), and the occupancy table is
   * filled from the children.
   */
  method NewGridInfo(layout: Layout) returns (r: Result<GridInfo, GridError>)
    ensures layout.children.None? ==> r == Err(IllegalArgument)
    ensures layout.children.Some? && (VerticalLines(layout).Err? || HorizontalLines(layout).Err?) ==> r == Err(IndexOutOfBounds)
    ensures layout.children.Some? && VerticalLines(layout).Ok? && HorizontalLines(layout).Ok? ==>
              r.Ok? && fresh(r.value) && Describes(r.value, layout)
  {
    if layout.children.None? {
      return Err(IllegalArgument);
    }
    var width, height := GetSize(layout);
    var vertical := InitVerticalLineLocations(layout, width);
    if vertical.Err? {
      return Err(vertical.error);
    }
    var horizontal := InitHorizontalLineLocations(layout, height);
    if horizontal.Err? {
      return Err(horizontal.error);
    }
    var grid := AssembleGrid(layout, vertical.value, horizontal.value);
    r := Ok(grid);
  }
}

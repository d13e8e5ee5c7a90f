/** Fleet formation and fleet movement (alien_invasion.py, _create_fleet,
    _create_alien, _check_fleet_edges, _change_fleet_direction and the bottom
    test of _check_aliens_bottom), on values. */
module Fleet {
  import opened Geometry
  import opened Tuning
  import opened Sprites

  /** The number of aliens per row: each alien takes its own width and an
      empty alien width after it, behind a left margin of one alien width and
      a right margin of two (the last gap plus one more width).  Python's `//`
      rounds down, as Dafny's `/` does for a positive divisor.  The result is
      the largest `n` for which `2 * alienWidth * (n + 1)` fits the screen. */
  function AliensPerRow(c: Config): (n: int)
    requires c.Valid()
    ensures 2 * c.alienWidth * (n + 1) <= c.screenWidth < 2 * c.alienWidth * (n + 2)
  {
    var d := 2 * c.alienWidth;
    var space := c.screenWidth - d;
    assert space == d * (space / d) + space % d;
    space / d
  }

  /** The number of rows: each row takes an alien height and an empty alien
      height after it, below a top margin of one alien height and above a
      band of two alien heights (the last gap plus one more height) and the
      ship's height.  The result is the largest `n` for which
      `2 * alienHeight * (n + 1) + shipHeight` fits the screen. */
  function Rows(c: Config): (n: int)
    requires c.Valid()
    ensures 2 * c.alienHeight * (n + 1) + c.shipHeight <= c.screenHeight < 2 * c.alienHeight * (n + 2) + c.shipHeight
  {
    var d := 2 * c.alienHeight;
    var space := c.screenHeight - d - c.shipHeight;
    assert space == d * (space / d) + space % d;
    space / d
  }

  /** _create_alien: the alien of the given column and row. */
  function AlienAt(c: Config, column: int, row: int): (a: Rect)
    ensures a.width == c.alienWidth && a.height == c.alienHeight
  {
    Rect(c.alienWidth + 2 * c.alienWidth * column, c.alienHeight + 2 * c.alienHeight * row, c.alienWidth, c.alienHeight)
  }

  /** The first `count` aliens of a formation with `columns` aliens per row,
      row by row and left to right within a row. */
  function Grid(c: Config, columns: nat, count: nat): (r: seq<Rect>)
    requires columns > 0
    ensures |r| == count
    ensures forall i :: 0 <= i < count ==> r[i] == AlienAt(c, i % columns, i / columns)
  {
    seq(count, i requires 0 <= i < count => AlienAt(c, i % columns, i / columns))
  }

  /** _create_fleet: the aliens added to the group, empty when no column or no
      row fits. */
  function NewFleet(c: Config): (r: seq<Rect>)
    requires c.Valid()
  {
    var columns, rows := AliensPerRow(c), Rows(c);
    if columns <= 0 || rows <= 0 then [] else Grid(c, columns, rows * columns)
  }

  /** A grid index splits uniquely into row and column. */
  lemma DivModUnique(k: int, d: int, q: int, m: int)
    requires d > 0 && k == q * d + m && 0 <= m < d
    ensures k / d == q && k % d == m
  {
    var q', m' := k / d, k % d;
    assert k == q' * d + m';
    assert (q - q') * d == m' - m;
    if q > q' {
      assert (q - q') * d >= d by { MulAtLeast(q - q', d); }
    } else if q < q' {
      assert (q' - q) * d >= d by { MulAtLeast(q' - q, d); }
    }
  }

  lemma MulAtLeast(a: int, d: int)
    requires a >= 1 && d >= 0
    ensures a * d >= d
  {
    assert a * d == (a - 1) * d + d;
    MulNonNeg(a - 1, d);
  }

  lemma MulNonNeg(a: int, b: int)
    requires a >= 0 && b >= 0
    ensures a * b >= 0
  {
  }

  /** Multiplying by a non-negative factor keeps the order. */
  lemma MulMono(k: int, a: int, b: int)
    requires k >= 0 && a <= b
    ensures k * a <= k * b
  {
    assert k * b - k * a == k * (b - a);
    MulNonNeg(k, b - a);
  }

  /** Cell (n, row) of a grid of `rows` full rows sits at index row·columns + n. */
  lemma GridCell(c: Config, columns: nat, rows: nat, n: int, row: int)
    requires columns > 0 && 0 <= n < columns && 0 <= row < rows
    ensures 0 <= row * columns + n < rows * columns
    ensures Grid(c, columns, rows * columns)[row * columns + n] == AlienAt(c, n, row)
  {
    var k := row * columns + n;
    MulMono(columns, row + 1, rows);
    MulNonNeg(row, columns);
    assert k < rows * columns;
    DivModUnique(k, columns, row, n);
  }

  /** Every index of a grid of `rows` full rows names a cell inside the grid. */
  lemma GridIndex(columns: nat, rows: nat, i: int)
    requires columns > 0 && 0 <= i < rows * columns
    ensures 0 <= i % columns < columns && 0 <= i / columns < rows
  {
    var q := i / columns;
    assert i == q * columns + i % columns;
    if q >= rows {
      MulMono(columns, rows, q);
      assert false;
    }
    if q < 0 {
      MulMono(columns, q, -1);
      assert false;
    }
  }

  /** A new fleet has `AliensPerRow` columns times `Rows` rows when both are
      positive, and no alien otherwise. */
  lemma NewFleetSize(c: Config)
    requires c.Valid()
    ensures |NewFleet(c)| == if AliensPerRow(c) > 0 && Rows(c) > 0 then Rows(c) * AliensPerRow(c) else 0
  {
  }

  /** Each (column, row) cell of a new fleet holds the alien placed at
      x = w + 2·w·column, y = h + 2·h·row, at index row·columns + column. */
  lemma NewFleetCell(c: Config, n: int, row: int)
    requires c.Valid()
    requires 0 <= n < AliensPerRow(c) && 0 <= row < Rows(c)
    ensures 0 <= row * AliensPerRow(c) + n < |NewFleet(c)|
    ensures NewFleet(c)[row * AliensPerRow(c) + n] == AlienAt(c, n, row)
  {
    GridCell(c, AliensPerRow(c), Rows(c), n, row);
  }

  /** Conversely, every alien of a new fleet is the alien of a cell inside the
      formation. */
  lemma NewFleetIndex(c: Config, i: int)
    requires c.Valid()
    requires 0 <= i < |NewFleet(c)|
    ensures AliensPerRow(c) > 0 && 0 <= i % AliensPerRow(c) < AliensPerRow(c) && 0 <= i / AliensPerRow(c) < Rows(c)
    ensures NewFleet(c)[i] == AlienAt(c, i % AliensPerRow(c), i / AliensPerRow(c))
  {
    GridIndex(AliensPerRow(c), Rows(c), i);
  }

  /** Aliens of two different cells do not overlap: distinct columns are two
      alien widths apart, distinct rows two alien heights. */
  lemma CellsApart(c: Config, n1: int, r1: int, n2: int, r2: int)
    requires c.Valid()
    requires n1 != n2 || r1 != r2
    ensures !Overlaps(AlienAt(c, n1, r1), AlienAt(c, n2, r2))
  {
    var a, b := AlienAt(c, n1, r1), AlienAt(c, n2, r2);
    var w, h := c.alienWidth, c.alienHeight;
    if n1 < n2 {
      MulMono(2 * w, n1 + 1, n2);
      assert a.Right() <= b.Left();
    } else if n2 < n1 {
      MulMono(2 * w, n2 + 1, n1);
      assert b.Right() <= a.Left();
    } else if r1 < r2 {
      MulMono(2 * h, r1 + 1, r2);
      assert a.Bottom() <= b.Top();
    } else {
      MulMono(2 * h, r2 + 1, r1);
      assert b.Bottom() <= a.Top();
    }
    SeparatedDoNotOverlap(a, b);
  }

  /** No two aliens of a new fleet overlap, so no two share a position. */
  lemma NewFleetSeparated(c: Config)
    requires c.Valid()
    ensures forall i, j :: 0 <= i < j < |NewFleet(c)| ==>
      !Overlaps(NewFleet(c)[i], NewFleet(c)[j]) && NewFleet(c)[i] != NewFleet(c)[j]
  {
    var f := NewFleet(c);
    var columns := AliensPerRow(c);
    forall i, j | 0 <= i < j < |f|
      ensures !Overlaps(f[i], f[j]) && f[i] != f[j]
    {
      NewFleetIndex(c, i);
      NewFleetIndex(c, j);
      assert i == (i / columns) * columns + i % columns;
      assert j == (j / columns) * columns + j % columns;
      CellsApart(c, i % columns, i / columns, j % columns, j / columns);
      assert Overlaps(f[j], f[j]);
    }
  }

  /** Every alien of a new fleet keeps off both sides of the screen and ends
      at least two alien heights above the ship's top edge, so a new fleet
      neither turns at once, nor reaches the bottom, nor touches the ship. */
  lemma NewFleetInside(c: Config)
    requires c.Valid()
    ensures forall i :: 0 <= i < |NewFleet(c)| ==>
      && NewFleet(c)[i].Left() >= c.alienWidth
      && NewFleet(c)[i].Right() <= c.screenWidth - 2 * c.alienWidth
      && NewFleet(c)[i].Bottom() <= c.screenHeight - c.shipHeight - 2 * c.alienHeight
      && NewFleet(c)[i].Top() >= c.alienHeight
  {
    var f := NewFleet(c);
    forall i | 0 <= i < |f|
      ensures f[i].Left() >= c.alienWidth && f[i].Right() <= c.screenWidth - 2 * c.alienWidth
      ensures f[i].Bottom() <= c.screenHeight - c.shipHeight - 2 * c.alienHeight && f[i].Top() >= c.alienHeight
    {
      NewFleetIndex(c, i);
      CellInside(c, i % AliensPerRow(c), i / AliensPerRow(c));
    }
  }

  /** The alien of a cell inside the formation keeps to the margins. */
  lemma CellInside(c: Config, n: int, row: int)
    requires c.Valid()
    requires 0 <= n < AliensPerRow(c) && 0 <= row < Rows(c)
    ensures var a := AlienAt(c, n, row);
      && a.Left() >= c.alienWidth && a.Right() <= c.screenWidth - 2 * c.alienWidth
      && a.Bottom() <= c.screenHeight - c.shipHeight - 2 * c.alienHeight && a.Top() >= c.alienHeight
  {
    MulNonNeg(2 * c.alienWidth, n);
    MulNonNeg(2 * c.alienHeight, row);
    MulMono(2 * c.alienWidth, n + 1, AliensPerRow(c));
    MulMono(2 * c.alienHeight, row + 1, Rows(c));
  }

  /** _change_fleet_direction's drop: every alien moves down by `drop`. */
  function Dropped(aliens: seq<Rect>, drop: int): (r: seq<Rect>)
    ensures |r| == |aliens|
    ensures forall i :: 0 <= i < |r| ==> r[i] == aliens[i].Moved(0, drop)
  {
    seq(|aliens|, i requires 0 <= i < |aliens| => aliens[i].Moved(0, drop))
  }

  /** The group update of the aliens: every alien marches one step. */
  function MarchedAll(c: Config, direction: int, aliens: seq<Rect>): (r: seq<Rect>)
    ensures |r| == |aliens|
    ensures forall i :: 0 <= i < |r| ==> r[i] == Marched(c, direction, aliens[i])
  {
    seq(|aliens|, i requires 0 <= i < |aliens| => Marched(c, direction, aliens[i]))
  }

  /** Some alien reports an edge (the test of _check_fleet_edges). */
  predicate SomeAtEdge(c: Config, aliens: seq<Rect>) {
    exists k :: 0 <= k < |aliens| && AtEdge(c, aliens[k])
  }

  /** An alien's bottom has reached the screen's bottom. */
  predicate AtBottom(c: Config, a: Rect) {
    a.Bottom() >= c.screenHeight
  }

  /** Some alien has reached the bottom (the test of _check_aliens_bottom). */
  predicate SomeAtBottom(c: Config, aliens: seq<Rect>) {
    exists k :: 0 <= k < |aliens| && AtBottom(c, aliens[k])
  }

  /** A new fleet is at no edge, has no alien at the bottom and does not touch
      the ship, wherever the ship is. */
  lemma NewFleetQuiet(c: Config, shipX: int)
    requires c.Valid()
    ensures !SomeAtEdge(c, NewFleet(c)) && !SomeAtBottom(c, NewFleet(c))
    ensures !AnyOverlap(ShipRect(c, shipX), NewFleet(c))
  {
    var f := NewFleet(c);
    NewFleetInside(c);
    forall k | 0 <= k < |f|
      ensures !AtEdge(c, f[k]) && !AtBottom(c, f[k]) && !Overlaps(ShipRect(c, shipX), f[k])
    {
      SeparatedDoNotOverlap(ShipRect(c, shipX), f[k]);
    }
  }
}

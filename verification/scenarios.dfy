/** The concrete scenarios of the repository's test suite, restated as
    lemmas about the model. */
module Scenarios {
  import opened Cells
  import opened Coordinates
  import opened Grids
  import opened Generation

  /** The position `(dx, dy)` away from `o`. The grid scenarios below are
      stated around an arbitrary origin `o`; the tests' own coordinates are
      the case `o == Position(0, 0)`. */
  function At(o: Position, dx: int, dy: int): Position {
    Position(o.x + dx, o.y + dy)
  }

  /** Three `add_cell` calls along the column `x` of the fixture, at y = 0, 1, 2. */
  function AddColumn(g: Grid, o: Position, x: int, c0: Cell, c1: Cell, c2: Cell): Grid {
    AddCell(AddCell(AddCell(g, At(o, x, 0), c0), At(o, x, 1), c1), At(o, x, 2), c2)
  }

  lemma AddColumnCells(g: Grid, o: Position, x: int, c0: Cell, c1: Cell, c2: Cell)
    ensures AddColumn(g, o, x, c0, c1, c2).cells == g.cells[At(o, x, 0) := c0][At(o, x, 1) := c1][At(o, x, 2) := c2]
  {
    var g1 := AddCell(g, At(o, x, 0), c0);
    var g2 := AddCell(g1, At(o, x, 1), c1);
    assert g1.cells == g.cells[At(o, x, 0) := c0];
    assert g2.cells == g1.cells[At(o, x, 1) := c1];
    assert AddCell(g2, At(o, x, 2), c2).cells == g2.cells[At(o, x, 2) := c2];
  }

  /** The 3x3 fixture, seeded in the same order as the test's `before`
      block: live at (0,0) (0,1) (0,2) (1,1) (2,0) (2,2), dead stored at
      (1,0) (1,2) (2,1). */
  function Fixture(o: Position): Grid {
    var g := AddColumn(Empty, o, 0, Live, Live, Live);
    var g := AddColumn(g, o, 1, Dead, Live, Dead);
    AddColumn(g, o, 2, Live, Dead, Live)
  }

  /** The fixture as drawn in the test's comment, one hash entry per square. */
  function FixtureDrawn(o: Position): Grid {
    Grid(map[
      At(o, 0, 0) := Live, At(o, 0, 1) := Live, At(o, 0, 2) := Live,
      At(o, 1, 0) := Dead, At(o, 1, 1) := Live, At(o, 1, 2) := Dead,
      At(o, 2, 0) := Live, At(o, 2, 1) := Dead, At(o, 2, 2) := Live])
  }

  /** Seeding the fixture cell by cell builds the grid drawn in the test. */
  lemma FixtureSeeded(o: Position)
    ensures Fixture(o) == FixtureDrawn(o)
  {
    var g0 := AddColumn(Empty, o, 0, Live, Live, Live);
    var g1 := AddColumn(g0, o, 1, Dead, Live, Dead);
    AddColumnCells(Empty, o, 0, Live, Live, Live);
    AddColumnCells(g0, o, 1, Dead, Live, Dead);
    AddColumnCells(g1, o, 2, Live, Dead, Live);
    assert Fixture(o).cells == FixtureDrawn(o).cells;
  }

  /** The test's check of the seeded fixture, square by square. */
  lemma FixtureCells(o: Position)
    ensures Alive(CellAt(Fixture(o), At(o, 0, 0))) && Alive(CellAt(Fixture(o), At(o, 0, 1)))
    ensures Alive(CellAt(Fixture(o), At(o, 0, 2))) && !Alive(CellAt(Fixture(o), At(o, 1, 0)))
    ensures Alive(CellAt(Fixture(o), At(o, 1, 1))) && !Alive(CellAt(Fixture(o), At(o, 1, 2)))
    ensures Alive(CellAt(Fixture(o), At(o, 2, 0))) && !Alive(CellAt(Fixture(o), At(o, 2, 1)))
    ensures Alive(CellAt(Fixture(o), At(o, 2, 2)))
  {
    FixtureSeeded(o);
  }

  /* The live-neighbor count at each square of the fixture, one square per
     lemma so that each proof stays small. */

  lemma FixtureCount00(o: Position)
    ensures LiveNeighborsCountFor(FixtureDrawn(o), At(o, 0, 0)) == 2
  {
    LiveNeighborsCountUnrolled(FixtureDrawn(o), At(o, 0, 0));
  }

  lemma FixtureCount01(o: Position)
    ensures LiveNeighborsCountFor(FixtureDrawn(o), At(o, 0, 1)) == 3
  {
    LiveNeighborsCountUnrolled(FixtureDrawn(o), At(o, 0, 1));
  }

  lemma FixtureCount02(o: Position)
    ensures LiveNeighborsCountFor(FixtureDrawn(o), At(o, 0, 2)) == 2
  {
    LiveNeighborsCountUnrolled(FixtureDrawn(o), At(o, 0, 2));
  }

  lemma FixtureCount10(o: Position)
    ensures LiveNeighborsCountFor(FixtureDrawn(o), At(o, 1, 0)) == 4
  {
    LiveNeighborsCountUnrolled(FixtureDrawn(o), At(o, 1, 0));
  }

  lemma FixtureCount11(o: Position)
    ensures LiveNeighborsCountFor(FixtureDrawn(o), At(o, 1, 1)) == 5
  {
    LiveNeighborsCountUnrolled(FixtureDrawn(o), At(o, 1, 1));
  }

  lemma FixtureCount12(o: Position)
    ensures LiveNeighborsCountFor(FixtureDrawn(o), At(o, 1, 2)) == 4
  {
    LiveNeighborsCountUnrolled(FixtureDrawn(o), At(o, 1, 2));
  }

  lemma FixtureCount20(o: Position)
    ensures LiveNeighborsCountFor(FixtureDrawn(o), At(o, 2, 0)) == 1
  {
    LiveNeighborsCountUnrolled(FixtureDrawn(o), At(o, 2, 0));
  }

  lemma FixtureCount21(o: Position)
    ensures LiveNeighborsCountFor(FixtureDrawn(o), At(o, 2, 1)) == 3
  {
    LiveNeighborsCountUnrolled(FixtureDrawn(o), At(o, 2, 1));
  }

  lemma FixtureCount22(o: Position)
    ensures LiveNeighborsCountFor(FixtureDrawn(o), At(o, 2, 2)) == 1
  {
    LiveNeighborsCountUnrolled(FixtureDrawn(o), At(o, 2, 2));
  }

  /** One step of the fixture: the top row survives, the dead cell stored at
      (2,1) is born, and every other square is dead. */
  lemma FixtureStep(o: Position)
    ensures Alive(CellAt(NextGrid(Fixture(o)), At(o, 0, 0)))
    ensures Alive(CellAt(NextGrid(Fixture(o)), At(o, 0, 1)))
    ensures Alive(CellAt(NextGrid(Fixture(o)), At(o, 0, 2)))
    ensures !Alive(CellAt(NextGrid(Fixture(o)), At(o, 1, 0)))
    ensures !Alive(CellAt(NextGrid(Fixture(o)), At(o, 1, 1)))
    ensures !Alive(CellAt(NextGrid(Fixture(o)), At(o, 1, 2)))
    ensures !Alive(CellAt(NextGrid(Fixture(o)), At(o, 2, 0)))
    ensures Alive(CellAt(NextGrid(Fixture(o)), At(o, 2, 1)))
    ensures !Alive(CellAt(NextGrid(Fixture(o)), At(o, 2, 2)))
  {
    FixtureSeeded(o);
    FixtureNext00(o);
    FixtureNext01(o);
    FixtureNext02(o);
    FixtureNext10(o);
    FixtureNext11(o);
    FixtureNext12(o);
    FixtureNext20(o);
    FixtureNext21(o);
    FixtureNext22(o);
  }

  /* The state of each square of the drawn fixture after one step. */

  lemma FixtureNext00(o: Position)
    ensures Alive(CellAt(NextGrid(FixtureDrawn(o)), At(o, 0, 0)))
  {
    FixtureCount00(o);
    NextGridCell(FixtureDrawn(o), At(o, 0, 0));
  }

  lemma FixtureNext01(o: Position)
    ensures Alive(CellAt(NextGrid(FixtureDrawn(o)), At(o, 0, 1)))
  {
    FixtureCount01(o);
    NextGridCell(FixtureDrawn(o), At(o, 0, 1));
  }

  lemma FixtureNext02(o: Position)
    ensures Alive(CellAt(NextGrid(FixtureDrawn(o)), At(o, 0, 2)))
  {
    FixtureCount02(o);
    NextGridCell(FixtureDrawn(o), At(o, 0, 2));
  }

  lemma FixtureNext10(o: Position)
    ensures !Alive(CellAt(NextGrid(FixtureDrawn(o)), At(o, 1, 0)))
  {
    FixtureCount10(o);
    NextGridCell(FixtureDrawn(o), At(o, 1, 0));
  }

  lemma FixtureNext11(o: Position)
    ensures !Alive(CellAt(NextGrid(FixtureDrawn(o)), At(o, 1, 1)))
  {
    FixtureCount11(o);
    NextGridCell(FixtureDrawn(o), At(o, 1, 1));
  }

  lemma FixtureNext12(o: Position)
    ensures !Alive(CellAt(NextGrid(FixtureDrawn(o)), At(o, 1, 2)))
  {
    FixtureCount12(o);
    NextGridCell(FixtureDrawn(o), At(o, 1, 2));
  }

  lemma FixtureNext20(o: Position)
    ensures !Alive(CellAt(NextGrid(FixtureDrawn(o)), At(o, 2, 0)))
  {
    FixtureCount20(o);
    NextGridCell(FixtureDrawn(o), At(o, 2, 0));
  }

  lemma FixtureNext21(o: Position)
    ensures Alive(CellAt(NextGrid(FixtureDrawn(o)), At(o, 2, 1)))
  {
    FixtureCount21(o);
    NextGridCell(FixtureDrawn(o), At(o, 2, 1));
  }

  lemma FixtureNext22(o: Position)
    ensures !Alive(CellAt(NextGrid(FixtureDrawn(o)), At(o, 2, 2)))
  {
    FixtureCount22(o);
    NextGridCell(FixtureDrawn(o), At(o, 2, 2));
  }

  /** Three live cells in an L: (0,0), (1,0) and (0,1), added in that order. */
  function Corner(o: Position): Grid {
    AddCell(AddCell(AddCell(Empty, At(o, 0, 0), Live), At(o, 1, 0), Live), At(o, 0, 1), Live)
  }

  /** The L as one hash. */
  function CornerDrawn(o: Position): Grid {
    Grid(map[At(o, 0, 0) := Live, At(o, 1, 0) := Live, At(o, 0, 1) := Live])
  }

  lemma CornerSeeded(o: Position)
    ensures Corner(o) == CornerDrawn(o)
    ensures Positions(Corner(o)) == {At(o, 0, 0), At(o, 1, 0), At(o, 0, 1)}
    ensures LiveCellsCount(Corner(o)) == 3
  {
  }

  /** The corner cell has two live neighbors, itself not counted. */
  lemma CornerCount00(o: Position)
    ensures LiveNeighborsCountFor(CornerDrawn(o), At(o, 0, 0)) == 2
  {
    LiveNeighborsCountUnrolled(CornerDrawn(o), At(o, 0, 0));
  }

  lemma CornerCount10(o: Position)
    ensures LiveNeighborsCountFor(CornerDrawn(o), At(o, 1, 0)) == 2
  {
    LiveNeighborsCountUnrolled(CornerDrawn(o), At(o, 1, 0));
  }

  lemma CornerCount01(o: Position)
    ensures LiveNeighborsCountFor(CornerDrawn(o), At(o, 0, 1)) == 2
  {
    LiveNeighborsCountUnrolled(CornerDrawn(o), At(o, 0, 1));
  }

  lemma CornerCount11(o: Position)
    ensures LiveNeighborsCountFor(CornerDrawn(o), At(o, 1, 1)) == 3
  {
    LiveNeighborsCountUnrolled(CornerDrawn(o), At(o, 1, 1));
  }

  /** The test's counting scenario: after the three `add_cell` calls the
      corner cell has two live neighbors. */
  lemma CornerNeighbors(o: Position)
    ensures LiveNeighborsCountFor(Corner(o), At(o, 0, 0)) == 2
  {
    CornerSeeded(o);
    CornerCount00(o);
  }

  /** The never-stored (1,1) has three live neighbors, so `mutate_cell_at`
      gives a live cell there, yet the step leaves it dead: no cell is born
      outside the stored positions. */
  lemma CornerNoBirth(o: Position)
    ensures LiveNeighborsCountFor(Corner(o), At(o, 1, 1)) == 3
    ensures Alive(MutateCellAt(Corner(o), At(o, 1, 1)))
    ensures !Alive(CellAt(NextGrid(Corner(o)), At(o, 1, 1)))
  {
    CornerSeeded(o);
    CornerCount11(o);
    NoBirthAtUnstored(CornerDrawn(o), At(o, 1, 1));
  }

  /* Each stored cell of the L has two live neighbors and survives. */

  lemma CornerSurvives00(o: Position)
    ensures Alive(CellAt(NextGrid(CornerDrawn(o)), At(o, 0, 0)))
  {
    var g := CornerDrawn(o);
    CornerCount00(o);
    NextGridCell(g, At(o, 0, 0));
  }

  lemma CornerSurvives10(o: Position)
    ensures Alive(CellAt(NextGrid(CornerDrawn(o)), At(o, 1, 0)))
  {
    var g := CornerDrawn(o);
    CornerCount10(o);
    NextGridCell(g, At(o, 1, 0));
  }

  lemma CornerSurvives01(o: Position)
    ensures Alive(CellAt(NextGrid(CornerDrawn(o)), At(o, 0, 1)))
  {
    var g := CornerDrawn(o);
    CornerCount01(o);
    NextGridCell(g, At(o, 0, 1));
  }

  /** The L is a still life under this model: its three cells survive, and
      the birth at (1,1) never happens. */
  lemma CornerStill(o: Position)
    ensures NextGrid(Corner(o)) == Corner(o)
  {
    CornerSeeded(o);
    CornerDrawnStill(o);
  }

  lemma CornerDrawnStill(o: Position)
    ensures NextGrid(CornerDrawn(o)) == CornerDrawn(o)
  {
    var g := CornerDrawn(o);
    CornerSeeded(o);
    CornerSurvives00(o);
    CornerSurvives10(o);
    CornerSurvives01(o);
    SameOnThree(NextGrid(g), g, At(o, 0, 0), At(o, 1, 0), At(o, 0, 1));
  }

  /** Two grids over the same three positions, with the same cell at each,
      are equal. */
  lemma SameOnThree(g: Grid, h: Grid, a: Position, b: Position, c: Position)
    requires Positions(g) == Positions(h) == {a, b, c}
    requires CellAt(g, a) == CellAt(h, a)
    requires CellAt(g, b) == CellAt(h, b)
    requires CellAt(g, c) == CellAt(h, c)
    ensures g == h
  {
    SameGrid(g, h);
  }

  /** The grid tests on an empty grid: the count, lookup after insertion,
      and the dead answer for an empty position. */
  lemma GridBasics()
    ensures LiveCellsCount(Empty) == 0
    ensures LiveCellsCount(AddCell(Empty, Position(0, 0), Live)) == 1
    ensures CellAt(AddCell(Empty, Position(0, 0), Live), Position(0, 0)) == Live
    ensures !Alive(CellAt(Empty, Position(0, 0)))
  {
  }

  /** The eight neighbors the test lists, around any origin. */
  lemma OriginNeighbors(o: Position)
    ensures At(o, 1, 1) in AdjacentPositionsOf(o)
    ensures At(o, 1, 0) in AdjacentPositionsOf(o)
    ensures At(o, 1, -1) in AdjacentPositionsOf(o)
    ensures At(o, 0, 1) in AdjacentPositionsOf(o)
    ensures At(o, 0, -1) in AdjacentPositionsOf(o)
    ensures At(o, -1, 1) in AdjacentPositionsOf(o)
    ensures At(o, -1, 0) in AdjacentPositionsOf(o)
    ensures At(o, -1, -1) in AdjacentPositionsOf(o)
  {
  }

  /** Positions compare by coordinates, and the accessors give back the
      constructor's arguments. */
  lemma PositionBasics()
    ensures Position(1, 2).x == 1 && Position(1, 2).y == 2
    ensures Position(0, 0) == Position(0, 0)
    ensures Position(1, 0) != Position(0, 0)
    ensures Position(0, 1) != Position(0, 0)
  {
  }

  /** The cell tests: survival at 2 and 3, death below 2 and above 3, birth
      at 3 only. */
  lemma CellBasics()
    ensures Alive(Live) && !Alive(Dead)
    ensures Mutate(Live, 2) == Live && Mutate(Live, 3) == Live
    ensures Mutate(Live, 0) == Dead && Mutate(Live, 1) == Dead
    ensures Mutate(Live, 4) == Dead && Mutate(Live, 10) == Dead
    ensures Mutate(Dead, 3) == Live
    ensures Mutate(Dead, 0) == Dead && Mutate(Dead, 1) == Dead && Mutate(Dead, 2) == Dead
    ensures Mutate(Dead, 4) == Dead && Mutate(Dead, 10) == Dead
  {
  }
}

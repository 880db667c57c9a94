/** One generation step: `Generation#next_grid`. */
module Generation {
  import opened Cells
  import opened Coordinates
  import opened Grids

  /** The next grid: the source's stored positions, each holding the result
      of `mutate_cell_at` on the source. Positions that were never stored
      stay unstored, and so dead, even where Conway's rule would have a cell
      born. The source is a value and is left as it was. */
  function NextGrid(source: Grid): (next: Grid)
    ensures Positions(next) == Positions(source)
    ensures forall p {:trigger CellAt(next, p)} :: p in Positions(source) ==> CellAt(next, p) == MutateCellAt(source, p)
    ensures forall p {:trigger CellAt(next, p)} :: p !in Positions(source) ==> CellAt(next, p) == Dead
  {
    var next := Grid(map p | p in source.cells :: MutateCellAt(source, p));
    assert next.cells.Keys == source.cells.Keys;
    next
  }

  /** The loop of `next_grid`, with the per-position computation `mutate`
      passed in: start from an empty grid and `add_cell` `mutate(p)` for each
      position `p` of `keys` in turn. The visiting order is left open (any
      position not yet visited), so the result does not depend on the order
      in which the hash enumerates its keys. */
  method InsertEach(keys: set<Position>, mutate: Position -> Cell) returns (next: Grid)
    ensures Positions(next) == keys
    ensures forall p :: p in keys ==> CellAt(next, p) == mutate(p)
  {
    next := Empty;
    var pending := keys;
    while pending != {}
      invariant pending <= keys
      invariant Positions(next) == keys - pending
      invariant forall p {:trigger next.cells[p]} :: p in next.cells ==> next.cells[p] == mutate(p)
      decreases pending
    {
      var p :| p in pending;
      next := AddCell(next, p, mutate(p));
      pending := pending - {p};
    }
  }

  /** `next_grid` as the Ruby code computes it: the insertion loop over the
      source's positions with `mutate_cell_at` of the source. */
  method NextGridByInsertion(source: Grid) returns (next: Grid)
    ensures next == NextGrid(source)
  {
    next := InsertEach(Positions(source), p => MutateCellAt(source, p));
    SameGrid(next, NextGrid(source));
  }

  /** Two grids with the same positions and the same cell at each are equal. */
  lemma SameGrid(g: Grid, h: Grid)
    requires Positions(g) == Positions(h)
    requires forall p :: p in Positions(g) ==> CellAt(g, p) == CellAt(h, p)
    ensures g == h
  {
    assert g.cells == h.cells;
  }

  /** The step stores exactly as many cells as the source: one per position. */
  lemma NextGridKeepsCount(source: Grid)
    ensures LiveCellsCount(NextGrid(source)) == LiveCellsCount(source)
  {
    assert NextGrid(source).cells.Keys == source.cells.Keys;
  }

  /** The cell the step puts at a stored position, written with the count. */
  lemma NextGridCell(source: Grid, p: Position)
    requires p in Positions(source)
    ensures CellAt(NextGrid(source), p) == Mutate(CellAt(source, p), LiveNeighborsCountFor(source, p))
  {
  }

  /** At each stored position the step applies Conway's B3/S23 rule to the
      source's live neighbors. */
  lemma NextGridRule(source: Grid, p: Position)
    requires p in Positions(source)
    ensures Alive(CellAt(NextGrid(source), p)) <==>
      LiveNeighborsCountFor(source, p) in (if Alive(CellAt(source, p)) then SurvivalCounts else BirthCounts)
    ensures Alive(CellAt(NextGrid(source), p)) <==>
      |LiveNeighbors(source, p)| in (if Alive(CellAt(source, p)) then SurvivalCounts else BirthCounts)
  {
    MutateCellAtRule(source, p);
  }

  /** No birth outside the stored positions: even with exactly three live
      neighbors, a never-stored position is dead after the step, although
      `mutate_cell_at` there gives a live cell. */
  lemma NoBirthAtUnstored(source: Grid, p: Position)
    requires p !in Positions(source)
    requires LiveNeighborsCountFor(source, p) == 3
    ensures Alive(MutateCellAt(source, p))
    ensures !Alive(CellAt(NextGrid(source), p))
  {
    MutateCellAtRule(source, p);
  }

  /** Stepping an empty grid gives an empty grid. */
  lemma EmptyStep()
    ensures NextGrid(Empty) == Empty
    ensures LiveCellsCount(NextGrid(Empty)) == 0
  {
    assert NextGrid(Empty).cells.Keys == {};
  }
}

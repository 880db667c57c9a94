# Conway's Game of Life on a sparse grid — a Dafny model

This project models `gol.rb`, a small Ruby implementation of Conway's Game of
Life, and proves properties of the model. It covers the two cell classes
(`DeadCell` and `LiveCell`, with `alive?` and `mutate`) and `Position` with its
coordinate equality. It also covers the `Grid` class: `cell_at`, `add_cell`,
`live_cells_count`, `positions`, `adjacent_positions_of`,
`live_neighbors_count_for` and `mutate_cell_at`. Finally it covers
`Generation#next_grid`, which computes one step.

The model is functional. The pieces are:

- A cell is `Live` or `Dead`.
- A position is an integer pair.
- A grid is a `map<Position, Cell>`. A position that is not stored reads as dead.
- `add_cell` updates the grid's hash in place. The model's `AddCell` instead
  returns the updated grid as a new value.
- `next_grid` mutates only the new grid it is building, never the source. In
  the model the source is a value that the step cannot change, and the
  building loop is the method `InsertEach`.

The modules follow the source's classes:

| file | module | Ruby |
|---|---|---|
| `cells.dfy` | `Cells` | `DeadCell`, `LiveCell` |
| `coordinates.dfy` | `Coordinates` | `Position` |
| `grids.dfy` | `Grids` | `Grid` |
| `generation.dfy` | `Generation` | `Generation` |
| `scenarios.dfy` | `Scenarios` | the `describe` blocks at the end of `gol.rb`, restated as lemmas |

`adjacent_positions_of` is modelled the way Ruby builds it:

- a 3×3 nested `map` over `(-1..1)`, x outer and y inner, with `nil` at the centre;
- then `flatten`;
- then `compact`.

`live_neighbors_count_for` is modelled as the `inject(0)` fold over that list.

`next_grid` has two forms:

- `NextGrid`, a map comprehension;
- `InsertEach`, a method that mirrors the Ruby loop of `add_cell` calls, visiting the keys in any order.

`NextGridByInsertion` proves that both forms give the same grid.

The step keeps a quirk of the source. Only positions already stored in the
grid are computed. A position that was never stored is never born, even when
it has exactly three live neighbors. `NoBirthAtUnstored` states this in
general, and `CornerNoBirth` shows it on the test's L-shaped grid.

The grid scenarios are stated around an arbitrary origin `o`. A square written
`(dx, dy)` in a test is `At(o, dx, dy)` in the model. The tests' own
coordinates are the case `o == Position(0, 0)`.

## Model

| member | source | states |
|---|---|---|
| Cells.Mutate | gol.rb:10-30 | The next cell is alive exactly when the count is 2 or 3 for a live cell, or exactly 3 for a dead cell. Any count below 2 or above 3 gives a dead cell. With cells as values, returning `self` and returning a new cell of the same kind cannot be told apart. |
| Cells.LiveCellRule | gol.rb:24-30 | `LiveCell#mutate` stays live at 2 or 3 live neighbors and becomes a `DeadCell` at every other count. |
| Cells.DeadCellRule | gol.rb:10-16 | `DeadCell#mutate` becomes live at exactly 3 live neighbors and stays dead at every other count. |
| Coordinates.EqualByCoordinates | gol.rb:41-44 | Two positions are equal exactly when both their x and y coordinates agree. |
| Grids.CellAt | gol.rb:62-65 | `cell_at` returns the stored cell when the position is stored, and a dead cell otherwise. |
| Grids.AddCell | gol.rb:67-69 | After `add_cell(p, c)`, `cell_at(p)` is `c`. Every other position reads as before. The stored positions are the old ones plus `p`. |
| Grids.AddCellCount | gol.rb:67-73 | `live_cells_count` grows by one only when `p` was not stored before. Overwriting keeps the count, whatever state the stored cells are in. |
| Grids.AddCellOverwrites | gol.rb:67-69 | A second `add_cell` at the same position replaces the first. With equal cells, this makes `add_cell` idempotent. |
| Grids.AddLive | gol.rb:67-69 | `add_cell(p)` with the default argument makes `p` alive and leaves every other position as it was. The stored positions are the old ones plus `p`. |
| Grids.SeedCount | gol.rb:67-73 | After a sequence of `add_cell` calls on an empty grid, the stored positions are exactly the positions added. `live_cells_count` is the number of distinct positions added, including those that hold dead cells. |
| Grids.SeedUnaddedDead | gol.rb:62-69 | A position no `add_cell` call named reads as dead. |
| Grids.AdjacentPositionsListed | gol.rb:93-103 | The nested map, `flatten` and `compact` yield the eight neighbors in Ruby's order: x offset outer, y offset inner, centre dropped. |
| Grids.AdjacentPositionsOf | gol.rb:93-103 | `adjacent_positions_of(p)` has exactly 8 entries, all distinct, and does not contain `p`. A position is in it exactly when it is adjacent to `p`; this holds for negative coordinates too. |
| Grids.CountAliveIsCardinality | gol.rb:82-84 | Over distinct positions, the `inject` fold counts exactly the positions whose cell is alive. |
| Grids.LiveNeighborsCountUnrolled | gol.rb:81-85 | The live-neighbor count is the sum of one 0/1 term per neighbor, over the eight neighbors in visiting order. |
| Grids.LiveNeighborsCountFor | gol.rb:81-85 | The live-neighbor count is never more than 8. |
| Grids.LiveNeighborsCountIsCardinality | gol.rb:81-85 | The count equals the size of the set of positions that are adjacent to `p` and hold a live cell. |
| Grids.NeighborCountFrame | gol.rb:81-85 | The count depends only on the cells at the eight adjacent positions. |
| Grids.NeighborCountIgnoresSelf | gol.rb:81-85 | Storing any cell at `p` itself does not change the count at `p`. |
| Grids.MutateCellAtRule | gol.rb:75-79 | `mutate_cell_at(p)` is alive exactly when the B3/S23 rule says so for the cell at `p`. This is stated over the neighbor count and over the set of live adjacent positions. |
| Generation.NextGrid | gol.rb:112-118 | The next grid has exactly the source's positions. Each one holds `mutate_cell_at` of the source at that position. Every other position reads as dead. |
| Generation.InsertEach | gol.rb:113-117 | Starting from an empty grid and calling `add_cell(p, f(p))` once per key, in any order, yields a grid over exactly those keys with `f(p)` at each. |
| Generation.NextGridByInsertion | gol.rb:112-118 | The Ruby loop of `add_cell` calls into a fresh grid yields the same grid as `NextGrid`. The source grid is a value and is unchanged. |
| Generation.NextGridKeepsCount | gol.rb:112-118 | The next grid stores as many entries as the source. |
| Generation.NextGridCell | gol.rb:112-118 | At a stored position, the next grid holds the source's cell there, mutated by its live-neighbor count. |
| Generation.NextGridRule | gol.rb:112-118 | At each stored position, the next cell is alive exactly as the B3/S23 rule prescribes. This is stated over the count and over the set of live neighbors. |
| Generation.NoBirthAtUnstored | gol.rb:112-118 | At a never-stored position with exactly three live neighbors, `mutate_cell_at` gives a live cell. The next grid is still dead there: no cell is born outside the stored positions. |
| Generation.EmptyStep | gol.rb:112-118 | Stepping an empty grid gives an empty grid. |
| Scenarios.FixtureSeeded | gol.rb:137-146 | The nine `add_cell` calls of the test's setup build the 3×3 grid drawn in its comment. |
| Scenarios.FixtureCells | gol.rb:156-164 | In the seeded fixture, the squares (0,0) (0,1) (0,2) (1,1) (2,0) (2,2) are alive and (1,0) (1,2) (2,1) are dead. |
| Scenarios.FixtureStep | gol.rb:166-184 | After one step of the fixture, (0,0) (0,1) (0,2) and (2,1) are alive and the other five squares are dead. |
| Scenarios.GridBasics | gol.rb:196-217 | An empty grid counts 0 and counts 1 after one `add_cell`. `cell_at` returns the added cell. An empty position is not alive. |
| Scenarios.CornerNeighbors | gol.rb:219-225 | With live cells at (0,0), (1,0) and (0,1), the corner (0,0) has two live neighbors. |
| Scenarios.OriginNeighbors | gol.rb:227-239 | All eight positions around the origin are among its adjacent positions. |
| Scenarios.CornerNoBirth | gol.rb:241-247 | In the same L, the never-stored (1,1) has three live neighbors, so `mutate_cell_at` there is alive. The step still leaves (1,1) dead. |
| Scenarios.CornerStill | gol.rb:112-118 | The L is unchanged by a step: its three cells survive with two live neighbors each, and the birth at (1,1) never happens. |
| Scenarios.PositionBasics | gol.rb:258-267 | The x and y accessors return the constructor's arguments. Positions compare by coordinates. |
| Scenarios.CellBasics | gol.rb:277-321 | `alive?` is true for a live cell and false for a dead one. Each count named by the cell tests gives the expected kind of cell. |

## Left out

- The minitest framework and its `describe`/`it` scaffolding (gol.rb:2-3, 123-323) are not modelled. The scenarios are restated as lemmas.
- Ruby object identity is not modelled: a cell is a value. Two places rely on identity. `must_equal cell` (gol.rb:210) becomes equality of values. Whether `mutate` returns `self` or a new cell of the same kind cannot be told apart with value cells, so the model states only the resulting state.
- `Position#hash` and its private visibility (gol.rb:46-50) are not modelled. Datatype equality is what keys the map.
- The `ArgumentError` raised by `Position.new` with no arguments (gol.rb:255-257) is not modelled. It is Ruby's arity check, and Dafny's constructor always takes both coordinates.
- Grids.AddCell: the in-place update of `@cells` becomes a functional update that returns the new grid. Ruby's return value (the stored cell) is dropped, because no caller uses it.
- Grids.Positions: returns a set. The insertion order of the Ruby array is dropped, because Ruby Hashes keep insertion order but nothing in the core depends on it.
- Generation.InsertEach: visits the keys in an arbitrary order rather than the Hash's insertion order. The result is proved independent of that order.
- Ruby would let a caller store a non-cell value, such as `add_cell(p, nil)`. The `|| DeadCell.new` fallback at gol.rb:64 would then read it as dead. The model's map holds only cells, so this case does not arise.
- Grids.LiveCellsCount and Grids.Positions are plain definitions without contracts of their own. Their behaviour is stated in the contracts of `AddCell`, `AddCellCount`, `SeedCount`, `NextGrid` and `NextGridKeepsCount`.
- Cells.Alive (`alive?`, gol.rb:6-8, 20-22) is a plain predicate without a contract of its own. `Mutate`, `LiveCellRule`, `DeadCellRule` and `CellBasics` state its value on both kinds of cell.
- Grids.CountAlive (the `inject` fold, gol.rb:82-84) is a plain definition without a contract of its own. `CountAliveIsCardinality` and `LiveNeighborsCountUnrolled` state what it computes.
- Grids.Empty (`Grid.new`, gol.rb:58-60) is a constant without a contract of its own. `GridBasics`, `SeedCount` and `EmptyStep` state its behaviour.
- Grids.MutateCellAt: carries no `ensures` of its own. The B3/S23 rule it applies is proved in `Grids.MutateCellAtRule`.
- The fixture scenarios do not restate that the seeded fixture stores nine entries.

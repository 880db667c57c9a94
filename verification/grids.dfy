/** The sparse grid: a finite map from positions to cells, where every
    position that is not stored counts as dead. */
module Grids {
  import opened Cells
  import opened Coordinates

  datatype Option<T> = None | Some(value: T)

  /** The Ruby `Grid` wraps one hash, `cells`. */
  datatype Grid = Grid(cells: map<Position, Cell>)

  /** `Grid.new`: no position stored. */
  const Empty: Grid := Grid(map[])

  /** `cell_at`: the stored cell, or a dead cell when nothing is stored. */
  function CellAt(g: Grid, p: Position): (c: Cell)
    ensures p in g.cells ==> c == g.cells[p]
    ensures p !in g.cells ==> c == Dead
  {
    if p in g.cells then g.cells[p] else Dead
  }

  /** `add_cell(position, cell)`: store `c` at `p`, overwriting whatever
      was there. Ruby's default argument (a new live cell) is `AddLive`. */
  function AddCell(g: Grid, p: Position, c: Cell): (r: Grid)
    ensures CellAt(r, p) == c
    ensures forall q :: q != p ==> CellAt(r, q) == CellAt(g, q)
    ensures Positions(r) == Positions(g) + {p}
  {
    var r := Grid(g.cells[p := c]);
    assert r.cells.Keys == g.cells.Keys + {p};
    r
  }

  /** `live_cells_count` after `add_cell`: one more only when the position
      is new; overwriting keeps the count, whatever the cells' states. */
  lemma AddCellCount(g: Grid, p: Position, c: Cell)
    ensures LiveCellsCount(AddCell(g, p, c)) == LiveCellsCount(g) + (if p in Positions(g) then 0 else 1)
  {
  }

  /** A second `add_cell` at the same position replaces the first. */
  lemma AddCellOverwrites(g: Grid, p: Position, c: Cell, d: Cell)
    ensures AddCell(AddCell(g, p, c), p, d) == AddCell(g, p, d)
  {
    assert g.cells[p := c][p := d] == g.cells[p := d];
  }

  /** `add_cell(position)` with the default argument. */
  function AddLive(g: Grid, p: Position): (r: Grid)
    ensures Alive(CellAt(r, p))
    ensures forall q :: q != p ==> CellAt(r, q) == CellAt(g, q)
    ensures Positions(r) == Positions(g) + {p}
  {
    AddCell(g, p, Live)
  }

  /** `positions`: the stored keys. The Ruby array's insertion order is not
      modelled; the keys form a set. */
  function Positions(g: Grid): set<Position> {
    g.cells.Keys
  }

  /** `live_cells_count`: the number of STORED entries, which includes dead
      cells stored explicitly, so it is not the number of live cells. */
  function LiveCellsCount(g: Grid): nat {
    |g.cells|
  }

  /** A grid built the way the tests build one: start empty and
      call `add_cell` once per entry of `adds`, in order. */
  function Seed(adds: seq<(Position, Cell)>): Grid
  {
    if adds == [] then Empty
    else
      var last := adds[|adds| - 1];
      AddCell(Seed(adds[..|adds| - 1]), last.0, last.1)
  }

  /** The positions named by `adds`. */
  function AddedPositions(adds: seq<(Position, Cell)>): set<Position> {
    set i | 0 <= i < |adds| :: adds[i].0
  }

  /** The stored positions are those added, and the count is the number of
      DISTINCT positions added: overwriting a position does not count twice. */
  lemma {:induction false} SeedCount(adds: seq<(Position, Cell)>)
    ensures Positions(Seed(adds)) == AddedPositions(adds)
    ensures LiveCellsCount(Seed(adds)) == |AddedPositions(adds)|
  {
    if adds != [] {
      var prefix := adds[..|adds| - 1];
      SeedCount(prefix);
      assert AddedPositions(adds) == AddedPositions(prefix) + {adds[|adds| - 1].0} by {
        forall q | q in AddedPositions(adds)
          ensures q in AddedPositions(prefix) + {adds[|adds| - 1].0}
        {
          var i :| 0 <= i < |adds| && adds[i].0 == q;
          if i < |adds| - 1 {
            assert prefix[i] == adds[i];
          }
        }
        forall q | q in AddedPositions(prefix)
          ensures q in AddedPositions(adds)
        {
          var i :| 0 <= i < |prefix| && prefix[i].0 == q;
          assert adds[i] == prefix[i];
        }
      }
    }
  }

  /** A position never added is dead in the seeded grid. */
  lemma {:induction false} SeedUnaddedDead(adds: seq<(Position, Cell)>, q: Position)
    requires q !in AddedPositions(adds)
    ensures CellAt(Seed(adds), q) == Dead
  {
    if adds != [] {
      var prefix := adds[..|adds| - 1];
      forall i | 0 <= i < |prefix|
        ensures prefix[i].0 != q
      {
        assert prefix[i] == adds[i];
      }
      SeedUnaddedDead(prefix, q);
    }
  }

  // ---------------------------------------------------------------------
  // The Moore neighborhood, built as `adjacent_positions_of` builds it.
  // ---------------------------------------------------------------------

  /** The Ruby range `(-1..1)`. */
  const Offsets: seq<int> := [-1, 0, 1]

  /** One entry of the inner block: `nil` for the centre, a position otherwise. */
  function Candidate(p: Position, dx: int, dy: int): Option<Position> {
    if dx == 0 && dy == 0 then None else Some(Position(p.x + dx, p.y + dy))
  }

  /** The inner `map`: the candidates for one x offset, one per y offset. */
  function Row(p: Position, dx: int): seq<Option<Position>> {
    seq(|Offsets|, j requires 0 <= j < |Offsets| => Candidate(p, dx, Offsets[j]))
  }

  /** The outer `map`: one row per x offset. */
  function CandidateRows(p: Position): seq<seq<Option<Position>>> {
    seq(|Offsets|, i requires 0 <= i < |Offsets| => Row(p, Offsets[i]))
  }

  /** `flatten`: the rows concatenated in order. */
  function Flatten<T>(rows: seq<seq<T>>): seq<T>
  {
    if rows == [] then []
    else rows[0] + Flatten(rows[1..])
  }

  /** `compact`: the entries with the `nil`s dropped, order kept. */
  function Compact<T(!new)>(s: seq<Option<T>>): (r: seq<T>)
    ensures |r| <= |s|
  {
    if s == [] then []
    else
      match s[0]
      case None => Compact(s[1..])
      case Some(v) => [v] + Compact(s[1..])
  }

  /** The eight neighbors in the order the Ruby code lists them: x offset
      outermost, y offset innermost, the centre left out. */
  function NeighborList(p: Position): seq<Position> {
    [ Position(p.x - 1, p.y - 1), Position(p.x - 1, p.y), Position(p.x - 1, p.y + 1),
      Position(p.x, p.y - 1),                             Position(p.x, p.y + 1),
      Position(p.x + 1, p.y - 1), Position(p.x + 1, p.y), Position(p.x + 1, p.y + 1) ]
  }

  /** `compact` distributes over concatenation. */
  lemma {:induction false} CompactAppend<T(!new)>(a: seq<Option<T>>, b: seq<Option<T>>)
    ensures Compact(a + b) == Compact(a) + Compact(b)
  {
    if a != [] {
      var ab := a + b;
      assert ab[0] == a[0];
      assert ab[1..] == a[1..] + b;
      CompactAppend(a[1..], b);
      match a[0]
      case None =>
        assert Compact(ab) == Compact(ab[1..]);
      case Some(v) =>
        assert Compact(ab) == [v] + Compact(ab[1..]);
        assert Compact(a) == [v] + Compact(a[1..]);
    } else {
      assert a + b == b;
    }
  }

  /** `compact` of one three-entry row: the entries that are present, in order. */
  lemma CompactRow<T(!new)>(u: Option<T>, v: Option<T>, w: Option<T>)
    ensures Compact([u, v, w]) == Compact([u]) + Compact([v]) + Compact([w])
  {
    CompactAppend([u], [v, w]);
    CompactAppend([v], [w]);
    assert [u] + [v, w] == [u, v, w];
    assert [v] + [w] == [v, w];
  }

  lemma RowListed(p: Position, dx: int)
    ensures Row(p, dx) == [Candidate(p, dx, -1), Candidate(p, dx, 0), Candidate(p, dx, 1)]
  {
  }

  /** `compact` of a single entry. */
  lemma CompactSingle<T(!new)>(u: Option<T>)
    ensures Compact([u]) == if u.Some? then [u.value] else []
  {
    assert [u][1..] == [];
  }

  lemma FlattenedCandidates(p: Position)
    ensures Flatten(CandidateRows(p)) == Row(p, -1) + (Row(p, 0) + Row(p, 1))
  {
    var rows := CandidateRows(p);
    assert rows == [Row(p, -1), Row(p, 0), Row(p, 1)];
    var rest1 := rows[1..];
    var rest2 := rest1[1..];
    assert rest1 == [Row(p, 0), Row(p, 1)];
    assert rest2 == [Row(p, 1)];
    assert rest2[1..] == [];
    assert Flatten(rest2) == Row(p, 1) + Flatten(rest2[1..]);
    assert Flatten(rest1) == Row(p, 0) + Flatten(rest2);
    assert Flatten(rows) == Row(p, -1) + Flatten(rest1);
  }

  /** Each row compacted: the centre row loses its middle entry. */
  lemma RowCompacted(p: Position, dx: int)
    ensures Compact(Row(p, dx)) ==
      if dx == 0 then [Position(p.x, p.y - 1), Position(p.x, p.y + 1)]
      else [Position(p.x + dx, p.y - 1), Position(p.x + dx, p.y), Position(p.x + dx, p.y + 1)]
  {
    RowListed(p, dx);
    CompactRow(Candidate(p, dx, -1), Candidate(p, dx, 0), Candidate(p, dx, 1));
    CompactSingle(Candidate(p, dx, -1));
    CompactSingle(Candidate(p, dx, 0));
    CompactSingle(Candidate(p, dx, 1));
  }

  /** The flatten-and-compact construction yields exactly the listing above. */
  lemma AdjacentPositionsListed(p: Position)
    ensures Compact(Flatten(CandidateRows(p))) == NeighborList(p)
  {
    var left, centre, right := Row(p, -1), Row(p, 0), Row(p, 1);
    FlattenedCandidates(p);
    CompactAppend(left, centre + right);
    CompactAppend(centre, right);
    RowCompacted(p, -1);
    RowCompacted(p, 0);
    RowCompacted(p, 1);
    NeighborListByRows(p);
  }

  lemma NeighborListByRows(p: Position)
    ensures NeighborList(p) ==
      [Position(p.x - 1, p.y - 1), Position(p.x - 1, p.y), Position(p.x - 1, p.y + 1)]
      + ([Position(p.x, p.y - 1), Position(p.x, p.y + 1)]
         + [Position(p.x + 1, p.y - 1), Position(p.x + 1, p.y), Position(p.x + 1, p.y + 1)])
  {
  }

  /** The listing holds exactly the positions adjacent to `p`. */
  lemma NeighborListAdjacent(p: Position)
    ensures forall q :: q in NeighborList(p) <==> Adjacent(p, q)
  {
  }

  /** The listing has no repeats. */
  lemma NeighborListDistinct(p: Position)
    ensures forall i, j :: 0 <= i < j < |NeighborList(p)| ==> NeighborList(p)[i] != NeighborList(p)[j]
  {
  }

  /** `adjacent_positions_of`: exactly 8 distinct positions, each of them
      adjacent to `p`, and every position adjacent to `p` among them. */
  function AdjacentPositionsOf(p: Position): (r: seq<Position>)
    ensures |r| == 8
    ensures forall i, j :: 0 <= i < j < |r| ==> r[i] != r[j]
    ensures forall q :: q in r <==> Adjacent(p, q)
    ensures p !in r
  {
    AdjacentPositionsListed(p);
    NeighborListAdjacent(p);
    NeighborListDistinct(p);
    Compact(Flatten(CandidateRows(p)))
  }

  // ---------------------------------------------------------------------
  // Counting live neighbors.
  // ---------------------------------------------------------------------

  /** The `inject(0)` fold: one more for each position of `ps`, taken in
      order, whose cell is alive. */
  function CountAlive(g: Grid, ps: seq<Position>): (n: nat)
    ensures n <= |ps|
  {
    if ps == [] then 0
    else
      var count := CountAlive(g, ps[..|ps| - 1]);
      if Alive(CellAt(g, ps[|ps| - 1])) then count + 1 else count
  }

  /** 1 when the cell at `q` is alive, 0 otherwise: one step of the fold. */
  function AliveBit(g: Grid, q: Position): nat {
    if Alive(CellAt(g, q)) then 1 else 0
  }

  /** The fold splits over concatenation. */
  lemma {:induction false} CountAliveAppend(g: Grid, a: seq<Position>, b: seq<Position>)
    ensures CountAlive(g, a + b) == CountAlive(g, a) + CountAlive(g, b)
  {
    if b == [] {
      assert a + b == a;
    } else {
      var b' := b[..|b| - 1];
      assert (a + b)[..|a + b| - 1] == a + b';
      assert (a + b)[|a + b| - 1] == b[|b| - 1];
      CountAliveAppend(g, a, b');
    }
  }

  /** The fold over four positions. */
  lemma CountAliveFour(g: Grid, a: Position, b: Position, c: Position, d: Position)
    ensures CountAlive(g, [a, b, c, d]) == AliveBit(g, a) + AliveBit(g, b) + AliveBit(g, c) + AliveBit(g, d)
  {
    assert [a, b, c, d][..3] == [a, b, c];
    assert [a, b, c][..2] == [a, b];
    assert [a, b][..1] == [a];
    assert [a][..0] == [];
    assert CountAlive(g, [a]) == AliveBit(g, a);
    assert CountAlive(g, [a, b]) == CountAlive(g, [a]) + AliveBit(g, b);
    assert CountAlive(g, [a, b, c]) == CountAlive(g, [a, b]) + AliveBit(g, c);
    assert CountAlive(g, [a, b, c, d]) == CountAlive(g, [a, b, c]) + AliveBit(g, d);
  }

  /** The live-neighbor count written out over the eight neighbors, in
      the order the Ruby code visits them. */
  lemma LiveNeighborsCountUnrolled(g: Grid, p: Position)
    ensures LiveNeighborsCountFor(g, p) ==
      AliveBit(g, Position(p.x - 1, p.y - 1)) + AliveBit(g, Position(p.x - 1, p.y)) +
      AliveBit(g, Position(p.x - 1, p.y + 1)) + AliveBit(g, Position(p.x, p.y - 1)) +
      AliveBit(g, Position(p.x, p.y + 1)) + AliveBit(g, Position(p.x + 1, p.y - 1)) +
      AliveBit(g, Position(p.x + 1, p.y)) + AliveBit(g, Position(p.x + 1, p.y + 1))
  {
    AdjacentPositionsListed(p);
    var l := NeighborList(p);
    assert l == [l[0], l[1], l[2], l[3]] + [l[4], l[5], l[6], l[7]];
    CountAliveAppend(g, [l[0], l[1], l[2], l[3]], [l[4], l[5], l[6], l[7]]);
    CountAliveFour(g, l[0], l[1], l[2], l[3]);
    CountAliveFour(g, l[4], l[5], l[6], l[7]);
  }

  /** The positions of `ps` whose cell is alive. */
  ghost function AliveAmong(g: Grid, ps: seq<Position>): set<Position> {
    set q | q in ps && Alive(CellAt(g, q))
  }

  /** Over distinct positions, the fold counts exactly the live ones. */
  lemma {:induction false} CountAliveIsCardinality(g: Grid, ps: seq<Position>)
    requires forall i, j :: 0 <= i < j < |ps| ==> ps[i] != ps[j]
    ensures CountAlive(g, ps) == |AliveAmong(g, ps)|
  {
    if ps != [] {
      var prefix := ps[..|ps| - 1];
      var last := ps[|ps| - 1];
      CountAliveIsCardinality(g, prefix);
      assert ps == prefix + [last];
      assert last !in prefix by {
        forall i | 0 <= i < |prefix|
          ensures prefix[i] != last
        {
          assert prefix[i] == ps[i];
        }
      }
      if Alive(CellAt(g, last)) {
        assert AliveAmong(g, ps) == AliveAmong(g, prefix) + {last};
      } else {
        assert AliveAmong(g, ps) == AliveAmong(g, prefix);
      }
    }
  }

  /** The fold only looks at the cells of `ps`. */
  lemma {:induction false} CountAliveFrame(g: Grid, h: Grid, ps: seq<Position>)
    requires forall q :: q in ps ==> CellAt(g, q) == CellAt(h, q)
    ensures CountAlive(g, ps) == CountAlive(h, ps)
  {
    if ps != [] {
      var prefix := ps[..|ps| - 1];
      assert forall q :: q in prefix ==> q in ps;
      CountAliveFrame(g, h, prefix);
    }
  }

  /** The live cells adjacent to `p`. */
  ghost function LiveNeighbors(g: Grid, p: Position): set<Position> {
    AliveAmong(g, AdjacentPositionsOf(p))
  }

  /** `live_neighbors_count_for`: the fold over the eight adjacent
      positions, so never more than 8. */
  function LiveNeighborsCountFor(g: Grid, p: Position): (n: nat)
    ensures n <= 8
  {
    CountAlive(g, AdjacentPositionsOf(p))
  }

  /** The count is the number of adjacent positions holding a live cell. */
  lemma LiveNeighborsCountIsCardinality(g: Grid, p: Position)
    ensures LiveNeighborsCountFor(g, p) == |LiveNeighbors(g, p)|
    ensures forall q :: q in LiveNeighbors(g, p) <==> Adjacent(p, q) && Alive(CellAt(g, q))
  {
    CountAliveIsCardinality(g, AdjacentPositionsOf(p));
  }

  /** The count depends only on the eight neighbors: in particular the cell
      stored at `p` itself never contributes. */
  lemma NeighborCountFrame(g: Grid, h: Grid, p: Position)
    requires forall q :: Adjacent(p, q) ==> CellAt(g, q) == CellAt(h, q)
    ensures LiveNeighborsCountFor(g, p) == LiveNeighborsCountFor(h, p)
  {
    CountAliveFrame(g, h, AdjacentPositionsOf(p));
  }

  lemma NeighborCountIgnoresSelf(g: Grid, p: Position, c: Cell)
    ensures LiveNeighborsCountFor(AddCell(g, p, c), p) == LiveNeighborsCountFor(g, p)
  {
    NeighborCountFrame(AddCell(g, p, c), g, p);
  }

  /** `mutate_cell_at`: the cell at `p` mutated by its live-neighbor
      count. The grid is a value and is not changed. */
  function MutateCellAt(g: Grid, p: Position): Cell
  {
    var cell := CellAt(g, p);
    var count := LiveNeighborsCountFor(g, p);
    Mutate(cell, count)
  }

  /** `mutate_cell_at` is Conway's B3/S23 rule at `p`, stated both over the
      count and over the set of live adjacent positions. */
  lemma MutateCellAtRule(g: Grid, p: Position)
    ensures Alive(MutateCellAt(g, p)) <==>
      LiveNeighborsCountFor(g, p) in (if Alive(CellAt(g, p)) then SurvivalCounts else BirthCounts)
    ensures Alive(MutateCellAt(g, p)) <==>
      |LiveNeighbors(g, p)| in (if Alive(CellAt(g, p)) then SurvivalCounts else BirthCounts)
  {
    LiveNeighborsCountIsCardinality(g, p);
  }
}

/** The two kinds of cell and Conway's mutation rule.

    Each Ruby cell class carries no state beyond its class, so a cell is a
    value of a two-constructor datatype: `Live` for `LiveCell`, `Dead` for
    `DeadCell`.
 */
module Cells {

  datatype Cell = Live | Dead

  /** `alive?`: true for a live cell, false for a dead one. */
  predicate Alive(c: Cell) {
    c.Live?
  }

  /** The neighbor counts at which a dead cell comes alive (the "B3" of B3/S23). */
  const BirthCounts: set<int> := {3}

  /** The neighbor counts at which a live cell survives (the "S23" of B3/S23). */
  const SurvivalCounts: set<int> := {2, 3}

  /** `mutate(alive_neighbors)`: the cell's state in the next generation.
      The count is not restricted: any value outside the birth or survival
      counts yields a dead cell. Ruby returns `self` when the state is kept
      and a new cell otherwise; with cells as values the two cannot be told
      apart, so the contract speaks of the state only. */
  function Mutate(c: Cell, aliveNeighbors: int): (r: Cell)
    ensures Alive(r) <==> aliveNeighbors in (if Alive(c) then SurvivalCounts else BirthCounts)
    ensures aliveNeighbors < 2 || aliveNeighbors > 3 ==> r == Dead
  {
    match c
    case Dead => if aliveNeighbors == 3 then Live else c
    case Live => if aliveNeighbors == 2 || aliveNeighbors == 3 then c else Dead
  }

  /** A live cell stays live exactly at 2 or 3 live neighbors. */
  lemma LiveCellRule(n: int)
    ensures Alive(Mutate(Live, n)) <==> n == 2 || n == 3
    ensures Mutate(Live, n) == if n == 2 || n == 3 then Live else Dead
  {
  }

  /** A dead cell comes alive exactly at 3 live neighbors. */
  lemma DeadCellRule(n: int)
    ensures Alive(Mutate(Dead, n)) <==> n == 3
    ensures Mutate(Dead, n) == if n == 3 then Live else Dead
  {
  }
}

/** Grid coordinates. A position is an integer pair; two positions are the
    same key exactly when both coordinates agree, which Dafny's structural
    equality on datatypes gives directly. */
module Coordinates {

  datatype Position = Position(x: int, y: int)

  /** `q` is in the Moore neighborhood of `p`: at most one step away along
      each axis, and not `p` itself. There is no boundary, so this holds for
      negative coordinates as for positive ones. */
  predicate Adjacent(p: Position, q: Position) {
    && q != p
    && -1 <= q.x - p.x <= 1
    && -1 <= q.y - p.y <= 1
  }

  /** Positions compare by their coordinates only. */
  lemma EqualByCoordinates(p: Position, q: Position)
    ensures p == q <==> p.x == q.x && p.y == q.y
  {
  }
}

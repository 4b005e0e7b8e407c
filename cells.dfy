/** The shared single-value cell, and snapshots of a set of cells as a valuation. */
module Cells {

  /**
   * A mutable scalar with identity: the one-element list in which `boxmodel.py` wraps
   * every value so that a registry entry, a box attribute and a process argument can
   * all refer to the same storage. Two cells holding equal values are still distinct.
   */
  class Cell {
    var v: real

    constructor (x: real)
      ensures v == x
    {
      v := x;
    }
  }

  /** No two names are bound to the same cell. */
  ghost predicate Injective(m: map<string, Cell>)
  {
    forall k1, k2 :: k1 in m && k2 in m && k1 != k2 ==> m[k1] != m[k2]
  }

  /** The values held by a set of cells at one moment. */
  type Valuation = map<Cell, real>

  /** The current contents of the cells in `w`. */
  ghost function Snap(w: set<Cell>): Valuation
    reads w`v
  {
    map c | c in w :: c.v
  }
}

// A cell of the alignment matrix, reverx/src/bioinformatics/Cell.java: a
// score, the direction it was reached by, the cell it was computed from and a
// symbol. Cells are never changed after construction, so a cell is a value
// holding the whole chain of cells it links to.
module Cells {
  import opened Wrappers
  import opened JavaTypes

  datatype Dir = Diag | Horiz | Vert

  /**
   * `new Cell(value, dir, from, node)`: the four fields as given, a null
   * direction, link or symbol being `None`.
   */
  datatype Cell<S> = Cell(value: int, dir: Option<Dir>, next: Option<Cell<S>>, symbol: Option<S>)

  /** `new Cell()`: score 0, and no direction, link or symbol. */
  function Empty<S>(): Cell<S>
  {
    Cell(0, None, None, None)
  }

  /** The number of cells on the chain that starts at `c`, `c` included. */
  function ChainLength<S>(c: Cell<S>): (n: nat)
    ensures n >= 1
    ensures n == 1 <==> c.next.None?
  {
    if c.next.None? then 1 else 1 + ChainLength(c.next.value)
  }

  /** `Size()`: the links are followed and counted, starting from 1. */
  method Size<S>(c: Cell<S>) returns (size: nat)
    ensures size == ChainLength(c)
  {
    size := 1;
    var curr := c;
    while curr.next.Some?
      invariant size + ChainLength(curr) == ChainLength(c) + 1
      decreases curr
    {
      curr := curr.next.value;
      size := size + 1;
    }
  }

  /**
   * `globalSimilarity()`: the score divided, in `int` arithmetic, by the
   * number of links; a cell without a link divides by zero.
   */
  method GlobalSimilarity<S>(c: Cell<S>) returns (r: Result<int>)
    ensures r.Err? <==> c.next.None?
    ensures r.Err? ==> r.error == Arithmetic
    ensures r.Ok? ==> r.value == Quot(c.value, ChainLength(c) - 1)
    ensures r.Ok? && c.value >= 0 ==> 0 <= r.value <= c.value
  {
    var size := Size(c);
    if size - 1 == 0 {
      return Err(Arithmetic);
    }
    QuotBounds(c.value, size - 1);
    return Ok(Quot(c.value, size - 1));
  }

  /** A non-negative quotient by a positive divisor is at most the dividend. */
  lemma QuotBounds(a: int, d: int)
    requires d > 0
    ensures a >= 0 ==> 0 <= Quot(a, d) <= a
  {
    if a >= 0 {
      var q := a / d;
      assert a == d * q + a % d;
      assert q >= 0;
      MultipleAtLeast(q, d);
    }
  }

  lemma MultipleAtLeast(q: nat, d: int)
    requires d > 0
    ensures d * q >= q
  {
  }

  /** An empty cell is a chain of one cell, so its similarity divides by zero. */
  lemma EmptyChain<S>()
    ensures ChainLength(Empty<S>()) == 1 && Empty<S>().value == 0
  {
  }
}

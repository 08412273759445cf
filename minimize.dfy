// The table-filling minimisation of reverx/src/automata/Operations.java:
// the `DistinctStatesTable` of pairwise "not equivalent" marks with its
// dependency lists, the analysis of every pair of listed states, and the
// merge of every pair left unmarked.
module Minimization {
  import opened Wrappers
  import opened Automata
  import opened StateMapping
  import opened Merging
  import Determinization

  /** `java.awt.Point`, compared by its coordinates. */
  datatype Point = Point(x: nat, y: nat)

  /** A cell of the table: marked (the Java `null`) or unmarked with the pairs that depend on it. */
  datatype Cell = Marked | Unmarked(deps: seq<Point>)

  // ---------------------------------------------------------------------
  // Telling two states apart
  // ---------------------------------------------------------------------

  /** Some transition of `p` reads a symbol on which `q` has no transition. */
  ghost predicate Lacks<T>(a: Arena<T>, eq: (T, T) -> bool, p: nat, q: nat)
  {
    p < |a| && q < |a| &&
    exists k :: 0 <= k < |a[p].transitions| && GetTransition(a[q].transitions, a[p].transitions[k].symbol, eq).None?
  }

  /**
   * The pair `(u, v)` is what the analysis looks at after `(p, q)` for the
   * `k`-th transition of `p`: its destination and the destination of `q`'s
   * first transition on the same symbol.
   */
  ghost predicate SuccVia<T>(a: Arena<T>, eq: (T, T) -> bool, p: nat, q: nat, k: nat, u: nat, v: nat)
  {
    p < |a| && q < |a| && k < |a[p].transitions| && a[p].transitions[k].dest == u &&
    match GetTransition(a[q].transitions, a[p].transitions[k].symbol, eq)
    case Some(j) => a[q].transitions[j].dest == v
    case None => false
  }

  /**
   * `p` and `q` can be told apart within `n` steps: their finality differs,
   * one defines a symbol the other lacks, or a pair they lead to can be told
   * apart within `n - 1` steps.
   */
  ghost predicate DistN<T>(a: Arena<T>, eq: (T, T) -> bool, p: nat, q: nat, n: nat)
    decreases n
  {
    p < |a| && q < |a| &&
    (a[p].isFinal != a[q].isFinal || Lacks(a, eq, p, q) || Lacks(a, eq, q, p) ||
     (n > 0 && exists k: nat, u: nat, v: nat ::
        (SuccVia(a, eq, p, q, k, u, v) || SuccVia(a, eq, q, p, k, u, v)) && DistN(a, eq, u, v, n - 1)))
  }

  ghost predicate Distinguishable<T>(a: Arena<T>, eq: (T, T) -> bool, p: nat, q: nat)
  {
    exists n: nat :: DistN(a, eq, p, q, n)
  }

  /** Telling apart does not depend on the order of the two states. */
  lemma DistSym<T>(a: Arena<T>, eq: (T, T) -> bool, p: nat, q: nat, n: nat)
    requires DistN(a, eq, p, q, n)
    ensures DistN(a, eq, q, p, n)
  {
    if n > 0 && !(a[p].isFinal != a[q].isFinal || Lacks(a, eq, p, q) || Lacks(a, eq, q, p)) {
      var k: nat, u: nat, v: nat :| (SuccVia(a, eq, p, q, k, u, v) || SuccVia(a, eq, q, p, k, u, v)) && DistN(a, eq, u, v, n - 1);
      assert (SuccVia(a, eq, q, p, k, u, v) || SuccVia(a, eq, p, q, k, u, v)) && DistN(a, eq, u, v, n - 1);
    }
  }

  /** A pair that leads to a distinguishable pair is distinguishable one step later. */
  lemma DistBack<T>(a: Arena<T>, eq: (T, T) -> bool, p: nat, q: nat, k: nat, u: nat, v: nat, n: nat)
    requires SuccVia(a, eq, p, q, k, u, v) && (DistN(a, eq, u, v, n) || DistN(a, eq, v, u, n))
    ensures DistN(a, eq, p, q, n + 1)
  {
    if !DistN(a, eq, u, v, n) {
      DistSym(a, eq, v, u, n);
    }
    assert (SuccVia(a, eq, p, q, k, u, v) || SuccVia(a, eq, q, p, k, u, v)) && DistN(a, eq, u, v, n + 1 - 1);
  }

  // ---------------------------------------------------------------------
  // The table as a value
  // ---------------------------------------------------------------------

  /** The jagged shape of `_table` for `n` listed states: row `r` has `n - r - 1` cells. */
  predicate Shape(cells: seq<seq<Cell>>, n: nat)
  {
    n >= 1 && |cells| == n - 1 && forall r :: 0 <= r < |cells| ==> |cells[r]| == n - r - 1
  }

  /** The cell of list positions `x < y`: row `x`, column `y - x - 1`. */
  function At(cells: seq<seq<Cell>>, x: nat, y: nat): Cell
    requires Shape(cells, |cells| + 1) && x < y <= |cells|
  {
    cells[x][y - x - 1]
  }

  /** `get(x, y)`: the coordinates are put in order first. */
  function CellAt(cells: seq<seq<Cell>>, x: nat, y: nat): Cell
    requires Shape(cells, |cells| + 1) && x != y && x <= |cells| && y <= |cells|
  {
    if x < y then cells[x][y - x - 1] else cells[y][x - y - 1]
  }

  /** `get` answers the same for both orders of a pair, the cell of the ordered pair. */
  lemma CellAtSymmetric(cells: seq<seq<Cell>>, x: nat, y: nat)
    requires Shape(cells, |cells| + 1) && x != y && x <= |cells| && y <= |cells|
    ensures CellAt(cells, x, y) == CellAt(cells, y, x)
    ensures CellAt(cells, x, y) == if x < y then At(cells, x, y) else At(cells, y, x)
  {
  }

  /** The table after `mark_cell` on the ordered pair `x < y`. */
  function WithMark(cells: seq<seq<Cell>>, x: nat, y: nat): (r: seq<seq<Cell>>)
    requires Shape(cells, |cells| + 1) && x < y <= |cells|
    ensures Shape(r, |r| + 1) && |r| == |cells|
    ensures forall u, v :: 0 <= u < v <= |cells| ==> At(r, u, v) == if u == x && v == y then Marked else At(cells, u, v)
  {
    cells[x := cells[x][y - x - 1 := Marked]]
  }

  /** The dependency list after `add_to_list`: `p` is appended unless it is already there. */
  function AddDep(deps: seq<Point>, p: Point): (r: seq<Point>)
    ensures p in r && (forall q :: q in r <==> q in deps || q == p)
    ensures NoDups(deps) ==> NoDups(r)
  {
    if p in deps then deps else deps + [p]
  }

  predicate NoDups(deps: seq<Point>)
  {
    forall i, j :: 0 <= i < j < |deps| ==> deps[i] != deps[j]
  }

  /** The table after `add_to_list` on the unmarked ordered pair `x < y`. */
  function WithDep(cells: seq<seq<Cell>>, x: nat, y: nat, p: Point): (r: seq<seq<Cell>>)
    requires Shape(cells, |cells| + 1) && x < y <= |cells| && At(cells, x, y).Unmarked?
    ensures Shape(r, |r| + 1) && |r| == |cells|
    ensures forall u, v :: 0 <= u < v <= |cells| ==>
      At(r, u, v) == if u == x && v == y then Unmarked(AddDep(At(cells, x, y).deps, p)) else At(cells, u, v)
  {
    cells[x := cells[x][y - x - 1 := Unmarked(AddDep(At(cells, x, y).deps, p))]]
  }

  /** Every dependency names an ordered pair of list positions. */
  predicate WellFormed(cells: seq<seq<Cell>>, n: nat)
  {
    Shape(cells, n) &&
    forall x, y :: 0 <= x < y < n ==> DepsInRange(At(cells, x, y), n)
  }

  predicate DepsInRange(c: Cell, n: nat)
  {
    c.Unmarked? ==> forall i :: 0 <= i < |c.deps| ==> c.deps[i].x < c.deps[i].y < n
  }

  /** The pair at list positions `d` leads, by one of its transitions, to the pair at positions `x, y`. */
  ghost predicate Feeds<T>(a: Arena<T>, eq: (T, T) -> bool, list: seq<nat>, d: Point, x: nat, y: nat)
  {
    d.x < |list| && d.y < |list| && x < |list| && y < |list| &&
    exists k: nat :: SuccVia(a, eq, list[d.x], list[d.y], k, list[x], list[y]) ||
                     SuccVia(a, eq, list[d.x], list[d.y], k, list[y], list[x])
  }

  /** A marked cell holds a distinguishable pair; an unmarked cell lists pairs that lead to it. */
  ghost predicate CellSound<T>(a: Arena<T>, eq: (T, T) -> bool, list: seq<nat>, x: nat, y: nat, c: Cell)
    requires x < |list| && y < |list|
  {
    match c
    case Marked => Distinguishable(a, eq, list[x], list[y])
    case Unmarked(deps) => forall i :: 0 <= i < |deps| ==> Feeds(a, eq, list, deps[i], x, y)
  }

  /** An unmarked cell holds two states of the same finality. */
  ghost predicate CellAgrees<T>(a: Arena<T>, list: seq<nat>, x: nat, y: nat, c: Cell)
    requires x < |list| && y < |list| && InArena(list, a)
  {
    c.Unmarked? ==> a[list[x]].isFinal == a[list[y]].isFinal
  }

  /** What the table keeps true from its construction on. */
  ghost predicate TableInv<T>(a: Arena<T>, eq: (T, T) -> bool, list: seq<nat>, cells: seq<seq<Cell>>)
  {
    InArena(list, a) && WellFormed(cells, |list|) &&
    (forall x, y :: 0 <= x < y < |list| ==> CellSound(a, eq, list, x, y, At(cells, x, y))) &&
    (forall x, y :: 0 <= x < y < |list| ==> CellAgrees(a, list, x, y, At(cells, x, y)))
  }

  /** Marking a distinguishable pair keeps the table invariant. */
  lemma MarkKeeps<T>(a: Arena<T>, eq: (T, T) -> bool, list: seq<nat>, cells: seq<seq<Cell>>, x: nat, y: nat)
    requires TableInv(a, eq, list, cells) && x < y < |list|
    requires Distinguishable(a, eq, list[x], list[y])
    ensures TableInv(a, eq, list, WithMark(cells, x, y))
  {
    var r := WithMark(cells, x, y);
    forall u, v | 0 <= u < v < |list| ensures DepsInRange(At(r, u, v), |list|) {
      assert At(cells, u, v) == At(r, u, v) || At(r, u, v) == Marked;
    }
    forall u, v | 0 <= u < v < |list| ensures CellSound(a, eq, list, u, v, At(r, u, v)) {
      assert CellSound(a, eq, list, u, v, At(cells, u, v));
    }
    forall u, v | 0 <= u < v < |list| ensures CellAgrees(a, list, u, v, At(r, u, v)) {
      assert CellAgrees(a, list, u, v, At(cells, u, v));
    }
  }

  /** Recording a pair that leads to an unmarked cell keeps the table invariant. */
  lemma AddKeeps<T>(a: Arena<T>, eq: (T, T) -> bool, list: seq<nat>, cells: seq<seq<Cell>>, x: nat, y: nat, p: Point)
    requires TableInv(a, eq, list, cells) && x < y < |list| && At(cells, x, y).Unmarked?
    requires p.x < p.y < |list| && Feeds(a, eq, list, p, x, y)
    ensures TableInv(a, eq, list, WithDep(cells, x, y, p))
  {
    AddKeepsRange(cells, |list|, x, y, p);
    AddKeepsSound(a, eq, list, cells, x, y, p);
    var r := WithDep(cells, x, y, p);
    forall u, v | 0 <= u < v < |list| ensures CellAgrees(a, list, u, v, At(r, u, v)) {
      assert CellAgrees(a, list, u, v, At(cells, u, v));
    }
  }

  lemma AddKeepsRange(cells: seq<seq<Cell>>, n: nat, x: nat, y: nat, p: Point)
    requires WellFormed(cells, n) && x < y < n && At(cells, x, y).Unmarked? && p.x < p.y < n
    ensures WellFormed(WithDep(cells, x, y, p), n)
  {
    var r := WithDep(cells, x, y, p);
    forall u, v | 0 <= u < v < n ensures DepsInRange(At(r, u, v), n) {
      assert DepsInRange(At(cells, u, v), n);
      if u == x && v == y {
        var ds := At(r, u, v).deps;
        forall i | 0 <= i < |ds| ensures ds[i].x < ds[i].y < n {
          assert ds[i] in At(cells, x, y).deps || ds[i] == p;
        }
      }
    }
  }

  lemma AddKeepsSound<T>(a: Arena<T>, eq: (T, T) -> bool, list: seq<nat>, cells: seq<seq<Cell>>, x: nat, y: nat, p: Point)
    requires Shape(cells, |list|) && x < y < |list| && At(cells, x, y).Unmarked? && Feeds(a, eq, list, p, x, y)
    requires forall u, v :: 0 <= u < v < |list| ==> CellSound(a, eq, list, u, v, At(cells, u, v))
    ensures forall u, v :: 0 <= u < v < |list| ==> CellSound(a, eq, list, u, v, At(WithDep(cells, x, y, p), u, v))
  {
    var r := WithDep(cells, x, y, p);
    forall u, v | 0 <= u < v < |list| ensures CellSound(a, eq, list, u, v, At(r, u, v)) {
      assert CellSound(a, eq, list, u, v, At(cells, u, v));
      if u == x && v == y {
        var ds := At(r, u, v).deps;
        forall i | 0 <= i < |ds| ensures Feeds(a, eq, list, ds[i], x, y) {
          if ds[i] != p {
            var j :| 0 <= j < |At(cells, x, y).deps| && At(cells, x, y).deps[j] == ds[i];
          }
        }
      }
    }
  }

  /** A dependent of a distinguishable pair is distinguishable. */
  lemma FeedsDist<T>(a: Arena<T>, eq: (T, T) -> bool, list: seq<nat>, d: Point, x: nat, y: nat)
    requires Feeds(a, eq, list, d, x, y) && Distinguishable(a, eq, list[x], list[y])
    ensures Distinguishable(a, eq, list[d.x], list[d.y])
  {
    var n: nat :| DistN(a, eq, list[x], list[y], n);
    DistSym(a, eq, list[x], list[y], n);
    var k: nat :| SuccVia(a, eq, list[d.x], list[d.y], k, list[x], list[y]) ||
                  SuccVia(a, eq, list[d.x], list[d.y], k, list[y], list[x]);
    if SuccVia(a, eq, list[d.x], list[d.y], k, list[x], list[y]) {
      DistBack(a, eq, list[d.x], list[d.y], k, list[x], list[y], n);
    } else {
      DistBack(a, eq, list[d.x], list[d.y], k, list[y], list[x], n);
    }
  }

  // ---------------------------------------------------------------------
  // How the table may change
  // ---------------------------------------------------------------------

  /** Cells only ever go from unmarked to marked; untouched cells keep their lists. */
  predicate Descends(t0: seq<seq<Cell>>, t1: seq<seq<Cell>>)
  {
    |t1| == |t0| && forall r :: 0 <= r < |t0| ==> RowDescends(t0[r], t1[r])
  }

  predicate RowDescends(r0: seq<Cell>, r1: seq<Cell>)
  {
    |r1| == |r0| && forall c :: 0 <= c < |r0| ==> r1[c] == r0[c] || r1[c] == Marked
  }

  lemma DescendsTrans(t0: seq<seq<Cell>>, t1: seq<seq<Cell>>, t2: seq<seq<Cell>>)
    requires Descends(t0, t1) && Descends(t1, t2)
    ensures Descends(t0, t2)
  {
    forall r | 0 <= r < |t0| ensures RowDescends(t0[r], t2[r]) {
      assert RowDescends(t0[r], t1[r]) && RowDescends(t1[r], t2[r]);
    }
  }

  /** The number of unmarked cells: what `mark_and_propagate` decreases. */
  function RowCount(row: seq<Cell>): nat
  {
    if row == [] then 0 else RowCount(row[..|row| - 1]) + (if row[|row| - 1].Unmarked? then 1 else 0)
  }

  function UnmarkedCount(cells: seq<seq<Cell>>): nat
  {
    if cells == [] then 0 else UnmarkedCount(cells[..|cells| - 1]) + RowCount(cells[|cells| - 1])
  }

  /** Marking never adds unmarked cells, and marking one strictly removes one. */
  lemma {:induction false} RowCountDescends(r0: seq<Cell>, r1: seq<Cell>, c: int)
    requires RowDescends(r0, r1)
    ensures RowCount(r1) <= RowCount(r0)
    ensures 0 <= c < |r0| && r0[c].Unmarked? && r1[c].Marked? ==> RowCount(r1) < RowCount(r0)
    decreases |r0|
  {
    if r0 != [] {
      var n := |r0| - 1;
      assert RowDescends(r0[..n], r1[..n]);
      RowCountDescends(r0[..n], r1[..n], c);
    }
  }

  lemma {:induction false} CountDescends(t0: seq<seq<Cell>>, t1: seq<seq<Cell>>, r: int, c: int)
    requires Descends(t0, t1)
    ensures UnmarkedCount(t1) <= UnmarkedCount(t0)
    ensures 0 <= r < |t0| && 0 <= c < |t0[r]| && t0[r][c].Unmarked? && t1[r][c].Marked? ==> UnmarkedCount(t1) < UnmarkedCount(t0)
    decreases |t0|
  {
    if t0 != [] {
      var n := |t0| - 1;
      assert Descends(t0[..n], t1[..n]);
      CountDescends(t0[..n], t1[..n], r, c);
      RowCountDescends(t0[n], t1[n], if r == n then c else -1);
    }
  }

  /** Every pair listed in `deps` is marked in `t`. */
  predicate DepsMarked(t: seq<seq<Cell>>, deps: seq<Point>)
  {
    Shape(t, |t| + 1) && forall i :: 0 <= i < |deps| ==> deps[i].x < deps[i].y <= |t| && At(t, deps[i].x, deps[i].y).Marked?
  }

  /**
   * Propagation is complete: whenever a cell unmarked in `t0` is marked in
   * `t1`, so is every pair on its list, except possibly for the cell `(x, y)`.
   */
  predicate NewClosedBut(t0: seq<seq<Cell>>, t1: seq<seq<Cell>>, x: int, y: int)
  {
    Shape(t0, |t0| + 1) && Shape(t1, |t1| + 1) && |t1| == |t0| &&
    forall u, v :: 0 <= u < v <= |t0| && !(u == x && v == y) && At(t0, u, v).Unmarked? && At(t1, u, v).Marked? ==>
      DepsMarked(t1, At(t0, u, v).deps)
  }

  predicate NewClosed(t0: seq<seq<Cell>>, t1: seq<seq<Cell>>)
  {
    NewClosedBut(t0, t1, -1, -1)
  }

  lemma DepsMarkedKept(t1: seq<seq<Cell>>, t2: seq<seq<Cell>>, deps: seq<Point>)
    requires DepsMarked(t1, deps) && Descends(t1, t2) && Shape(t2, |t2| + 1)
    ensures DepsMarked(t2, deps)
  {
    forall i | 0 <= i < |deps| ensures At(t2, deps[i].x, deps[i].y).Marked? {
      assert RowDescends(t1[deps[i].x], t2[deps[i].x]);
    }
  }

  /** A recursive call that is itself closed keeps the caller's partial closure. */
  lemma NewClosedStep(t0: seq<seq<Cell>>, t1: seq<seq<Cell>>, t2: seq<seq<Cell>>, x: int, y: int)
    requires Descends(t0, t1) && Descends(t1, t2)
    requires NewClosedBut(t0, t1, x, y) && NewClosed(t1, t2)
    ensures NewClosedBut(t0, t2, x, y)
  {
    forall u, v | 0 <= u < v <= |t0| && !(u == x && v == y) && At(t0, u, v).Unmarked? && At(t2, u, v).Marked?
      ensures DepsMarked(t2, At(t0, u, v).deps)
    {
      assert RowDescends(t0[u], t1[u]) && RowDescends(t1[u], t2[u]);
      if At(t1, u, v).Marked? {
        DepsMarkedKept(t1, t2, At(t0, u, v).deps);
      } else {
        assert At(t1, u, v) == At(t0, u, v);
      }
    }
  }

  /** Closing the last open cell closes the whole step. */
  lemma NewClosedFinish(t0: seq<seq<Cell>>, t1: seq<seq<Cell>>, x: nat, y: nat, deps: seq<Point>)
    requires NewClosedBut(t0, t1, x, y) && x < y <= |t0|
    requires At(t0, x, y) == Unmarked(deps) && DepsMarked(t1, deps)
    ensures NewClosed(t0, t1)
  {
  }

  lemma NewClosedRefl(t: seq<seq<Cell>>)
    requires Shape(t, |t| + 1)
    ensures NewClosed(t, t) && Descends(t, t)
  {
  }

  // ---------------------------------------------------------------------
  // DistinctStatesTable
  // ---------------------------------------------------------------------

  /** The initial table: a cell is marked exactly when its two states differ in finality. */
  method InitialCells<T>(a: Arena<T>, list: seq<nat>) returns (cells: seq<seq<Cell>>)
    requires InArena(list, a) && |list| >= 1
    ensures Shape(cells, |list|)
    ensures forall x, y :: 0 <= x < y < |list| ==>
      At(cells, x, y) == if a[list[x]].isFinal != a[list[y]].isFinal then Marked else Unmarked([])
  {
    cells := [];
    for row := 0 to |list| - 1
      invariant |cells| == row
      invariant forall r :: 0 <= r < row ==> |cells[r]| == |list| - r - 1
      invariant forall r, c :: 0 <= r < row && 0 <= c < |cells[r]| ==>
        cells[r][c] == if a[list[r]].isFinal != a[list[r + c + 1]].isFinal then Marked else Unmarked([])
    {
      var cs := InitialRow(a, list, row);
      cells := cells + [cs];
    }
  }

  /** Row `row` of the initial table. */
  method InitialRow<T>(a: Arena<T>, list: seq<nat>, row: nat) returns (cs: seq<Cell>)
    requires InArena(list, a) && row < |list| - 1
    ensures |cs| == |list| - row - 1
    ensures forall c :: 0 <= c < |cs| ==>
      cs[c] == if a[list[row]].isFinal != a[list[row + c + 1]].isFinal then Marked else Unmarked([])
  {
    cs := [];
    var s0 := list[row];
    for col := 0 to |list| - row - 1
      invariant |cs| == col
      invariant forall c :: 0 <= c < col ==>
        cs[c] == if a[s0].isFinal != a[list[row + c + 1]].isFinal then Marked else Unmarked([])
    {
      var s1 := list[row + col + 1];
      if a[s0].isFinal != a[s1].isFinal {
        cs := cs + [Marked];
      } else {
        cs := cs + [Unmarked([])];
      }
    }
  }

  /** The initial table satisfies the table invariant. */
  lemma InitialInv<T>(a: Arena<T>, eq: (T, T) -> bool, list: seq<nat>, cells: seq<seq<Cell>>)
    requires InArena(list, a) && Shape(cells, |list|)
    requires forall x, y :: 0 <= x < y < |list| ==>
      At(cells, x, y) == if a[list[x]].isFinal != a[list[y]].isFinal then Marked else Unmarked([])
    ensures TableInv(a, eq, list, cells)
  {
    forall x, y | 0 <= x < y < |list| ensures CellSound(a, eq, list, x, y, At(cells, x, y)) {
      if At(cells, x, y).Marked? {
        assert DistN(a, eq, list[x], list[y], 0);
      }
    }
  }

  class DistinctStatesTable<T> {
    var cells: seq<seq<Cell>>
    const arena: Arena<T>
    const allStates: seq<nat>
    const eq: (T, T) -> bool

    ghost predicate Valid()
      reads this
    {
      TableInv(arena, eq, allStates, cells)
    }

    /** `DistinctStatesTable(all_states)`: only pairs of different finality start marked. */
    constructor (arena: Arena<T>, allStates: seq<nat>, eq: (T, T) -> bool)
      requires InArena(allStates, arena) && |allStates| >= 1
      ensures this.arena == arena && this.allStates == allStates && this.eq == eq
      ensures Valid()
      ensures forall x, y :: 0 <= x < y < |allStates| ==>
        At(cells, x, y) == if arena[allStates[x]].isFinal != arena[allStates[y]].isFinal then Marked else Unmarked([])
    {
      var cs := InitialCells(arena, allStates);
      InitialInv(arena, eq, allStates, cs);
      this.arena := arena;
      this.allStates := allStates;
      this.eq := eq;
      this.cells := cs;
    }

    /** `get(x, y)`. */
    function Get(x: nat, y: nat): Cell
      reads this
      requires Shape(cells, |cells| + 1) && x != y && x <= |cells| && y <= |cells|
    {
      CellAt(cells, x, y)
    }

    /** `is_marked(x, y)`. */
    predicate IsMarked(x: nat, y: nat)
      reads this
      requires Shape(cells, |cells| + 1) && x != y && x <= |cells| && y <= |cells|
    {
      Get(x, y).Marked?
    }

    /** `mark_cell(x, y)`: the one cell of the pair becomes marked. */
    method MarkCell(x: nat, y: nat)
      requires Shape(cells, |cells| + 1) && x != y && x <= |cells| && y <= |cells|
      modifies this
      ensures cells == if x < y then WithMark(old(cells), x, y) else WithMark(old(cells), y, x)
    {
      if x < y {
        cells := cells[x := cells[x][y - x - 1 := Marked]];
      } else {
        cells := cells[y := cells[y][x - y - 1 := Marked]];
      }
    }

    /** `add_to_list(x0, y0, x1, y1)`: the pair `(x1, y1)` joins the list of the unmarked cell `(x0, y0)`, once. */
    method AddToList(x0: nat, y0: nat, x1: nat, y1: nat)
      requires Shape(cells, |cells| + 1) && x0 != y0 && x0 <= |cells| && y0 <= |cells|
      requires Get(x0, y0).Unmarked?
      modifies this
      ensures cells == if x0 < y0 then WithDep(old(cells), x0, y0, Point(x1, y1)) else WithDep(old(cells), y0, x0, Point(x1, y1))
    {
      var cell := Get(x0, y0);
      var p := Point(x1, y1);
      if p !in cell.deps {
        cell := Unmarked(cell.deps + [p]);
      }
      if x0 < y0 {
        cells := cells[x0 := cells[x0][y0 - x0 - 1 := cell]];
      } else {
        cells := cells[y0 := cells[y0][x0 - y0 - 1 := cell]];
      }
    }

    /**
     * `mark_and_propagate(row, col)`: marks the pair and every pair on its
     * list, recursively. Only distinguishable pairs get marked, and whenever a
     * cell gets marked every pair on its list is marked too.
     */
    method MarkAndPropagate(row: nat, col: nat)
      requires Valid() && row != col && row < |allStates| && col < |allStates|
      requires Distinguishable(arena, eq, allStates[row], allStates[col])
      modifies this
      ensures Valid() && Descends(old(cells), cells) && NewClosed(old(cells), cells)
      ensures Get(row, col).Marked?
      decreases UnmarkedCount(cells), 1
    {
      var cell := Get(row, col);
      if cell.Unmarked? {
        ghost var before := cells;
        var x, y := if row < col then row else col, if row < col then col else row;
        MarkPrepared(arena, eq, allStates, cells, row, col, x, y);
        MarkCell(row, col);
        Propagate(cell.deps, x, y, before, UnmarkedCount(before));
        NewClosedFinish(before, cells, x, y, cell.deps);
        assert Get(row, col) == At(cells, x, y);
      } else {
        NewClosedRefl(cells);
      }
    }

    /** The loop of `mark_and_propagate` over the list of the cell `(x, y)` it has just marked. */
    method Propagate(deps: seq<Point>, x: nat, y: nat, ghost before: seq<seq<Cell>>, ghost bound: nat)
      requires Valid() && x < y < |allStates| && Shape(before, |before| + 1) && |before| == |cells|
      requires At(cells, x, y).Marked? && Descends(before, cells) && NewClosedBut(before, cells, x, y)
      requires forall i :: 0 <= i < |deps| ==> deps[i].x < deps[i].y < |allStates| && Feeds(arena, eq, allStates, deps[i], x, y)
      requires Distinguishable(arena, eq, allStates[x], allStates[y])
      requires UnmarkedCount(cells) < bound
      modifies this
      ensures Valid() && Descends(before, cells) && Descends(old(cells), cells) && At(cells, x, y).Marked?
      ensures DepsMarked(cells, deps) && NewClosedBut(before, cells, x, y)
      decreases bound, 0
    {
      ghost var start := cells;
      NewClosedRefl(cells);
      for k := 0 to |deps|
        invariant Valid() && Descends(before, cells) && Descends(start, cells) && At(cells, x, y).Marked?
        invariant DepsMarked(cells, deps[..k])
        invariant NewClosedBut(before, cells, x, y)
      {
        var p := deps[k];
        FeedsDist(arena, eq, allStates, p, x, y);
        CountDescends(start, cells, -1, -1);
        ghost var mid := cells;
        MarkAndPropagate(p.x, p.y);
        ChildDone(before, start, mid, cells, deps, k, x, y);
      }
      assert deps[..|deps|] == deps;
    }
  }

  /** Marking the unmarked cell of a distinguishable pair sets up the propagation loop. */
  lemma MarkPrepared<T>(a: Arena<T>, eq: (T, T) -> bool, list: seq<nat>, cells: seq<seq<Cell>>, row: nat, col: nat, x: nat, y: nat)
    requires TableInv(a, eq, list, cells) && row != col && row < |list| && col < |list|
    requires Distinguishable(a, eq, list[row], list[col])
    requires x == (if row < col then row else col) && y == (if row < col then col else row)
    requires CellAt(cells, row, col).Unmarked?
    ensures At(cells, x, y) == CellAt(cells, row, col)
    ensures TableInv(a, eq, list, WithMark(cells, x, y)) && At(WithMark(cells, x, y), x, y).Marked?
    ensures Descends(cells, WithMark(cells, x, y)) && NewClosedBut(cells, WithMark(cells, x, y), x, y)
    ensures forall i :: 0 <= i < |At(cells, x, y).deps| ==>
      At(cells, x, y).deps[i].x < At(cells, x, y).deps[i].y < |list| && Feeds(a, eq, list, At(cells, x, y).deps[i], x, y)
    ensures Distinguishable(a, eq, list[x], list[y])
    ensures UnmarkedCount(WithMark(cells, x, y)) < UnmarkedCount(cells)
  {
    if row > col {
      var n: nat :| DistN(a, eq, list[row], list[col], n);
      DistSym(a, eq, list[row], list[col], n);
    }
    MarkKeeps(a, eq, list, cells, x, y);
    var t := WithMark(cells, x, y);
    assert CellSound(a, eq, list, x, y, At(cells, x, y));
    assert WellFormed(cells, |list|) && DepsInRange(At(cells, x, y), |list|);
    assert Descends(cells, t) by {
      forall r | 0 <= r < |cells| ensures RowDescends(cells[r], t[r]) {
      }
    }
    CountDescends(cells, t, x, y - x - 1);
  }

  /** What one recursive call of `mark_and_propagate` leaves behind for the loop around it. */
  lemma ChildDone(before: seq<seq<Cell>>, start: seq<seq<Cell>>, mid: seq<seq<Cell>>, t: seq<seq<Cell>>, deps: seq<Point>, k: nat, x: nat, y: nat)
    requires Descends(before, mid) && Descends(start, mid) && Descends(mid, t) && NewClosed(mid, t)
    requires k < |deps| && NewClosedBut(before, mid, x, y) && DepsMarked(mid, deps[..k]) && Shape(t, |t| + 1)
    requires deps[k].x < deps[k].y <= |t| && At(t, deps[k].x, deps[k].y).Marked?
    requires x < y <= |t| && At(mid, x, y).Marked?
    ensures Descends(before, t) && Descends(start, t) && NewClosedBut(before, t, x, y)
    ensures DepsMarked(t, deps[..k + 1]) && At(t, x, y).Marked?
  {
    DescendsTrans(before, mid, t);
    DescendsTrans(start, mid, t);
    NewClosedStep(before, mid, t, x, y);
    DepsMarkedKept(mid, t, deps[..k]);
    assert deps[..k + 1] == deps[..k] + [deps[k]];
    assert RowDescends(mid[x], t[x]);
  }

  // ---------------------------------------------------------------------
  // The analysis of every pair
  // ---------------------------------------------------------------------

  /** `ArrayList.indexOf`: the first position holding `x`, or -1. */
  function IndexOf(list: seq<nat>, x: nat): (r: int)
    ensures -1 <= r < |list|
    ensures r == -1 <==> x !in list
    ensures r >= 0 ==> list[r] == x && forall j :: 0 <= j < r ==> list[j] != x
  {
    if list == [] then -1
    else if list[0] == x then 0
    else
      var r := IndexOf(list[1..], x);
      if r == -1 then -1 else r + 1
  }

  /** Every destination of a listed state is listed. */
  ghost predicate ListClosed<T>(a: Arena<T>, list: seq<nat>)
  {
    InArena(list, a) &&
    forall i, k :: 0 <= i < |list| && 0 <= k < |a[list[i]].transitions| ==> a[list[i]].transitions[k].dest in list
  }

  /** Every pair on `d0` is on `d1`. */
  predicate Kept(d0: seq<Point>, d1: seq<Point>)
  {
    forall p :: p in d0 ==> p in d1
  }

  /**
   * How the table may change from `t0` to `t1` during the analysis: a cell is
   * marked, or stays unmarked and keeps its list, and marking is closed.
   */
  predicate Evolves(t0: seq<seq<Cell>>, t1: seq<seq<Cell>>)
  {
    NewClosed(t0, t1) &&
    forall u, v :: 0 <= u < v <= |t0| ==>
      At(t1, u, v).Marked? || (At(t0, u, v).Unmarked? && At(t1, u, v).Unmarked? && Kept(At(t0, u, v).deps, At(t1, u, v).deps))
  }

  lemma EvolvesRefl(t: seq<seq<Cell>>)
    requires Shape(t, |t| + 1)
    ensures Evolves(t, t)
  {
  }

  lemma DescendsEvolves(t0: seq<seq<Cell>>, t1: seq<seq<Cell>>)
    requires Descends(t0, t1) && NewClosed(t0, t1)
    ensures Evolves(t0, t1)
  {
    forall u, v | 0 <= u < v <= |t0|
      ensures At(t1, u, v).Marked? || (At(t0, u, v).Unmarked? && At(t1, u, v).Unmarked? && Kept(At(t0, u, v).deps, At(t1, u, v).deps))
    {
      assert RowDescends(t0[u], t1[u]);
    }
  }

  /** `add_to_list` marks nothing and only lengthens one list. */
  lemma DepEvolves(t: seq<seq<Cell>>, x: nat, y: nat, p: Point)
    requires Shape(t, |t| + 1) && x < y <= |t| && At(t, x, y).Unmarked?
    ensures Evolves(t, WithDep(t, x, y, p))
  {
  }

  /** Every pair on `d0` is marked once every pair on a list keeping `d0` is. */
  lemma DepsMarkedSub(t: seq<seq<Cell>>, d0: seq<Point>, d1: seq<Point>)
    requires DepsMarked(t, d1) && Kept(d0, d1)
    ensures DepsMarked(t, d0)
  {
    forall i | 0 <= i < |d0| ensures d0[i].x < d0[i].y <= |t| && At(t, d0[i].x, d0[i].y).Marked? {
      assert d0[i] in d1;
      var j :| 0 <= j < |d1| && d1[j] == d0[i];
    }
  }

  lemma DepsMarkedEvolves(t1: seq<seq<Cell>>, t2: seq<seq<Cell>>, d: seq<Point>)
    requires DepsMarked(t1, d) && Evolves(t1, t2)
    ensures DepsMarked(t2, d)
  {
    forall i | 0 <= i < |d| ensures At(t2, d[i].x, d[i].y).Marked? {
      assert At(t1, d[i].x, d[i].y).Marked?;
    }
  }

  lemma EvolvesTrans(t0: seq<seq<Cell>>, t1: seq<seq<Cell>>, t2: seq<seq<Cell>>)
    requires Evolves(t0, t1) && Evolves(t1, t2)
    ensures Evolves(t0, t2)
  {
    forall u, v | 0 <= u < v <= |t0| && At(t0, u, v).Unmarked? && At(t2, u, v).Marked?
      ensures DepsMarked(t2, At(t0, u, v).deps)
    {
      if At(t1, u, v).Marked? {
        assert DepsMarked(t1, At(t0, u, v).deps);
        DepsMarkedEvolves(t1, t2, At(t0, u, v).deps);
      } else {
        assert DepsMarked(t2, At(t1, u, v).deps);
        DepsMarkedSub(t2, At(t0, u, v).deps, At(t1, u, v).deps);
      }
    }
    forall u, v | 0 <= u < v <= |t0|
      ensures At(t2, u, v).Marked? || (At(t0, u, v).Unmarked? && At(t2, u, v).Unmarked? && Kept(At(t0, u, v).deps, At(t2, u, v).deps))
    {
      if At(t2, u, v).Unmarked? {
        assert At(t1, u, v).Unmarked?;
      }
    }
  }

  /** The pair of positions `(x, y)` is on the list of the unmarked cell of positions `i` and `j`. */
  predicate Waits(t: seq<seq<Cell>>, i: int, j: int, x: nat, y: nat)
  {
    Shape(t, |t| + 1) && 0 <= i <= |t| && 0 <= j <= |t| && i != j &&
    CellAt(t, i, j).Unmarked? && Point(x, y) in CellAt(t, i, j).deps
  }

  /**
   * The `k`-th transition of `list[x]` has a counterpart in `list[y]` on its
   * symbol, and the two destinations are one state or a pair `(x, y)` waits on.
   */
  ghost predicate Linked<T>(a: Arena<T>, eq: (T, T) -> bool, list: seq<nat>, t: seq<seq<Cell>>, x: nat, y: nat, k: nat)
  {
    x < |list| && y < |list| && list[x] < |a| && list[y] < |a| && k < |a[list[x]].transitions| &&
    match GetTransition(a[list[y]].transitions, a[list[x]].transitions[k].symbol, eq)
    case None => false
    case Some(j) =>
      a[list[x]].transitions[k].dest == a[list[y]].transitions[j].dest ||
      Waits(t, IndexOf(list, a[list[x]].transitions[k].dest), IndexOf(list, a[list[y]].transitions[j].dest), x, y)
  }

  /** `list[x]` has a transition on the symbol of the `k`-th transition of `list[y]`. */
  ghost predicate Covered<T>(a: Arena<T>, eq: (T, T) -> bool, list: seq<nat>, x: nat, y: nat, k: nat)
  {
    x < |list| && y < |list| && list[x] < |a| && list[y] < |a| && k < |a[list[y]].transitions| &&
    GetTransition(a[list[x]].transitions, a[list[y]].transitions[k].symbol, eq).Some?
  }

  /**
   * What the analysis of `(x, y)` has established after `k0` transitions of
   * the first state and `k1` of the second: the pair is marked, or those
   * transitions are linked and covered.
   */
  ghost predicate Checked<T>(a: Arena<T>, eq: (T, T) -> bool, list: seq<nat>, t: seq<seq<Cell>>, x: nat, y: nat, k0: nat, k1: nat)
  {
    Shape(t, |t| + 1) && x < y <= |t| &&
    (At(t, x, y).Marked? ||
     ((forall k :: 0 <= k < k0 ==> Linked(a, eq, list, t, x, y, k)) &&
      (forall k :: 0 <= k < k1 ==> Covered(a, eq, list, x, y, k))))
  }

  /** The analysis of `(x, y)` is complete. */
  ghost predicate Settled<T>(a: Arena<T>, eq: (T, T) -> bool, list: seq<nat>, t: seq<seq<Cell>>, x: nat, y: nat)
  {
    x < y < |list| && list[x] < |a| && list[y] < |a| &&
    Checked(a, eq, list, t, x, y, |a[list[x]].transitions|, |a[list[y]].transitions|)
  }

  /** Every pair before `(row, col)` in row-major order is settled. */
  ghost predicate Done<T>(a: Arena<T>, eq: (T, T) -> bool, list: seq<nat>, t: seq<seq<Cell>>, row: nat, col: nat)
  {
    forall x, y :: 0 <= x < y < |list| && (x < row || (x == row && y < col)) ==> Settled(a, eq, list, t, x, y)
  }

  /** A link survives as a link, or the pair it belongs to gets marked. */
  lemma LinkedKept<T>(a: Arena<T>, eq: (T, T) -> bool, list: seq<nat>, t0: seq<seq<Cell>>, t1: seq<seq<Cell>>, x: nat, y: nat, k: nat)
    requires Linked(a, eq, list, t0, x, y, k) && Evolves(t0, t1) && x < y <= |t0|
    ensures Linked(a, eq, list, t1, x, y, k) || At(t1, x, y).Marked?
  {
    var j := GetTransition(a[list[y]].transitions, a[list[x]].transitions[k].symbol, eq).value;
    var i0 := IndexOf(list, a[list[x]].transitions[k].dest);
    var i1 := IndexOf(list, a[list[y]].transitions[j].dest);
    if a[list[x]].transitions[k].dest != a[list[y]].transitions[j].dest {
      assert Waits(t0, i0, i1, x, y);
      var u, v := if i0 < i1 then i0 else i1, if i0 < i1 then i1 else i0;
      assert CellAt(t0, i0, i1) == At(t0, u, v) && CellAt(t1, i0, i1) == At(t1, u, v);
      if At(t1, u, v).Marked? {
        assert DepsMarked(t1, At(t0, u, v).deps);
        var n :| 0 <= n < |At(t0, u, v).deps| && At(t0, u, v).deps[n] == Point(x, y);
      } else {
        assert Waits(t1, i0, i1, x, y);
      }
    }
  }

  lemma CheckedKept<T>(a: Arena<T>, eq: (T, T) -> bool, list: seq<nat>, t0: seq<seq<Cell>>, t1: seq<seq<Cell>>, x: nat, y: nat, k0: nat, k1: nat)
    requires Checked(a, eq, list, t0, x, y, k0, k1) && Evolves(t0, t1)
    ensures Checked(a, eq, list, t1, x, y, k0, k1)
  {
    if At(t1, x, y).Unmarked? {
      assert At(t0, x, y).Unmarked?;
      forall k | 0 <= k < k0 ensures Linked(a, eq, list, t1, x, y, k) {
        LinkedKept(a, eq, list, t0, t1, x, y, k);
      }
    }
  }

  lemma DoneKept<T>(a: Arena<T>, eq: (T, T) -> bool, list: seq<nat>, t0: seq<seq<Cell>>, t1: seq<seq<Cell>>, row: nat, col: nat)
    requires Done(a, eq, list, t0, row, col) && Evolves(t0, t1)
    ensures Done(a, eq, list, t1, row, col)
  {
    forall x, y | 0 <= x < y < |list| && (x < row || (x == row && y < col)) ensures Settled(a, eq, list, t1, x, y) {
      assert Settled(a, eq, list, t0, x, y);
      CheckedKept(a, eq, list, t0, t1, x, y, |a[list[x]].transitions|, |a[list[y]].transitions|);
    }
  }

  /** A state lacking the symbol of one of the other's transitions is told apart at once. */
  lemma LacksDist<T>(a: Arena<T>, eq: (T, T) -> bool, p: nat, q: nat, k: nat)
    requires p < |a| && q < |a| && k < |a[p].transitions|
    requires GetTransition(a[q].transitions, a[p].transitions[k].symbol, eq).None?
    ensures Distinguishable(a, eq, p, q) && Distinguishable(a, eq, q, p)
  {
    assert DistN(a, eq, p, q, 0) && DistN(a, eq, q, p, 0);
  }

  /** A marked cell, in either order of its coordinates, holds a distinguishable pair. */
  lemma MarkedDist<T>(a: Arena<T>, eq: (T, T) -> bool, list: seq<nat>, t: seq<seq<Cell>>, i: nat, j: nat)
    requires TableInv(a, eq, list, t) && i != j && i < |list| && j < |list| && CellAt(t, i, j).Marked?
    ensures Distinguishable(a, eq, list[i], list[j])
  {
    if i < j {
      assert CellSound(a, eq, list, i, j, At(t, i, j));
    } else {
      assert CellSound(a, eq, list, j, i, At(t, j, i));
      var n: nat :| DistN(a, eq, list[j], list[i], n);
      DistSym(a, eq, list[j], list[i], n);
    }
  }

  /** A pair that leads to a distinguishable pair is distinguishable. */
  lemma SuccDist<T>(a: Arena<T>, eq: (T, T) -> bool, p: nat, q: nat, k: nat, u: nat, v: nat)
    requires SuccVia(a, eq, p, q, k, u, v) && Distinguishable(a, eq, u, v)
    ensures Distinguishable(a, eq, p, q)
  {
    var n: nat :| DistN(a, eq, u, v, n);
    DistBack(a, eq, p, q, k, u, v, n);
  }

  /** `(row, col)` leads by its `k`-th transition to a marked pair, so it can be told apart too. */
  lemma SuccMarked<T>(a: Arena<T>, eq: (T, T) -> bool, list: seq<nat>, t: seq<seq<Cell>>, row: nat, col: nat, k: nat, j: nat)
    requires TableInv(a, eq, list, t) && ListClosed(a, list) && row < col < |list|
    requires k < |a[list[row]].transitions|
    requires GetTransition(a[list[col]].transitions, a[list[row]].transitions[k].symbol, eq) == Some(j)
    requires a[list[row]].transitions[k].dest != a[list[col]].transitions[j].dest
    requires CellAt(t, IndexOf(list, a[list[row]].transitions[k].dest), IndexOf(list, a[list[col]].transitions[j].dest)).Marked?
    ensures Distinguishable(a, eq, list[row], list[col])
  {
    var d0, d1 := a[list[row]].transitions[k].dest, a[list[col]].transitions[j].dest;
    MarkedDist(a, eq, list, t, IndexOf(list, d0), IndexOf(list, d1));
    assert SuccVia(a, eq, list[row], list[col], k, d0, d1);
    SuccDist(a, eq, list[row], list[col], k, d0, d1);
  }

  /** `add_to_list` on the successor pair links the `k`-th transition. */
  lemma LinkAdded<T>(a: Arena<T>, eq: (T, T) -> bool, list: seq<nat>, t: seq<seq<Cell>>, row: nat, col: nat, k: nat, j: nat, u: nat, v: nat)
    requires TableInv(a, eq, list, t) && ListClosed(a, list) && row < col < |list|
    requires k < |a[list[row]].transitions|
    requires GetTransition(a[list[col]].transitions, a[list[row]].transitions[k].symbol, eq) == Some(j)
    requires a[list[row]].transitions[k].dest != a[list[col]].transitions[j].dest
    requires var i0, i1 := IndexOf(list, a[list[row]].transitions[k].dest), IndexOf(list, a[list[col]].transitions[j].dest);
      u == (if i0 < i1 then i0 else i1) && v == (if i0 < i1 then i1 else i0)
    requires At(t, u, v).Unmarked?
    ensures TableInv(a, eq, list, WithDep(t, u, v, Point(row, col)))
    ensures Evolves(t, WithDep(t, u, v, Point(row, col)))
    ensures Linked(a, eq, list, WithDep(t, u, v, Point(row, col)), row, col, k)
  {
    var d0, d1 := a[list[row]].transitions[k].dest, a[list[col]].transitions[j].dest;
    var t' := WithDep(t, u, v, Point(row, col));
    assert SuccVia(a, eq, list[row], list[col], k, d0, d1);
    assert Feeds(a, eq, list, Point(row, col), u, v);
    AddKeeps(a, eq, list, t, u, v, Point(row, col));
    DepEvolves(t, u, v, Point(row, col));
    assert Waits(t', IndexOf(list, d0), IndexOf(list, d1), row, col);
  }

  /** A step that keeps a pair's progress and marks it leaves it checked further. */
  lemma MarkedChecked<T>(a: Arena<T>, eq: (T, T) -> bool, list: seq<nat>, t: seq<seq<Cell>>, x: nat, y: nat, k0: nat, k1: nat)
    requires Shape(t, |t| + 1) && x < y <= |t| && At(t, x, y).Marked?
    ensures Checked(a, eq, list, t, x, y, k0, k1)
  {
  }

  /** `mark_and_propagate(row, col)` for a pair found distinguishable: everything checked so far stays checked. */
  method MarkPair<T>(table: DistinctStatesTable<T>, row: nat, col: nat)
    requires table.Valid() && row < col < |table.allStates|
    requires Distinguishable(table.arena, table.eq, table.allStates[row], table.allStates[col])
    modifies table
    ensures table.Valid() && Evolves(old(table.cells), table.cells)
    ensures At(table.cells, row, col).Marked?
  {
    ghost var before := table.cells;
    table.MarkAndPropagate(row, col);
    DescendsEvolves(before, table.cells);
  }

  /** One transition of the `i == 0` pass: `t0` is the `k`-th transition of `allStates[row]`. */
  method ScanTransition<T>(table: DistinctStatesTable<T>, row: nat, col: nat, k: nat)
    requires table.Valid() && ListClosed(table.arena, table.allStates) && row < col < |table.allStates|
    requires k < |table.arena[table.allStates[row]].transitions|
    modifies table
    ensures table.Valid() && Evolves(old(table.cells), table.cells)
    ensures At(table.cells, row, col).Marked? || Linked(table.arena, table.eq, table.allStates, table.cells, row, col, k)
  {
    var q0, q1 := table.allStates[row], table.allStates[col];
    var t := table.arena[q0].transitions[k];
    var t1 := GetTransition(table.arena[q1].transitions, t.symbol, table.eq);
    if t1.None? {
      LacksDist(table.arena, table.eq, q0, q1, k);
      MarkPair(table, row, col);
    } else {
      var p0, p1 := t.dest, table.arena[q1].transitions[t1.value].dest;
      if p0 != p1 {
        var i0, i1 := IndexOf(table.allStates, p0), IndexOf(table.allStates, p1);
        if !table.IsMarked(i0, i1) {
          ghost var u, v := if i0 < i1 then i0 else i1, if i0 < i1 then i1 else i0;
          LinkAdded(table.arena, table.eq, table.allStates, table.cells, row, col, k, t1.value, u, v);
          table.AddToList(i0, i1, row, col);
        } else {
          SuccMarked(table.arena, table.eq, table.allStates, table.cells, row, col, k, t1.value);
          MarkPair(table, row, col);
        }
      } else {
        EvolvesRefl(table.cells);
        assert Linked(table.arena, table.eq, table.allStates, table.cells, row, col, k);
      }
    }
  }

  /** One transition of the `i == 1` pass: only a symbol `allStates[row]` lacks matters. */
  method ScanSecondTransition<T>(table: DistinctStatesTable<T>, row: nat, col: nat, k: nat)
    requires table.Valid() && row < col < |table.allStates|
    requires k < |table.arena[table.allStates[col]].transitions|
    modifies table
    ensures table.Valid() && Evolves(old(table.cells), table.cells)
    ensures At(table.cells, row, col).Marked? || Covered(table.arena, table.eq, table.allStates, row, col, k)
  {
    var q0, q1 := table.allStates[row], table.allStates[col];
    var t := table.arena[q1].transitions[k];
    if GetTransition(table.arena[q0].transitions, t.symbol, table.eq).None? {
      LacksDist(table.arena, table.eq, q1, q0, k);
      MarkPair(table, row, col);
    } else {
      EvolvesRefl(table.cells);
    }
  }

  /** A scanned transition extends what is checked, whatever else the step changed. */
  lemma LinkStep<T>(a: Arena<T>, eq: (T, T) -> bool, list: seq<nat>, t0: seq<seq<Cell>>, t1: seq<seq<Cell>>, x: nat, y: nat, k: nat)
    requires Checked(a, eq, list, t0, x, y, k, 0) && Evolves(t0, t1)
    requires At(t1, x, y).Marked? || Linked(a, eq, list, t1, x, y, k)
    ensures Checked(a, eq, list, t1, x, y, k + 1, 0)
  {
    CheckedKept(a, eq, list, t0, t1, x, y, k, 0);
  }

  lemma CoverStep<T>(a: Arena<T>, eq: (T, T) -> bool, list: seq<nat>, t0: seq<seq<Cell>>, t1: seq<seq<Cell>>, x: nat, y: nat, k0: nat, k: nat)
    requires Checked(a, eq, list, t0, x, y, k0, k) && Evolves(t0, t1)
    requires At(t1, x, y).Marked? || Covered(a, eq, list, x, y, k)
    ensures Checked(a, eq, list, t1, x, y, k0, k + 1)
  {
    CheckedKept(a, eq, list, t0, t1, x, y, k0, k);
  }

  /** The `i == 0` pass over the transitions of `allStates[row]`. */
  method ScanFirst<T>(table: DistinctStatesTable<T>, row: nat, col: nat)
    requires table.Valid() && ListClosed(table.arena, table.allStates) && row < col < |table.allStates|
    modifies table
    ensures table.Valid() && Evolves(old(table.cells), table.cells)
    ensures Checked(table.arena, table.eq, table.allStates, table.cells, row, col, |table.arena[table.allStates[row]].transitions|, 0)
  {
    ghost var start := table.cells;
    EvolvesRefl(start);
    for k := 0 to |table.arena[table.allStates[row]].transitions|
      invariant table.Valid() && Evolves(start, table.cells)
      invariant Checked(table.arena, table.eq, table.allStates, table.cells, row, col, k, 0)
    {
      ghost var mid := table.cells;
      ScanTransition(table, row, col, k);
      LinkStep(table.arena, table.eq, table.allStates, mid, table.cells, row, col, k);
      EvolvesTrans(start, mid, table.cells);
    }
  }

  /** The `i == 1` pass over the transitions of `allStates[col]`. */
  method ScanSecond<T>(table: DistinctStatesTable<T>, row: nat, col: nat)
    requires table.Valid() && row < col < |table.allStates|
    requires Checked(table.arena, table.eq, table.allStates, table.cells, row, col, |table.arena[table.allStates[row]].transitions|, 0)
    modifies table
    ensures table.Valid() && Evolves(old(table.cells), table.cells)
    ensures Settled(table.arena, table.eq, table.allStates, table.cells, row, col)
  {
    ghost var start := table.cells;
    ghost var k0 := |table.arena[table.allStates[row]].transitions|;
    EvolvesRefl(start);
    for k := 0 to |table.arena[table.allStates[col]].transitions|
      invariant table.Valid() && Evolves(start, table.cells)
      invariant Checked(table.arena, table.eq, table.allStates, table.cells, row, col, k0, k)
    {
      ghost var mid := table.cells;
      ScanSecondTransition(table, row, col, k);
      CoverStep(table.arena, table.eq, table.allStates, mid, table.cells, row, col, k0, k);
      EvolvesTrans(start, mid, table.cells);
    }
  }

  /** The body of the column loop: a pair not yet marked is analysed on both states' transitions. */
  method AnalyzePair<T>(table: DistinctStatesTable<T>, row: nat, col: nat)
    requires table.Valid() && ListClosed(table.arena, table.allStates) && row < col < |table.allStates|
    modifies table
    ensures table.Valid() && Evolves(old(table.cells), table.cells)
    ensures Settled(table.arena, table.eq, table.allStates, table.cells, row, col)
  {
    if !table.IsMarked(row, col) {
      ghost var start := table.cells;
      ScanFirst(table, row, col);
      ghost var mid := table.cells;
      ScanSecond(table, row, col);
      EvolvesTrans(start, mid, table.cells);
    } else {
      EvolvesRefl(table.cells);
    }
  }

  /** The column loop of row `row`. */
  method AnalyzeRow<T>(table: DistinctStatesTable<T>, row: nat)
    requires table.Valid() && ListClosed(table.arena, table.allStates) && row < |table.allStates| - 1
    requires Done(table.arena, table.eq, table.allStates, table.cells, row, row + 1)
    modifies table
    ensures table.Valid() && Done(table.arena, table.eq, table.allStates, table.cells, row + 1, row + 2)
  {
    for col := row + 1 to |table.allStates|
      invariant table.Valid() && Done(table.arena, table.eq, table.allStates, table.cells, row, col)
    {
      ghost var mid := table.cells;
      AnalyzePair(table, row, col);
      DoneKept(table.arena, table.eq, table.allStates, mid, table.cells, row, col);
    }
  }

  /**
   * The analysis of every pair of listed states. Afterwards a pair is marked
   * only if it can be told apart, and every unmarked pair agrees on finality,
   * on the symbols both define, and leads to the same state or to an unmarked
   * pair on every symbol.
   */
  method Analyze<T>(table: DistinctStatesTable<T>)
    requires table.Valid() && ListClosed(table.arena, table.allStates)
    modifies table
    ensures table.Valid() && Consistent(table.arena, table.eq, table.allStates, table.cells)
  {
    for row := 0 to |table.allStates| - 1
      invariant table.Valid() && Done(table.arena, table.eq, table.allStates, table.cells, row, row + 1)
    {
      AnalyzeRow(table, row);
    }
    DoneConsistent(table.arena, table.eq, table.allStates, table.cells);
  }

  /** The successors of an unmarked pair on a symbol: the same state, or an unmarked pair. */
  ghost predicate Agree(list: seq<nat>, t: seq<seq<Cell>>, d0: nat, d1: nat)
  {
    d0 == d1 || (d0 in list && d1 in list && Shape(t, |list|) && CellAt(t, IndexOf(list, d0), IndexOf(list, d1)).Unmarked?)
  }

  /** What the analysis guarantees about an unmarked pair `(x, y)`. */
  ghost predicate Closure<T>(a: Arena<T>, eq: (T, T) -> bool, list: seq<nat>, t: seq<seq<Cell>>, x: nat, y: nat)
    requires InArena(list, a) && x < |list| && y < |list|
  {
    (forall k :: 0 <= k < |a[list[x]].transitions| ==>
      match GetTransition(a[list[y]].transitions, a[list[x]].transitions[k].symbol, eq)
      case None => false
      case Some(j) => Agree(list, t, a[list[x]].transitions[k].dest, a[list[y]].transitions[j].dest)) &&
    (forall k :: 0 <= k < |a[list[y]].transitions| ==> Covered(a, eq, list, x, y, k))
  }

  /** Every unmarked pair of the table has the closure property. */
  ghost predicate Consistent<T>(a: Arena<T>, eq: (T, T) -> bool, list: seq<nat>, t: seq<seq<Cell>>)
  {
    InArena(list, a) && Shape(t, |list|) &&
    forall x, y :: 0 <= x < y < |list| && At(t, x, y).Unmarked? ==> Closure(a, eq, list, t, x, y)
  }

  lemma DoneConsistent<T>(a: Arena<T>, eq: (T, T) -> bool, list: seq<nat>, t: seq<seq<Cell>>)
    requires TableInv(a, eq, list, t) && |list| >= 1 && Done(a, eq, list, t, |list| - 1, |list|)
    ensures Consistent(a, eq, list, t)
  {
    forall x, y | 0 <= x < y < |list| && At(t, x, y).Unmarked? ensures Closure(a, eq, list, t, x, y) {
      assert Settled(a, eq, list, t, x, y);
      forall k | 0 <= k < |a[list[x]].transitions|
        ensures match GetTransition(a[list[y]].transitions, a[list[x]].transitions[k].symbol, eq)
          case None => false
          case Some(j) => Agree(list, t, a[list[x]].transitions[k].dest, a[list[y]].transitions[j].dest)
      {
        assert Linked(a, eq, list, t, x, y, k);
      }
    }
  }

  // ---------------------------------------------------------------------
  // The table is exact on a deterministic automaton
  // ---------------------------------------------------------------------

  /** No two transitions of a state read equal symbols. */
  ghost predicate SymbolsDistinct<T>(ts: seq<Transition<T>>, eq: (T, T) -> bool)
  {
    forall j, k :: 0 <= j < k < |ts| ==> !eq(ts[k].symbol, ts[j].symbol)
  }

  /** Every listed state is deterministic, as determinization leaves them. */
  ghost predicate DeterministicList<T>(a: Arena<T>, eq: (T, T) -> bool, list: seq<nat>)
  {
    InArena(list, a) && forall i :: 0 <= i < |list| ==> SymbolsDistinct(a[list[i]].transitions, eq)
  }

  /** In a deterministic state the transition `getTransition` finds for a symbol equal to the `i`-th one's is the `i`-th. */
  lemma OnlyMatch<T(!new)>(ts: seq<Transition<T>>, eq: (T, T) -> bool, x: T, i: nat)
    requires Determinization.Equivalence(eq) && SymbolsDistinct(ts, eq) && i < |ts| && eq(ts[i].symbol, x)
    ensures GetTransition(ts, x, eq) == Some(i)
  {
    var r := GetTransition(ts, x, eq);
    if r.value < i {
      assert eq(x, ts[r.value].symbol);
      Determinization.EqTrans(eq, ts[i].symbol, x, ts[r.value].symbol);
      assert false;
    }
  }

  /** Two listed states the table has not told apart: the same state, or an unmarked pair. */
  ghost predicate Related(list: seq<nat>, t: seq<seq<Cell>>, p: nat, q: nat)
  {
    p in list && q in list && (p == q || (Shape(t, |list|) && CellAt(t, IndexOf(list, p), IndexOf(list, q)).Unmarked?))
  }

  lemma RelatedSym(list: seq<nat>, t: seq<seq<Cell>>, p: nat, q: nat)
    requires Related(list, t, p, q)
    ensures Related(list, t, q, p)
  {
    if p != q {
      CellAtSymmetric(t, IndexOf(list, p), IndexOf(list, q));
    }
  }

  /** Facts shared by the lemmas below: the table is complete and sound, the listed states deterministic. */
  ghost predicate Exactness<T(!new)>(a: Arena<T>, eq: (T, T) -> bool, list: seq<nat>, t: seq<seq<Cell>>)
  {
    Determinization.Equivalence(eq) && TableInv(a, eq, list, t) && Consistent(a, eq, list, t) &&
    ListClosed(a, list) && DeterministicList(a, eq, list)
  }

  lemma RelatedFinal<T(!new)>(a: Arena<T>, eq: (T, T) -> bool, list: seq<nat>, t: seq<seq<Cell>>, p: nat, q: nat)
    requires Exactness(a, eq, list, t) && Related(list, t, p, q)
    ensures a[p].isFinal == a[q].isFinal
  {
    if p != q {
      var x, y := IndexOf(list, p), IndexOf(list, q);
      if x < y {
        assert CellAgrees(a, list, x, y, At(t, x, y));
      } else {
        assert CellAgrees(a, list, y, x, At(t, y, x));
      }
    }
  }

  /** The destination of a listed state's transition is listed. */
  lemma DestListed<T>(a: Arena<T>, list: seq<nat>, p: nat, k: nat)
    requires ListClosed(a, list) && p in list && k < |a[p].transitions|
    ensures a[p].transitions[k].dest in list
  {
    var i :| 0 <= i < |list| && list[i] == p;
    assert a[list[i]].transitions[k].dest in list;
  }

  /** Each transition of `p` has its counterpart in a related `q`, and the two lead to related states. */
  lemma Forward<T(!new)>(a: Arena<T>, eq: (T, T) -> bool, list: seq<nat>, t: seq<seq<Cell>>, p: nat, q: nat, k: nat)
    requires Exactness(a, eq, list, t) && Related(list, t, p, q) && k < |a[p].transitions|
    ensures match GetTransition(a[q].transitions, a[p].transitions[k].symbol, eq)
      case None => false
      case Some(j) => Related(list, t, a[p].transitions[k].dest, a[q].transitions[j].dest)
  {
    var ps, qs := a[p].transitions, a[q].transitions;
    var x, y := IndexOf(list, p), IndexOf(list, q);
    DestListed(a, list, p, k);
    if p == q {
      OnlyMatch(ps, eq, ps[k].symbol, k);
    } else if x < y {
      assert Closure(a, eq, list, t, x, y);
      var j := GetTransition(qs, ps[k].symbol, eq).value;
      DestListed(a, list, q, j);
      assert Agree(list, t, ps[k].dest, qs[j].dest);
    } else {
      assert Closure(a, eq, list, t, y, x);
      assert Covered(a, eq, list, y, x, k);
      var j := GetTransition(qs, ps[k].symbol, eq).value;
      DestListed(a, list, q, j);
      var i := GetTransition(ps, qs[j].symbol, eq).value;
      assert Agree(list, t, qs[j].dest, ps[i].dest);
      assert eq(ps[k].symbol, qs[j].symbol);
      OnlyMatch(ps, eq, qs[j].symbol, k);
      RelatedSym(list, t, qs[j].dest, ps[k].dest);
    }
  }

  /** Related states agree on finality, and neither lacks a symbol the other reads. */
  lemma NoLacks<T(!new)>(a: Arena<T>, eq: (T, T) -> bool, list: seq<nat>, t: seq<seq<Cell>>, p: nat, q: nat)
    requires Exactness(a, eq, list, t) && Related(list, t, p, q)
    ensures p < |a| && q < |a| && a[p].isFinal == a[q].isFinal && !Lacks(a, eq, p, q) && !Lacks(a, eq, q, p)
  {
    assert InArena(list, a);
    RelatedSym(list, t, p, q);
    RelatedFinal(a, eq, list, t, p, q);
    forall k | 0 <= k < |a[p].transitions| ensures GetTransition(a[q].transitions, a[p].transitions[k].symbol, eq).Some? {
      Forward(a, eq, list, t, p, q, k);
    }
    forall k | 0 <= k < |a[q].transitions| ensures GetTransition(a[p].transitions, a[q].transitions[k].symbol, eq).Some? {
      Forward(a, eq, list, t, q, p, k);
    }
  }

  /** The pair a related pair leads to by a transition of its first state is related. */
  lemma SuccForward<T(!new)>(a: Arena<T>, eq: (T, T) -> bool, list: seq<nat>, t: seq<seq<Cell>>, p: nat, q: nat, k: nat, u: nat, v: nat)
    requires Exactness(a, eq, list, t) && Related(list, t, p, q) && SuccVia(a, eq, p, q, k, u, v)
    ensures Related(list, t, u, v)
  {
    Forward(a, eq, list, t, p, q, k);
  }

  /** Related states lead to related states. */
  lemma SuccRelated<T(!new)>(a: Arena<T>, eq: (T, T) -> bool, list: seq<nat>, t: seq<seq<Cell>>, p: nat, q: nat, k: nat, u: nat, v: nat)
    requires Exactness(a, eq, list, t) && Related(list, t, p, q)
    requires SuccVia(a, eq, p, q, k, u, v) || SuccVia(a, eq, q, p, k, u, v)
    ensures Related(list, t, u, v)
  {
    if SuccVia(a, eq, p, q, k, u, v) {
      SuccForward(a, eq, list, t, p, q, k, u, v);
    } else {
      RelatedSym(list, t, p, q);
      SuccForward(a, eq, list, t, q, p, k, u, v);
    }
  }

  /** Related states cannot be told apart within any number of steps. */
  lemma {:induction false} RelatedNotDist<T(!new)>(a: Arena<T>, eq: (T, T) -> bool, list: seq<nat>, t: seq<seq<Cell>>, p: nat, q: nat, n: nat)
    requires Exactness(a, eq, list, t) && Related(list, t, p, q)
    ensures !DistN(a, eq, p, q, n)
    decreases n
  {
    NoLacks(a, eq, list, t, p, q);
    if n > 0 && exists k: nat, u: nat, v: nat :: (SuccVia(a, eq, p, q, k, u, v) || SuccVia(a, eq, q, p, k, u, v)) && DistN(a, eq, u, v, n - 1) {
      var k: nat, u: nat, v: nat :| (SuccVia(a, eq, p, q, k, u, v) || SuccVia(a, eq, q, p, k, u, v)) && DistN(a, eq, u, v, n - 1);
      SuccRelated(a, eq, list, t, p, q, k, u, v);
      RelatedNotDist(a, eq, list, t, u, v, n - 1);
      assert false;
    }
  }

  /**
   * After the analysis of a deterministic automaton whose list has no
   * repeats, a cell is marked exactly when its two states can be told apart.
   */
  lemma MarkedIffDistinguishable<T(!new)>(a: Arena<T>, eq: (T, T) -> bool, list: seq<nat>, t: seq<seq<Cell>>, x: nat, y: nat)
    requires Exactness(a, eq, list, t) && Distinct(list) && x < y < |list|
    ensures At(t, x, y).Marked? <==> Distinguishable(a, eq, list[x], list[y])
  {
    if At(t, x, y).Marked? {
      assert CellSound(a, eq, list, x, y, At(t, x, y));
    } else {
      assert IndexOf(list, list[x]) == x && IndexOf(list, list[y]) == y;
      assert Related(list, t, list[x], list[y]);
      forall n: nat ensures !DistN(a, eq, list[x], list[y], n) {
        RelatedNotDist(a, eq, list, t, list[x], list[y], n);
      }
    }
  }

  // ---------------------------------------------------------------------
  // Merging the pairs left unmarked
  // ---------------------------------------------------------------------

  /** A canonical snapshot lists a state and only closed, listed destinations. */
  lemma CanonicalListClosed<T>(g: Snapshot<T>, m: map<nat, nat>, stamp: map<nat, nat>, clock: nat)
    requires Canonical(g, m, stamp, clock)
    ensures ListClosed(g.states, g.allStates) && |g.allStates| >= 1
  {
    forall i, k | 0 <= i < |g.allStates| && 0 <= k < |g.states[g.allStates[i]].transitions|
      ensures g.states[g.allStates[i]].transitions[k].dest in g.allStates
    {
      assert g.allStates[i] in g.allStates;
      assert LeadsInto(g.states[g.allStates[i]].transitions, set y | y in g.allStates);
    }
  }

  lemma CoarserRefl(m: map<nat, nat>, stamp: map<nat, nat>, clock: nat)
    requires Ranked(m, stamp, clock)
    ensures Coarser(m, stamp, clock, m, stamp, clock)
  {
    forall x ensures Root(m, stamp, clock, x) == Root(m, stamp, clock, Root(m, stamp, clock, x)) {
      RootFixed(m, stamp, clock, Root(m, stamp, clock, x));
    }
  }

  lemma CoarserTrans(m2: map<nat, nat>, stamp2: map<nat, nat>, clock2: nat, m1: map<nat, nat>, stamp1: map<nat, nat>, clock1: nat,
                     m0: map<nat, nat>, stamp0: map<nat, nat>, clock0: nat)
    requires Coarser(m2, stamp2, clock2, m1, stamp1, clock1) && Coarser(m1, stamp1, clock1, m0, stamp0, clock0)
    ensures Coarser(m2, stamp2, clock2, m0, stamp0, clock0)
  {
    forall x ensures Root(m2, stamp2, clock2, x) == Root(m2, stamp2, clock2, Root(m0, stamp0, clock0, x)) {
      var r0 := Root(m0, stamp0, clock0, x);
      assert Root(m2, stamp2, clock2, x) == Root(m2, stamp2, clock2, Root(m1, stamp1, clock1, x));
      assert Root(m1, stamp1, clock1, x) == Root(m1, stamp1, clock1, r0);
      assert Root(m2, stamp2, clock2, r0) == Root(m2, stamp2, clock2, Root(m1, stamp1, clock1, r0));
    }
  }

  lemma TracksTrans(list0: seq<nat>, list1: seq<nat>, list2: seq<nat>, m1: map<nat, nat>, stamp1: map<nat, nat>, clock1: nat,
                    m2: map<nat, nat>, stamp2: map<nat, nat>, clock2: nat)
    requires Tracks(list0, list1, m1, stamp1, clock1) && Tracks(list1, list2, m2, stamp2, clock2)
    requires Coarser(m2, stamp2, clock2, m1, stamp1, clock1)
    ensures Tracks(list0, list2, m2, stamp2, clock2)
  {
    forall i | 0 <= i < |list0| ensures list2[i] == Root(m2, stamp2, clock2, list0[i]) {
      assert list2[i] == Root(m2, stamp2, clock2, list1[i]);
      assert Root(m2, stamp2, clock2, list0[i]) == Root(m2, stamp2, clock2, Root(m1, stamp1, clock1, list0[i]));
    }
  }

  /** Every unmarked pair before `(row, col)` in row-major order has one representative. */
  ghost predicate JoinedBefore(cells: seq<seq<Cell>>, list0: seq<nat>, m: map<nat, nat>, stamp: map<nat, nat>, clock: nat, row: nat, col: nat)
  {
    Ranked(m, stamp, clock) && Shape(cells, |list0|) &&
    forall x, y :: 0 <= x < y < |list0| && (x < row || (x == row && y < col)) && At(cells, x, y).Unmarked? ==>
      Root(m, stamp, clock, list0[x]) == Root(m, stamp, clock, list0[y])
  }

  /** Later merges keep joined pairs joined. */
  lemma JoinedKept(cells: seq<seq<Cell>>, list0: seq<nat>, m: map<nat, nat>, stamp: map<nat, nat>, clock: nat,
                   m': map<nat, nat>, stamp': map<nat, nat>, clock': nat, row: nat, col: nat)
    requires JoinedBefore(cells, list0, m, stamp, clock, row, col) && Coarser(m', stamp', clock', m, stamp, clock)
    ensures JoinedBefore(cells, list0, m', stamp', clock', row, col)
  {
    forall x, y | 0 <= x < y < |list0| && (x < row || (x == row && y < col)) && At(cells, x, y).Unmarked?
      ensures Root(m', stamp', clock', list0[x]) == Root(m', stamp', clock', list0[y])
    {
      assert Root(m', stamp', clock', list0[x]) == Root(m', stamp', clock', Root(m, stamp, clock, list0[x]));
      assert Root(m', stamp', clock', list0[y]) == Root(m', stamp', clock', Root(m, stamp, clock, list0[y]));
    }
  }

  /** The representative of a listed position, read back from the tracked list. */
  lemma TrackedRoot(list0: seq<nat>, list: seq<nat>, m: map<nat, nat>, stamp: map<nat, nat>, clock: nat, i: nat)
    requires Tracks(list0, list, m, stamp, clock) && i < |list0|
    ensures Root(m, stamp, clock, list[i]) == Root(m, stamp, clock, list0[i]) == list[i]
  {
    RootFixed(m, stamp, clock, list[i]);
  }

  /** Column `col` needs no merge when its representative is already the row's, or its cell is marked. */
  lemma JoinSkip(cells: seq<seq<Cell>>, list0: seq<nat>, list: seq<nat>, m: map<nat, nat>, stamp: map<nat, nat>, clock: nat,
                 row: nat, col: nat, q0: nat, q1: nat)
    requires JoinedBefore(cells, list0, m, stamp, clock, row, col) && Tracks(list0, list, m, stamp, clock)
    requires row < col < |list0| && Root(m, stamp, clock, q0) == Root(m, stamp, clock, list0[row])
    requires q1 == Root(m, stamp, clock, list[col])
    requires q0 == q1 || At(cells, row, col).Marked?
    ensures JoinedBefore(cells, list0, m, stamp, clock, row, col + 1)
  {
    TrackedRoot(list0, list, m, stamp, clock, col);
    RootFixed(m, stamp, clock, q1);
  }

  /** Queueing the pair `(q0, q1)` of representatives of listed states. */
  lemma Enqueue<T>(g: Snapshot<T>, m: map<nat, nat>, stamp: map<nat, nat>, clock: nat, q0: nat, q1: nat)
    requires Canonical(g, m, stamp, clock) && g.queue == []
    requires Root(m, stamp, clock, q0) in g.allStates && Root(m, stamp, clock, q1) in g.allStates
    ensures Canonical(Snapshot(g.states, g.initial, g.allStates, [q0, q1]), m, stamp, clock)
  {
  }

  /** After merging the row's representative with column `col`'s, the pair is joined and earlier pairs stay so. */
  lemma JoinDrained(cells: seq<seq<Cell>>, list0: seq<nat>, list: seq<nat>, list2: seq<nat>,
                    m: map<nat, nat>, stamp: map<nat, nat>, clock: nat, m2: map<nat, nat>, stamp2: map<nat, nat>, clock2: nat,
                    row: nat, col: nat, q0: nat, q1: nat)
    requires JoinedBefore(cells, list0, m, stamp, clock, row, col) && Tracks(list0, list, m, stamp, clock)
    requires Tracks(list, list2, m2, stamp2, clock2) && Coarser(m2, stamp2, clock2, m, stamp, clock)
    requires row < col < |list0| && Root(m, stamp, clock, q0) == Root(m, stamp, clock, list0[row])
    requires q1 == Root(m, stamp, clock, list[col]) && Root(m2, stamp2, clock2, q0) == Root(m2, stamp2, clock2, q1)
    ensures Tracks(list0, list2, m2, stamp2, clock2) && JoinedBefore(cells, list0, m2, stamp2, clock2, row, col + 1)
    ensures Root(m2, stamp2, clock2, q0) == Root(m2, stamp2, clock2, list0[row])
  {
    TracksTrans(list0, list, list2, m, stamp, clock, m2, stamp2, clock2);
    JoinedKept(cells, list0, m, stamp, clock, m2, stamp2, clock2, row, col);
    NewPairJoined(list0, list, m, stamp, clock, m2, stamp2, clock2, row, col, q0, q1);
    JoinExtend(cells, list0, m2, stamp2, clock2, row, col);
  }

  /** The merged pair's two listed states have one representative, that of `q0`. */
  lemma NewPairJoined(list0: seq<nat>, list: seq<nat>, m: map<nat, nat>, stamp: map<nat, nat>, clock: nat,
                      m2: map<nat, nat>, stamp2: map<nat, nat>, clock2: nat, row: nat, col: nat, q0: nat, q1: nat)
    requires Tracks(list0, list, m, stamp, clock) && Coarser(m2, stamp2, clock2, m, stamp, clock)
    requires row < col < |list0| && Root(m, stamp, clock, q0) == Root(m, stamp, clock, list0[row])
    requires q1 == Root(m, stamp, clock, list[col]) && Root(m2, stamp2, clock2, q0) == Root(m2, stamp2, clock2, q1)
    ensures Root(m2, stamp2, clock2, list0[row]) == Root(m2, stamp2, clock2, list0[col])
    ensures Root(m2, stamp2, clock2, q0) == Root(m2, stamp2, clock2, list0[row])
  {
    TrackedRoot(list0, list, m, stamp, clock, col);
    RootFixed(m, stamp, clock, list[col]);
    assert Root(m2, stamp2, clock2, q0) == Root(m2, stamp2, clock2, Root(m, stamp, clock, q0));
    assert Root(m2, stamp2, clock2, list0[row]) == Root(m2, stamp2, clock2, Root(m, stamp, clock, list0[row]));
    assert Root(m2, stamp2, clock2, list0[col]) == Root(m2, stamp2, clock2, Root(m, stamp, clock, list0[col]));
  }

  lemma JoinExtend(cells: seq<seq<Cell>>, list0: seq<nat>, m: map<nat, nat>, stamp: map<nat, nat>, clock: nat, row: nat, col: nat)
    requires JoinedBefore(cells, list0, m, stamp, clock, row, col) && row < col < |list0|
    requires Root(m, stamp, clock, list0[row]) == Root(m, stamp, clock, list0[col])
    ensures JoinedBefore(cells, list0, m, stamp, clock, row, col + 1)
  {
  }

  // ---------------------------------------------------------------------
  // Pairs left unmarked accept the same suffixes
  // ---------------------------------------------------------------------

  /** Acceptance depends only on the symbols still to be read. */
  lemma {:induction false} AcceptsShift<T>(a: Arena<T>, onlyFinal: bool, s: nat, sq: seq<T>, i: nat, sq2: seq<T>, i2: nat,
                                          eq: (T, T) -> bool)
    requires Closed(a) && s < |a| && i <= |sq| && i2 <= |sq2| && sq[i..] == sq2[i2..]
    requires Accepts(a, onlyFinal, s, sq, i, eq)
    ensures Accepts(a, onlyFinal, s, sq2, i2, eq)
    decreases |sq| - i
  {
    assert |sq| - i == |sq2| - i2;
    if i < |sq| {
      assert sq[i] == sq[i..][0] == sq2[i2..][0] == sq2[i2];
      assert sq[i + 1..] == sq[i..][1..] == sq2[i2..][1..] == sq2[i2 + 1..];
      var k := Determinization.ViaExists(a, onlyFinal, s, sq, i, 0, eq);
      AcceptsShift(a, onlyFinal, a[s].transitions[k].dest, sq, i + 1, sq2, i2 + 1, eq);
      ViaWitness(a, onlyFinal, s, sq2, i2, 0, k, eq);
    }
  }

  lemma ShiftIff<T>(a: Arena<T>, onlyFinal: bool, s: nat, sq: seq<T>, i: nat, sq2: seq<T>, i2: nat, eq: (T, T) -> bool)
    requires Closed(a) && s < |a| && i <= |sq| && i2 <= |sq2| && sq[i..] == sq2[i2..]
    ensures Accepts(a, onlyFinal, s, sq, i, eq) <==> Accepts(a, onlyFinal, s, sq2, i2, eq)
  {
    if Accepts(a, onlyFinal, s, sq, i, eq) {
      AcceptsShift(a, onlyFinal, s, sq, i, sq2, i2, eq);
    }
    if Accepts(a, onlyFinal, s, sq2, i2, eq) {
      AcceptsShift(a, onlyFinal, s, sq2, i2, sq, i, eq);
    }
  }

  /** A deterministic state reads a symbol equal to that of its transition `j` through transition `j` only. */
  lemma DetStep<T(!new)>(a: Arena<T>, onlyFinal: bool, s: nat, sq: seq<T>, i: nat, j: nat, eq: (T, T) -> bool)
    requires Determinization.Equivalence(eq) && Closed(a) && s < |a| && i < |sq|
    requires SymbolsDistinct(a[s].transitions, eq) && j < |a[s].transitions| && eq(a[s].transitions[j].symbol, sq[i])
    ensures Accepts(a, onlyFinal, s, sq, i, eq) <==> Accepts(a, onlyFinal, a[s].transitions[j].dest, sq, i + 1, eq)
  {
    if Accepts(a, onlyFinal, s, sq, i, eq) {
      var k := Determinization.ViaExists(a, onlyFinal, s, sq, i, 0, eq);
      OnlyMatch(a[s].transitions, eq, sq[i], k);
      OnlyMatch(a[s].transitions, eq, sq[i], j);
    }
    if Accepts(a, onlyFinal, a[s].transitions[j].dest, sq, i + 1, eq) {
      ViaWitness(a, onlyFinal, s, sq, i, 0, j, eq);
    }
  }

  lemma SameLanguageTrans<T(!new)>(a0: Arena<T>, x: nat, y: nat, z: nat, eq: (T, T) -> bool)
    requires SameLanguage(a0, x, y, eq) && SameLanguage(a0, y, z, eq)
    ensures SameLanguage(a0, x, z, eq)
  {
    forall onlyFinal: bool, sq: seq<T>, i: nat | i <= |sq|
      ensures Accepts(a0, onlyFinal, x, sq, i, eq) <==> Accepts(a0, onlyFinal, z, sq, i, eq)
    {
      assert Accepts(a0, onlyFinal, x, sq, i, eq) <==> Accepts(a0, onlyFinal, y, sq, i, eq);
      assert Accepts(a0, onlyFinal, y, sq, i, eq) <==> Accepts(a0, onlyFinal, z, sq, i, eq);
    }
  }

  /** Deterministic states that accept the same suffixes lead, on equal symbols, to states that do too. */
  lemma SameSucc<T(!new)>(a0: Arena<T>, x: nat, y: nat, j: nat, k: nat, eq: (T, T) -> bool)
    requires Determinization.Equivalence(eq) && SameLanguage(a0, x, y, eq)
    requires SymbolsDistinct(a0[x].transitions, eq) && SymbolsDistinct(a0[y].transitions, eq)
    requires j < |a0[x].transitions| && k < |a0[y].transitions|
    requires eq(a0[x].transitions[j].symbol, a0[y].transitions[k].symbol)
    ensures SameLanguage(a0, a0[x].transitions[j].dest, a0[y].transitions[k].dest, eq)
  {
    var u, v := a0[x].transitions[j].dest, a0[y].transitions[k].dest;
    forall onlyFinal: bool, sq: seq<T>, i: nat | i <= |sq|
      ensures Accepts(a0, onlyFinal, u, sq, i, eq) <==> Accepts(a0, onlyFinal, v, sq, i, eq)
    {
      var w := [a0[x].transitions[j].symbol] + sq[i..];
      assert w[1..] == sq[i..];
      assert eq(a0[y].transitions[k].symbol, w[0]);
      DetStep(a0, onlyFinal, x, w, 0, j, eq);
      DetStep(a0, onlyFinal, y, w, 0, k, eq);
      assert Accepts(a0, onlyFinal, x, w, 0, eq) <==> Accepts(a0, onlyFinal, y, w, 0, eq);
      ShiftIff(a0, onlyFinal, u, w, 1, sq, i, eq);
      ShiftIff(a0, onlyFinal, v, w, 1, sq, i, eq);
    }
  }

  /** States of `L0` that accept the same suffixes. */
  ghost function Indistinct<T(!new)>(a0: Arena<T>, L0: set<nat>, eq: (T, T) -> bool): (nat, nat) -> bool
  {
    (x: nat, y: nat) => x in L0 && y in L0 && SameLanguage(a0, x, y, eq)
  }

  lemma ListedDeterministic<T>(a0: Arena<T>, eq: (T, T) -> bool, list0: seq<nat>, x: nat)
    requires DeterministicList(a0, eq, list0) && x in list0
    ensures x < |a0| && SymbolsDistinct(a0[x].transitions, eq)
  {
    var i :| 0 <= i < |list0| && list0[i] == x;
  }

  /**
   * On a deterministic automaton whose list is closed, accepting the same
   * suffixes is a congruence: merging two such states forces only merges of
   * states that accept the same suffixes too.
   */
  lemma IndistinctCongruence<T(!new)>(a0: Arena<T>, eq: (T, T) -> bool, list0: seq<nat>)
    requires Determinization.Equivalence(eq) && Closed(a0) && ListClosed(a0, list0) && DeterministicList(a0, eq, list0)
    ensures Congruence(a0, Elements(list0), Indistinct(a0, Elements(list0), eq), eq)
  {
    var L0, rel := Elements(list0), Indistinct(a0, Elements(list0), eq);
    forall x | x in L0 ensures rel(x, x) {
      ListedDeterministic(a0, eq, list0, x);
    }
    forall x: nat, y: nat, z: nat | RelChain(rel, x, y, z) ensures rel(x, z) {
      SameLanguageTrans(a0, x, y, z, eq);
    }
    forall x: nat, y: nat, j: nat, k: nat | Merging.Linked(a0, rel, eq, x, y, j, k)
      ensures rel(a0[x].transitions[j].dest, a0[y].transitions[k].dest)
    {
      ListedDeterministic(a0, eq, list0, x);
      ListedDeterministic(a0, eq, list0, y);
      SameSucc(a0, x, y, j, k, eq);
      DestListed(a0, list0, x, j);
      DestListed(a0, list0, y, k);
    }
  }

  /** A state the table relates to an accepting state accepts the same suffix. */
  lemma {:induction false} RelatedAccepts<T(!new)>(a: Arena<T>, eq: (T, T) -> bool, list: seq<nat>, t: seq<seq<Cell>>,
                                                   p: nat, q: nat, onlyFinal: bool, sq: seq<T>, i: nat)
    requires Exactness(a, eq, list, t) && Closed(a) && Related(list, t, p, q) && p < |a| && q < |a| && i <= |sq|
    requires Accepts(a, onlyFinal, p, sq, i, eq)
    ensures Accepts(a, onlyFinal, q, sq, i, eq)
    decreases |sq| - i
  {
    NoLacks(a, eq, list, t, p, q);
    if i < |sq| {
      var k := Determinization.ViaExists(a, onlyFinal, p, sq, i, 0, eq);
      Forward(a, eq, list, t, p, q, k);
      var j := GetTransition(a[q].transitions, a[p].transitions[k].symbol, eq).value;
      Determinization.EqTrans(eq, a[q].transitions[j].symbol, a[p].transitions[k].symbol, sq[i]);
      RelatedAccepts(a, eq, list, t, a[p].transitions[k].dest, a[q].transitions[j].dest, onlyFinal, sq, i + 1);
      ViaWitness(a, onlyFinal, q, sq, i, 0, j, eq);
    }
  }

  /**
   * After the analysis of a deterministic automaton whose list has no
   * repeats, the two states of an unmarked pair accept the same suffixes.
   */
  lemma UnmarkedAlike<T(!new)>(a: Arena<T>, eq: (T, T) -> bool, list: seq<nat>, t: seq<seq<Cell>>, x: nat, y: nat)
    requires Exactness(a, eq, list, t) && Closed(a) && Distinct(list) && x < y < |list| && At(t, x, y).Unmarked?
    ensures SameLanguage(a, list[x], list[y], eq)
  {
    assert IndexOf(list, list[x]) == x && IndexOf(list, list[y]) == y;
    assert Related(list, t, list[x], list[y]);
    RelatedSym(list, t, list[x], list[y]);
    forall onlyFinal: bool, sq: seq<T>, i: nat | i <= |sq|
      ensures Accepts(a, onlyFinal, list[x], sq, i, eq) <==> Accepts(a, onlyFinal, list[y], sq, i, eq)
    {
      if Accepts(a, onlyFinal, list[x], sq, i, eq) {
        RelatedAccepts(a, eq, list, t, list[x], list[y], onlyFinal, sq, i);
      }
      if Accepts(a, onlyFinal, list[y], sq, i, eq) {
        RelatedAccepts(a, eq, list, t, list[y], list[x], onlyFinal, sq, i);
      }
    }
  }

  // ---------------------------------------------------------------------
  // The merge, against the automaton it started from
  // ---------------------------------------------------------------------

  /** The analysed table of a deterministic automaton whose list has no repeats. */
  ghost predicate Exact<T(!new)>(a0: Arena<T>, eq: (T, T) -> bool, list0: seq<nat>, t: seq<seq<Cell>>)
  {
    Exactness(a0, eq, list0, t) && Distinct(list0)
  }

  /**
   * How the merge phase stands to the automaton `(a0, i0, list0)` it started
   * from with the analysed table `t`: each listed state is the merge of the
   * old states it stands for, and, when the table is exact, only states that
   * accept the same suffixes share a representative.
   */
  ghost predicate MergedWithin<T(!new)>(a0: Arena<T>, i0: nat, list0: seq<nat>, t: seq<seq<Cell>>,
                                        a: Arena<T>, initial: nat, list: seq<nat>,
                                        m: map<nat, nat>, stamp: map<nat, nat>, clock: nat, eq: (T, T) -> bool)
  {
    History(a0, Elements(list0), i0, a, initial, list, m, stamp, clock, eq) &&
    (Exact(a0, eq, list0, t) ==> ClassesWithin(Elements(list0), Indistinct(a0, Elements(list0), eq), m, stamp, clock))
  }

  /** `pairs_to_merge.add(q0); pairs_to_merge.add(q1); merge(...)` on the emptied queue. */
  method DrainPair<T(!new)>(a: Arena<T>, initial: nat, list: seq<nat>, q0: nat, q1: nat,
                            m: map<nat, nat>, ghost stamp: map<nat, nat>, ghost clock: nat, eq: (T, T) -> bool,
                            ghost a0: Arena<T>, ghost L0: set<nat>, ghost i0: nat)
    returns (a': Arena<T>, initial': nat, list': seq<nat>, m': map<nat, nat>, ghost stamp': map<nat, nat>, ghost clock': nat)
    requires Canonical(Snapshot(a, initial, list, [q0, q1]), m, stamp, clock)
    requires Determinization.Equivalence(eq) && History(a0, L0, i0, a, initial, list, m, stamp, clock, eq)
    ensures |a'| == |a| && Canonical(Snapshot(a', initial', list', []), m', stamp', clock')
    ensures Coarser(m', stamp', clock', m, stamp, clock) && Tracks(list, list', m', stamp', clock')
    ensures Root(m', stamp', clock', q0) == Root(m', stamp', clock', q1)
    ensures History(a0, L0, i0, a', initial', list', m', stamp', clock', eq)
    ensures PairWithin(a0, L0, eq, q0, q1, m, stamp, clock, m', stamp', clock')
  {
    var queue := [q0, q1];
    a', initial', list', m', stamp', clock' := DrainAll(a, initial, list, queue, m, stamp, clock, eq, a0, L0, i0);
    assert queue[0] == q0 && queue[1] == q1;
    DrainedPair(a0, L0, eq, q0, q1, m, stamp, clock, m', stamp', clock');
  }

  /**
   * On an exact table, merging the row's representative `q0` with column
   * `col`'s representative `q1` of an unmarked pair keeps every class within
   * the states that accept the same suffixes.
   */
  lemma CellWithin<T(!new)>(a0: Arena<T>, i0: nat, list0: seq<nat>, t: seq<seq<Cell>>, a: Arena<T>, initial: nat, list: seq<nat>,
                            m: map<nat, nat>, stamp: map<nat, nat>, clock: nat, m': map<nat, nat>, stamp': map<nat, nat>, clock': nat,
                            row: nat, col: nat, q0: nat, q1: nat, eq: (T, T) -> bool)
    requires Exact(a0, eq, list0, t) && row < col < |list0| && At(t, row, col).Unmarked?
    requires MergedWithin(a0, i0, list0, t, a, initial, list, m, stamp, clock, eq) && Tracks(list0, list, m, stamp, clock)
    requires Root(m, stamp, clock, q0) == Root(m, stamp, clock, list0[row]) && q1 == Root(m, stamp, clock, list[col])
    requires PairWithin(a0, Elements(list0), eq, q0, q1, m, stamp, clock, m', stamp', clock')
    ensures ClassesWithin(Elements(list0), Indistinct(a0, Elements(list0), eq), m', stamp', clock')
  {
    var L0, rel := Elements(list0), Indistinct(a0, Elements(list0), eq);
    assert Based(a0, L0, i0, initial, list, m, stamp, clock);
    IndistinctCongruence(a0, eq, list0);
    UnmarkedAlike(a0, eq, list0, t, row, col);
    TrackedRoot(list0, list, m, stamp, clock, row);
    TrackedRoot(list0, list, m, stamp, clock, col);
    var x, y := list0[row], list0[col];
    var r0, r1 := list[row], list[col];
    assert r0 in list && r1 in list && x in L0 && y in L0;
    assert rel(r0, x) && rel(x, y) && rel(y, r1);
    assert RelChain(rel, r0, x, y);
    assert RelChain(rel, r0, y, r1);
    RootFixed(m, stamp, clock, q1);
    assert rel(Root(m, stamp, clock, q0), Root(m, stamp, clock, q1));
  }

  /**
   * The body of the column loop: `q1` is column `col`'s representative; the
   * pair is merged unless the two already share a representative or the
   * table tells them apart.
   */
  method MergeCell<T(!new)>(table: DistinctStatesTable<T>, a: Arena<T>, initial: nat, list: seq<nat>, row: nat, col: nat, q0: nat,
                            m: map<nat, nat>, ghost stamp: map<nat, nat>, ghost clock: nat, eq: (T, T) -> bool,
                            ghost a0: Arena<T>, ghost i0: nat)
    returns (a': Arena<T>, initial': nat, list': seq<nat>, m': map<nat, nat>, ghost stamp': map<nat, nat>, ghost clock': nat)
    requires Shape(table.cells, |table.allStates|) && row < col < |table.allStates| && Determinization.Equivalence(eq)
    requires Canonical(Snapshot(a, initial, list, []), m, stamp, clock)
    requires Tracks(table.allStates, list, m, stamp, clock) && Root(m, stamp, clock, q0) == Root(m, stamp, clock, table.allStates[row])
    requires JoinedBefore(table.cells, table.allStates, m, stamp, clock, row, col)
    requires MergedWithin(a0, i0, table.allStates, table.cells, a, initial, list, m, stamp, clock, eq)
    ensures |a'| == |a| && Canonical(Snapshot(a', initial', list', []), m', stamp', clock')
    ensures Coarser(m', stamp', clock', m, stamp, clock) && Tracks(table.allStates, list', m', stamp', clock')
    ensures Root(m', stamp', clock', q0) == Root(m', stamp', clock', table.allStates[row])
    ensures JoinedBefore(table.cells, table.allStates, m', stamp', clock', row, col + 1)
    ensures MergedWithin(a0, i0, table.allStates, table.cells, a', initial', list', m', stamp', clock', eq)
  {
    var q1 := GetMergedState(m, stamp, clock, list[col]);
    if q0 == q1 || table.IsMarked(row, col) {
      JoinSkip(table.cells, table.allStates, list, m, stamp, clock, row, col, q0, q1);
      CoarserRefl(m, stamp, clock);
      a', initial', list', m', stamp', clock' := a, initial, list, m, stamp, clock;
    } else {
      TrackedRoot(table.allStates, list, m, stamp, clock, row);
      TrackedRoot(table.allStates, list, m, stamp, clock, col);
      RootFixed(m, stamp, clock, q1);
      Enqueue(Snapshot(a, initial, list, []), m, stamp, clock, q0, q1);
      a', initial', list', m', stamp', clock' := DrainPair(a, initial, list, q0, q1, m, stamp, clock, eq,
                                                          a0, Elements(table.allStates), i0);
      JoinDrained(table.cells, table.allStates, list, list', m, stamp, clock, m', stamp', clock', row, col, q0, q1);
      if Exact(a0, eq, table.allStates, table.cells) {
        CellWithin(a0, i0, table.allStates, table.cells, a, initial, list, m, stamp, clock, m', stamp', clock', row, col, q0, q1, eq);
      }
    }
  }

  /** One row of the merge loop: every unmarked `(row, col)` gets one representative. */
  method MergeRow<T(!new)>(table: DistinctStatesTable<T>, a: Arena<T>, initial: nat, list: seq<nat>, row: nat,
                           m0: map<nat, nat>, ghost stamp0: map<nat, nat>, ghost clock0: nat, eq: (T, T) -> bool,
                           ghost a0: Arena<T>, ghost i0: nat)
    returns (a': Arena<T>, initial': nat, list': seq<nat>, m: map<nat, nat>, ghost stamp: map<nat, nat>, ghost clock: nat)
    requires Shape(table.cells, |table.allStates|) && row < |table.allStates| - 1 && Determinization.Equivalence(eq)
    requires Canonical(Snapshot(a, initial, list, []), m0, stamp0, clock0)
    requires Tracks(table.allStates, list, m0, stamp0, clock0)
    requires JoinedBefore(table.cells, table.allStates, m0, stamp0, clock0, row, row + 1)
    requires MergedWithin(a0, i0, table.allStates, table.cells, a, initial, list, m0, stamp0, clock0, eq)
    ensures |a'| == |a| && Canonical(Snapshot(a', initial', list', []), m, stamp, clock)
    ensures Coarser(m, stamp, clock, m0, stamp0, clock0) && Tracks(table.allStates, list', m, stamp, clock)
    ensures JoinedBefore(table.cells, table.allStates, m, stamp, clock, row + 1, row + 2)
    ensures MergedWithin(a0, i0, table.allStates, table.cells, a', initial', list', m, stamp, clock, eq)
  {
    a', initial', list', m, stamp, clock := a, initial, list, m0, stamp0, clock0;
    CoarserRefl(m0, stamp0, clock0);
    var q0 := GetMergedState(m, stamp, clock, list'[row]);
    TrackedRoot(table.allStates, list', m, stamp, clock, row);
    RootFixed(m, stamp, clock, q0);
    for col := row + 1 to |table.allStates|
      invariant |a'| == |a| && Canonical(Snapshot(a', initial', list', []), m, stamp, clock)
      invariant Coarser(m, stamp, clock, m0, stamp0, clock0) && Tracks(table.allStates, list', m, stamp, clock)
      invariant Root(m, stamp, clock, q0) == Root(m, stamp, clock, table.allStates[row])
      invariant JoinedBefore(table.cells, table.allStates, m, stamp, clock, row, col)
      invariant MergedWithin(a0, i0, table.allStates, table.cells, a', initial', list', m, stamp, clock, eq)
    {
      var a2, initial2, list2, m2, stamp2, clock2 := MergeCell(table, a', initial', list', row, col, q0, m, stamp, clock, eq, a0, i0);
      CoarserTrans(m2, stamp2, clock2, m, stamp, clock, m0, stamp0, clock0);
      a', initial', list', m, stamp, clock := a2, initial2, list2, m2, stamp2, clock2;
    }
  }

  /** From a canonical start the automaton is its own history, and on an exact table every class is a single state. */
  lemma MergeStart<T(!new)>(t: seq<seq<Cell>>, a: Arena<T>, initial: nat, list: seq<nat>, eq: (T, T) -> bool)
    requires Canonical(Snapshot(a, initial, list, []), map[], map[], 0) && Determinization.Equivalence(eq)
    ensures MergedWithin(a, initial, list, t, a, initial, list, map[], map[], 0, eq)
  {
    var g := Snapshot(a, initial, list, []);
    HistoryStart(g, map[], map[], 0, eq);
    if Exact(a, eq, list, t) {
      assert Based(a, Elements(list), initial, initial, list, map[], map[], 0);
      IndistinctCongruence(a, eq, list);
      StartClasses(g, map[], map[], 0);
    }
  }

  /**
   * The merge loop of `minimization`, from an empty `merged_mapping`: every
   * pair the table leaves unmarked ends with one representative.
   */
  method MergeEquivalent<T(!new)>(table: DistinctStatesTable<T>, a: Arena<T>, initial: nat, eq: (T, T) -> bool)
    returns (a': Arena<T>, initial': nat, list': seq<nat>, m: map<nat, nat>, ghost stamp: map<nat, nat>, ghost clock: nat)
    requires Shape(table.cells, |table.allStates|) && Determinization.Equivalence(eq)
    requires Canonical(Snapshot(a, initial, table.allStates, []), map[], map[], 0)
    ensures |a'| == |a| && Canonical(Snapshot(a', initial', list', []), m, stamp, clock)
    ensures Tracks(table.allStates, list', m, stamp, clock)
    ensures forall x, y :: 0 <= x < y < |table.allStates| && At(table.cells, x, y).Unmarked? ==>
      Root(m, stamp, clock, table.allStates[x]) == Root(m, stamp, clock, table.allStates[y])
    ensures MergedWithin(a, initial, table.allStates, table.cells, a', initial', list', m, stamp, clock, eq)
  {
    a', initial', list', m, stamp, clock := a, initial, table.allStates, map[], map[], 0;
    TracksStart(list', m, stamp, clock);
    MergeStart(table.cells, a, initial, list', eq);
    for row := 0 to |table.allStates| - 1
      invariant |a'| == |a| && Canonical(Snapshot(a', initial', list', []), m, stamp, clock)
      invariant Tracks(table.allStates, list', m, stamp, clock)
      invariant JoinedBefore(table.cells, table.allStates, m, stamp, clock, row, row + 1)
      invariant MergedWithin(a, initial, table.allStates, table.cells, a', initial', list', m, stamp, clock, eq)
    {
      a', initial', list', m, stamp, clock := MergeRow(table, a', initial', list', row, m, stamp, clock, eq, a, initial);
    }
    assert JoinedBefore(table.cells, table.allStates, m, stamp, clock, |table.allStates| - 1, |table.allStates|);
  }

  /** Pairs the table cannot have marked, because they cannot be told apart, end with one representative. */
  lemma IndistinguishableJoined<T>(a: Arena<T>, eq: (T, T) -> bool, list: seq<nat>, cells: seq<seq<Cell>>,
                                   m: map<nat, nat>, stamp: map<nat, nat>, clock: nat)
    requires TableInv(a, eq, list, cells) && Ranked(m, stamp, clock)
    requires forall x, y :: 0 <= x < y < |list| && At(cells, x, y).Unmarked? ==>
      Root(m, stamp, clock, list[x]) == Root(m, stamp, clock, list[y])
    ensures forall x, y :: 0 <= x < y < |list| && !Distinguishable(a, eq, list[x], list[y]) ==>
      Root(m, stamp, clock, list[x]) == Root(m, stamp, clock, list[y])
  {
    forall x, y | 0 <= x < y < |list| && !Distinguishable(a, eq, list[x], list[y])
      ensures Root(m, stamp, clock, list[x]) == Root(m, stamp, clock, list[y])
    {
      assert CellSound(a, eq, list, x, y, At(cells, x, y));
    }
  }

  /** The states left listed are the representatives of the states listed before. */
  lemma RelistedRoots(list0: seq<nat>, list: seq<nat>, unique: seq<nat>, m: map<nat, nat>, stamp: map<nat, nat>, clock: nat)
    requires Tracks(list0, list, m, stamp, clock) && forall x :: x in unique <==> x in list
    ensures forall x :: x in unique <==> exists i :: 0 <= i < |list0| && x == Root(m, stamp, clock, list0[i])
  {
    forall x ensures x in unique <==> exists i :: 0 <= i < |list0| && x == Root(m, stamp, clock, list0[i]) {
      if x in unique {
        var i :| 0 <= i < |list| && list[i] == x;
        assert x == Root(m, stamp, clock, list0[i]);
      }
      if exists i :: 0 <= i < |list0| && x == Root(m, stamp, clock, list0[i]) {
        var i :| 0 <= i < |list0| && x == Root(m, stamp, clock, list0[i]);
        assert list[i] == x;
      }
    }
  }

  /** `list` holds exactly the representatives of the states of `list0`. */
  ghost predicate ListsRoots(list0: seq<nat>, list: seq<nat>, m: map<nat, nat>, stamp: map<nat, nat>, clock: nat)
    requires Ranked(m, stamp, clock)
  {
    forall x :: x in list <==> exists i :: 0 <= i < |list0| && x == Root(m, stamp, clock, list0[i])
  }

  /** Every two states of `list` that `a` cannot tell apart have one representative. */
  ghost predicate JoinsAlike<T>(a: Arena<T>, eq: (T, T) -> bool, list: seq<nat>, m: map<nat, nat>, stamp: map<nat, nat>, clock: nat)
    requires Ranked(m, stamp, clock)
  {
    forall x, y :: 0 <= x < y < |list| && !Distinguishable(a, eq, list[x], list[y]) ==>
      Root(m, stamp, clock, list[x]) == Root(m, stamp, clock, list[y])
  }

  /** Every two states of `list` that share a representative accept the same suffixes in `a`. */
  ghost predicate JoinsOnlyAlike<T(!new)>(a: Arena<T>, eq: (T, T) -> bool, list: seq<nat>, m: map<nat, nat>, stamp: map<nat, nat>, clock: nat)
    requires Ranked(m, stamp, clock)
  {
    forall x, y :: x in list && y in list && Root(m, stamp, clock, x) == Root(m, stamp, clock, y) ==> SameLanguage(a, x, y, eq)
  }

  /** `a` from `initial` accepts, with or without finality asked for, exactly what `a0` accepts from `i0`. */
  ghost predicate SameAccepted<T(!new)>(a0: Arena<T>, i0: nat, a: Arena<T>, initial: nat, eq: (T, T) -> bool)
  {
    Closed(a0) && Closed(a) && i0 < |a0| && initial < |a| &&
    forall onlyFinal: bool, sq: seq<T> :: Accepts(a, onlyFinal, initial, sq, 0, eq) <==> Accepts(a0, onlyFinal, i0, sq, 0, eq)
  }

  /**
   * What `minimization` leaves: a canonical automaton whose list holds each
   * representative of the states listed before once, each listed state the
   * merge of the old states it stands for, where states that could not be
   * told apart share their representative; on a deterministic automaton
   * whose list has no repeats, only such states do, and the language is kept.
   */
  ghost predicate Minimized<T(!new)>(a0: Arena<T>, i0: nat, list0: seq<nat>, a: Arena<T>, initial: nat, list: seq<nat>, eq: (T, T) -> bool,
                                     m: map<nat, nat>, stamp: map<nat, nat>, clock: nat)
  {
    |a| == |a0| && Canonical(Snapshot(a, initial, list, []), m, stamp, clock) && Distinct(list) &&
    ListsRoots(list0, list, m, stamp, clock) && JoinsAlike(a0, eq, list0, m, stamp, clock) &&
    History(a0, Elements(list0), i0, a, initial, list, m, stamp, clock, eq) &&
    (Distinct(list0) && DeterministicList(a0, eq, list0) ==>
       JoinsOnlyAlike(a0, eq, list0, m, stamp, clock) && SameAccepted(a0, i0, a, initial, eq))
  }

  /** The classes of an exact merge phase accept alike, and the merged automaton keeps the language. */
  lemma ExactLanguage<T(!new)>(a0: Arena<T>, i0: nat, list0: seq<nat>, t: seq<seq<Cell>>, a: Arena<T>, initial: nat, list: seq<nat>,
                               m: map<nat, nat>, stamp: map<nat, nat>, clock: nat, eq: (T, T) -> bool)
    requires Exact(a0, eq, list0, t) && Canonical(Snapshot(a, initial, list, []), m, stamp, clock)
    requires MergedWithin(a0, i0, list0, t, a, initial, list, m, stamp, clock, eq)
    ensures JoinsOnlyAlike(a0, eq, list0, m, stamp, clock) && SameAccepted(a0, i0, a, initial, eq)
  {
    var L0, rel := Elements(list0), Indistinct(a0, Elements(list0), eq);
    assert Based(a0, L0, i0, initial, list, m, stamp, clock);
    IndistinctCongruence(a0, eq, list0);
    assert Alike(a0, L0, rel, eq);
    MergedLanguage(a0, L0, i0, a, initial, list, m, stamp, clock, rel, eq);
    forall x, y | x in list0 && y in list0 && Root(m, stamp, clock, x) == Root(m, stamp, clock, y)
      ensures SameLanguage(a0, x, y, eq)
    {
      assert x in L0 && y in L0 && rel(x, y);
    }
  }

  /**
   * The table analysis and the merge of every unmarked pair: the automaton
   * stays canonical with the list tracked, states that cannot be told apart
   * share their representative, and, on a deterministic automaton whose list
   * has no repeats, only states that accept the same suffixes do.
   */
  method MergeAnalyzed<T(!new)>(a: Arena<T>, initial: nat, list: seq<nat>, eq: (T, T) -> bool)
    returns (a': Arena<T>, initial': nat, list': seq<nat>, m: map<nat, nat>, ghost stamp: map<nat, nat>, ghost clock: nat)
    requires Canonical(Snapshot(a, initial, list, []), map[], map[], 0) && Determinization.Equivalence(eq)
    ensures |a'| == |a| && Canonical(Snapshot(a', initial', list', []), m, stamp, clock)
    ensures Tracks(list, list', m, stamp, clock) && JoinsAlike(a, eq, list, m, stamp, clock)
    ensures History(a, Elements(list), initial, a', initial', list', m, stamp, clock, eq)
    ensures Distinct(list) && DeterministicList(a, eq, list) ==>
      JoinsOnlyAlike(a, eq, list, m, stamp, clock) && SameAccepted(a, initial, a', initial', eq)
  {
    CanonicalListClosed(Snapshot(a, initial, list, []), map[], map[], 0);
    var table := new DistinctStatesTable(a, list, eq);
    Analyze(table);
    a', initial', list', m, stamp, clock := MergeEquivalent(table, a, initial, eq);
    IndistinguishableJoined(table.arena, eq, table.allStates, table.cells, m, stamp, clock);
    if Distinct(list) && DeterministicList(a, eq, list) {
      assert Exact(a, eq, list, table.cells);
      ExactLanguage(a, initial, list, table.cells, a', initial', list', m, stamp, clock, eq);
    }
  }

  /**
   * `minimization` on the automaton's parts: the table analysis, then the
   * merge of every unmarked pair, then the listed states without repeats.
   */
  method MinimizeArena<T(!new)>(a: Arena<T>, initial: nat, list: seq<nat>, eq: (T, T) -> bool)
    returns (a': Arena<T>, initial': nat, unique: seq<nat>, m: map<nat, nat>, ghost stamp: map<nat, nat>, ghost clock: nat)
    requires Canonical(Snapshot(a, initial, list, []), map[], map[], 0) && Determinization.Equivalence(eq)
    ensures Minimized(a, initial, list, a', initial', unique, eq, m, stamp, clock)
  {
    var merged;
    a', initial', merged, m, stamp, clock := MergeAnalyzed(a, initial, list, eq);
    unique := Relist(Snapshot(a', initial', merged, []), m, stamp, clock);
    RelistedRoots(list, merged, unique, m, stamp, clock);
    HistoryRelisted(a, Elements(list), initial, a', initial', merged, unique, m, stamp, clock, eq);
  }

  /**
   * `minimization(automaton)`: every two listed states that cannot be told
   * apart end with one representative, and the list holds exactly the
   * representatives of the states listed before, once each, each the merge
   * of the old states it stands for. On a deterministic automaton whose list
   * has no repeats, as determinization leaves it, states share a
   * representative only if they accept the same suffixes, so the automaton
   * accepts what it accepted before.
   */
  method Minimize<T(!new)>(aut: Automaton<T>, eq: (T, T) -> bool) returns (ghost m: map<nat, nat>, ghost stamp: map<nat, nat>, ghost clock: nat)
    requires Canonical(Snapshot(aut.states, aut.initial, aut.allStates, []), map[], map[], 0) && Determinization.Equivalence(eq)
    modifies aut
    ensures Minimized(old(aut.states), old(aut.initial), old(aut.allStates), aut.states, aut.initial, aut.allStates, eq, m, stamp, clock)
    ensures aut.nextId == old(aut.nextId)
  {
    var a, initial, unique, merged;
    a, initial, unique, merged, stamp, clock := MinimizeArena(aut.states, aut.initial, aut.allStates, eq);
    m := merged;
    aut.Install(a, initial, unique);
  }
}

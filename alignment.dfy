// Global sequence alignment, src/bioinformatics/GlobalSequenceAlignment.java:
// a dynamic-programming matrix filled from the last row up, whose cells link
// back along one best alignment. With the match score 1 and the gap penalty 0
// the score at the top-left corner is the length of a longest common
// subsequence. Symbols are a type parameter compared by the `equals` the
// caller supplies; the symbol arrays, which are only read, are sequences.
module GlobalSequenceAlignment {
  import opened Wrappers
  import opened JavaTypes
  import opened Cells

  /** The gap penalty. */
  const INDEL_PENALTY: int := 0

  function Max(x: int, y: int): int
  {
    if x >= y then x else y
  }

  /** The score a diagonal step adds: one for equal symbols. */
  function MatchScore<S>(eq: (S, S) -> bool, x: S, y: S): int
  {
    if eq(x, y) then 1 else 0
  }

  // ----- calculateReverseRow -----

  /**
   * The cell built from three candidate scores: the diagonal wins a tie with
   * either other, then the left; the cell links to the cell its score came
   * from, and records the row's symbol, or the column's symbol for a left step.
   */
  function Choose<S>(diag: int, left: int, up: int, dCell: Cell<S>, lCell: Cell<S>, uCell: Cell<S>, node: S, other: S): Cell<S>
  {
    if diag >= left && diag >= up then Cell(diag, Some(Diag), Some(dCell), Some(node))
    else if left >= diag && left >= up then Cell(left, Some(Horiz), Some(lCell), Some(other))
    else Cell(up, Some(Vert), Some(uCell), Some(node))
  }

  /**
   * Column `k` of the row that `calculateReverseRow(node, ns, last)` builds:
   * the last column steps up to the last cell of `last`, every other column
   * is chosen from the cells below-right, right and below.
   */
  function RowCell<S>(node: S, ns: seq<S>, last: seq<Cell<S>>, eq: (S, S) -> bool, k: nat): Cell<S>
    requires |last| > |ns| && k <= |ns|
    decreases |ns| - k
  {
    if k == |ns| then Cell(0, Some(Vert), Some(last[|last| - 1]), Some(node))
    else
      var right := RowCell(node, ns, last, eq, k + 1);
      Choose(last[k + 1].value + MatchScore(eq, node, ns[k]), right.value + INDEL_PENALTY, last[k].value + INDEL_PENALTY,
             last[k + 1], right, last[k], node, ns[k])
  }

  /** The whole row, one cell per column and one more. */
  function Row<S>(node: S, ns: seq<S>, last: seq<Cell<S>>, eq: (S, S) -> bool): seq<Cell<S>>
    requires |last| > |ns|
  {
    seq(|ns| + 1, k requires 0 <= k <= |ns| => RowCell(node, ns, last, eq, k))
  }

  /**
   * What a row's cells hold: the last column scores 0 and steps up; every
   * other column takes the best of its three candidates, with ties broken as
   * diagonal, then left, then up, and links to and records accordingly.
   */
  lemma RowCellChoice<S>(node: S, ns: seq<S>, last: seq<Cell<S>>, eq: (S, S) -> bool, k: nat)
    requires |last| > |ns| && k <= |ns|
    ensures var c := RowCell(node, ns, last, eq, k);
      k == |ns| ==> c == Cell(0, Some(Vert), Some(last[|last| - 1]), Some(node))
    ensures k < |ns| ==>
      var c := RowCell(node, ns, last, eq, k);
      var right := RowCell(node, ns, last, eq, k + 1);
      var diag, left, up := last[k + 1].value + MatchScore(eq, node, ns[k]), right.value, last[k].value;
      && c.value == Max(Max(diag, left), up)
      && (c.dir == Some(Diag) <==> diag >= left && diag >= up)
      && (c.dir == Some(Horiz) <==> !(diag >= left && diag >= up) && left >= up)
      && (c.dir == Some(Vert) <==> diag < up && left < up)
      && (c.dir == Some(Diag) ==> c.next == Some(last[k + 1]) && c.symbol == Some(node))
      && (c.dir == Some(Horiz) ==> c.next == Some(right) && c.symbol == Some(ns[k]))
      && (c.dir == Some(Vert) ==> c.next == Some(last[k]) && c.symbol == Some(node))
  {
  }

  /** A column of the row below the last, chosen from the column to its right. */
  lemma RowStep<S>(node: S, ns: seq<S>, last: seq<Cell<S>>, eq: (S, S) -> bool, k: nat)
    requires |last| > |ns| && k < |ns|
    ensures var row := Row(node, ns, last, eq);
      row[k] == Choose(last[k + 1].value + MatchScore(eq, node, ns[k]), row[k + 1].value + INDEL_PENALTY, last[k].value + INDEL_PENALTY,
                       last[k + 1], row[k + 1], last[k], node, ns[k])
  {
  }

  /**
   * `calculateReverseRow`: a fresh row of `|ns| + 1` cells filled from right
   * to left; a row below shorter than that is indexed past its end.
   */
  method CalculateReverseRow<S>(node: S, ns: seq<S>, lastRow: array<Cell<S>>, eq: (S, S) -> bool) returns (r: Result<array<Cell<S>>>)
    ensures r.Err? <==> lastRow.Length <= |ns|
    ensures r.Err? ==> r.error == IndexOutOfBounds
    ensures r.Ok? ==> fresh(r.value) && r.value[..] == Row(node, ns, lastRow[..], eq)
  {
    var m := |ns|;
    if lastRow.Length <= m {
      return Err(IndexOutOfBounds);
    }
    ghost var last := lastRow[..];
    ghost var row := Row(node, ns, last, eq);
    var newRow := new Cell<S>[m + 1](_ => Empty());
    newRow[m] := Cell(0, Some(Vert), Some(lastRow[lastRow.Length - 1]), Some(node));
    var i: nat := m;
    while i > 0
      invariant i <= m
      invariant forall k :: i <= k <= m ==> newRow[k] == row[k]
    {
      i := i - 1;
      var diag := lastRow[i + 1].value + (if eq(node, ns[i]) then 1 else 0);
      var left := newRow[i + 1].value + INDEL_PENALTY;
      var up := lastRow[i].value + INDEL_PENALTY;
      var cell;
      if diag >= left && diag >= up {
        cell := Cell(diag, Some(Diag), Some(lastRow[i + 1]), Some(node));
      } else if left >= diag && left >= up {
        cell := Cell(left, Some(Horiz), Some(newRow[i + 1]), Some(ns[i]));
      } else {
        cell := Cell(up, Some(Vert), Some(lastRow[i]), Some(node));
      }
      RowStep(node, ns, last, eq, i);
      newRow[i] := cell;
    }
    assert newRow[..] == row;
    return Ok(newRow);
  }

  // ----- align -----

  /**
   * Row `i` of the matrix `align(a, ns)` builds: the bottom row is all empty
   * cells, and each row above is computed from the row below it.
   */
  function Rows<S>(a: seq<S>, ns: seq<S>, eq: (S, S) -> bool, i: nat): (row: seq<Cell<S>>)
    requires i <= |a|
    ensures |row| == |ns| + 1
    decreases |a| - i
  {
    if i == |a| then seq(|ns| + 1, _ => Empty()) else Row(a[i], ns, Rows(a, ns, eq, i + 1), eq)
  }

  /** `align`: the matrix of `|a| + 1` rows, filled from the bottom up. */
  method Align<S>(a: seq<S>, ns: seq<S>, eq: (S, S) -> bool) returns (matrix: array<array<Cell<S>>>)
    ensures fresh(matrix) && matrix.Length == |a| + 1
    ensures forall i :: 0 <= i <= |a| ==> matrix[i][..] == Rows(a, ns, eq, i)
  {
    var n, m := |a|, |ns|;
    var scores := new Cell<S>[m + 1](_ => Empty());
    assert scores[..] == Rows(a, ns, eq, n);
    matrix := new array<Cell<S>>[n + 1](_ => scores);
    var i: nat := n;
    while i > 0
      invariant i <= n
      invariant scores == matrix[i]
      invariant forall k :: i <= k <= n ==> matrix[k][..] == Rows(a, ns, eq, k)
    {
      i := i - 1;
      var r := CalculateReverseRow(a[i], ns, scores, eq);
      scores := r.value;
      matrix[i] := scores;
    }
  }

  // ----- the score is a longest common subsequence -----

  /**
   * The length of a longest common subsequence of `a[i..]` and `b[j..]`, by
   * the textbook recurrence.
   */
  function Lcs<S>(a: seq<S>, b: seq<S>, eq: (S, S) -> bool, i: nat, j: nat): nat
    requires i <= |a| && j <= |b|
    decreases |a| - i + |b| - j
  {
    if i == |a| || j == |b| then 0
    else if eq(a[i], b[j]) then 1 + Lcs(a, b, eq, i + 1, j + 1)
    else Max(Lcs(a, b, eq, i + 1, j), Lcs(a, b, eq, i, j + 1))
  }

  /** Dropping the first symbol of either sequence shortens the result by zero or one. */
  lemma {:induction false} LcsSteps<S>(a: seq<S>, b: seq<S>, eq: (S, S) -> bool, i: nat, j: nat)
    requires i <= |a| && j <= |b|
    ensures i < |a| ==> Lcs(a, b, eq, i + 1, j) <= Lcs(a, b, eq, i, j) <= Lcs(a, b, eq, i + 1, j) + 1
    ensures j < |b| ==> Lcs(a, b, eq, i, j + 1) <= Lcs(a, b, eq, i, j) <= Lcs(a, b, eq, i, j + 1) + 1
    decreases |a| - i + |b| - j
  {
    if i < |a| && j < |b| {
      LcsSteps(a, b, eq, i + 1, j);
      LcsSteps(a, b, eq, i, j + 1);
    }
  }

  /** A common subsequence is no longer than either sequence. */
  lemma {:induction false} LcsBounded<S>(a: seq<S>, b: seq<S>, eq: (S, S) -> bool, i: nat, j: nat)
    requires i <= |a| && j <= |b|
    ensures Lcs(a, b, eq, i, j) <= |a| - i && Lcs(a, b, eq, i, j) <= |b| - j
    decreases |a| - i + |b| - j
  {
    if i < |a| && j < |b| {
      LcsBounded(a, b, eq, i + 1, j + 1);
      LcsBounded(a, b, eq, i + 1, j);
      LcsBounded(a, b, eq, i, j + 1);
    }
  }

  /** Under a reflexive equality a sequence is its own longest common subsequence. */
  lemma {:induction false} LcsSelf<S>(a: seq<S>, eq: (S, S) -> bool, i: nat)
    requires forall x: S :: eq(x, x)
    requires i <= |a|
    ensures Lcs(a, a, eq, i, i) == |a| - i
    decreases |a| - i
  {
    if i < |a| {
      assert eq(a[i], a[i]);
      LcsSelf(a, eq, i + 1);
    }
  }

  /** Every cell of the matrix scores the longest common subsequence of the two suffixes it stands for. */
  lemma {:induction false} RowsScoreLcs<S>(a: seq<S>, ns: seq<S>, eq: (S, S) -> bool, i: nat, j: nat)
    requires i <= |a| && j <= |ns|
    ensures Rows(a, ns, eq, i)[j].value == Lcs(a, ns, eq, i, j)
    decreases |a| - i + |ns| - j
  {
    if i < |a| && j < |ns| {
      RowsScoreLcs(a, ns, eq, i + 1, j + 1);
      RowsScoreLcs(a, ns, eq, i, j + 1);
      RowsScoreLcs(a, ns, eq, i + 1, j);
      var below := Rows(a, ns, eq, i + 1);
      RowCellChoice(a[i], ns, below, eq, j);
      assert Rows(a, ns, eq, i)[j + 1] == RowCell(a[i], ns, below, eq, j + 1);
      LcsSteps(a, ns, eq, i, j + 1);
      LcsSteps(a, ns, eq, i + 1, j);
    } else if i < |a| {
      RowCellChoice(a[i], ns, Rows(a, ns, eq, i + 1), eq, j);
    }
  }

  /** The top-left score of the matrix is the longest common subsequence of the two sequences. */
  lemma MatrixScore<S>(a: seq<S>, ns: seq<S>, eq: (S, S) -> bool)
    ensures Rows(a, ns, eq, 0)[0].value == Lcs(a, ns, eq, 0, 0)
    ensures Rows(a, ns, eq, 0)[0].value <= |a| && Rows(a, ns, eq, 0)[0].value <= |ns|
  {
    RowsScoreLcs(a, ns, eq, 0, 0);
    LcsBounded(a, ns, eq, 0, 0);
  }

  /** Scores never decrease moving left along a row or up a column. */
  lemma MatrixMonotone<S>(a: seq<S>, ns: seq<S>, eq: (S, S) -> bool, i: nat, j: nat)
    requires i <= |a| && j <= |ns|
    ensures j < |ns| ==> Rows(a, ns, eq, i)[j].value >= Rows(a, ns, eq, i)[j + 1].value
    ensures i < |a| ==> Rows(a, ns, eq, i)[j].value >= Rows(a, ns, eq, i + 1)[j].value
  {
    RowsScoreLcs(a, ns, eq, i, j);
    LcsSteps(a, ns, eq, i, j);
    if j < |ns| {
      RowsScoreLcs(a, ns, eq, i, j + 1);
    }
    if i < |a| {
      RowsScoreLcs(a, ns, eq, i + 1, j);
    }
  }

  // ----- _get_alignment -----

  /**
   * An alignment: the first sequence and the second, each with `None` for a
   * gap, and the similarity of the cell the walk started from.
   */
  datatype Alignment<S> = Alignment(seq0: seq<Option<S>>, seq1: seq<Option<S>>, similarity: int)

  /** The walk's result with one more pair of entries in front. */
  function Prefix<S>(s0: seq<Option<S>>, s1: seq<Option<S>>, w: Result<(seq<Option<S>>, seq<Option<S>>, nat)>): Result<(seq<Option<S>>, seq<Option<S>>, nat)>
  {
    match w
    case Err(e) => Err(e)
    case Ok(t) => Ok((s0 + t.0, s1 + t.1, t.2))
  }

  /**
   * The entries a walk along the links from `path` adds, and the index into
   * `ns` it ends at: a diagonal step pairs the cell's symbol with the next
   * symbol of `ns`, an up step pairs it with a gap, a left step pairs a gap
   * with the next symbol of `ns`, and a cell without a direction adds
   * nothing; a step past the end of `ns` is an index error.
   */
  function Walk<S>(path: Option<Cell<S>>, ns: seq<S>, i: nat): (w: Result<(seq<Option<S>>, seq<Option<S>>, nat)>)
    requires i <= |ns|
    ensures w.Ok? ==> |w.value.0| - |w.value.1| == 0 && i <= w.value.2 <= |ns|
    decreases path
  {
    if path.None? then Ok(([], [], i))
    else
      var c := path.value;
      if c.dir == Some(Diag) then
        if i < |ns| then Prefix([c.symbol], [Some(ns[i])], Walk(c.next, ns, i + 1)) else Err(IndexOutOfBounds)
      else if c.dir == Some(Vert) then Prefix([c.symbol], [None], Walk(c.next, ns, i))
      else if c.dir == Some(Horiz) then
        if i < |ns| then Prefix([None], [Some(ns[i])], Walk(c.next, ns, i + 1)) else Err(IndexOutOfBounds)
      else Walk(c.next, ns, i)
  }

  /**
   * What `_get_alignment(path, ns)` returns: the similarity of `path`, which
   * divides by zero for a cell without links, and the walk from `path`
   * followed by gaps against the symbols of `ns` the walk did not reach.
   */
  function AlignmentOf<S>(path: Cell<S>, ns: seq<S>): Result<Alignment<S>>
  {
    if path.next.None? then Err(Arithmetic)
    else
      match Walk(Some(path), ns, 0)
      case Err(e) => Err(e)
      case Ok(w) => Ok(Alignment(w.0 + Nulls(|ns| - w.2), w.1 + Present(ns[w.2..]), Quot(path.value, ChainLength(path) - 1)))
  }

  lemma PrefixPrefix<S>(s0: seq<Option<S>>, s1: seq<Option<S>>, x0: Option<S>, x1: Option<S>, w: Result<(seq<Option<S>>, seq<Option<S>>, nat)>)
    ensures Prefix(s0, s1, Prefix([x0], [x1], w)) == Prefix(s0 + [x0], s1 + [x1], w)
  {
    if w.Ok? {
      assert s0 + ([x0] + w.value.0) == s0 + [x0] + w.value.0;
      assert s1 + ([x1] + w.value.1) == s1 + [x1] + w.value.1;
    }
  }

  lemma PrefixEmpty<S>(w: Result<(seq<Option<S>>, seq<Option<S>>, nat)>)
    ensures Prefix([], [], w) == w
  {
    if w.Ok? {
      assert [] + w.value.0 == w.value.0 && [] + w.value.1 == w.value.1;
    }
  }

  /** `_get_alignment`: the similarity first, then the walk along the links, then the gaps at the end. */
  method GetAlignmentOf<S>(path: Cell<S>, ns: seq<S>) returns (r: Result<Alignment<S>>)
    ensures r == AlignmentOf(path, ns)
  {
    var similarity := GlobalSimilarity(path);
    if similarity.Err? {
      return Err(similarity.error);
    }
    var seq0: seq<Option<S>> := [];
    var seq1: seq<Option<S>> := [];
    var i: nat := 0;
    var curr := Some(path);
    PrefixEmpty(Walk(curr, ns, i));
    while curr.Some?
      invariant i <= |ns|
      invariant Walk(Some(path), ns, 0) == Prefix(seq0, seq1, Walk(curr, ns, i))
      decreases curr
    {
      var c := curr.value;
      if c.dir == Some(Diag) {
        if i >= |ns| {
          return Err(IndexOutOfBounds);
        }
        PrefixPrefix(seq0, seq1, c.symbol, Some(ns[i]), Walk(c.next, ns, i + 1));
        seq0, seq1, i := seq0 + [c.symbol], seq1 + [Some(ns[i])], i + 1;
      } else if c.dir == Some(Vert) {
        PrefixPrefix(seq0, seq1, c.symbol, None, Walk(c.next, ns, i));
        seq0, seq1 := seq0 + [c.symbol], seq1 + [None];
      } else if c.dir == Some(Horiz) {
        if i >= |ns| {
          return Err(IndexOutOfBounds);
        }
        PrefixPrefix(seq0, seq1, None, Some(ns[i]), Walk(c.next, ns, i + 1));
        seq0, seq1, i := seq0 + [None], seq1 + [Some(ns[i])], i + 1;
      }
      curr := c.next;
    }
    assert seq0 + [] == seq0 && seq1 + [] == seq1;
    ghost var head0, head1, reached := seq0, seq1, i;
    while i < |ns|
      invariant reached <= i <= |ns|
      invariant seq0 == head0 + Nulls(i - reached)
      invariant seq1 == head1 + Present(ns[reached..i])
    {
      assert Nulls<S>(i + 1 - reached) == Nulls<S>(i - reached) + [None];
      assert Present(ns[reached..i + 1]) == Present(ns[reached..i]) + [Some(ns[i])];
      seq0, seq1, i := seq0 + [None], seq1 + [Some(ns[i])], i + 1;
    }
    assert Walk(Some(path), ns, 0) == Ok((head0, head1, reached));
    assert ns[reached..i] == ns[reached..];
    r := Ok(Alignment(seq0, seq1, similarity.value));
  }

  // ----- the alignment of the matrix -----

  /** The symbols of an aligned sequence, gaps left out. */
  function Symbols<S>(s: seq<Option<S>>): seq<S>
  {
    if s == [] then [] else (if s[0].Some? then [s[0].value] else []) + Symbols(s[1..])
  }

  lemma {:induction false} SymbolsAppend<S>(s: seq<Option<S>>, t: seq<Option<S>>)
    ensures Symbols(s + t) == Symbols(s) + Symbols(t)
    decreases |s|
  {
    if s == [] {
      assert s + t == t;
    } else {
      var h := if s[0].Some? then [s[0].value] else [];
      assert (s + t)[0] == s[0] && (s + t)[1..] == s[1..] + t;
      assert Symbols(s + t) == h + Symbols(s[1..] + t);
      SymbolsAppend(s[1..], t);
      assert h + (Symbols(s[1..]) + Symbols(t)) == (h + Symbols(s[1..])) + Symbols(t);
    }
  }

  lemma {:induction false} SymbolsOfNullsAndPresent<S>(count: nat, p: seq<S>)
    ensures Symbols(Nulls<S>(count)) == []
    ensures Symbols(Present(p)) == p
    decreases count + |p|
  {
    if count > 0 {
      assert Nulls<S>(count)[1..] == Nulls<S>(count - 1);
      SymbolsOfNullsAndPresent<S>(count - 1, p);
    }
    if p != [] {
      assert Present(p)[1..] == Present(p[1..]);
      SymbolsOfNullsAndPresent<S>(0, p[1..]);
    }
  }

  /** The symbols of a sequence with one entry in front. */
  lemma SymbolsCons<S>(x: Option<S>, s: seq<Option<S>>)
    ensures Symbols([x] + s) == (if x.Some? then [x.value] else []) + Symbols(s)
  {
    assert ([x] + s)[1..] == s;
  }

  /**
   * Where the links of the matrix lead: the bottom row has neither direction
   * nor link; above it a diagonal step leads one row down and one column
   * right, a left step one column right, an up step one row down, and each
   * cell records the symbol of its row, or of its column for a left step.
   */
  lemma MatrixLinks<S>(a: seq<S>, ns: seq<S>, eq: (S, S) -> bool, i: nat, j: nat)
    requires i <= |a| && j <= |ns|
    ensures var c := Rows(a, ns, eq, i)[j];
      && (i == |a| ==> c.dir.None? && c.next.None?)
      && (i < |a| ==> c.dir.Some? && c.next.Some?)
      && (i < |a| && c.dir == Some(Diag) ==> j < |ns| && c.next == Some(Rows(a, ns, eq, i + 1)[j + 1]) && c.symbol == Some(a[i]))
      && (i < |a| && c.dir == Some(Horiz) ==> j < |ns| && c.next == Some(Rows(a, ns, eq, i)[j + 1]) && c.symbol == Some(ns[j]))
      && (i < |a| && c.dir == Some(Vert) ==> c.next == Some(Rows(a, ns, eq, i + 1)[j]) && c.symbol == Some(a[i]))
  {
    if i < |a| {
      var below := Rows(a, ns, eq, i + 1);
      RowCellChoice(a[i], ns, below, eq, j);
      assert Rows(a, ns, eq, i)[j] == RowCell(a[i], ns, below, eq, j);
      if j < |ns| {
        assert Rows(a, ns, eq, i)[j + 1] == RowCell(a[i], ns, below, eq, j + 1);
      }
    }
  }

  /**
   * A walk that adds as many entries to either sequence, with `rows` the
   * symbols of the first and, as those of the second, the symbols of `ns`
   * from `j` up to where it ends.
   */
  ghost predicate Covers<S>(w: Result<(seq<Option<S>>, seq<Option<S>>, nat)>, rows: seq<S>, ns: seq<S>, j: nat)
  {
    w.Ok? && j <= w.value.2 <= |ns| && Symbols(w.value.0) == rows && Symbols(w.value.1) == ns[j..w.value.2]
  }

  lemma CoversDiag<S>(c: Cell<S>, ns: seq<S>, j: nat, node: S, rows: seq<S>)
    requires j < |ns| && c.dir == Some(Diag) && c.symbol == Some(node)
    requires Covers(Walk(c.next, ns, j + 1), rows, ns, j + 1)
    ensures Covers(Walk(Some(c), ns, j), [node] + rows, ns, j)
  {
    var w := Walk(c.next, ns, j + 1).value;
    assert Walk(Some(c), ns, j) == Ok(([c.symbol] + w.0, [Some(ns[j])] + w.1, w.2));
    SymbolsCons(c.symbol, w.0);
    SymbolsCons(Some(ns[j]), w.1);
    assert ns[j..w.2] == [ns[j]] + ns[j + 1..w.2];
  }

  lemma CoversHoriz<S>(c: Cell<S>, ns: seq<S>, j: nat, rows: seq<S>)
    requires j < |ns| && c.dir == Some(Horiz)
    requires Covers(Walk(c.next, ns, j + 1), rows, ns, j + 1)
    ensures Covers(Walk(Some(c), ns, j), rows, ns, j)
  {
    var w := Walk(c.next, ns, j + 1).value;
    assert Walk(Some(c), ns, j) == Ok(([None] + w.0, [Some(ns[j])] + w.1, w.2));
    SymbolsCons(None, w.0);
    SymbolsCons(Some(ns[j]), w.1);
    assert ns[j..w.2] == [ns[j]] + ns[j + 1..w.2];
  }

  lemma CoversVert<S>(c: Cell<S>, ns: seq<S>, j: nat, node: S, rows: seq<S>)
    requires j <= |ns| && c.dir == Some(Vert) && c.symbol == Some(node)
    requires Covers(Walk(c.next, ns, j), rows, ns, j)
    ensures Covers(Walk(Some(c), ns, j), [node] + rows, ns, j)
  {
    var w := Walk(c.next, ns, j).value;
    assert Walk(Some(c), ns, j) == Ok(([c.symbol] + w.0, [None] + w.1, w.2));
    SymbolsCons(c.symbol, w.0);
    SymbolsCons(None, w.1);
  }

  /**
   * The walk from the cell at row `i` and column `j` adds as many entries to
   * either sequence, the rows' symbols `a[i..]` in order to the first, and to
   * the second the symbols of `ns` from `j` up to where it ends.
   */
  lemma {:induction false} WalkFromMatrix<S>(a: seq<S>, ns: seq<S>, eq: (S, S) -> bool, i: nat, j: nat)
    requires i <= |a| && j <= |ns|
    ensures Covers(Walk(Some(Rows(a, ns, eq, i)[j]), ns, j), a[i..], ns, j)
    decreases |a| - i + |ns| - j
  {
    var c := Rows(a, ns, eq, i)[j];
    MatrixLinks(a, ns, eq, i, j);
    if i == |a| {
      assert Walk(Some(c), ns, j) == Ok(([], [], j));
    } else {
      assert a[i..] == [a[i]] + a[i + 1..];
      if c.dir == Some(Diag) {
        WalkFromMatrix(a, ns, eq, i + 1, j + 1);
        CoversDiag(c, ns, j, a[i], a[i + 1..]);
      } else if c.dir == Some(Horiz) {
        WalkFromMatrix(a, ns, eq, i, j + 1);
        CoversHoriz(c, ns, j, a[i..]);
      } else {
        WalkFromMatrix(a, ns, eq, i + 1, j);
        CoversVert(c, ns, j, a[i], a[i + 1..]);
      }
    }
  }

  /**
   * The alignment of the matrix's top-left cell: a division by zero when the
   * first sequence is empty; otherwise two sequences of equal length whose
   * symbols, gaps left out, are the two sequences given, with the similarity
   * the longest common subsequence divided by the number of links.
   */
  lemma AlignmentOfMatrix<S>(a: seq<S>, ns: seq<S>, eq: (S, S) -> bool)
    ensures var r := AlignmentOf(Rows(a, ns, eq, 0)[0], ns);
      && (r.Err? <==> |a| == 0)
      && (r.Err? ==> r.error == Arithmetic)
      && (r.Ok? ==>
            && |r.value.seq0| == |r.value.seq1|
            && Symbols(r.value.seq0) == a
            && Symbols(r.value.seq1) == ns
            && r.value.similarity == Quot(Lcs(a, ns, eq, 0, 0), ChainLength(Rows(a, ns, eq, 0)[0]) - 1))
  {
    if |a| > 0 {
      AlignmentOfRows(a, ns, eq);
    } else {
      MatrixLinks(a, ns, eq, 0, 0);
    }
  }

  /** The non-empty case of `AlignmentOfMatrix`. */
  lemma AlignmentOfRows<S>(a: seq<S>, ns: seq<S>, eq: (S, S) -> bool)
    requires |a| > 0
    ensures AlignmentOf(Rows(a, ns, eq, 0)[0], ns).Ok?
    ensures |AlignmentOf(Rows(a, ns, eq, 0)[0], ns).value.seq0| == |AlignmentOf(Rows(a, ns, eq, 0)[0], ns).value.seq1|
    ensures Symbols(AlignmentOf(Rows(a, ns, eq, 0)[0], ns).value.seq0) == a
    ensures Symbols(AlignmentOf(Rows(a, ns, eq, 0)[0], ns).value.seq1) == ns
    ensures AlignmentOf(Rows(a, ns, eq, 0)[0], ns).value.similarity == Quot(Lcs(a, ns, eq, 0, 0), ChainLength(Rows(a, ns, eq, 0)[0]) - 1)
  {
    var c := Rows(a, ns, eq, 0)[0];
    CellLinked(a, ns, eq, 0, 0);
    WalkFromMatrix(a, ns, eq, 0, 0);
    assert a[0..] == a;
    AlignmentOfCovered(c, a, ns);
    RowsScoreLcs(a, ns, eq, 0, 0);
  }

  /** A cell above the bottom row links onward. */
  lemma CellLinked<S>(a: seq<S>, ns: seq<S>, eq: (S, S) -> bool, i: nat, j: nat)
    requires i < |a| && j <= |ns|
    ensures Rows(a, ns, eq, i)[j].next.Some?
  {
    MatrixLinks(a, ns, eq, i, j);
  }

  /** A covering walk from a linked cell gives an alignment of the covered symbols against all of `ns`. */
  lemma AlignmentOfCovered<S>(c: Cell<S>, rows: seq<S>, ns: seq<S>)
    requires c.next.Some? && Covers(Walk(Some(c), ns, 0), rows, ns, 0)
    ensures var r := AlignmentOf(c, ns);
      && r.Ok?
      && |r.value.seq0| == |r.value.seq1|
      && Symbols(r.value.seq0) == rows
      && Symbols(r.value.seq1) == ns
      && r.value.similarity == Quot(c.value, ChainLength(c) - 1)
  {
    var w := Walk(Some(c), ns, 0).value;
    assert AlignmentOf(c, ns) == Ok(Alignment(w.0 + Nulls(|ns| - w.2), w.1 + Present(ns[w.2..]), Quot(c.value, ChainLength(c) - 1)));
    SymbolsAppend(w.0, Nulls(|ns| - w.2));
    SymbolsAppend(w.1, Present(ns[w.2..]));
    SymbolsOfNullsAndPresent(|ns| - w.2, ns[w.2..]);
    assert ns[0..w.2] + ns[w.2..] == ns;
  }

  /** `getAlignment`: the matrix, then the alignment of its top-left cell. */
  method GetAlignment<S>(a: seq<S>, ns: seq<S>, eq: (S, S) -> bool) returns (r: Result<Alignment<S>>)
    ensures r == AlignmentOf(Rows(a, ns, eq, 0)[0], ns)
    ensures r.Err? <==> |a| == 0
    ensures r.Ok? ==> |r.value.seq0| == |r.value.seq1| && Symbols(r.value.seq0) == a && Symbols(r.value.seq1) == ns
  {
    var matrix := Align(a, ns, eq);
    assert matrix[0][..] == Rows(a, ns, eq, 0);
    r := GetAlignmentOf(matrix[0][0], ns);
    AlignmentOfMatrix(a, ns, eq);
  }

  // ----- SymbolByte -----

  /** A byte symbol. */
  datatype SymbolByte = SymbolByte(symbol: Byte)

  /** What `equals(Object)` may be handed: a byte symbol, an object of another class, or null. */
  datatype SymbolArgument = OfByte(other: SymbolByte) | OtherObject | NullObject

  /** `equals(obj)`: the bytes compared, after a cast that fails for another class and a field read that fails on null. */
  function SymbolByteEquals(self: SymbolByte, obj: SymbolArgument): Result<bool>
  {
    match obj
    case OfByte(o) => Ok(self.symbol == o.symbol)
    case OtherObject => Err(ClassCast)
    case NullObject => Err(NullPointer)
  }

  /** `hashCode()`: the byte widened to an `int`. */
  function SymbolByteHash(self: SymbolByte): Int32
  {
    self.symbol
  }

  /**
   * Between byte symbols `equals` never fails and is an equivalence whose
   * equal symbols hash alike; handed anything else it throws.
   */
  lemma SymbolByteEquality(x: SymbolByte, y: SymbolByte, z: SymbolByte)
    ensures SymbolByteEquals(x, OfByte(x)) == Ok(true)
    ensures SymbolByteEquals(x, OfByte(y)) == SymbolByteEquals(y, OfByte(x))
    ensures SymbolByteEquals(x, OfByte(y)) == Ok(true) && SymbolByteEquals(y, OfByte(z)) == Ok(true) ==> SymbolByteEquals(x, OfByte(z)) == Ok(true)
    ensures SymbolByteEquals(x, OfByte(y)) == Ok(true) <==> SymbolByteHash(x) == SymbolByteHash(y)
    ensures SymbolByteEquals(x, OtherObject).Err? && SymbolByteEquals(x, NullObject).Err?
  {
  }
}

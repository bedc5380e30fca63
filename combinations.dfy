/** `discrimination_combinations` of Fig6/analysis.py: score every ordered
    pair of sweep levels, laid out on the meshgrid of the levels.  The
    numpy steps it relies on (meshgrid, ravel, reshape) are modelled on
    sequences of rows. */
module Combinations {
  import opened Measures
  import opened Scorer

  /** The `param: measures` dict of one sweep: its keys in insertion order
      and the mapping itself. */
  datatype InferredValues = InferredValues(levels: seq<real>, measures: map<real, seq<Measure>>)
  {
    /** A dict's keys are distinct, and `levels` lists exactly them. */
    predicate Valid()
    {
      && (forall i, j :: 0 <= i < j < |levels| ==> levels[i] != levels[j])
      && (forall k :: k in measures ==> k in levels)
      && (forall k :: k in levels ==> k in measures)
    }
  }

  /** The three arrays `xx, yy, zz` returned by the grid builder. */
  datatype Grid = Grid(xx: seq<seq<real>>, yy: seq<seq<real>>, zz: seq<seq<Measure>>)

  // ---------------------------------------------------------------------
  // numpy's row-major layout
  // ---------------------------------------------------------------------

  /** Position of entry (i, j) of a matrix with `cols` columns in its
      row-major flattening. */
  function FlatIndex(i: int, j: int, cols: int): int
  {
    i * cols + j
  }

  lemma FlatIndexBounds(rows: nat, cols: nat)
    ensures forall i, j :: 0 <= i < rows && 0 <= j < cols ==> 0 <= FlatIndex(i, j, cols) < rows * cols
  {
    forall i, j | 0 <= i < rows && 0 <= j < cols
      ensures 0 <= FlatIndex(i, j, cols) < rows * cols
    {
      assert FlatIndex(i, j, cols) < (i + 1) * cols;
      assert (i + 1) * cols <= rows * cols;
    }
  }

  /** `np.meshgrid(x, y)`: one row per entry of `y`, one column per entry
      of `x`. */
  function Meshgrid(x: seq<real>, y: seq<real>): (grids: (seq<seq<real>>, seq<seq<real>>))
    ensures |grids.0| == |y| && |grids.1| == |y|
    ensures forall i :: 0 <= i < |y| ==> |grids.0[i]| == |x| && |grids.1[i]| == |x|
    ensures forall i, j :: 0 <= i < |y| && 0 <= j < |x| ==> grids.0[i][j] == x[j] && grids.1[i][j] == y[i]
  {
    (seq(|y|, _ => x), seq(|y|, i requires 0 <= i < |y| => seq(|x|, _ => y[i])))
  }

  /** `np.ravel`: the rows one after the other. */
  function Ravel<T>(m: seq<seq<T>>): seq<T>
  {
    if m == [] then [] else m[0] + Ravel(m[1..])
  }

  /** Flattening a matrix of `w` columns puts entry (i, j) at `i * w + j`. */
  lemma RavelIndex<T>(m: seq<seq<T>>, w: nat)
    requires forall r :: 0 <= r < |m| ==> |m[r]| == w
    ensures |Ravel(m)| == |m| * w
    ensures forall i, j :: 0 <= i < |m| && 0 <= j < w ==>
      0 <= FlatIndex(i, j, w) < |Ravel(m)| && Ravel(m)[FlatIndex(i, j, w)] == m[i][j]
  {
    RavelLength(m, w);
    forall i, j | 0 <= i < |m| && 0 <= j < w
      ensures 0 <= FlatIndex(i, j, w) < |Ravel(m)| && Ravel(m)[FlatIndex(i, j, w)] == m[i][j]
    {
      RavelAt(m, w, i, j);
    }
  }

  /** `n` rows of `w` flatten to `n * w` entries. */
  lemma {:induction false} RavelLength<T>(m: seq<seq<T>>, w: nat)
    requires forall r :: 0 <= r < |m| ==> |m[r]| == w
    ensures |Ravel(m)| == |m| * w
  {
    if m != [] {
      RavelLength(m[1..], w);
      NextRow(|m| - 1, 0, w);
    }
  }

  /** Entry (i, j) lands at `i * w + j`, one row at a time. */
  lemma {:induction false} RavelAt<T>(m: seq<seq<T>>, w: nat, i: nat, j: nat)
    requires forall r :: 0 <= r < |m| ==> |m[r]| == w
    requires i < |m| && j < w
    ensures 0 <= FlatIndex(i, j, w) < |Ravel(m)| && Ravel(m)[FlatIndex(i, j, w)] == m[i][j]
    decreases i
  {
    var rest := m[1..];
    assert Ravel(m) == m[0] + Ravel(rest);
    if i > 0 {
      RavelAt(rest, w, i - 1, j);
      NextRow(i - 1, j, w);
      assert rest[i - 1] == m[i];
    }
  }

  /** One row further on is `w` places further on. */
  lemma NextRow(i: int, j: int, w: int)
    ensures FlatIndex(i + 1, j, w) == w + FlatIndex(i, j, w)
  {
  }

  /** `z.reshape(rows, cols)` of a flat array of `rows * cols` entries. */
  function Reshape<T>(z: seq<T>, rows: nat, cols: nat): (m: seq<seq<T>>)
    requires |z| == rows * cols
    ensures |m| == rows
    ensures forall i :: 0 <= i < rows ==> |m[i]| == cols
    ensures forall i, j :: 0 <= i < rows && 0 <= j < cols ==>
      0 <= FlatIndex(i, j, cols) < |z| && m[i][j] == z[FlatIndex(i, j, cols)]
  {
    FlatIndexBounds(rows, cols);
    seq(rows, i requires 0 <= i < rows =>
      seq(cols, j requires 0 <= j < cols => z[FlatIndex(i, j, cols)]))
  }

  // ---------------------------------------------------------------------
  // The grid
  // ---------------------------------------------------------------------

  /** `[cell(x, y) for (x, y) in zip(xs, ys)]` */
  function PairMap<T>(cell: (real, real) -> T, xs: seq<real>, ys: seq<real>): (z: seq<T>)
    requires |xs| == |ys|
    ensures |z| == |xs|
    ensures forall k :: 0 <= k < |xs| ==> z[k] == cell(xs[k], ys[k])
  {
    if xs == [] then [] else [cell(xs[0], ys[0])] + PairMap(cell, xs[1..], ys[1..])
  }

  /** The cells of the meshgrid of `levels` with itself, evaluated on the
      flattened grid and reshaped back to n rows of n. */
  function MeshCells<T>(levels: seq<real>, cell: (real, real) -> T): (zz: seq<seq<T>>)
    ensures |zz| == |levels|
    ensures forall i :: 0 <= i < |levels| ==> |zz[i]| == |levels|
  {
    var n := |levels|;
    var (xx, yy) := Meshgrid(levels, levels);
    RavelIndex(xx, n);
    RavelIndex(yy, n);
    Reshape(PairMap(cell, Ravel(xx), Ravel(yy)), n, n)
  }

  /** Cell (i, j) of the reshaped result is the cell function applied to
      the column level and the row level. */
  lemma MeshCellsAt<T>(levels: seq<real>, cell: (real, real) -> T)
    ensures forall i, j :: 0 <= i < |levels| && 0 <= j < |levels| ==>
      MeshCells(levels, cell)[i][j] == cell(levels[j], levels[i])
  {
    forall i, j | 0 <= i < |levels| && 0 <= j < |levels|
      ensures MeshCells(levels, cell)[i][j] == cell(levels[j], levels[i])
    {
      MeshCellAt(levels, cell, i, j);
    }
  }

  lemma MeshCellAt<T>(levels: seq<real>, cell: (real, real) -> T, i: nat, j: nat)
    requires i < |levels| && j < |levels|
    ensures MeshCells(levels, cell)[i][j] == cell(levels[j], levels[i])
  {
    var n := |levels|;
    var (xx, yy) := Meshgrid(levels, levels);
    var flatX, flatY := Ravel(xx), Ravel(yy);
    RavelIndex(xx, n);
    RavelIndex(yy, n);
    var z := PairMap(cell, flatX, flatY);
    var k := FlatIndex(i, j, n);
    assert MeshCells(levels, cell) == Reshape(z, n, n);
    assert flatX[k] == levels[j] && flatY[k] == levels[i];
  }

  /** The comprehension body `discriminate(infered_values[x], infered_values[y], x, y)`.
      The grid evaluates it only on keys of the dict (`Valid`), so its
      else branch, standing for a lookup that would raise `KeyError`, is
      never reached on the grid. */
  function Cell(auc: Auc, m: map<real, seq<Measure>>): (real, real) -> Measure
  {
    (x, y) => if x in m && y in m then Discrimination(auc, m[x], m[y], x, y) else Finite(0.0)
  }

  /** `discrimination_combinations`: the n-by-n meshgrid of the n levels,
      with `xx` holding the column level of each cell and `yy` its row
      level, and `zz` the scores, computed on the flattened grid and
      reshaped back. */
  function DiscriminationCombinations(auc: Auc, iv: InferredValues): (g: Grid)
    requires iv.Valid()
    ensures var n := |iv.levels|;
      && |g.xx| == n && |g.yy| == n && |g.zz| == n
      && (forall i :: 0 <= i < n ==> |g.xx[i]| == n && |g.yy[i]| == n && |g.zz[i]| == n)
    ensures var levels := iv.levels;
      forall i, j :: 0 <= i < |levels| && 0 <= j < |levels| ==>
        g.xx[i][j] == levels[j] && g.yy[i][j] == levels[i]
  {
    var (xx, yy) := Meshgrid(iv.levels, iv.levels);
    Grid(xx, yy, MeshCells(iv.levels, Cell(auc, iv.measures)))
  }

  /** Cell (i, j) of `zz` scores the column level's measures against the
      row level's, the diagonal included with no special case. */
  lemma CombinationCells(auc: Auc, iv: InferredValues)
    requires iv.Valid()
    ensures var g, levels := DiscriminationCombinations(auc, iv), iv.levels;
      forall i, j :: 0 <= i < |levels| && 0 <= j < |levels| ==>
        g.zz[i][j] == Discrimination(auc, iv.measures[levels[j]], iv.measures[levels[i]], levels[j], levels[i])
  {
    MeshCellsAt(iv.levels, Cell(auc, iv.measures));
  }

  /** The grid is symmetric: `zz` is its own transpose, and so `xx` is of
      `yy`.  Off the diagonal this is the scorer's swap rule, since the
      levels, being dict keys, are distinct; it holds whatever the area
      computation is. */
  lemma GridSymmetric(auc: Auc, iv: InferredValues)
    requires iv.Valid()
    ensures var g := DiscriminationCombinations(auc, iv);
      forall i, j :: 0 <= i < |iv.levels| && 0 <= j < |iv.levels| ==>
        g.zz[i][j] == g.zz[j][i] && g.xx[i][j] == g.yy[j][i]
  {
    var g := DiscriminationCombinations(auc, iv);
    forall i, j | 0 <= i < |iv.levels| && 0 <= j < |iv.levels|
      ensures g.zz[i][j] == g.zz[j][i]
    {
      CellSymmetric(auc, iv, i, j);
    }
  }

  lemma CellSymmetric(auc: Auc, iv: InferredValues, i: nat, j: nat)
    requires iv.Valid()
    requires i < |iv.levels| && j < |iv.levels|
    ensures DiscriminationCombinations(auc, iv).zz[i][j] == DiscriminationCombinations(auc, iv).zz[j][i]
  {
    var levels, m := iv.levels, iv.measures;
    var x, y := levels[j], levels[i];
    CombinationCells(auc, iv);
    if i != j {
      DiscriminationSymmetric(auc, m[x], m[y], x, y);
    }
  }
}

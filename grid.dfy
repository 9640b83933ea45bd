/**
 The object-point grid of a planar chessboard (`CameraCalibration.gridspace`).

 The source builds it as `np.mgrid[0:width, 0:height].T.reshape(-1, 2)` written into the
 first two columns of a `width*height` by 3 array of zeros. Here `MGrid` is the mesh of
 shape `2 x width x height`, `Transpose3` reverses the axes of a three-dimensional array,
 `Flatten` is the row-major reshape and `GridSpace` adds the zero z column. Arrays are nested
 sequences whose shape is given explicitly, as numpy keeps it even for empty arrays.
 */
module Grid {

  /** A 3D object point in pattern coordinates (the source stores float32; integers here). */
  type Point = (int, int, int)

  /** `a` is a three-dimensional array of shape `d0 x d1 x d2`. */
  predicate Shape3<T>(a: seq<seq<seq<T>>>, d0: nat, d1: nat, d2: nat)
  {
    |a| == d0 &&
    (forall i :: 0 <= i < d0 ==> |a[i]| == d1) &&
    (forall i, j :: 0 <= i < d0 && 0 <= j < d1 ==> |a[i][j]| == d2)
  }

  /**
   `np.mgrid[0:width, 0:height]`: two planes of shape `width x height`; in plane `k` the
   value is the index along axis `k`.
   */
  function MGrid(width: nat, height: nat): (g: seq<seq<seq<int>>>)
    ensures Shape3(g, 2, width, height)
  {
    seq(2, k => seq(width, x => seq(height, y => if k == 0 then x else y)))
  }

  /** `.T` on a three-dimensional array: the axes in reverse order, `t[c][b][a] == a[a][b][c]`. */
  function Transpose3<T>(a: seq<seq<seq<T>>>, d0: nat, d1: nat, d2: nat): (t: seq<seq<seq<T>>>)
    requires Shape3(a, d0, d1, d2)
    ensures Shape3(t, d2, d1, d0)
  {
    seq(d2, c requires 0 <= c < d2 =>
      seq(d1, b requires 0 <= b < d1 =>
        seq(d0, i requires 0 <= i < d0 => a[i][b][c])))
  }

  /**
   `np.mgrid[0:width, 0:height].T`: shape `height x width x 2`, and entry `[y][x]` is the
   pair `[x, y]`, so that row `y` runs along the board's x axis.
   */
  function MeshT(width: nat, height: nat): (m: seq<seq<seq<int>>>)
    ensures |m| == height
    ensures forall y :: 0 <= y < height ==> |m[y]| == width
    ensures forall y, x :: 0 <= y < height && 0 <= x < width ==> m[y][x] == [x, y]
  {
    Transpose3(MGrid(width, height), 2, width, height)
  }

  /** Row-major `reshape(-1, k)` of a nested sequence: the rows concatenated in order. */
  function Flatten<T>(rows: seq<seq<T>>): seq<T>
  {
    if rows == [] then [] else Flatten(rows[..|rows| - 1]) + rows[|rows| - 1]
  }

  /** Multiplying by a positive factor of at least one does not shrink. */
  lemma MulAtLeast(a: int, w: int)
    requires 1 <= a && 0 < w
    ensures a * w >= w
  {
  }

  /** Multiplication by a non-negative factor is monotonic. */
  lemma MulMonotonic(a: int, b: int, w: int)
    requires a <= b && 0 <= w
    ensures a * w <= b * w
  {
  }

  lemma Distributes(q: int, q': int, w: int)
    ensures q * w - q' * w == (q - q') * w
  {
  }

  lemma MulSucc(n: int, w: int)
    ensures (n + 1) * w == n * w + w
  {
  }

  lemma DivModBasics(i: int, w: int)
    requires 0 < w
    ensures i == (i / w) * w + i % w && 0 <= i % w < w
  {
  }

  /** Euclidean division is determined by quotient and remainder. */
  lemma DivModUnique(i: int, w: int, q: int, r: int)
    requires 0 < w && 0 <= r < w && i == q * w + r
    ensures i / w == q && i % w == r
  {
    var q', r' := i / w, i % w;
    DivModBasics(i, w);
    Distributes(q, q', w);
    assert (q - q') * w == r' - r;
    if q > q' {
      MulAtLeast(q - q', w);
    } else if q < q' {
      MulAtLeast(q' - q, w);
      Distributes(q', q, w);
    }
  }

  /** An index below `n * w` has a quotient below `n`. */
  lemma DivBelow(i: int, w: int, n: int)
    requires 0 < w && 0 <= i < n * w
    ensures 0 <= i / w < n
  {
    DivModBasics(i, w);
    if i / w >= n {
      MulMonotonic(n, i / w, w);
    }
    if i / w < 0 {
      MulMonotonic(i / w, -1, w);
    }
  }

  /** Flattening `n` rows of length `w` gives `n * w` entries. */
  lemma {:induction false} FlattenLength<T>(rows: seq<seq<T>>, w: nat)
    requires forall y :: 0 <= y < |rows| ==> |rows[y]| == w
    ensures |Flatten(rows)| == |rows| * w
  {
    if rows != [] {
      var n := |rows| - 1;
      FlattenLength(rows[..n], w);
      assert Flatten(rows) == Flatten(rows[..n]) + rows[n];
      MulSucc(n, w);
    }
  }

  /** Flattening rows that all have length `w` puts entry `[i / w][i % w]` at index `i`. */
  lemma {:induction false} FlattenAt<T>(rows: seq<seq<T>>, w: nat, i: int)
    requires 0 < w
    requires forall y :: 0 <= y < |rows| ==> |rows[y]| == w
    requires 0 <= i < |rows| * w
    ensures |Flatten(rows)| == |rows| * w
    ensures 0 <= i / w < |rows|
    ensures Flatten(rows)[i] == rows[i / w][i % w]
  {
    FlattenLength(rows, w);
    var n := |rows| - 1;
    var init := rows[..n];
    FlattenLength(init, w);
    MulSucc(n, w);
    if i < n * w {
      FlattenAt(init, w, i);
    } else {
      DivModUnique(i, w, n, i - n * w);
    }
  }

  /** With an empty row the mesh flattens to nothing. */
  lemma {:induction false} FlattenEmptyRows<T>(rows: seq<seq<T>>)
    requires forall y :: 0 <= y < |rows| ==> rows[y] == []
    ensures Flatten(rows) == []
  {
    if rows != [] {
      FlattenEmptyRows(rows[..|rows| - 1]);
    }
  }

  /**
   `gridspace()`: the `width*height` object points of the chessboard, in row-major order with
   the x coordinate varying fastest, all on the plane z = 0.
   */
  function GridSpace(width: nat, height: nat): (g: seq<Point>)
    ensures |g| == width * height
    ensures forall i :: 0 <= i < |g| ==> g[i] == (i % width, i / width, 0)
  {
    var xy := Flatten(MeshT(width, height));
    if width == 0 then
      FlattenEmptyRows(MeshT(width, height));
      []
    else
      FlattenLength(MeshT(width, height), width);
      assert forall i :: 0 <= i < |xy| ==> xy[i] == [i % width, i / width] by {
        forall i | 0 <= i < |xy| ensures xy[i] == [i % width, i / width] {
          FlattenAt(MeshT(width, height), width, i);
          DivModBasics(i, width);
        }
      }
      seq(|xy|, i requires 0 <= i < |xy| => (xy[i][0], xy[i][1], 0))
  }

  /** Every grid point lies inside the board: `0 <= x < width` and `0 <= y < height`. */
  lemma GridSpaceInBounds(width: nat, height: nat, i: int)
    requires 0 <= i < width * height
    ensures 0 <= GridSpace(width, height)[i].0 < width
    ensures 0 <= GridSpace(width, height)[i].1 < height
    ensures GridSpace(width, height)[i].2 == 0
  {
    DivBelow(i, width, height);
  }

  /** Corner `(x, y)` of the board is point number `y*width + x`. */
  lemma GridSpaceIndexOf(width: nat, height: nat, x: int, y: int)
    requires 0 <= x < width && 0 <= y < height
    ensures 0 <= y * width + x < width * height
    ensures GridSpace(width, height)[y * width + x] == (x, y, 0)
  {
    MulMonotonic(y, height - 1, width);
    Distributes(height, 1, width);
    DivModUnique(y * width + x, width, y, x);
  }

  /** No two indices give the same grid point. */
  lemma GridSpaceInjective(width: nat, height: nat, i: int, j: int)
    requires 0 <= i < width * height && 0 <= j < width * height
    requires GridSpace(width, height)[i] == GridSpace(width, height)[j]
    ensures i == j
  {
    assert i % width == j % width && i / width == j / width;
    DivModBasics(i, width);
    DivModBasics(j, width);
  }
}

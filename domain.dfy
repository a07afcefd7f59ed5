/** Values shared by the C++ classifier and the Python scripts: pixels, class
    labels, four-class count records, images as grids, and the first-extremum
    choice that both `np.argmax`/`np.argmin` and the strict-`<` loops make. */
module Domain {

  /** One 8-bit colour channel. */
  type Channel = x: int | 0 <= x < 256

  /** An RGB pixel, channels in (R, G, B) order. */
  datatype Pixel = Pixel(r: Channel, g: Channel, b: Channel)

  /** Class index of a label image: 0 background, 1 blue, 2 red, 3 yellow. */
  type Label = k: int | 0 <= k < 4

  /** Four per-class pixel counts [none, blue, red, yellow]. */
  type Counts = c: seq<nat> | |c| == 4 witness [0, 0, 0, 0]

  const ZERO_COUNTS: Counts := [0, 0, 0, 0]

  function Total(c: Counts): nat
  {
    c[0] + c[1] + c[2] + c[3]
  }

  function AddCounts(a: Counts, b: Counts): Counts
  {
    [a[0] + b[0], a[1] + b[1], a[2] + b[2], a[3] + b[3]]
  }

  datatype Option<T> = None | Some(value: T)

  datatype Result<T, E> = Ok(value: T) | Err(error: E)

  /** `g` has `h` rows of `w` cells each (the shape of a numpy array or a cv::Mat). */
  ghost predicate IsGrid<T>(g: seq<seq<T>>, h: nat, w: nat)
  {
    |g| == h && forall i :: 0 <= i < h ==> |g[i]| == w
  }

  /** Number of cells of a grid, row by row. */
  function Cells<T>(g: seq<seq<T>>): nat
  {
    if g == [] then 0 else Cells(g[..|g| - 1]) + |g[|g| - 1]|
  }

  /** The cells of a grid in row-major order. */
  function Flatten<T>(g: seq<seq<T>>): (s: seq<T>)
    ensures |s| == Cells(g)
  {
    if g == [] then [] else Flatten(g[..|g| - 1]) + g[|g| - 1]
  }

  /** Rows `i0..i1` and columns `j0..j1` of a grid: `rowRange(i0, i1).colRange(j0, j1)`
      in OpenCV, `g[i0:i1, j0:j1]` in numpy. */
  function Block<T>(g: seq<seq<T>>, i0: nat, i1: nat, j0: nat, j1: nat): (b: seq<seq<T>>)
    requires i0 <= i1 <= |g| && j0 <= j1
    requires forall i :: i0 <= i < i1 ==> j1 <= |g[i]|
    ensures IsGrid(b, i1 - i0, j1 - j0)
    ensures forall x, y :: 0 <= x < i1 - i0 && 0 <= y < j1 - j0 ==> b[x][y] == g[i0 + x][j0 + y]
  {
    seq(i1 - i0, x requires 0 <= x < i1 - i0 => g[i0 + x][j0..j1])
  }

  /** `k` is the first position of a maximum of `v` (numpy's `argmax`). */
  ghost predicate IsFirstArgMax(v: seq<real>, k: int)
  {
    && 0 <= k < |v|
    && (forall j :: 0 <= j < |v| ==> v[j] <= v[k])
    && (forall j :: 0 <= j < k ==> v[j] < v[k])
  }

  /** `k` is the first position of a minimum of `v` (numpy's `argmin`, or a scan
      that replaces its candidate only on a strictly smaller value). */
  ghost predicate IsFirstArgMin(v: seq<int>, k: int)
  {
    && 0 <= k < |v|
    && (forall j :: 0 <= j < |v| ==> v[k] <= v[j])
    && (forall j :: 0 <= j < k ==> v[k] < v[j])
  }

  function FirstArgMax(v: seq<real>): (k: nat)
    requires |v| > 0
    ensures IsFirstArgMax(v, k)
  {
    if |v| == 1 then 0
    else
      var k' := FirstArgMax(v[..|v| - 1]);
      if v[|v| - 1] > v[k'] then |v| - 1 else k'
  }

  function FirstArgMin(v: seq<int>): (k: nat)
    requires |v| > 0
    ensures IsFirstArgMin(v, k)
  {
    if |v| == 1 then 0
    else
      var k' := FirstArgMin(v[..|v| - 1]);
      if v[|v| - 1] < v[k'] then |v| - 1 else k'
  }

  /** The first-extremum position is unique, so any scan that establishes
      `IsFirstArgMax` computes `FirstArgMax`. */
  lemma FirstArgMaxUnique(v: seq<real>, k: int)
    requires IsFirstArgMax(v, k)
    ensures k == FirstArgMax(v)
  {
  }

  lemma FirstArgMinUnique(v: seq<int>, k: int)
    requires IsFirstArgMin(v, k)
    ensures k == FirstArgMin(v)
  {
  }

  /** One more element for a left-to-right scan keeping the first minimum. */
  lemma FirstArgMinStep(v: seq<int>, n: nat, k: int)
    requires n < |v|
    requires n == 0 || IsFirstArgMin(v[..n], k)
    ensures n == 0 || v[n] < v[k] ==> IsFirstArgMin(v[..n + 1], n)
    ensures n > 0 && v[n] >= v[k] ==> IsFirstArgMin(v[..n + 1], k)
  {
    assert forall j :: 0 <= j < n ==> v[..n + 1][j] == v[..n][j];
  }

  /** Counts as reals, for `np.argmax` over a count list. */
  function AsReals(c: Counts): (v: seq<real>)
    ensures |v| == 4 && forall k :: 0 <= k < 4 ==> v[k] == c[k] as real
  {
    [c[0] as real, c[1] as real, c[2] as real, c[3] as real]
  }

  /** End (exclusive) of a chunk that starts at `start`: `min(start + size, n - 1)`,
      the bound both evaluation loops use. */
  function ChunkEnd(start: int, size: int, n: int): int
  {
    if start + size < n - 1 then start + size else n - 1
  }
}

/** The evaluation loop of `Main.cpp`: every image is cut into 128 x 128
    tiles, each tile is classified by the three queries and compared with the
    label histogram of the same tile, and eight correct/all counters are kept. */
module TileEvaluation {
  import opened Domain
  import opened Classifier
  import CppUtils

  const CHUNK_SIZE: nat := 128
  const ALPHA: real := 0.18
  const TRUTH_FACTOR: real := 0.4

  /** Number of cells of `row` equal to `k`. */
  function CountIn(row: seq<int>, k: int): nat
  {
    if row == [] then 0 else CountIn(row[..|row| - 1], k) + (if row[|row| - 1] == k then 1 else 0)
  }

  /** Number of cells of `g` equal to `k`. */
  function CountOf(g: seq<seq<int>>, k: int): nat
  {
    if g == [] then 0 else CountOf(g[..|g| - 1], k) + CountIn(g[|g| - 1], k)
  }

  /** The label histogram of a patch: how many cells hold each class. */
  function Histogram(g: seq<seq<int>>): Counts
  {
    [CountOf(g, 0), CountOf(g, 1), CountOf(g, 2), CountOf(g, 3)]
  }

  ghost predicate LabelsInRange(g: seq<seq<int>>)
  {
    forall i, j :: 0 <= i < |g| && 0 <= j < |g[i]| ==> 0 <= g[i][j] < 4
  }

  /** `count_occurences`: one increment of `result[pixel[j]]` per cell. A
      cell outside 0..3 would index past the vector, hence the precondition. */
  method CountOccurences(patch: seq<seq<int>>) returns (result: Counts)
    requires LabelsInRange(patch)
    ensures result == Histogram(patch)
  {
    result := ZERO_COUNTS;
    var i := 0;
    while i < |patch|
      invariant 0 <= i <= |patch|
      invariant forall k :: 0 <= k < 4 ==> result[k] == CountOf(patch[..i], k)
    {
      var row := patch[i];
      var j := 0;
      while j < |row|
        invariant 0 <= j <= |row|
        invariant forall k :: 0 <= k < 4 ==> result[k] == CountOf(patch[..i], k) + CountIn(row[..j], k)
      {
        assert row[..j + 1][..j] == row[..j];
        var cls := row[j];
        result := result[cls := result[cls] + 1];
        j := j + 1;
      }
      assert row[..|row|] == row;
      assert patch[..i + 1][..i] == patch[..i];
      i := i + 1;
    }
    assert patch[..|patch|] == patch;
  }

  lemma {:induction false} RowCountsTotal(row: seq<int>)
    requires forall j :: 0 <= j < |row| ==> 0 <= row[j] < 4
    ensures CountIn(row, 0) + CountIn(row, 1) + CountIn(row, 2) + CountIn(row, 3) == |row|
  {
    if row != [] {
      RowCountsTotal(row[..|row| - 1]);
    }
  }

  /** Every cell of an in-range patch is counted exactly once: the four counts
      add up to the number of cells (rows x cols for a rectangular patch). */
  lemma {:induction false} HistogramTotal(g: seq<seq<int>>)
    requires LabelsInRange(g)
    ensures Total(Histogram(g)) == Cells(g)
  {
    if g != [] {
      var init := g[..|g| - 1];
      assert LabelsInRange(init) by {
        forall i, j | 0 <= i < |init| && 0 <= j < |init[i]|
          ensures 0 <= init[i][j] < 4
        {
          assert init[i] == g[i];
        }
      }
      HistogramTotal(g[..|g| - 1]);
      var last := g[|g| - 1];
      assert forall j :: 0 <= j < |last| ==> 0 <= last[j] < 4;
      RowCountsTotal(last);
    }
  }

  lemma {:induction false} CellsOfGrid<T>(g: seq<seq<T>>, h: nat, w: nat)
    requires IsGrid(g, h, w)
    ensures Cells(g) == h * w
  {
    if h > 0 {
      CellsOfGrid(g[..h - 1], h - 1, w);
    }
  }

  // Ground truth of a tile from its label histogram `oc`. The source compares
  // an int with `oc[0] * 0.4`, a double; the comparisons are kept exact here
  // by scaling both sides by 5.

  /** `a > b * 0.4`. */
  predicate MoreThanFactor(a: nat, b: nat)
  {
    5 * a > 2 * b
  }

  /** `b * 0.4 > a`. */
  predicate LessThanFactor(a: nat, b: nat)
  {
    2 * b > 5 * a
  }

  /** The scaled comparisons are the source's comparisons against `0.4`. */
  lemma FactorComparisons(a: nat, b: nat)
    ensures MoreThanFactor(a, b) <==> a as real > b as real * TRUTH_FACTOR
    ensures LessThanFactor(a, b) <==> b as real * TRUTH_FACTOR > a as real
  {
  }

  predicate TruthBlue(oc: Counts)
  {
    MoreThanFactor(oc[1], oc[0]) && oc[1] > oc[2] && oc[1] > oc[3]
  }

  predicate TruthRed(oc: Counts)
  {
    MoreThanFactor(oc[2], oc[0]) && oc[2] > oc[1] && oc[2] > oc[3]
  }

  predicate TruthYellow(oc: Counts)
  {
    MoreThanFactor(oc[3], oc[0]) && oc[3] > oc[1] && oc[3] > oc[2]
  }

  predicate TruthNone(oc: Counts)
  {
    LessThanFactor(oc[1], oc[0]) && LessThanFactor(oc[2], oc[0]) && LessThanFactor(oc[3], oc[0])
  }

  /** The strict comparisons make the four ground-truth categories pairwise
      exclusive. */
  lemma TruthExclusive(oc: Counts)
    ensures !(TruthBlue(oc) && TruthRed(oc))
    ensures !(TruthBlue(oc) && TruthYellow(oc))
    ensures !(TruthRed(oc) && TruthYellow(oc))
    ensures !(TruthNone(oc) && (TruthBlue(oc) || TruthRed(oc) || TruthYellow(oc)))
  {
  }

  /** A tile can also be in no category, for instance at a tie. */
  lemma TruthCanBeNothing()
    ensures var oc: Counts := [5, 2, 2, 0];
      !TruthBlue(oc) && !TruthRed(oc) && !TruthYellow(oc) && !TruthNone(oc)
  {
  }

  /** The value left in `label_reduced` for a tile: 0, then overwritten by
      each truth branch in turn. */
  function LabelReducedValue(oc: Counts): Label
  {
    if TruthYellow(oc) then 3 else if TruthRed(oc) then 2 else if TruthBlue(oc) then 1 else 0
  }

  /** Because the categories exclude each other, `label_reduced` holds the
      index of the tile's colour category, or 0 when it has none. */
  lemma LabelReducedIsTruth(oc: Counts)
    ensures LabelReducedValue(oc) == 1 <==> TruthBlue(oc)
    ensures LabelReducedValue(oc) == 2 <==> TruthRed(oc)
    ensures LabelReducedValue(oc) == 3 <==> TruthYellow(oc)
    ensures LabelReducedValue(oc) == 0 <==> !TruthBlue(oc) && !TruthRed(oc) && !TruthYellow(oc)
  {
    TruthExclusive(oc);
  }

  /** The predicted colour: 0, then overwritten by blue, red and yellow in turn. */
  function PredictedColor(blue: bool, red: bool, yellow: bool): Label
  {
    var color := 0;
    var color := if blue then 1 else color;
    var color := if red then 2 else color;
    if yellow then 3 else color
  }

  /** Later checks override earlier ones: yellow beats red beats blue. */
  lemma PredictionPrecedence(blue: bool, red: bool, yellow: bool)
    ensures PredictedColor(blue, red, yellow) == 3 <==> yellow
    ensures PredictedColor(blue, red, yellow) == 2 <==> red && !yellow
    ensures PredictedColor(blue, red, yellow) == 1 <==> blue && !red && !yellow
    ensures PredictedColor(blue, red, yellow) == 0 <==> !blue && !red && !yellow
  {
  }

  /** The eight counters of `main`. */
  datatype Tally = Tally(
    blueCorrect: nat, blueAll: nat,
    redCorrect: nat, redAll: nat,
    yellowCorrect: nat, yellowAll: nat,
    noneCorrect: nat, noneAll: nat)
  {
    function Plus(o: Tally): Tally
    {
      Tally(blueCorrect + o.blueCorrect, blueAll + o.blueAll,
            redCorrect + o.redCorrect, redAll + o.redAll,
            yellowCorrect + o.yellowCorrect, yellowAll + o.yellowAll,
            noneCorrect + o.noneCorrect, noneAll + o.noneAll)
    }

    /** No class has more correct tiles than tiles. */
    predicate Consistent()
    {
      && blueCorrect <= blueAll && redCorrect <= redAll
      && yellowCorrect <= yellowAll && noneCorrect <= noneAll
    }
  }

  const NO_TALLY := Tally(0, 0, 0, 0, 0, 0, 0, 0)

  /** What one tile adds to the counters. */
  function TileTally(oc: Counts, blue: bool, red: bool, yellow: bool): Tally
  {
    Tally(
      if TruthBlue(oc) && blue then 1 else 0, if TruthBlue(oc) then 1 else 0,
      if TruthRed(oc) && red then 1 else 0, if TruthRed(oc) then 1 else 0,
      if TruthYellow(oc) && yellow then 1 else 0, if TruthYellow(oc) then 1 else 0,
      if TruthNone(oc) && !(blue || red || yellow) then 1 else 0, if TruthNone(oc) then 1 else 0)
  }

  /** A tile counts as correct exactly when its truth holds and the matching
      query agrees; a background tile only when no query fires. At most one
      `all` counter moves per tile. */
  lemma TileTallyMeaning(oc: Counts, blue: bool, red: bool, yellow: bool)
    ensures var t := TileTally(oc, blue, red, yellow);
      && t.Consistent()
      && (t.blueCorrect == 1 <==> TruthBlue(oc) && blue)
      && (t.redCorrect == 1 <==> TruthRed(oc) && red)
      && (t.yellowCorrect == 1 <==> TruthYellow(oc) && yellow)
      && (t.noneCorrect == 1 <==> TruthNone(oc) && !blue && !red && !yellow)
      && t.blueAll + t.redAll + t.yellowAll + t.noneAll <= 1
  {
    TruthExclusive(oc);
  }

  lemma PlusConsistent(a: Tally, b: Tally)
    requires a.Consistent() && b.Consistent()
    ensures a.Plus(b).Consistent()
  {
  }

  /** Number of tile starts `0, 128, 256, ...` below `n - 1`. */
  function TileStarts(n: int): nat
  {
    if n - 1 <= 0 then 0 else (n - 2) / CHUNK_SIZE + 1
  }

  lemma TileStartsBound(n: int, a: nat)
    ensures CHUNK_SIZE * a < n - 1 <==> a < TileStarts(n)
  {
    if n - 1 > 0 {
      var q := (n - 2) / CHUNK_SIZE;
      assert n - 2 == CHUNK_SIZE * q + (n - 2) % CHUNK_SIZE;
      if a <= q {
        assert CHUNK_SIZE * a <= CHUNK_SIZE * q;
      } else {
        assert CHUNK_SIZE * a >= CHUNK_SIZE * (q + 1);
      }
    }
  }

  /** The cell `(i / 128, j / 128)` of every tile lies inside the
      `(h / 128 + 1) x (w / 128 + 1)` reduced grid. */
  lemma ReducedIndexInGrid(n: int, a: nat)
    requires n >= 0 && a < TileStarts(n)
    ensures (CHUNK_SIZE * a) / CHUNK_SIZE == a
    ensures a < n / CHUNK_SIZE + 1
  {
    TileStartsBound(n, a);
  }

  lemma TileStartsFit(n: int)
    requires n >= 0
    ensures TileStarts(n) <= n / CHUNK_SIZE + 1
  {
    if TileStarts(n) > 0 {
      ReducedIndexInGrid(n, TileStarts(n) - 1);
    }
  }

  ghost predicate WellFormed(t: ScoreTable, image: seq<seq<Pixel>>, classes: seq<seq<int>>, h: nat, w: nat)
  {
    IsGrid(image, h, w) && IsGrid(classes, h, w) && LabelsInRange(classes) && t.Covers(image)
  }

  lemma BlockCovered(t: ScoreTable, g: seq<seq<Pixel>>, i0: nat, i1: nat, j0: nat, j1: nat)
    requires t.Covers(g)
    requires i0 <= i1 <= |g| && j0 <= j1
    requires forall i :: i0 <= i < i1 ==> j1 <= |g[i]|
    ensures t.Covers(Block(g, i0, i1, j0, j1))
  {
  }

  lemma BlockInRange(g: seq<seq<int>>, i0: nat, i1: nat, j0: nat, j1: nat)
    requires LabelsInRange(g)
    requires i0 <= i1 <= |g| && j0 <= j1
    requires forall i :: i0 <= i < i1 ==> j1 <= |g[i]|
    ensures LabelsInRange(Block(g, i0, i1, j0, j1))
  {
  }

  /** The tile starting at `(128 a, 128 b)`, cut short one row and one column
      before the border. */
  function Tile<T>(g: seq<seq<T>>, h: nat, w: nat, a: nat, b: nat): seq<seq<T>>
    requires IsGrid(g, h, w) && a < TileStarts(h) && b < TileStarts(w)
  {
    TileStartsBound(h, a);
    TileStartsBound(w, b);
    var i, j := CHUNK_SIZE * a, CHUNK_SIZE * b;
    Block(g, i, ChunkEnd(i, CHUNK_SIZE, h), j, ChunkEnd(j, CHUNK_SIZE, w))
  }

  /** What the loop learns about one tile: the label histogram and the
      answers of the three queries. */
  datatype TileResult = TileResult(oc: Counts, blue: bool, red: bool, yellow: bool)

  /** The result for the tile starting at `(128 a, 128 b)`. */
  ghost function ResultAt(t: ScoreTable, image: seq<seq<Pixel>>, classes: seq<seq<int>>, h: nat, w: nat, a: nat, b: nat): TileResult
    requires WellFormed(t, image, classes, h, w) && a < TileStarts(h) && b < TileStarts(w)
  {
    TileStartsBound(h, a);
    TileStartsBound(w, b);
    var i, j := CHUNK_SIZE * a, CHUNK_SIZE * b;
    BlockCovered(t, image, i, ChunkEnd(i, CHUNK_SIZE, h), j, ChunkEnd(j, CHUNK_SIZE, w));
    var s := t.Percentage(Tile(image, h, w, a, b), ALPHA);
    TileResult(Histogram(Tile(classes, h, w, a, b)), BlueRule(s), RedRule(s), YellowRule(s))
  }

  /** The results of every tile of an image, tile row by tile row. */
  ghost function ImageResults(t: ScoreTable, image: seq<seq<Pixel>>, classes: seq<seq<int>>, h: nat, w: nat): (rss: seq<seq<TileResult>>)
    requires WellFormed(t, image, classes, h, w)
    ensures IsGrid(rss, TileStarts(h), TileStarts(w))
    ensures forall a, b :: 0 <= a < TileStarts(h) && 0 <= b < TileStarts(w) ==> rss[a][b] == ResultAt(t, image, classes, h, w, a, b)
  {
    seq(TileStarts(h), a requires 0 <= a < TileStarts(h) =>
      seq(TileStarts(w), b requires 0 <= b < TileStarts(w) => ResultAt(t, image, classes, h, w, a, b)))
  }

  function ResultTally(r: TileResult): Tally
  {
    TileTally(r.oc, r.blue, r.red, r.yellow)
  }

  function SumRow(rs: seq<TileResult>): Tally
  {
    if rs == [] then NO_TALLY else SumRow(rs[..|rs| - 1]).Plus(ResultTally(rs[|rs| - 1]))
  }

  lemma PlusAssociative(a: Tally, b: Tally, c: Tally)
    ensures a.Plus(b).Plus(c) == a.Plus(b.Plus(c))
  {
  }

  lemma SumRowSnoc(rs: seq<TileResult>, r: TileResult)
    ensures SumRow(rs + [r]) == SumRow(rs).Plus(ResultTally(r))
  {
    assert (rs + [r])[..|rs|] == rs;
  }

  lemma SumGridSnoc(rss: seq<seq<TileResult>>, rs: seq<TileResult>)
    ensures SumGrid(rss + [rs]) == SumGrid(rss).Plus(SumRow(rs))
  {
    assert (rss + [rs])[..|rss|] == rss;
  }

  function SumGrid(rss: seq<seq<TileResult>>): Tally
  {
    if rss == [] then NO_TALLY else SumGrid(rss[..|rss| - 1]).Plus(SumRow(rss[|rss| - 1]))
  }

  /** The counters after one image. */
  ghost function ImageTally(t: ScoreTable, image: seq<seq<Pixel>>, classes: seq<seq<int>>, h: nat, w: nat): Tally
    requires WellFormed(t, image, classes, h, w)
  {
    SumGrid(ImageResults(t, image, classes, h, w))
  }

  lemma {:induction false} SumRowConsistent(rs: seq<TileResult>)
    ensures SumRow(rs).Consistent()
  {
    if rs != [] {
      SumRowConsistent(rs[..|rs| - 1]);
      var r := rs[|rs| - 1];
      TileTallyMeaning(r.oc, r.blue, r.red, r.yellow);
    }
  }

  lemma {:induction false} SumGridConsistent(rss: seq<seq<TileResult>>)
    ensures SumGrid(rss).Consistent()
  {
    if rss != [] {
      SumGridConsistent(rss[..|rss| - 1]);
      SumRowConsistent(rss[|rss| - 1]);
    }
  }

  /** Per image, no class has more correct tiles than tiles. */
  lemma ImageTallyConsistent(t: ScoreTable, image: seq<seq<Pixel>>, classes: seq<seq<int>>, h: nat, w: nat)
    requires WellFormed(t, image, classes, h, w)
    ensures ImageTally(t, image, classes, h, w).Consistent()
  {
    SumGridConsistent(ImageResults(t, image, classes, h, w));
  }

  /** `rs` holds the results of the first `|rs|` tiles of tile row `a`. */
  ghost predicate RowMatches(t: ScoreTable, image: seq<seq<Pixel>>, classes: seq<seq<int>>, h: nat, w: nat, a: nat, rs: seq<TileResult>)
    requires WellFormed(t, image, classes, h, w) && a < TileStarts(h) && |rs| <= TileStarts(w)
  {
    forall b :: 0 <= b < |rs| ==> rs[b] == ResultAt(t, image, classes, h, w, a, b)
  }

  lemma RowMatchesSnoc(t: ScoreTable, image: seq<seq<Pixel>>, classes: seq<seq<int>>, h: nat, w: nat, a: nat, rs: seq<TileResult>, r: TileResult)
    requires WellFormed(t, image, classes, h, w) && a < TileStarts(h) && |rs| < TileStarts(w)
    requires RowMatches(t, image, classes, h, w, a, rs)
    requires r == ResultAt(t, image, classes, h, w, a, |rs|)
    ensures RowMatches(t, image, classes, h, w, a, rs + [r])
  {
    var rs' := rs + [r];
    forall b | 0 <= b < |rs'|
      ensures rs'[b] == ResultAt(t, image, classes, h, w, a, b)
    {
      if b < |rs| {
        assert rs'[b] == rs[b];
      }
    }
  }

  /** `rss` holds the results of the first `|rss|` tile rows. */
  ghost predicate GridMatches(t: ScoreTable, image: seq<seq<Pixel>>, classes: seq<seq<int>>, h: nat, w: nat, rss: seq<seq<TileResult>>)
    requires WellFormed(t, image, classes, h, w) && |rss| <= TileStarts(h)
  {
    forall x :: 0 <= x < |rss| ==> |rss[x]| == TileStarts(w) && RowMatches(t, image, classes, h, w, x, rss[x])
  }

  lemma GridMatchesSnoc(t: ScoreTable, image: seq<seq<Pixel>>, classes: seq<seq<int>>, h: nat, w: nat, rss: seq<seq<TileResult>>, rs: seq<TileResult>)
    requires WellFormed(t, image, classes, h, w) && |rss| < TileStarts(h)
    requires GridMatches(t, image, classes, h, w, rss)
    requires |rs| == TileStarts(w) && RowMatches(t, image, classes, h, w, |rss|, rs)
    ensures GridMatches(t, image, classes, h, w, rss + [rs])
  {
    var rss' := rss + [rs];
    forall x | 0 <= x < |rss'|
      ensures |rss'[x]| == TileStarts(w) && RowMatches(t, image, classes, h, w, x, rss'[x])
    {
      if x < |rss| {
        assert rss'[x] == rss[x];
      }
    }
  }

  /** Once every tile row is done, the results are those of the whole image. */
  lemma AllTilesMatched(t: ScoreTable, image: seq<seq<Pixel>>, classes: seq<seq<int>>, h: nat, w: nat, rss: seq<seq<TileResult>>)
    requires WellFormed(t, image, classes, h, w) && |rss| == TileStarts(h)
    requires GridMatches(t, image, classes, h, w, rss)
    ensures rss == ImageResults(t, image, classes, h, w)
  {
    var all := ImageResults(t, image, classes, h, w);
    forall a | 0 <= a < |rss|
      ensures rss[a] == all[a]
    {
      assert forall b :: 0 <= b < |rss[a]| ==> rss[a][b] == all[a][b];
    }
  }

  /** A reduced-grid cell pair holds a tile's predicted colour and its truth class. */
  predicate Recorded(color: int, truth: int, r: TileResult)
  {
    color == PredictedColor(r.blue, r.red, r.yellow) && truth == LabelReducedValue(r.oc)
  }

  /** The truth branches of one tile: each true category moves its `all`
      counter, and its `correct` counter when the matching prediction agrees;
      `label_reduced` gets the category's index. */
  method TallyTile(oc: Counts, blue: bool, red: bool, yellow: bool, tally: Tally) returns (tally': Tally, truth: Label)
    ensures tally' == tally.Plus(TileTally(oc, blue, red, yellow))
    ensures truth == LabelReducedValue(oc)
  {
    tally' := tally;
    truth := 0;
    if TruthBlue(oc) {
      if blue {
        tally' := tally'.(blueCorrect := tally'.blueCorrect + 1);
      }
      tally' := tally'.(blueAll := tally'.blueAll + 1);
      truth := 1;
    }
    if TruthRed(oc) {
      if red {
        tally' := tally'.(redCorrect := tally'.redCorrect + 1);
      }
      tally' := tally'.(redAll := tally'.redAll + 1);
      truth := 2;
    }
    if TruthYellow(oc) {
      if yellow {
        tally' := tally'.(yellowCorrect := tally'.yellowCorrect + 1);
      }
      tally' := tally'.(yellowAll := tally'.yellowAll + 1);
      truth := 3;
    }
    if TruthNone(oc) {
      if !(blue || red || yellow) {
        tally' := tally'.(noneCorrect := tally'.noneCorrect + 1);
      }
      tally' := tally'.(noneAll := tally'.noneAll + 1);
    }
  }

  /** One tile of the loop: the three queries, the predicted colour, the
      histogram, the truth branches and their counter updates. */
  method EvaluateTile(cc: ColorClassifier, ghost t: ScoreTable, image: seq<seq<Pixel>>, classes: seq<seq<int>>, h: nat, w: nat,
                      i: nat, j: nat, ghost a: nat, ghost b: nat, tally: Tally)
    returns (tally': Tally, color: Label, truth: Label, ghost r: TileResult)
    requires cc.Table() == t && WellFormed(t, image, classes, h, w) && a < TileStarts(h) && b < TileStarts(w)
    requires i == CHUNK_SIZE * a && j == CHUNK_SIZE * b
    ensures r == ResultAt(t, image, classes, h, w, a, b)
    ensures tally' == tally.Plus(ResultTally(r))
    ensures Recorded(color, truth, r)
    ensures tally' == tally.Plus(ResultTally(ResultAt(t, image, classes, h, w, a, b)))
    ensures var res := ResultAt(t, image, classes, h, w, a, b);
      color == PredictedColor(res.blue, res.red, res.yellow)
    ensures truth == LabelReducedValue(Histogram(Tile(classes, h, w, a, b)))
  {
    TileStartsBound(h, a);
    TileStartsBound(w, b);
    var toI, toJ := ChunkEnd(i, CHUNK_SIZE, h), ChunkEnd(j, CHUNK_SIZE, w);
    var patch := Block(image, i, toI, j, toJ);
    BlockCovered(t, image, i, toI, j, toJ);
    var blue := cc.IsBlue(patch, ALPHA);
    var red := cc.IsRed(patch, ALPHA);
    var yellow := cc.IsYellow(patch, ALPHA);

    color := 0;
    if blue {
      color := 1;
    }
    if red {
      color := 2;
    }
    if yellow {
      color := 3;
    }

    BlockInRange(classes, i, toI, j, toJ);
    var oc := CountOccurences(Block(classes, i, toI, j, toJ));
    tally', truth := TallyTile(oc, blue, red, yellow, tally);
    r := TileResult(oc, blue, red, yellow);
  }

  /** One tile and its two writes `predicted(i / 128, j / 128)` and
      `label_reduced(i / 128, j / 128)`; no other cell changes. */
  method RecordTile(cc: ColorClassifier, ghost t: ScoreTable, image: seq<seq<Pixel>>, classes: seq<seq<int>>, h: nat, w: nat,
                    i: nat, j: nat, ghost a: nat, ghost b: nat, tally: Tally, predicted: array2<int>, labelReduced: array2<int>)
    returns (tally': Tally, color: Label, truth: Label, ghost r: TileResult)
    requires cc.Table() == t && WellFormed(t, image, classes, h, w) && a < TileStarts(h) && b < TileStarts(w)
    requires i == CHUNK_SIZE * a && j == CHUNK_SIZE * b
    requires TileStarts(h) <= predicted.Length0 && TileStarts(w) <= predicted.Length1
    requires predicted.Length0 == labelReduced.Length0 && predicted.Length1 == labelReduced.Length1
    requires predicted != labelReduced
    modifies predicted, labelReduced
    ensures r == ResultAt(t, image, classes, h, w, a, b)
    ensures tally' == tally.Plus(ResultTally(r))
    ensures Recorded(color, truth, r)
    ensures predicted[a, b] == color && labelReduced[a, b] == truth
    ensures forall y :: 0 <= y < predicted.Length1 && y != b ==>
      predicted[a, y] == old(predicted[a, y]) && labelReduced[a, y] == old(labelReduced[a, y])
    ensures forall x, y :: 0 <= x < predicted.Length0 && 0 <= y < predicted.Length1 && x != a ==>
      predicted[x, y] == old(predicted[x, y]) && labelReduced[x, y] == old(labelReduced[x, y])
  {
    tally', color, truth, r := EvaluateTile(cc, t, image, classes, h, w, i, j, a, b, tally);
    ReducedIndexInGrid(h, a);
    ReducedIndexInGrid(w, b);
    var row, col := i / CHUNK_SIZE, j / CHUNK_SIZE;
    predicted[row, col] := color;
    labelReduced[row, col] := truth;
  }

  /** One pass of the inner loop: the tiles of tile row `a`, starting at row
      `i`, left to right. Only row `a` of the reduced grids is written, with
      the predicted colour and truth class of each tile. */
  method EvaluateRow(cc: ColorClassifier, ghost t: ScoreTable, image: seq<seq<Pixel>>, classes: seq<seq<int>>, h: nat, w: nat,
                     i: nat, ghost a: nat, tally: Tally, predicted: array2<int>, labelReduced: array2<int>)
    returns (tally': Tally, ghost rs: seq<TileResult>)
    requires cc.Table() == t && WellFormed(t, image, classes, h, w) && a < TileStarts(h) && i == CHUNK_SIZE * a
    requires TileStarts(h) <= predicted.Length0 && TileStarts(w) <= predicted.Length1
    requires predicted.Length0 == labelReduced.Length0 && predicted.Length1 == labelReduced.Length1
    requires predicted != labelReduced
    modifies predicted, labelReduced
    ensures |rs| == TileStarts(w) && RowMatches(t, image, classes, h, w, a, rs)
    ensures tally' == tally.Plus(SumRow(rs))
    ensures forall y :: 0 <= y < |rs| ==> Recorded(predicted[a, y], labelReduced[a, y], rs[y])
    ensures forall x, y :: 0 <= x < a && 0 <= y < TileStarts(w) ==>
      predicted[x, y] == old(predicted[x, y]) && labelReduced[x, y] == old(labelReduced[x, y])
  {
    ReducedIndexInGrid(h, a);
    tally' := tally;
    rs := [];
    var j := 0;
    while j < w - 1
      invariant |rs| <= TileStarts(w) && j == CHUNK_SIZE * |rs|
      invariant RowMatches(t, image, classes, h, w, a, rs)
      invariant tally' == tally.Plus(SumRow(rs))
      invariant forall y :: 0 <= y < |rs| ==> Recorded(predicted[a, y], labelReduced[a, y], rs[y])
      invariant forall x, y :: 0 <= x < a && 0 <= y < TileStarts(w) ==>
        predicted[x, y] == old(predicted[x, y]) && labelReduced[x, y] == old(labelReduced[x, y])
    {
      ghost var b := |rs|;
      TileStartsBound(w, b);
      var color, truth;
      ghost var r;
      tally', color, truth, r := RecordTile(cc, t, image, classes, h, w, i, j, a, b, tally', predicted, labelReduced);
      RowStep(t, image, classes, h, w, a, tally, tally', rs, r);
      rs := rs + [r];
      j := j + CHUNK_SIZE;
    }
    TileStartsBound(w, |rs|);
  }

  /** The bookkeeping of one tile of a row: its result extends the row's
      results and the tally. */
  lemma RowStep(t: ScoreTable, image: seq<seq<Pixel>>, classes: seq<seq<int>>, h: nat, w: nat, a: nat,
                tally: Tally, tally': Tally, rs: seq<TileResult>, r: TileResult)
    requires WellFormed(t, image, classes, h, w) && a < TileStarts(h) && |rs| < TileStarts(w)
    requires RowMatches(t, image, classes, h, w, a, rs) && r == ResultAt(t, image, classes, h, w, a, |rs|)
    requires tally' == tally.Plus(SumRow(rs)).Plus(ResultTally(r))
    ensures RowMatches(t, image, classes, h, w, a, rs + [r])
    ensures tally' == tally.Plus(SumRow(rs + [r]))
  {
    RowMatchesSnoc(t, image, classes, h, w, a, rs, r);
    SumRowSnoc(rs, r);
    PlusAssociative(tally, SumRow(rs), ResultTally(r));
  }

  lemma RecordedExtend(predicted: array2<int>, labelReduced: array2<int>, rss: seq<seq<TileResult>>, rs: seq<TileResult>, n: nat)
    requires |rss| < predicted.Length0 && |rss| < labelReduced.Length0
    requires n <= predicted.Length1 && n <= labelReduced.Length1
    requires |rs| == n && forall x :: 0 <= x < |rss| ==> |rss[x]| == n
    requires forall x, y :: 0 <= x < |rss| && 0 <= y < n ==> Recorded(predicted[x, y], labelReduced[x, y], rss[x][y])
    requires forall y :: 0 <= y < n ==> Recorded(predicted[|rss|, y], labelReduced[|rss|, y], rs[y])
    ensures forall x :: 0 <= x <= |rss| ==> |(rss + [rs])[x]| == n
    ensures forall x, y :: 0 <= x <= |rss| && 0 <= y < n ==> Recorded(predicted[x, y], labelReduced[x, y], (rss + [rs])[x][y])
  {
    forall x, y | 0 <= x <= |rss| && 0 <= y < n
      ensures Recorded(predicted[x, y], labelReduced[x, y], (rss + [rs])[x][y])
    {
      if x < |rss| {
        assert (rss + [rs])[x] == rss[x];
      }
    }
  }

  /** The tile loop of one image: tiles start every 128 rows and columns while
      below `h - 1` and `w - 1`; each writes its predicted colour and its truth
      class into the reduced grids. Reduced cells no tile reaches are left as
      allocated (uninitialised in the source). */
  method EvaluateImage(cc: ColorClassifier, image: seq<seq<Pixel>>, classes: seq<seq<int>>, h: nat, w: nat)
    returns (tally: Tally, predicted: array2<int>, labelReduced: array2<int>)
    requires WellFormed(cc.Table(), image, classes, h, w)
    ensures fresh(predicted) && fresh(labelReduced)
    ensures tally == ImageTally(cc.Table(), image, classes, h, w)
    ensures predicted.Length0 == labelReduced.Length0 == h / CHUNK_SIZE + 1
    ensures predicted.Length1 == labelReduced.Length1 == w / CHUNK_SIZE + 1
    ensures TileStarts(h) <= predicted.Length0 && TileStarts(w) <= predicted.Length1
    ensures forall a, b :: 0 <= a < TileStarts(h) && 0 <= b < TileStarts(w) ==>
      Recorded(predicted[a, b], labelReduced[a, b], ImageResults(cc.Table(), image, classes, h, w)[a][b])
  {
    ghost var t := cc.Table();
    labelReduced := new int[h / CHUNK_SIZE + 1, w / CHUNK_SIZE + 1];
    predicted := new int[h / CHUNK_SIZE + 1, w / CHUNK_SIZE + 1];
    tally := NO_TALLY;
    TileStartsFit(h);
    TileStartsFit(w);
    ghost var rss: seq<seq<TileResult>> := [];
    var i := 0;
    while i < h - 1
      invariant |rss| <= TileStarts(h) && i == CHUNK_SIZE * |rss|
      invariant GridMatches(t, image, classes, h, w, rss)
      invariant tally == SumGrid(rss)
      invariant forall x :: 0 <= x < |rss| ==> |rss[x]| == TileStarts(w)
      invariant forall x, y :: 0 <= x < |rss| && 0 <= y < TileStarts(w) ==>
        Recorded(predicted[x, y], labelReduced[x, y], rss[x][y])
    {
      ghost var a := |rss|;
      TileStartsBound(h, a);
      var rowTally;
      ghost var rs;
      rowTally, rs := EvaluateRow(cc, t, image, classes, h, w, i, a, tally, predicted, labelReduced);
      tally := rowTally;
      RecordedExtend(predicted, labelReduced, rss, rs, TileStarts(w));
      GridMatchesSnoc(t, image, classes, h, w, rss, rs);
      SumGridSnoc(rss, rs);
      rss := rss + [rs];
      i := i + CHUNK_SIZE;
    }
    TileStartsBound(h, |rss|);
    AllTilesMatched(t, image, classes, h, w, rss);
  }

  /** One training sample: an image and its colour mask, both `h` x `w`. */
  datatype Sample = Sample(image: seq<seq<Pixel>>, mask: seq<seq<Pixel>>, h: nat, w: nat)

  ghost predicate SampleFits(t: ScoreTable, s: Sample)
  {
    IsGrid(s.image, s.h, s.w) && IsGrid(s.mask, s.h, s.w) && t.Covers(s.image)
  }

  /** The class grid `encode_label_image` makes of a mask. */
  function LabelGrid(mask: seq<seq<Pixel>>, h: nat, w: nat): (g: seq<seq<int>>)
    requires IsGrid(mask, h, w)
    ensures IsGrid(g, h, w) && LabelsInRange(g)
    ensures forall i, j :: 0 <= i < h && 0 <= j < w ==> g[i][j] == CppUtils.CppLabel(mask[i][j])
  {
    seq(h, i requires 0 <= i < h => seq(w, j requires 0 <= j < w => CppUtils.CppLabel(mask[i][j]) as int))
  }

  /** The cells of a `cv::Mat`, row by row. */
  function Rows(m: array2<int>): (g: seq<seq<int>>)
    reads m
    ensures IsGrid(g, m.Length0, m.Length1)
    ensures forall i, j :: 0 <= i < m.Length0 && 0 <= j < m.Length1 ==> g[i][j] == m[i, j]
  {
    seq(m.Length0, i requires 0 <= i < m.Length0 reads m => seq(m.Length1, j requires 0 <= j < m.Length1 reads m => m[i, j]))
  }

  lemma SameGrid(g1: seq<seq<int>>, g2: seq<seq<int>>, h: nat, w: nat)
    requires IsGrid(g1, h, w) && IsGrid(g2, h, w)
    requires forall i, j :: 0 <= i < h && 0 <= j < w ==> g1[i][j] == g2[i][j]
    ensures g1 == g2
  {
    forall i | 0 <= i < h
      ensures g1[i] == g2[i]
    {
      assert forall j :: 0 <= j < w ==> g1[i][j] == g2[i][j];
    }
  }

  ghost function SampleTally(t: ScoreTable, s: Sample): Tally
    requires SampleFits(t, s)
  {
    ImageTally(t, s.image, LabelGrid(s.mask, s.h, s.w), s.h, s.w)
  }

  ghost function DatasetTally(t: ScoreTable, samples: seq<Sample>): Tally
    requires forall k :: 0 <= k < |samples| ==> SampleFits(t, samples[k])
  {
    if samples == [] then NO_TALLY
    else DatasetTally(t, samples[..|samples| - 1]).Plus(SampleTally(t, samples[|samples| - 1]))
  }

  /** The loop over training files: encode each mask, evaluate the image and
      add its counters to the totals. */
  method EvaluateDataset(cc: ColorClassifier, samples: seq<Sample>) returns (total: Tally)
    requires forall k :: 0 <= k < |samples| ==> SampleFits(cc.Table(), samples[k])
    ensures total == DatasetTally(cc.Table(), samples)
  {
    total := NO_TALLY;
    var k := 0;
    while k < |samples|
      invariant 0 <= k <= |samples|
      invariant total == DatasetTally(cc.Table(), samples[..k])
    {
      var s := samples[k];
      var labels := CppUtils.EncodeLabelImage(s.mask, s.h, s.w);
      var classes := Rows(labels);
      SameGrid(classes, LabelGrid(s.mask, s.h, s.w), s.h, s.w);
      var imageTally, predicted, labelReduced := EvaluateImage(cc, s.image, classes, s.h, s.w);
      total := total.Plus(imageTally);
      assert samples[..k + 1][..k] == samples[..k];
      k := k + 1;
    }
    assert samples[..k] == samples;
  }

  /** Over a whole dataset, no class has more correct tiles than tiles. */
  lemma {:induction false} DatasetTallyConsistent(t: ScoreTable, samples: seq<Sample>)
    requires forall k :: 0 <= k < |samples| ==> SampleFits(t, samples[k])
    ensures DatasetTally(t, samples).Consistent()
  {
    if samples != [] {
      var s := samples[|samples| - 1];
      DatasetTallyConsistent(t, samples[..|samples| - 1]);
      ImageTallyConsistent(t, s.image, LabelGrid(s.mask, s.h, s.w), s.h, s.w);
    }
  }
}

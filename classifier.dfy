/** `ColorClassifier`: four probability vectors indexed by colour bucket, the
    additive per-tile score and the three per-class decisions. Floats and
    doubles are modelled as exact reals. */
module Classifier {
  import opened Domain
  import opened Quantisation
  import opened StatisticsReader

  /** Probability of class `k` in a record: count / total, and 0 for every
      class of a record whose total is 0. */
  function Probability(c: Counts, k: nat): (p: real)
    requires k < 4
    ensures 0.0 <= p <= 1.0
    ensures Total(c) == 0 ==> p == 0.0
    ensures Total(c) > 0 ==> p * Total(c) as real == c[k] as real
  {
    if Total(c) == 0 then 0.0 else Fraction(c[k], Total(c))
  }

  function Fraction(a: nat, t: nat): (f: real)
    requires 0 < t && a <= t
    ensures 0.0 <= f <= 1.0 && f * t as real == a as real
  {
    var f := a as real / t as real;
    assert f * t as real == a as real;
    assert f <= 1.0 by {
      if f > 1.0 {
        assert f * t as real > 1.0 * t as real;
      }
    }
    f
  }

  /** For a record seen at least once the four probabilities sum to 1. */
  lemma ProbabilitiesSumToOne(c: Counts)
    requires Total(c) > 0
    ensures Probability(c, 0) + Probability(c, 1) + Probability(c, 2) + Probability(c, 3) == 1.0
  {
    SharesSumToOne(Probability(c, 0), Probability(c, 1), Probability(c, 2), Probability(c, 3),
                   c[0] as real, c[1] as real, c[2] as real, c[3] as real, Total(c) as real);
  }

  /** Four shares of a positive whole that add up to it add up to 1. */
  lemma SharesSumToOne(p0: real, p1: real, p2: real, p3: real, c0: real, c1: real, c2: real, c3: real, t: real)
    requires t > 0.0 && c0 + c1 + c2 + c3 == t
    requires p0 * t == c0 && p1 * t == c1 && p2 * t == c2 && p3 * t == c3
    ensures p0 + p1 + p2 + p3 == 1.0
  {
    var x := p0 + p1 + p2 + p3;
    assert x * t == p0 * t + p1 * t + p2 * t + p3 * t;
    assert (x - 1.0) * t == 0.0;
  }

  /** The four accumulated class scores of a tile. */
  datatype Scores = Scores(none: real, blue: real, red: real, yellow: real)
  {
    function Plus(o: Scores): Scores
    {
      Scores(none + o.none, blue + o.blue, red + o.red, yellow + o.yellow)
    }
  }

  const NO_SCORES := Scores(0.0, 0.0, 0.0, 0.0)

  /** The last step of `compute_percentage`: only the background sum is
      multiplied by alpha. */
  function ScaleNone(s: Scores, alpha: real): Scores
  {
    s.(none := s.none * alpha)
  }

  /** `is_blue`'s rule on the scores returned by `compute_percentage`
      (whose `none` is already multiplied by alpha). */
  predicate BlueRule(s: Scores)
  {
    s.blue > s.none && s.blue >= s.red && s.blue >= s.yellow
  }

  /** `is_red`'s rule as written: its middle comparison is red against red. */
  predicate RedRule(s: Scores)
  {
    s.red > s.none && s.red >= s.red && s.red >= s.yellow
  }

  predicate YellowRule(s: Scores)
  {
    s.yellow > s.none && s.yellow >= s.blue && s.yellow >= s.red
  }
  /** The four probability vectors of a classifier, as a value: entry
      `idx` of each is the probability of its class for colour bucket `idx`. */
  datatype ScoreTable = ScoreTable(pNone: seq<real>, pBlue: seq<real>, pRed: seq<real>, pYellow: seq<real>)
  {
    /** The four vectors stay aligned bucket by bucket. */
    ghost predicate Valid()
    {
      |pNone| == |pBlue| == |pRed| == |pYellow|
    }

    /** The vectors hold the normalised `records`, one entry per record. */
    ghost predicate Normalised(records: seq<Counts>)
    {
      && Valid()
      && |pNone| == |records|
      && forall i :: 0 <= i < |records| ==>
           && pNone[i] == Probability(records[i], 0)
           && pBlue[i] == Probability(records[i], 1)
           && pRed[i] == Probability(records[i], 2)
           && pYellow[i] == Probability(records[i], 3)
    }

    /** Every pixel of the tile has a bucket inside the vectors (the source
        indexes them unchecked). */
    ghost predicate Covers(tile: seq<seq<Pixel>>)
    {
      Valid() && forall i, j :: 0 <= i < |tile| && 0 <= j < |tile[i]| ==> ComputeIdx(tile[i][j]) < |pNone|
    }

    function PixelScores(p: Pixel): Scores
      requires Valid() && ComputeIdx(p) < |pNone|
    {
      var idx := ComputeIdx(p);
      Scores(pNone[idx], pBlue[idx], pRed[idx], pYellow[idx])
    }

    /** Every pixel of the row has a bucket inside the vectors. */
    ghost predicate RowCovered(row: seq<Pixel>)
    {
      Valid() && forall j :: 0 <= j < |row| ==> ComputeIdx(row[j]) < |pNone|
    }

    /** Sum of the table entries over the pixels of one row. */
    function RowSum(row: seq<Pixel>): Scores
      requires RowCovered(row)
    {
      if row == [] then NO_SCORES
      else RowSum(row[..|row| - 1]).Plus(PixelScores(row[|row| - 1]))
    }

    /** Sum of the table entries over all pixels of a tile, before alpha. */
    function TileSum(tile: seq<seq<Pixel>>): Scores
      requires Covers(tile)
    {
      if tile == [] then NO_SCORES
      else TileSum(tile[..|tile| - 1]).Plus(RowSum(tile[|tile| - 1]))
    }

    /** `compute_percentage`'s result: the tile sums with only `none` scaled by alpha. */
    function Percentage(tile: seq<seq<Pixel>>, alpha: real): Scores
      requires Covers(tile)
    {
      ScaleNone(TileSum(tile), alpha)
    }

    /** The vectors built from any records hold values in [0, 1]. */
    ghost predicate InUnitRange()
    {
      && Valid()
      && forall i :: 0 <= i < |pNone| ==>
           && 0.0 <= pNone[i] <= 1.0 && 0.0 <= pBlue[i] <= 1.0
           && 0.0 <= pRed[i] <= 1.0 && 0.0 <= pYellow[i] <= 1.0
    }
  }

  /** One more row of a tile: the loop step of `compute_percentage`'s outer loop. */
  lemma TileSumStep(t: ScoreTable, tile: seq<seq<Pixel>>, i: nat)
    requires t.Covers(tile) && i < |tile|
    ensures t.Covers(tile[..i]) && t.Covers(tile[..i + 1]) && t.RowCovered(tile[i])
    ensures t.TileSum(tile[..i + 1]) == t.TileSum(tile[..i]).Plus(t.RowSum(tile[i]))
  {
    assert tile[..i + 1][..i] == tile[..i];
  }

  /** One more pixel of a row: the loop step of the inner loop. */
  lemma RowSumStep(t: ScoreTable, row: seq<Pixel>, j: nat)
    requires t.RowCovered(row) && j < |row|
    ensures t.RowCovered(row[..j]) && t.RowCovered(row[..j + 1])
    ensures t.RowSum(row[..j + 1]) == t.RowSum(row[..j]).Plus(t.PixelScores(row[j]))
  {
    assert row[..j + 1][..j] == row[..j];
  }

  /** Scores are additive over a split of a row into two column ranges. */
  lemma {:induction false} RowSumAppend(t: ScoreTable, a: seq<Pixel>, b: seq<Pixel>)
    requires t.RowCovered(a) && t.RowCovered(b)
    ensures t.RowCovered(a + b)
    ensures t.RowSum(a + b) == t.RowSum(a).Plus(t.RowSum(b))
  {
    var ab := a + b;
    forall j | 0 <= j < |ab|
      ensures ComputeIdx(ab[j]) < |t.pNone|
    {
      if j < |a| {
        assert ab[j] == a[j];
      } else {
        assert ab[j] == b[j - |a|];
      }
    }
    if b == [] {
      assert ab == a;
      PlusNothing(t.RowSum(a));
    } else {
      var b', last := b[..|b| - 1], b[|b| - 1];
      assert ab[..|ab| - 1] == a + b';
      assert ab[|ab| - 1] == last;
      assert t.RowCovered(b');
      RowSumAppend(t, a, b');
      ScoresPlusAssociative(t.RowSum(a), t.RowSum(b'), t.PixelScores(last));
    }
  }

  lemma PlusNothing(s: Scores)
    ensures s.Plus(NO_SCORES) == s
  {
  }

  lemma ScoresPlusAssociative(x: Scores, y: Scores, z: Scores)
    ensures x.Plus(y).Plus(z) == x.Plus(y.Plus(z))
  {
  }

  /** Scores are additive over a split of a tile into two row ranges. */
  lemma {:induction false} TileSumAppend(t: ScoreTable, a: seq<seq<Pixel>>, b: seq<seq<Pixel>>)
    requires t.Covers(a) && t.Covers(b)
    ensures t.Covers(a + b)
    ensures t.TileSum(a + b) == t.TileSum(a).Plus(t.TileSum(b))
  {
    if b == [] {
      assert a + b == a;
    } else {
      assert (a + b)[..|a + b| - 1] == a + b[..|b| - 1];
      TileSumAppend(t, a, b[..|b| - 1]);
    }
  }

  /** Reordering the pixels of a row leaves its score unchanged. */
  lemma {:induction false} RowSumPermutation(t: ScoreTable, a: seq<Pixel>, b: seq<Pixel>)
    requires t.RowCovered(a) && multiset(a) == multiset(b)
    ensures t.RowCovered(b)
    ensures t.RowSum(a) == t.RowSum(b)
    decreases |a|
  {
    forall j | 0 <= j < |b|
      ensures ComputeIdx(b[j]) < |t.pNone|
    {
      assert b[j] in multiset(a);
    }
    if a == [] {
      assert |multiset(b)| == 0;
    } else {
      var a', x := a[..|a| - 1], a[|a| - 1];
      var b1, b2 := RemoveLast(a, b);
      RowSumPermutation(t, a', b1 + b2);
      RowSumMiddle(t, b1, x, b2);
    }
  }

  /** The last element of `a` sits somewhere in its permutation `b`; without
      it the two are still permutations of each other. */
  lemma RemoveLast<T>(a: seq<T>, b: seq<T>) returns (b1: seq<T>, b2: seq<T>)
    requires a != [] && multiset(a) == multiset(b)
    ensures b == b1 + [a[|a| - 1]] + b2
    ensures multiset(a[..|a| - 1]) == multiset(b1 + b2)
  {
    var a', x := a[..|a| - 1], a[|a| - 1];
    assert a == a' + [x];
    assert x in multiset(b);
    var k :| 0 <= k < |b| && b[k] == x;
    b1, b2 := b[..k], b[k + 1..];
    assert b == b1 + [x] + b2;
    var rest := multiset(b1 + b2);
    assert multiset(b) == rest + multiset{x};
    assert multiset(a) == multiset(a') + multiset{x};
    assert multiset(a') == multiset(a) - multiset{x};
    assert rest == multiset(b) - multiset{x};
  }

  /** A pixel in the middle of a row adds its entries to the score of the
      rest of the row. */
  lemma RowSumMiddle(t: ScoreTable, b1: seq<Pixel>, x: Pixel, b2: seq<Pixel>)
    requires t.RowCovered(b1 + [x] + b2)
    ensures t.RowCovered(b1 + b2) && ComputeIdx(x) < |t.pNone|
    ensures t.RowSum(b1 + [x] + b2) == t.RowSum(b1 + b2).Plus(t.PixelScores(x))
  {
    RowCoveredParts(t, b1, x, b2);
    RowSumSnoc(t, b1, x);
    RowSumAppend(t, b1 + [x], b2);
    RowSumAppend(t, b1, b2);
    PlusSwap(t.RowSum(b1), t.PixelScores(x), t.RowSum(b2));
  }

  /** Every piece of a covered row is covered. */
  lemma RowCoveredParts(t: ScoreTable, b1: seq<Pixel>, x: Pixel, b2: seq<Pixel>)
    requires t.RowCovered(b1 + [x] + b2)
    ensures t.RowCovered(b1) && t.RowCovered(b2) && t.RowCovered(b1 + [x]) && t.RowCovered([x])
    ensures ComputeIdx(x) < |t.pNone|
  {
    var b := b1 + [x] + b2;
    forall j | 0 <= j < |b1| + 1
      ensures ComputeIdx((b1 + [x])[j]) < |t.pNone|
    {
      assert (b1 + [x])[j] == b[j];
    }
    forall j | 0 <= j < |b2|
      ensures ComputeIdx(b2[j]) < |t.pNone|
    {
      assert b2[j] == b[|b1| + 1 + j];
    }
    assert (b1 + [x])[|b1|] == x;
    forall j | 0 <= j < |b1|
      ensures ComputeIdx(b1[j]) < |t.pNone|
    {
      assert b1[j] == (b1 + [x])[j];
    }
  }

  /** One pixel appended to a row adds its entries. */
  lemma RowSumSnoc(t: ScoreTable, b1: seq<Pixel>, x: Pixel)
    requires t.RowCovered(b1 + [x])
    ensures t.RowCovered(b1) && ComputeIdx(x) < |t.pNone|
    ensures t.RowSum(b1 + [x]) == t.RowSum(b1).Plus(t.PixelScores(x))
  {
    var bx := b1 + [x];
    assert bx[..|b1|] == b1;
    assert bx[|b1|] == x;
    assert forall j :: 0 <= j < |b1| ==> b1[j] == bx[j];
  }

  /** Adding two scores in either order gives the same total. */
  lemma PlusSwap(p: Scores, q: Scores, r: Scores)
    ensures p.Plus(q).Plus(r) == p.Plus(r).Plus(q)
  {
  }

  /** Reordering the rows of a tile leaves its score unchanged. */
  lemma {:induction false} TileSumRowPermutation(t: ScoreTable, a: seq<seq<Pixel>>, b: seq<seq<Pixel>>)
    requires t.Covers(a) && multiset(a) == multiset(b)
    ensures t.Covers(b)
    ensures t.TileSum(a) == t.TileSum(b)
    decreases |a|
  {
    forall i, j | 0 <= i < |b| && 0 <= j < |b[i]|
      ensures ComputeIdx(b[i][j]) < |t.pNone|
    {
      assert b[i] in multiset(a);
    }
    if a == [] {
      assert |multiset(b)| == 0;
    } else {
      var a', x := a[..|a| - 1], a[|a| - 1];
      var b1, b2 := RemoveLast(a, b);
      TileSumRowPermutation(t, a', b1 + b2);
      TileSumMiddle(t, b1, x, b2);
    }
  }

  /** A row in the middle of a tile adds its score to the score of the other
      rows. */
  lemma TileSumMiddle(t: ScoreTable, b1: seq<seq<Pixel>>, x: seq<Pixel>, b2: seq<seq<Pixel>>)
    requires t.Covers(b1 + [x] + b2)
    ensures t.Covers(b1 + b2) && t.RowCovered(x)
    ensures t.TileSum(b1 + [x] + b2) == t.TileSum(b1 + b2).Plus(t.RowSum(x))
  {
    var b := b1 + [x] + b2;
    forall i, j | 0 <= i < |b1| && 0 <= j < |b1[i]|
      ensures ComputeIdx(b1[i][j]) < |t.pNone|
    {
      assert b1[i] == b[i];
    }
    forall i, j | 0 <= i < |b2| && 0 <= j < |b2[i]|
      ensures ComputeIdx(b2[i][j]) < |t.pNone|
    {
      assert b2[i] == b[|b1| + 1 + i];
    }
    assert b[|b1|] == x;
    var bx := b1 + [x];
    assert bx[..|b1|] == b1 && bx[|b1|] == x;
    assert t.Covers(bx);
    assert t.TileSum(bx) == t.TileSum(b1).Plus(t.RowSum(x));
    TileSumAppend(t, bx, b2);
    TileSumAppend(t, b1, b2);
    PlusSwap(t.TileSum(b1), t.RowSum(x), t.TileSum(b2));
  }

  /** A tile scores what the row of all its pixels scores. */
  lemma {:induction false} TileSumFlatten(t: ScoreTable, tile: seq<seq<Pixel>>)
    requires t.Covers(tile)
    ensures t.RowCovered(Flatten(tile))
    ensures t.TileSum(tile) == t.RowSum(Flatten(tile))
  {
    if tile != [] {
      var pre, last := tile[..|tile| - 1], tile[|tile| - 1];
      assert t.Covers(pre);
      assert t.RowCovered(last);
      TileSumFlatten(t, pre);
      RowSumAppend(t, Flatten(pre), last);
    }
  }

  /** The score of a tile depends only on which pixels it holds, counted with
      multiplicity: not on their order nor on how they are arranged in rows. */
  lemma TileSumPixelOrder(t: ScoreTable, a: seq<seq<Pixel>>, b: seq<seq<Pixel>>)
    requires t.Covers(a) && t.Covers(b) && multiset(Flatten(a)) == multiset(Flatten(b))
    ensures t.TileSum(a) == t.TileSum(b)
  {
    TileSumFlatten(t, a);
    TileSumFlatten(t, b);
    RowSumPermutation(t, Flatten(a), Flatten(b));
  }

  /** With entries in [0, 1], every tile score is non-negative and at most
      the number of pixels of the tile. */
  lemma {:induction false} TileSumBounds(t: ScoreTable, tile: seq<seq<Pixel>>)
    requires t.InUnitRange() && t.Covers(tile)
    ensures var s := t.TileSum(tile);
      && 0.0 <= s.none <= Cells(tile) as real && 0.0 <= s.blue <= Cells(tile) as real
      && 0.0 <= s.red <= Cells(tile) as real && 0.0 <= s.yellow <= Cells(tile) as real
  {
    if tile != [] {
      var pre, last := tile[..|tile| - 1], tile[|tile| - 1];
      assert t.Covers(pre);
      TileSumBounds(t, pre);
      RowSumBounds(t, last);
    }
  }

  lemma PercentageEmptyTile(t: ScoreTable, alpha: real)
    requires t.Valid()
    ensures t.Percentage([], alpha) == NO_SCORES
  {
  }

  /** Where a record has a nonzero total, its four table entries sum to 1;
      where the total is 0, all four entries are 0. */
  lemma NormalisedEntries(t: ScoreTable, records: seq<Counts>, i: nat)
    requires t.Normalised(records) && i < |records|
    ensures t.InUnitRange()
    ensures Total(records[i]) > 0 ==> t.pNone[i] + t.pBlue[i] + t.pRed[i] + t.pYellow[i] == 1.0
    ensures Total(records[i]) == 0 ==> t.pNone[i] == t.pBlue[i] == t.pRed[i] == t.pYellow[i] == 0.0
  {
    if Total(records[i]) > 0 {
      ProbabilitiesSumToOne(records[i]);
    }
  }

  /** With entries in [0, 1], every row score is non-negative and at most
      the number of pixels of the row. */
  lemma {:induction false} RowSumBounds(t: ScoreTable, row: seq<Pixel>)
    requires t.InUnitRange()
    requires forall j :: 0 <= j < |row| ==> ComputeIdx(row[j]) < |t.pNone|
    ensures var s := t.RowSum(row);
      && 0.0 <= s.none <= |row| as real && 0.0 <= s.blue <= |row| as real
      && 0.0 <= s.red <= |row| as real && 0.0 <= s.yellow <= |row| as real
  {
    if row != [] {
      RowSumBounds(t, row[..|row| - 1]);
    }
  }

  /** A row whose buckets training never saw (all four entries 0) scores 0. */
  lemma {:induction false} UnknownRow(t: ScoreTable, row: seq<Pixel>)
    requires t.Valid()
    requires forall j :: 0 <= j < |row| ==> ComputeIdx(row[j]) < |t.pNone| && t.PixelScores(row[j]) == NO_SCORES
    ensures t.RowSum(row) == NO_SCORES
  {
    if row != [] {
      UnknownRow(t, row[..|row| - 1]);
    }
  }

  /** A tile made only of never-seen buckets scores 0 everywhere, so every
      query answers false whatever alpha is. */
  lemma {:induction false} UnknownTile(t: ScoreTable, tile: seq<seq<Pixel>>, alpha: real)
    requires t.Covers(tile)
    requires forall i, j :: 0 <= i < |tile| && 0 <= j < |tile[i]| ==> t.PixelScores(tile[i][j]) == NO_SCORES
    ensures t.TileSum(tile) == NO_SCORES
    ensures !BlueRule(t.Percentage(tile, alpha))
    ensures !RedRule(t.Percentage(tile, alpha))
    ensures !YellowRule(t.Percentage(tile, alpha))
  {
    if tile != [] {
      UnknownTile(t, tile[..|tile| - 1], alpha);
      UnknownRow(t, tile[|tile| - 1]);
    }
  }

  /** A tile all of whose buckets are purely blue (the record [0, n, 0, 0]
      with n > 0) scores one blue point per pixel. */
  lemma {:induction false} PureBlueRow(t: ScoreTable, row: seq<Pixel>)
    requires t.Valid()
    requires forall j :: 0 <= j < |row| ==> ComputeIdx(row[j]) < |t.pNone| && t.PixelScores(row[j]) == Scores(0.0, 1.0, 0.0, 0.0)
    ensures t.RowSum(row) == Scores(0.0, |row| as real, 0.0, 0.0)
  {
    if row != [] {
      PureBlueRow(t, row[..|row| - 1]);
    }
  }

  lemma {:induction false} PureBlueTileSum(t: ScoreTable, tile: seq<seq<Pixel>>)
    requires t.Covers(tile)
    requires forall i, j :: 0 <= i < |tile| && 0 <= j < |tile[i]| ==> t.PixelScores(tile[i][j]) == Scores(0.0, 1.0, 0.0, 0.0)
    ensures t.TileSum(tile) == Scores(0.0, Cells(tile) as real, 0.0, 0.0)
  {
    if tile != [] {
      var pre, last := tile[..|tile| - 1], tile[|tile| - 1];
      assert forall i, j :: 0 <= i < |pre| && 0 <= j < |pre[i]| ==> pre[i][j] == tile[i][j];
      PureBlueTileSum(t, pre);
      PureBlueRow(t, last);
    }
  }

  /** The example of a table whose every bucket in the tile is purely blue:
      `is_blue` holds for every alpha, `is_red` and `is_yellow` do not. */
  lemma PureBlueTile(t: ScoreTable, tile: seq<seq<Pixel>>, alpha: real)
    requires t.Covers(tile)
    requires Cells(tile) > 0
    requires forall i, j :: 0 <= i < |tile| && 0 <= j < |tile[i]| ==> t.PixelScores(tile[i][j]) == Scores(0.0, 1.0, 0.0, 0.0)
    ensures BlueRule(t.Percentage(tile, alpha)) && !RedRule(t.Percentage(tile, alpha)) && !YellowRule(t.Percentage(tile, alpha))
  {
    PureBlueTileSum(t, tile);
  }
  class ColorClassifier {
    var pNone: seq<real>
    var pBlue: seq<real>
    var pRed: seq<real>
    var pYellow: seq<real>

    /** The current contents of the four vectors. */
    ghost function Table(): ScoreTable
      reads this
    {
      ScoreTable(pNone, pBlue, pRed, pYellow)
    }

    /** The normalisation loop of the constructor: for every parsed record,
        one entry is pushed onto each of the four vectors. */
    constructor (records: seq<Counts>)
      ensures Table().Normalised(records)
    {
      pNone, pBlue, pRed, pYellow := [], [], [], [];
      new;
      var i := 0;
      while i < |records|
        invariant 0 <= i <= |records|
        invariant |pNone| == |pBlue| == |pRed| == |pYellow| == i
        invariant forall j :: 0 <= j < i ==>
           && pNone[j] == Probability(records[j], 0)
           && pBlue[j] == Probability(records[j], 1)
           && pRed[j] == Probability(records[j], 2)
           && pYellow[j] == Probability(records[j], 3)
      {
        var v := records[i];
        var total := v[0] + v[1] + v[2] + v[3];
        if total == 0 {
          pNone := pNone + [0.0];
          pBlue := pBlue + [0.0];
          pRed := pRed + [0.0];
          pYellow := pYellow + [0.0];
        } else {
          pNone := pNone + [v[0] as real / total as real];
          pBlue := pBlue + [v[1] as real / total as real];
          pRed := pRed + [v[2] as real / total as real];
          pYellow := pYellow + [v[3] as real / total as real];
        }
        i := i + 1;
      }
    }

    /** The two loops of `compute_percentage`: four accumulators summed over
        the rows and columns of the tile. */
    method AccumulateTile(tile: seq<seq<Pixel>>) returns (accNone: real, accBlue: real, accRed: real, accYellow: real)
      requires Table().Covers(tile)
      ensures Scores(accNone, accBlue, accRed, accYellow) == Table().TileSum(tile)
    {
      ghost var t := Table();
      accNone, accBlue, accRed, accYellow := 0.0, 0.0, 0.0, 0.0;
      var i := 0;
      while i < |tile|
        invariant 0 <= i <= |tile| && t.Covers(tile[..i])
        invariant Scores(accNone, accBlue, accRed, accYellow) == t.TileSum(tile[..i])
      {
        var row := tile[i];
        TileSumStep(t, tile, i);
        var j := 0;
        while j < |row|
          invariant 0 <= j <= |row| && t.RowCovered(row[..j])
          invariant Scores(accNone, accBlue, accRed, accYellow) == t.TileSum(tile[..i]).Plus(t.RowSum(row[..j]))
        {
          var idx := ComputeIdx(row[j]);
          RowSumStep(t, row, j);
          accNone := accNone + pNone[idx];
          accBlue := accBlue + pBlue[idx];
          accRed := accRed + pRed[idx];
          accYellow := accYellow + pYellow[idx];
          j := j + 1;
        }
        assert row[..|row|] == row;
        i := i + 1;
      }
      assert tile[..|tile|] == tile;
    }

    /** `compute_percentage`: the accumulated sums, then the none-sum
        multiplied by alpha. */
    method ComputePercentage(tile: seq<seq<Pixel>>, alpha: real) returns (s: Scores)
      requires Table().Covers(tile)
      ensures s == Table().Percentage(tile, alpha)
    {
      var accNone, accBlue, accRed, accYellow := AccumulateTile(tile);
      accNone := accNone * alpha;
      s := Scores(accNone, accBlue, accRed, accYellow);
    }

    /** `is_blue`: blue beats the alpha-scaled background and is at least red and yellow. */
    method IsBlue(tile: seq<seq<Pixel>>, alpha: real) returns (b: bool)
      requires Table().Covers(tile)
      ensures b == BlueRule(Table().Percentage(tile, alpha))
    {
      var s := ComputePercentage(tile, alpha);
      b := s.blue > s.none && s.blue >= s.red && s.blue >= s.yellow;
    }

    /** `is_red`, as written, never looks at the blue score. */
    method IsRed(tile: seq<seq<Pixel>>, alpha: real) returns (b: bool)
      requires Table().Covers(tile)
      ensures b == RedRule(Table().Percentage(tile, alpha))
    {
      var s := ComputePercentage(tile, alpha);
      b := s.red > s.none && s.red >= s.red && s.red >= s.yellow;
    }

    method IsYellow(tile: seq<seq<Pixel>>, alpha: real) returns (b: bool)
      requires Table().Covers(tile)
      ensures b == YellowRule(Table().Percentage(tile, alpha))
    {
      var s := ComputePercentage(tile, alpha);
      b := s.yellow > s.none && s.yellow >= s.blue && s.yellow >= s.red;
    }

  }

  /** The three queries in terms of the raw sums `t` of a tile: blue, red and
      yellow are compared with alpha times the background sum, and `is_red`
      does not depend on blue. */
  lemma QueriesOnSums(t: Scores, alpha: real)
    ensures BlueRule(ScaleNone(t, alpha)) <==> t.blue > t.none * alpha && t.blue >= t.red && t.blue >= t.yellow
    ensures RedRule(ScaleNone(t, alpha)) <==> t.red > t.none * alpha && t.red >= t.yellow
    ensures YellowRule(ScaleNone(t, alpha)) <==> t.yellow > t.none * alpha && t.yellow >= t.blue && t.yellow >= t.red
  {
  }

  /** `is_red` ignores the blue score entirely: changing it never changes the answer. */
  lemma RedIgnoresBlue(s: Scores, blue: real)
    ensures RedRule(s) <==> s.red > s.none && s.red >= s.yellow
    ensures RedRule(s) == RedRule(s.(blue := blue))
  {
  }

  /** Hence `is_blue` and `is_red` can both hold, even when blue strictly
      dominates red; with exact ties the same happens for blue and yellow. */
  lemma BlueAndRedTogether()
    ensures var s := Scores(0.0, 2.0, 1.0, 0.0); BlueRule(s) && RedRule(s) && s.blue > s.red
    ensures var s := Scores(0.0, 1.0, 0.0, 1.0); BlueRule(s) && YellowRule(s)
  {
  }

  /** Blue and yellow hold together only on an exact tie. */
  lemma BlueYellowTieOnly(s: Scores)
    requires BlueRule(s) && YellowRule(s)
    ensures s.blue == s.yellow
  {
  }

  /** Building the classifier from a token stream: the constructor's parse,
      which throws on a token without digits, then its normalisation. */
  method Load(tokens: seq<string>) returns (res: Result<ColorClassifier, ParseError>)
    ensures res.Err? <==> exists i :: 0 <= i < |tokens| && DigitsOf(tokens[i]) == []
    ensures res.Ok? ==> ParseRecords(tokens).Ok? && res.value.Table().Normalised(ParseRecords(tokens).value)
  {
    var records := ParseTokens(tokens);
    if records.Err? {
      return Err(records.error);
    }
    var cc := new ColorClassifier(records.value);
    return Ok(cc);
  }
}

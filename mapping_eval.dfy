/** The Python evaluation script `test_color_mapping.py`: a per-pixel
    segmentation by the grouped table, a per-tile colour from the normalised
    records with the background down-weighted, a majority vote over the label
    image in 2 x 2 chunks, the accuracy of the tiles against the votes, and the
    in-place relabelling used for display. */
module MappingEvaluation {
  import opened Domain
  import opened Quantisation
  import opened Classifier
  import TileEvaluation

  /** `percentage[0] *= 0.1` in `make_color`. */
  const BACKGROUND_WEIGHT: real := 0.1

  /** Side of the chunks of the evaluation loop. */
  const CHUNK: nat := 2

  /** Every pixel's bucket is an index of the loaded table; any other pixel
      makes the list lookup raise. */
  ghost predicate MapCovers(colorMap: seq<Counts>, image: seq<seq<Pixel>>, step: nat)
    requires step > 0
  {
    forall i, j :: 0 <= i < |image| && 0 <= j < |image[i]| ==> Bucket(image[i][j], step) < |colorMap|
  }

  // ---------------------------------------------------------------------------
  // segment_by_color

  /** `np.argmax(distr)` over one record of raw counts. */
  function SegmentLabel(c: Counts): Label
  {
    FirstArgMax(AsReals(c))
  }

  /** The label is a most frequent class of the record, the smallest one on a
      tie; a record that was never counted gives the background. */
  lemma SegmentLabelIsMode(c: Counts)
    ensures var k := SegmentLabel(c);
      && (forall j :: 0 <= j < 4 ==> c[j] <= c[k])
      && (forall j :: 0 <= j < k ==> c[j] < c[k])
    ensures Total(c) == 0 ==> SegmentLabel(c) == 0
  {
    var k := SegmentLabel(c);
    var v := AsReals(c);
    assert forall j :: 0 <= j < 4 ==> v[j] == c[j] as real;
  }

  /** `segment_by_color`: each pixel gets the argmax of its bucket's record. */
  method SegmentByColor(image: seq<seq<Pixel>>, colorMap: seq<Counts>, step: nat, h: nat, w: nat)
    returns (newImage: array2<int>)
    requires step > 0 && IsGrid(image, h, w) && MapCovers(colorMap, image, step)
    ensures fresh(newImage) && newImage.Length0 == h && newImage.Length1 == w
    ensures forall i, j :: 0 <= i < h && 0 <= j < w ==>
      newImage[i, j] == SegmentLabel(colorMap[Bucket(image[i][j], step)])
  {
    newImage := new int[h, w]((i, j) => 0);
    var i := 0;
    while i < h
      invariant 0 <= i <= h
      invariant forall x, y :: 0 <= x < i && 0 <= y < w ==>
        newImage[x, y] == SegmentLabel(colorMap[Bucket(image[x][y], step)])
    {
      SegmentRow(newImage, image, colorMap, step, h, w, i);
      i := i + 1;
    }
  }

  /** The inner loop of `segment_by_color`, over row `i`. */
  method SegmentRow(newImage: array2<int>, image: seq<seq<Pixel>>, colorMap: seq<Counts>, step: nat, h: nat, w: nat, i: nat)
    requires step > 0 && IsGrid(image, h, w) && MapCovers(colorMap, image, step)
    requires newImage.Length0 == h && newImage.Length1 == w && i < h
    modifies newImage
    ensures forall x, y :: 0 <= x < h && 0 <= y < w ==>
      newImage[x, y] == if x == i then SegmentLabel(colorMap[Bucket(image[x][y], step)]) else old(newImage[x, y])
  {
    var base := Base(step);
    var j := 0;
    while j < w
      invariant 0 <= j <= w
      invariant forall x, y :: 0 <= x < h && 0 <= y < w ==>
        newImage[x, y] == if x == i && y < j then SegmentLabel(colorMap[Bucket(image[x][y], step)]) else old(newImage[x, y])
    {
      var t := image[i][j];
      var distr := colorMap[t.r / step + base * (t.g / step) + base * base * (t.b / step)];
      newImage[i, j] := FirstArgMax(AsReals(distr));
      j := j + 1;
    }
  }

  /** With the classifier's step the segmentation reads the record the
      classifier's `compute_idx` reads. */
  lemma SegmentUsesClassifierBucket(p: Pixel)
    ensures Bucket(p, STEP_SIZE) == ComputeIdx(p) < BASE * BASE * BASE
  {
  }

  // ---------------------------------------------------------------------------
  // make_color

  /** What one pixel adds to `percentage`: its record divided by its total, or
      nothing when the total is 0. */
  function Share(c: Counts): (s: Scores)
    ensures Total(c) == 0 ==> s == NO_SCORES
    ensures Total(c) > 0 ==> s.none + s.blue + s.red + s.yellow == 1.0
    ensures s == Scores(Probability(c, 0), Probability(c, 1), Probability(c, 2), Probability(c, 3))
  {
    var total := Total(c);
    if total > 0 then
      ProbabilitiesSumToOne(c);
      Scores(c[0] as real / total as real, c[1] as real / total as real,
             c[2] as real / total as real, c[3] as real / total as real)
    else NO_SCORES
  }

  ghost predicate RowMapped(colorMap: seq<Counts>, row: seq<Pixel>, step: nat)
    requires step > 0
  {
    forall j :: 0 <= j < |row| ==> Bucket(row[j], step) < |colorMap|
  }

  /** The shares of the pixels of one row, summed. */
  function RowShares(colorMap: seq<Counts>, row: seq<Pixel>, step: nat): Scores
    requires step > 0 && RowMapped(colorMap, row, step)
  {
    if row == [] then NO_SCORES
    else RowShares(colorMap, row[..|row| - 1], step).Plus(Share(colorMap[Bucket(row[|row| - 1], step)]))
  }

  /** `percentage` after the loops of `make_color`. */
  function TileShares(colorMap: seq<Counts>, tile: seq<seq<Pixel>>, step: nat): Scores
    requires step > 0 && MapCovers(colorMap, tile, step)
  {
    if tile == [] then NO_SCORES
    else TileShares(colorMap, tile[..|tile| - 1], step).Plus(RowShares(colorMap, tile[|tile| - 1], step))
  }

  /** The four scores in class order. */
  function AsVector(s: Scores): (v: seq<real>)
    ensures |v| == 4
  {
    [s.none, s.blue, s.red, s.yellow]
  }

  /** The colour `make_color` gives a tile with summed shares `s`: the
      argmax after the background share is multiplied by 0.1. */
  function TileColor(s: Scores): Label
  {
    FirstArgMax(AsVector(ScaleNone(s, BACKGROUND_WEIGHT)))
  }

  lemma TileSharesStep(colorMap: seq<Counts>, tile: seq<seq<Pixel>>, step: nat, i: nat)
    requires step > 0 && MapCovers(colorMap, tile, step) && i < |tile|
    ensures MapCovers(colorMap, tile[..i], step) && MapCovers(colorMap, tile[..i + 1], step)
    ensures RowMapped(colorMap, tile[i], step)
    ensures TileShares(colorMap, tile[..i + 1], step) == TileShares(colorMap, tile[..i], step).Plus(RowShares(colorMap, tile[i], step))
  {
    assert tile[..i + 1][..i] == tile[..i];
  }

  lemma RowSharesStep(colorMap: seq<Counts>, row: seq<Pixel>, step: nat, j: nat)
    requires step > 0 && RowMapped(colorMap, row, step) && j < |row|
    ensures RowMapped(colorMap, row[..j], step) && RowMapped(colorMap, row[..j + 1], step)
    ensures RowShares(colorMap, row[..j + 1], step) == RowShares(colorMap, row[..j], step).Plus(Share(colorMap[Bucket(row[j], step)]))
  {
    assert row[..j + 1][..j] == row[..j];
  }

  /** The loops of `make_color`: one share per pixel added to `percentage`. */
  method AccumulateShares(image: seq<seq<Pixel>>, colorMap: seq<Counts>, step: nat) returns (percentage: Scores)
    requires step > 0 && MapCovers(colorMap, image, step)
    ensures percentage == TileShares(colorMap, image, step)
  {
    percentage := NO_SCORES;
    var i := 0;
    while i < |image|
      invariant 0 <= i <= |image| && MapCovers(colorMap, image[..i], step)
      invariant percentage == TileShares(colorMap, image[..i], step)
    {
      TileSharesStep(colorMap, image, step, i);
      percentage := AddRowShares(percentage, image[i], colorMap, step);
      i := i + 1;
    }
    assert image[..|image|] == image;
  }

  /** The inner loop of `make_color`, over one row. */
  method AddRowShares(percentage: Scores, row: seq<Pixel>, colorMap: seq<Counts>, step: nat) returns (percentage': Scores)
    requires step > 0 && RowMapped(colorMap, row, step)
    ensures percentage' == percentage.Plus(RowShares(colorMap, row, step))
  {
    var base := Base(step);
    percentage' := percentage;
    PlusNothing(percentage);
    var j := 0;
    while j < |row|
      invariant 0 <= j <= |row| && RowMapped(colorMap, row[..j], step)
      invariant percentage' == percentage.Plus(RowShares(colorMap, row[..j], step))
    {
      RowSharesStep(colorMap, row, step, j);
      ScoresPlusAssociative(percentage, RowShares(colorMap, row[..j], step), Share(colorMap[Bucket(row[j], step)]));
      percentage' := AddPixelShare(percentage', row[j], colorMap, step, base);
      j := j + 1;
    }
    assert row[..|row|] == row;
  }

  /** One pixel of the inner loop: its bucket's distribution is added when
      the bucket was ever seen. */
  method AddPixelShare(percentage: Scores, t: Pixel, colorMap: seq<Counts>, step: nat, base: nat) returns (percentage': Scores)
    requires step > 0 && base == Base(step) && Bucket(t, step) < |colorMap|
    ensures percentage' == percentage.Plus(Share(colorMap[Bucket(t, step)]))
  {
    var distr := colorMap[t.r / step + base * (t.g / step) + base * base * (t.b / step)];
    PlusNothing(percentage);
    var total := distr[0] + distr[1] + distr[2] + distr[3];
    percentage' := percentage;
    if total > 0 {
      percentage' := percentage.Plus(Scores(distr[0] as real / total as real, distr[1] as real / total as real,
                                            distr[2] as real / total as real, distr[3] as real / total as real));
    }
  }

  /** `make_color`: the whole tile gets the one colour of its summed shares. */
  method MakeColor(image: seq<seq<Pixel>>, colorMap: seq<Counts>, step: nat, h: nat, w: nat)
    returns (newImage: array2<int>)
    requires step > 0 && IsGrid(image, h, w) && MapCovers(colorMap, image, step)
    ensures fresh(newImage) && newImage.Length0 == h && newImage.Length1 == w
    ensures forall i, j :: 0 <= i < h && 0 <= j < w ==> newImage[i, j] == TileColor(TileShares(colorMap, image, step))
  {
    var percentage := AccumulateShares(image, colorMap, step);
    percentage := percentage.(none := percentage.none * BACKGROUND_WEIGHT);
    var color := FirstArgMax([percentage.none, percentage.blue, percentage.red, percentage.yellow]);
    newImage := new int[h, w]((i, j) => color);
  }

  /** Summing the shares of a tile with the classifier's step is the
      classifier's own tile sum when the classifier was loaded from the same
      table: the script's `percentage` is `compute_percentage` with alpha 0.1. */
  lemma {:induction false} RowSharesAreRowSum(t: ScoreTable, colorMap: seq<Counts>, row: seq<Pixel>)
    requires t.Normalised(colorMap) && t.RowCovered(row)
    ensures RowMapped(colorMap, row, STEP_SIZE)
    ensures RowShares(colorMap, row, STEP_SIZE) == t.RowSum(row)
  {
    if row != [] {
      var init := row[..|row| - 1];
      assert t.RowCovered(init) by {
        assert forall j :: 0 <= j < |init| ==> init[j] == row[j];
      }
      RowSharesAreRowSum(t, colorMap, init);
    }
  }

  lemma {:induction false} TileSharesAreTileSum(t: ScoreTable, colorMap: seq<Counts>, tile: seq<seq<Pixel>>)
    requires t.Normalised(colorMap) && t.Covers(tile)
    ensures MapCovers(colorMap, tile, STEP_SIZE)
    ensures TileShares(colorMap, tile, STEP_SIZE) == t.TileSum(tile)
    ensures ScaleNone(TileShares(colorMap, tile, STEP_SIZE), BACKGROUND_WEIGHT) == t.Percentage(tile, BACKGROUND_WEIGHT)
  {
    if tile != [] {
      var init := tile[..|tile| - 1];
      assert t.Covers(init) by {
        assert forall i :: 0 <= i < |init| ==> init[i] == tile[i];
      }
      TileSharesAreTileSum(t, colorMap, init);
      RowSharesAreRowSum(t, colorMap, tile[|tile| - 1]);
    }
  }

  /** The tile colour agrees with the classifier's queries at alpha 0.1:
      blue exactly when `is_blue` holds, red and yellow only when their query
      holds, and the background exactly when no query holds. */
  lemma TileColorMatchesQueries(s: Scores)
    ensures var q := ScaleNone(s, BACKGROUND_WEIGHT);
      && (TileColor(s) == 1 <==> BlueRule(q))
      && (TileColor(s) == 2 ==> RedRule(q))
      && (TileColor(s) == 3 ==> YellowRule(q))
      && (TileColor(s) == 0 <==> !BlueRule(q) && !RedRule(q) && !YellowRule(q))
  {
    var q := ScaleNone(s, BACKGROUND_WEIGHT);
    var v := AsVector(q);
    var k := TileColor(s);
    assert v[0] == q.none && v[1] == q.blue && v[2] == q.red && v[3] == q.yellow;
    assert v[0] <= v[k] && v[1] <= v[k] && v[2] <= v[k] && v[3] <= v[k];
    assert (0 < k ==> v[0] < v[k]) && (1 < k ==> v[1] < v[k]) && (2 < k ==> v[2] < v[k]);
  }

  /** A tile all of whose records are empty contributes nothing and is
      coloured as background. */
  lemma {:induction false} UnseenRowShares(colorMap: seq<Counts>, row: seq<Pixel>, step: nat)
    requires step > 0 && RowMapped(colorMap, row, step)
    requires forall j :: 0 <= j < |row| ==> Total(colorMap[Bucket(row[j], step)]) == 0
    ensures RowShares(colorMap, row, step) == NO_SCORES
  {
    if row != [] {
      UnseenRowShares(colorMap, row[..|row| - 1], step);
    }
  }

  lemma {:induction false} UnseenTileShares(colorMap: seq<Counts>, tile: seq<seq<Pixel>>, step: nat)
    requires step > 0 && MapCovers(colorMap, tile, step)
    requires forall i, j :: 0 <= i < |tile| && 0 <= j < |tile[i]| ==> Total(colorMap[Bucket(tile[i][j], step)]) == 0
    ensures TileShares(colorMap, tile, step) == NO_SCORES
  {
    if tile != [] {
      UnseenTileShares(colorMap, tile[..|tile| - 1], step);
      UnseenRowShares(colorMap, tile[|tile| - 1], step);
    }
  }

  lemma UnseenTile(colorMap: seq<Counts>, tile: seq<seq<Pixel>>, step: nat)
    requires step > 0 && MapCovers(colorMap, tile, step)
    requires forall i, j :: 0 <= i < |tile| && 0 <= j < |tile[i]| ==> Total(colorMap[Bucket(tile[i][j], step)]) == 0
    ensures TileColor(TileShares(colorMap, tile, step)) == 0
  {
    UnseenTileShares(colorMap, tile, step);
    QuietIsBackground(TileShares(colorMap, tile, step));
  }

  /** Scores where no colour beats the weighted background give the background. */
  lemma QuietIsBackground(s: Scores)
    requires s.blue <= s.none * BACKGROUND_WEIGHT && s.red <= s.none * BACKGROUND_WEIGHT
    requires s.yellow <= s.none * BACKGROUND_WEIGHT
    ensures TileColor(s) == 0
  {
    TileColorMatchesQueries(s);
  }

  // ---------------------------------------------------------------------------
  // Majority vote of a chunk

  /** The classes from `k` on that occur, ascending: `np.unique` over labels
      in 0..3. */
  function PresentFrom(oc: Counts, k: nat): (u: seq<Label>)
    requires k <= 4
    decreases 4 - k
  {
    if k == 4 then [] else (if oc[k] > 0 then [k] else []) + PresentFrom(oc, k + 1)
  }

  /** `np.unique(chunk)`: the classes present, ascending. */
  function Unique(oc: Counts): seq<Label>
  {
    PresentFrom(oc, 0)
  }

  /** The `counts` returned beside `unique`. */
  function UniqueCounts(oc: Counts): (counts: seq<real>)
    ensures |counts| == |Unique(oc)|
    ensures forall i :: 0 <= i < |counts| ==> counts[i] == oc[Unique(oc)[i]] as real
  {
    var u := Unique(oc);
    seq(|u|, i requires 0 <= i < |u| => oc[u[i]] as real)
  }

  /** `unique[np.argmax(counts)]`, or nothing for an empty chunk, where
      `np.argmax` raises. */
  function Majority(oc: Counts): Option<Label>
  {
    if Unique(oc) == [] then None else Some(Unique(oc)[FirstArgMax(UniqueCounts(oc))])
  }

  lemma PresentFromSpec(oc: Counts, k: nat)
    requires k <= 4
    ensures var u := PresentFrom(oc, k);
      && (forall i :: 0 <= i < |u| ==> k <= u[i] && oc[u[i]] > 0)
      && (forall c :: k <= c < 4 && oc[c] > 0 ==> c in u)
      && (forall i, i' :: 0 <= i < i' < |u| ==> u[i] < u[i'])
  {
    PresentFromSound(oc, k);
    PresentFromComplete(oc, k);
    PresentFromAscending(oc, k);
  }

  lemma {:induction false} PresentFromSound(oc: Counts, k: nat)
    requires k <= 4
    ensures forall i :: 0 <= i < |PresentFrom(oc, k)| ==> k <= PresentFrom(oc, k)[i] && oc[PresentFrom(oc, k)[i]] > 0
    decreases 4 - k
  {
    if k < 4 {
      PresentFromSound(oc, k + 1);
    }
  }

  lemma {:induction false} PresentFromComplete(oc: Counts, k: nat)
    requires k <= 4
    ensures forall c :: k <= c < 4 && oc[c] > 0 ==> c in PresentFrom(oc, k)
    decreases 4 - k
  {
    if k < 4 {
      PresentFromComplete(oc, k + 1);
    }
  }

  lemma {:induction false} PresentFromAscending(oc: Counts, k: nat)
    requires k <= 4
    ensures forall i, i' :: 0 <= i < i' < |PresentFrom(oc, k)| ==> PresentFrom(oc, k)[i] < PresentFrom(oc, k)[i']
    decreases 4 - k
  {
    if k < 4 {
      PresentFromAscending(oc, k + 1);
      PresentFromSound(oc, k + 1);
    }
  }

  /** The vote is a most frequent class, the smallest one on a tie, and there
      is none exactly when the chunk is empty: the same choice as an argmax
      over the four counts. */
  lemma MajorityIsMode(oc: Counts)
    ensures Total(oc) == 0 <==> Majority(oc) == None
    ensures Total(oc) > 0 ==> Majority(oc) == Some(FirstArgMax(AsReals(oc)))
  {
    PresentFromSpec(oc, 0);
    if Total(oc) > 0 {
      var c :| 0 <= c < 4 && oc[c] > 0;
      assert c in Unique(oc);
      var best := Unique(oc)[FirstArgMax(UniqueCounts(oc))];
      var v := AsReals(oc);
      forall j | 0 <= j < 4
        ensures v[j] <= v[best] && (j < best ==> v[j] < v[best])
      {
        WinnerBeats(oc, j);
      }
      FirstArgMaxUnique(v, best);
    }
  }

  /** The chosen class has at least the count of class `j`, and more when `j`
      is smaller. */
  lemma WinnerBeats(oc: Counts, j: nat)
    requires j < 4 && Unique(oc) != []
    ensures var best := Unique(oc)[FirstArgMax(UniqueCounts(oc))];
      oc[j] <= oc[best] && (j < best ==> oc[j] < oc[best])
  {
    var u := Unique(oc);
    var counts := UniqueCounts(oc);
    var m := FirstArgMax(counts);
    if oc[j] > 0 {
      var i := PresentIndex(oc, j);
      assert counts[i] <= counts[m];
      if j < u[m] {
        AscendingIndex(u, i, m);
        assert counts[i] < counts[m];
      }
    }
  }

  /** A class with a positive count has a place among the present ones, which
      are strictly ascending. */
  lemma PresentIndex(oc: Counts, j: Label) returns (i: nat)
    requires oc[j] > 0
    ensures i < |Unique(oc)| && Unique(oc)[i] == j
    ensures forall a, b :: 0 <= a < b < |Unique(oc)| ==> Unique(oc)[a] < Unique(oc)[b]
  {
    PresentFromSpec(oc, 0);
    assert j in Unique(oc);
    i :| 0 <= i < |Unique(oc)| && Unique(oc)[i] == j;
  }

  /** In a strictly ascending sequence a smaller element sits earlier. */
  lemma AscendingIndex(u: seq<Label>, i: nat, m: nat)
    requires forall a, b :: 0 <= a < b < |u| ==> u[a] < u[b]
    requires i < |u| && m < |u| && u[i] < u[m]
    ensures i < m
  {
  }

  // ---------------------------------------------------------------------------
  // map_label_img

  /** `label_image[label_image == from] = to` on one cell. */
  function Replace(v: int, from: int, to: int): int
  {
    if v == from then to else v
  }

  /** The four replacements of `map_label_img`, in their order. */
  function Remap(v: int): int
  {
    Replace(Replace(Replace(Replace(v, 0, 255), 1, 30), 2, 0), 3, 150)
  }

  /** No replacement value is the source of a later replacement, so the
      sequence is exactly the substitution 0 -> 255, 1 -> 30, 2 -> 0,
      3 -> 150 and leaves every other value alone. */
  lemma RemapIsSubstitution(v: int)
    ensures Remap(v) == (if v == 0 then 255 else if v == 1 then 30 else if v == 2 then 0 else if v == 3 then 150 else v)
  {
  }

  /** The order matters: the same replacements applied last to first would
      send red to 255. */
  lemma RemapOrderMatters()
    ensures Replace(Replace(Replace(Replace(2, 3, 150), 2, 0), 1, 30), 0, 255) == 255 != Remap(2)
  {
  }

  /** `label_image[label_image == from] = to`: a masked assignment. */
  method ReplaceAll(a: array2<int>, from: int, to: int)
    modifies a
    ensures forall x, y :: 0 <= x < a.Length0 && 0 <= y < a.Length1 ==> a[x, y] == Replace(old(a[x, y]), from, to)
  {
    forall x, y | 0 <= x < a.Length0 && 0 <= y < a.Length1 && a[x, y] == from {
      a[x, y] := to;
    }
  }

  /** The display value written into cell (0, y), y < 4, after the remap. */
  function LegendValue(y: nat): int
    requires y < 4
  {
    [0, 30, 150, 255][y]
  }

  /** `map_label_img`: the remap of every cell, then the first four cells of
      row 0 overwritten with the four display values (so every value shows in
      the colour map); an image narrower than 4 makes those writes raise. */
  method MapLabelImg(a: array2<int>)
    requires a.Length0 >= 1 && a.Length1 >= 4
    modifies a
    ensures forall x, y :: 0 <= x < a.Length0 && 0 <= y < a.Length1 ==>
      a[x, y] == if x == 0 && y < 4 then LegendValue(y) else Remap(old(a[x, y]))
  {
    ReplaceAll(a, 0, 255);
    ReplaceAll(a, 1, 30);
    ReplaceAll(a, 2, 0);
    ReplaceAll(a, 3, 150);
    a[0, 0] := 0;
    a[0, 1] := 30;
    a[0, 2] := 150;
    a[0, 3] := 255;
  }

  // ---------------------------------------------------------------------------
  // The chunk loop of `main`

  /** What the chunk loop reads besides the label image. */
  datatype Inputs = Inputs(image: seq<seq<Pixel>>, colorMap: seq<Counts>, step: nat, h: nat, w: nat)
  {
    ghost predicate Valid()
    {
      step > 0 && IsGrid(image, h, w) && MapCovers(colorMap, image, step)
    }

    /** The colour `make_color` gives the chunk holding cell (x, y). */
    ghost function Color(x: nat, y: nat): Label
      requires Valid() && x < h - 1 && y < w - 1
    {
      var tile := ChunkBlock(image, h, w, x, y);
      BlockMapCovers(colorMap, image, step, h, w, x, y);
      TileColor(TileShares(colorMap, tile, step))
    }

    /** Cell (x, y) holds its chunk's colour in `segmented` and its chunk's
        majority label of the original label image `labels`. */
    ghost predicate Done(labels: seq<seq<int>>, seg: int, lab: int, x: nat, y: nat)
      requires Valid() && IsGrid(labels, h, w) && x < h - 1 && y < w - 1
    {
      seg == Color(x, y) && Majority(TileEvaluation.Histogram(ChunkBlock(labels, h, w, x, y))) == Some(lab)
    }
  }

  /** First row (or column) of the chunk holding row (or column) `x`. */
  function ChunkStart(x: nat): nat
  {
    x / CHUNK * CHUNK
  }

  /** The chunk of an h x w grid that holds cell (x, y), for x < h - 1 and
      y < w - 1: the cells of the last row and column belong to no chunk. */
  ghost function ChunkBlock<T>(g: seq<seq<T>>, h: nat, w: nat, x: nat, y: nat): seq<seq<T>>
    requires IsGrid(g, h, w) && x < h - 1 && y < w - 1
  {
    Block(g, ChunkStart(x), ChunkEnd(ChunkStart(x), CHUNK, h), ChunkStart(y), ChunkEnd(ChunkStart(y), CHUNK, w))
  }

  lemma BlockMapCovers(colorMap: seq<Counts>, image: seq<seq<Pixel>>, step: nat, h: nat, w: nat, x: nat, y: nat)
    requires step > 0 && IsGrid(image, h, w) && MapCovers(colorMap, image, step) && x < h - 1 && y < w - 1
    ensures MapCovers(colorMap, ChunkBlock(image, h, w, x, y), step)
  {
  }

  /** The rows of the chunk that starts at even row `i` are the rows whose
      chunk starts at `i`. */
  lemma ChunkOfRow(i: nat, x: nat, n: nat)
    requires i % CHUNK == 0 && i <= x < ChunkEnd(i, CHUNK, n)
    ensures ChunkStart(x) == i && ChunkEnd(ChunkStart(x), CHUNK, n) == ChunkEnd(i, CHUNK, n) && x < n - 1
  {
  }

  /** `segmented[i:to_i, j:to_j] = make_color(image[i:to_i, j:to_j], ...)`. */
  method PaintChunk(run: Inputs, segmented: array2<int>, i: nat, toI: nat, j: nat, toJ: nat)
    requires run.Valid() && i <= toI <= run.h && j <= toJ <= run.w
    requires segmented.Length0 == run.h && segmented.Length1 == run.w
    modifies segmented
    ensures forall x, y :: 0 <= x < run.h && 0 <= y < run.w ==>
      segmented[x, y] == if i <= x < toI && j <= y < toJ
        then TileColor(TileShares(run.colorMap, Block(run.image, i, toI, j, toJ), run.step))
        else old(segmented[x, y])
  {
    var tile := Block(run.image, i, toI, j, toJ);
    var painted := MakeColor(tile, run.colorMap, run.step, toI - i, toJ - j);
    forall x, y | i <= x < toI && j <= y < toJ {
      segmented[x, y] := painted[x - i, y - j];
    }
  }

  /** A rectangle has no cells exactly when one of its sides is empty. */
  lemma EmptyRectangle(a: nat, b: nat)
    ensures a * b == 0 <==> a == 0 || b == 0
  {
    if a > 0 && b > 0 {
      MulAtLeast(a, b);
    }
  }

  /** `np.unique` over `label_image[i:to_i, j:to_j]`, then the chunk
      overwritten with its most frequent label; an empty chunk makes
      `np.argmax` raise, reported as `ok == false`. */
  method VoteChunk(labelImage: array2<int>, ghost labels: seq<seq<int>>, h: nat, w: nat, i: nat, toI: nat, j: nat, toJ: nat)
    returns (ok: bool)
    requires labelImage.Length0 == h && labelImage.Length1 == w && IsGrid(labels, h, w)
    requires TileEvaluation.LabelsInRange(labels) && i <= toI <= h && j <= toJ <= w
    requires forall x, y :: i <= x < toI && j <= y < toJ ==> labelImage[x, y] == labels[x][y]
    modifies labelImage
    ensures ok <==> i < toI && j < toJ
    ensures ok ==> forall x, y :: 0 <= x < h && 0 <= y < w ==>
      if i <= x < toI && j <= y < toJ
      then Majority(TileEvaluation.Histogram(Block(labels, i, toI, j, toJ))) == Some(labelImage[x, y])
      else labelImage[x, y] == old(labelImage[x, y])
  {
    var chunk := Block(TileEvaluation.Rows(labelImage), i, toI, j, toJ);
    ghost var original := Block(labels, i, toI, j, toJ);
    TileEvaluation.SameGrid(chunk, original, toI - i, toJ - j);
    TileEvaluation.BlockInRange(labels, i, toI, j, toJ);
    var oc := TileEvaluation.CountOccurences(chunk);
    TileEvaluation.HistogramTotal(chunk);
    TileEvaluation.CellsOfGrid(chunk, toI - i, toJ - j);
    EmptyRectangle(toI - i, toJ - j);
    MajorityIsMode(oc);
    var mostOften := Majority(oc);
    if mostOften.None? {
      return false;
    }
    forall x, y | i <= x < toI && j <= y < toJ {
      labelImage[x, y] := mostOften.value;
    }
    ok := true;
  }

  /** One chunk of the loop: painted with its colour, then overwritten in the
      label image with its majority label; `ok == false` is the `np.argmax`
      error of an empty chunk, which happens exactly at the last row or
      column. */
  method ProcessChunk(run: Inputs, ghost labels: seq<seq<int>>, segmented: array2<int>, labelImage: array2<int>, i: nat, j: nat)
    returns (ok: bool)
    requires run.Valid() && IsGrid(labels, run.h, run.w) && TileEvaluation.LabelsInRange(labels)
    requires segmented.Length0 == run.h && segmented.Length1 == run.w && segmented != labelImage
    requires labelImage.Length0 == run.h && labelImage.Length1 == run.w
    requires i % CHUNK == 0 && j % CHUNK == 0 && i < run.h && j < run.w
    requires forall x, y :: i <= x < ChunkEnd(i, CHUNK, run.h) && j <= y < ChunkEnd(j, CHUNK, run.w) ==>
      labelImage[x, y] == labels[x][y]
    modifies segmented, labelImage
    ensures ok <==> i < run.h - 1 && j < run.w - 1
    ensures ok ==> forall x, y :: 0 <= x < run.h && 0 <= y < run.w ==>
      if i <= x < ChunkEnd(i, CHUNK, run.h) && j <= y < ChunkEnd(j, CHUNK, run.w)
      then x < run.h - 1 && y < run.w - 1 && run.Done(labels, segmented[x, y], labelImage[x, y], x, y)
      else segmented[x, y] == old(segmented[x, y]) && labelImage[x, y] == old(labelImage[x, y])
  {
    var toI: nat := if i + CHUNK < run.h - 1 then i + CHUNK else run.h - 1;
    var toJ: nat := if j + CHUNK < run.w - 1 then j + CHUNK else run.w - 1;
    assert toI == ChunkEnd(i, CHUNK, run.h) && toJ == ChunkEnd(j, CHUNK, run.w);
    PaintChunk(run, segmented, i, toI, j, toJ);
    ok := VoteChunk(labelImage, labels, run.h, run.w, i, toI, j, toJ);
    if ok {
      forall x, y | i <= x < toI && j <= y < toJ
        ensures x < run.h - 1 && y < run.w - 1 && run.Done(labels, segmented[x, y], labelImage[x, y], x, y)
      {
        ChunkOfRow(i, x, run.h);
        ChunkOfRow(j, y, run.w);
      }
    }
  }

  /** The loop over `j` for the chunks starting at row `i`. */
  method ChunkRow(run: Inputs, ghost labels: seq<seq<int>>, segmented: array2<int>, labelImage: array2<int>, i: nat)
    returns (ok: bool)
    requires run.Valid() && IsGrid(labels, run.h, run.w) && TileEvaluation.LabelsInRange(labels)
    requires segmented.Length0 == run.h && segmented.Length1 == run.w && segmented != labelImage
    requires labelImage.Length0 == run.h && labelImage.Length1 == run.w
    requires i % CHUNK == 0 && i < run.h
    requires forall x, y :: i <= x < ChunkEnd(i, CHUNK, run.h) && 0 <= y < run.w ==> labelImage[x, y] == labels[x][y]
    modifies segmented, labelImage
    ensures ok <==> !(run.w > 0 && (i >= run.h - 1 || run.w % CHUNK == 1))
    ensures ok ==> forall x, y :: 0 <= x < run.h && 0 <= y < run.w ==>
      if i <= x < ChunkEnd(i, CHUNK, run.h) && y < run.w - 1
      then x < run.h - 1 && run.Done(labels, segmented[x, y], labelImage[x, y], x, y)
      else segmented[x, y] == old(segmented[x, y]) && labelImage[x, y] == old(labelImage[x, y])
  {
    var endI := ChunkEnd(i, CHUNK, run.h);
    var j := 0;
    while j < run.w
      invariant j % CHUNK == 0 && j <= run.w
      invariant j > 0 ==> i < run.h - 1
      invariant forall x, y :: i <= x < endI && 0 <= y < j && y < run.w - 1 ==>
        x < run.h - 1 && run.Done(labels, segmented[x, y], labelImage[x, y], x, y)
      invariant forall x, y :: 0 <= x < run.h && 0 <= y < run.w && (x < i || x >= endI || y >= j || y >= run.w - 1) ==>
        segmented[x, y] == old(segmented[x, y]) && labelImage[x, y] == old(labelImage[x, y])
    {
      ok := ProcessChunk(run, labels, segmented, labelImage, i, j);
      if !ok {
        return;
      }
      assert ChunkEnd(j, CHUNK, run.w) == if j + CHUNK < run.w - 1 then j + CHUNK else run.w - 1;
      j := j + CHUNK;
    }
    ok := true;
  }

  /** The chunk loop of `main` (lines 165-181): `segmented` starts at zero,
      every chunk gets its colour and its majority label, and the loop stops
      with an error at the first empty chunk, which exists exactly when the
      image is non-empty and has an odd side. Cells of the last row and
      column belong to no chunk and keep 0 and their original label. */
  method ChunkLoop(run: Inputs, labelImage: array2<int>) returns (ok: bool, segmented: array2<int>)
    requires run.Valid() && labelImage.Length0 == run.h && labelImage.Length1 == run.w
    requires forall x, y :: 0 <= x < run.h && 0 <= y < run.w ==> 0 <= labelImage[x, y] < 4
    modifies labelImage
    ensures fresh(segmented) && segmented.Length0 == run.h && segmented.Length1 == run.w
    ensures ok <==> !(run.h > 0 && run.w > 0 && (run.h % CHUNK == 1 || run.w % CHUNK == 1))
    ensures ok ==> forall x, y :: 0 <= x < run.h && 0 <= y < run.w ==>
      if x < run.h - 1 && y < run.w - 1
      then run.Done(old(TileEvaluation.Rows(labelImage)), segmented[x, y], labelImage[x, y], x, y)
      else segmented[x, y] == 0 && labelImage[x, y] == old(labelImage[x, y])
  {
    segmented := new int[run.h, run.w]((x, y) => 0);
    ghost var labels := TileEvaluation.Rows(labelImage);
    var i := 0;
    while i < run.h
      invariant i % CHUNK == 0 && i <= run.h + 1
      invariant i > 0 ==> run.w == 0 || (run.w % CHUNK == 0 && i - CHUNK < run.h - 1)
      invariant forall x, y :: 0 <= x < run.h && 0 <= y < run.w ==>
        if x < i && x < run.h - 1 && y < run.w - 1
        then run.Done(labels, segmented[x, y], labelImage[x, y], x, y)
        else segmented[x, y] == 0 && labelImage[x, y] == labels[x][y]
    {
      ok := ChunkRow(run, labels, segmented, labelImage, i);
      if !ok {
        return;
      }
      i := i + CHUNK;
    }
    ok := true;
  }

  // ---------------------------------------------------------------------------
  // Accuracy

  /** Number of positions where two rows agree. */
  function MatchesIn(r1: seq<int>, r2: seq<int>): nat
    requires |r1| == |r2|
  {
    if r1 == [] then 0
    else MatchesIn(r1[..|r1| - 1], r2[..|r2| - 1]) + (if r1[|r1| - 1] == r2[|r2| - 1] then 1 else 0)
  }

  /** `np.sum(label_image == segmented)`. */
  function MatchCount(g1: seq<seq<int>>, g2: seq<seq<int>>): nat
    requires |g1| == |g2| && forall i :: 0 <= i < |g1| ==> |g1[i]| == |g2[i]|
  {
    if g1 == [] then 0
    else MatchCount(g1[..|g1| - 1], g2[..|g2| - 1]) + MatchesIn(g1[|g1| - 1], g2[|g2| - 1])
  }

  /** `correct / float(h * w)`; an empty image divides 0 by 0, which numpy
      turns into NaN, modelled as no value. */
  function Accuracy(correct: nat, h: nat, w: nat): Option<real>
  {
    if h * w == 0 then None else Some(correct as real / (h * w) as real)
  }

  lemma {:induction false} RowMatchBound(r1: seq<int>, r2: seq<int>)
    requires |r1| == |r2|
    ensures MatchesIn(r1, r2) <= |r1|
    ensures MatchesIn(r1, r2) == |r1| <==> r1 == r2
  {
    if r1 != [] {
      var n := |r1| - 1;
      RowMatchBound(r1[..n], r2[..n]);
      if MatchesIn(r1, r2) == |r1| {
        assert r1 == r1[..n] + [r1[n]] && r2 == r2[..n] + [r2[n]];
      }
    }
  }

  lemma {:induction false} GridMatchBound(g1: seq<seq<int>>, g2: seq<seq<int>>, h: nat, w: nat)
    requires IsGrid(g1, h, w) && IsGrid(g2, h, w)
    ensures MatchCount(g1, g2) <= h * w
    ensures MatchCount(g1, g2) == h * w <==> g1 == g2
  {
    if h > 0 {
      var n := h - 1;
      GridMatchBound(g1[..n], g2[..n], n, w);
      RowMatchBound(g1[n], g2[n]);
      assert n * w + w == h * w;
      if MatchCount(g1, g2) == h * w {
        assert g1 == g1[..n] + [g1[n]] && g2 == g2[..n] + [g2[n]];
      }
    }
  }

  /** The accuracy lies in [0, 1], is 1 exactly when every cell matches, and
      is missing exactly for an empty image. */
  lemma AccuracyInUnitRange(g1: seq<seq<int>>, g2: seq<seq<int>>, h: nat, w: nat)
    requires IsGrid(g1, h, w) && IsGrid(g2, h, w)
    ensures Accuracy(MatchCount(g1, g2), h, w).None? <==> h * w == 0
    ensures Accuracy(MatchCount(g1, g2), h, w).Some? ==>
      var a := Accuracy(MatchCount(g1, g2), h, w).value;
      0.0 <= a <= 1.0 && (a == 1.0 <==> g1 == g2)
  {
    var c := MatchCount(g1, g2);
    GridMatchBound(g1, g2, h, w);
    if h * w > 0 {
      var n := h * w;
      Ratio(c, n);
      assert Accuracy(c, h, w) == Some(c as real / n as real);
    }
  }

  /** A part of a positive whole, as a fraction of it. */
  lemma Ratio(c: nat, t: nat)
    requires c <= t && t > 0
    ensures 0.0 <= c as real / t as real <= 1.0
    ensures c as real / t as real == 1.0 <==> c == t
  {
    var q := c as real / t as real;
    assert q * t as real == c as real;
    ScaleOrder(q, 0.0, t as real);
    ScaleOrder(1.0, q, t as real);
    ScaleOrder(q, 1.0, t as real);
  }

  /** Multiplying by a positive factor keeps a strict order. */
  lemma ScaleOrder(a: real, b: real, t: real)
    requires t > 0.0
    ensures a < b ==> a * t < b * t
  {
    if a < b {
      assert (b - a) * t > 0.0;
    }
  }

  /** The count of agreeing cells, row by row. */
  method CountMatches(a: array2<int>, b: array2<int>) returns (correct: nat)
    requires a.Length0 == b.Length0 && a.Length1 == b.Length1
    ensures correct == MatchCount(TileEvaluation.Rows(a), TileEvaluation.Rows(b))
  {
    ghost var ra, rb := TileEvaluation.Rows(a), TileEvaluation.Rows(b);
    correct := 0;
    var i := 0;
    while i < a.Length0
      invariant 0 <= i <= a.Length0
      invariant correct == MatchCount(ra[..i], rb[..i])
    {
      var n := CountRowMatches(a, b, i);
      assert ra[..i + 1][..i] == ra[..i] && rb[..i + 1][..i] == rb[..i];
      correct := correct + n;
      i := i + 1;
    }
    assert ra[..a.Length0] == ra && rb[..a.Length0] == rb;
  }

  method CountRowMatches(a: array2<int>, b: array2<int>, i: nat) returns (n: nat)
    requires a.Length0 == b.Length0 && a.Length1 == b.Length1 && i < a.Length0
    ensures n == MatchesIn(TileEvaluation.Rows(a)[i], TileEvaluation.Rows(b)[i])
  {
    ghost var r1, r2 := TileEvaluation.Rows(a)[i], TileEvaluation.Rows(b)[i];
    n := 0;
    var j := 0;
    while j < a.Length1
      invariant 0 <= j <= a.Length1
      invariant n == MatchesIn(r1[..j], r2[..j])
    {
      assert r1[..j + 1][..j] == r1[..j] && r2[..j + 1][..j] == r2[..j];
      if a[i, j] == b[i, j] {
        n := n + 1;
      }
      j := j + 1;
    }
    assert r1[..a.Length1] == r1 && r2[..a.Length1] == r2;
  }

  /** One image of `main` after its labels are encoded: the chunk loop, then
      the accuracy of the painted chunks against the voted labels. */
  method EvaluateImage(run: Inputs, labelImage: array2<int>) returns (ok: bool, segmented: array2<int>, acc: Option<real>)
    requires run.Valid() && labelImage.Length0 == run.h && labelImage.Length1 == run.w
    requires forall x, y :: 0 <= x < run.h && 0 <= y < run.w ==> 0 <= labelImage[x, y] < 4
    modifies labelImage
    ensures fresh(segmented) && segmented.Length0 == run.h && segmented.Length1 == run.w
    ensures ok <==> !(run.h > 0 && run.w > 0 && (run.h % CHUNK == 1 || run.w % CHUNK == 1))
    ensures ok ==> acc == Accuracy(MatchCount(TileEvaluation.Rows(labelImage), TileEvaluation.Rows(segmented)), run.h, run.w)
  {
    ok, segmented := ChunkLoop(run, labelImage);
    acc := None;
    if ok {
      var correct := CountMatches(labelImage, segmented);
      acc := if run.h * run.w == 0 then None else Some(correct as real / (run.h * run.w) as real);
    }
  }
}

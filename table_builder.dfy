/** The Python table builder: label counts per exact colour over the training
    images, then the counts of each colour cube summed into the record of the
    bucket the classifier reads, and the builder's own label encoder, which
    does its arithmetic on 8-bit numpy arrays. */
module TableBuilder {
  import opened Domain
  import opened Quantisation
  import CppUtils

  // ---------------------------------------------------------------------------
  // encode_label_image

  /** numpy `uint8` subtraction: the difference modulo 256. */
  function WrapSub(a: Channel, b: Channel): bv8
  {
    (a as bv8) - (b as bv8)
  }

  /** `uint8` squaring keeps the low eight bits. */
  function WrapSquare(d: bv8): bv8
  {
    d * d
  }

  /** Square of the distance to a reference colour: the three wrapped squares are
      summed in numpy's wider default integer, so the sum itself does not wrap;
      the square root is dropped since it preserves the order of distances. */
  function WrappedDistance(p: Pixel, q: Pixel): nat
  {
    WrapSquare(WrapSub(p.r, q.r)) as int + WrapSquare(WrapSub(p.g, q.g)) as int + WrapSquare(WrapSub(p.b, q.b)) as int
  }

  /** Distances of a pixel to the four reference colours, in class order. */
  function WrappedDistances(p: Pixel): (d: seq<nat>)
    ensures |d| == 4
    ensures forall k: Label :: d[k] == WrappedDistance(p, CppUtils.Reference(k))
  {
    [WrappedDistance(p, CppUtils.Reference(0)), WrappedDistance(p, CppUtils.Reference(1)),
     WrappedDistance(p, CppUtils.Reference(2)), WrappedDistance(p, CppUtils.Reference(3))]
  }

  /** The class `np.argmin` picks for a pixel: the first reference colour at the
      least wrapped distance. */
  function PyLabel(p: Pixel): (k: Label)
    ensures IsFirstArgMin(WrappedDistances(p), k)
  {
    FirstArgMin(WrappedDistances(p))
  }

  /** `encode_label_image`: the h x w grid of class indices of a mask. */
  function EncodeLabelImage(labelImage: seq<seq<Pixel>>, h: nat, w: nat): (labels: seq<seq<Label>>)
    requires IsGrid(labelImage, h, w)
    ensures IsGrid(labels, h, w)
    ensures forall i, j :: 0 <= i < h && 0 <= j < w ==> IsFirstArgMin(WrappedDistances(labelImage[i][j]), labels[i][j])
  {
    seq(h, i requires 0 <= i < h => seq(w, j requires 0 <= j < w => PyLabel(labelImage[i][j])))
  }

  /** Even with wrapping, each reference colour is labelled with its own class:
      its distance to itself is 0 and every other reference colour differs from
      it by 255 in some channel, which wraps to a square of 1. */
  lemma ReferenceColoursPy(k: Label)
    ensures PyLabel(CppUtils.Reference(k)) == k
  {
    match k
    case 0 => BlackIsBackground();
    case 1 => BlueIsBlue();
    case 2 => RedIsRed();
    case 3 => YellowIsYellow();
    PyLabelOf(CppUtils.Reference(k), k);
  }

  /** A pixel whose distances have their first minimum at `k` gets class `k`. */
  lemma PyLabelOf(p: Pixel, k: Label)
    requires IsFirstArgMin(WrappedDistances(p), k)
    ensures PyLabel(p) == k
  {
    FirstArgMinUnique(WrappedDistances(p), k);
  }

  lemma BlackIsBackground()
    ensures IsFirstArgMin(WrappedDistances(Pixel(0, 0, 0)), 0)
  {
    assert WrappedDistances(Pixel(0, 0, 0))[0] == 0;
  }

  lemma BlueIsBlue()
    ensures IsFirstArgMin(WrappedDistances(Pixel(0, 0, 255)), 1)
  {
    assert WrappedDistances(Pixel(0, 0, 255)) == [1, 0, 2, 3];
  }

  lemma RedIsRed()
    ensures IsFirstArgMin(WrappedDistances(Pixel(255, 0, 0)), 2)
  {
    assert WrappedDistances(Pixel(255, 0, 0)) == [1, 2, 0, 1];
  }

  lemma YellowIsYellow()
    ensures IsFirstArgMin(WrappedDistances(Pixel(255, 255, 0)), 3)
  {
    assert WrappedDistances(Pixel(255, 255, 0)) == [2, 3, 1, 0];
  }

  /** The two encoders disagree: the C++ one saturates, the Python one wraps,
      so a nearly black pixel is red for the first and background for the
      second, which also shows that the Python encoder labels colours other
      than pure black as background. */
  lemma EncodersDisagree()
    ensures PyLabel(Pixel(1, 0, 0)) == 0
    ensures CppUtils.CppLabel(Pixel(1, 0, 0)) == 2
  {
    NearBlackWrapped();
    PyLabelOf(Pixel(1, 0, 0), 0);
    NearBlackSaturated();
  }

  lemma NearBlackWrapped()
    ensures IsFirstArgMin(WrappedDistances(Pixel(1, 0, 0)), 0)
  {
    var p := Pixel(1, 0, 0);
    assert WrappedDistance(p, CppUtils.Reference(0)) == 1;
    assert WrappedDistance(p, CppUtils.Reference(1)) == 2;
    assert WrappedDistance(p, CppUtils.Reference(2)) == 4;
    assert WrappedDistance(p, CppUtils.Reference(3)) == 5;
    assert WrappedDistances(p) == [1, 2, 4, 5];
  }

  lemma NearBlackSaturated()
    ensures CppUtils.CppLabel(Pixel(1, 0, 0)) == 2
  {
    assert CppUtils.Distances(Pixel(1, 0, 0)) == [1, 1, 0, 0];
  }

  // ---------------------------------------------------------------------------
  // record_color

  /** One pixel of a training image with the class of its mask pixel. */
  datatype Sighting = Sighting(color: Pixel, cls: Label)

  /** One more count for class `k`. */
  function Bump(c: Counts, k: Label): (c': Counts)
    ensures c'[k] == c[k] + 1 && Total(c') == Total(c) + 1
    ensures forall j :: 0 <= j < 4 && j != k ==> c'[j] == c[j]
  {
    c[k := c[k] + 1]
  }

  /** The body of `record_color`'s loops for one pixel: a colour already in the
      dictionary gets one more count for its label, a new colour only gets a
      zero record, so its first sighting is not counted. */
  function Record(m: map<Pixel, Counts>, s: Sighting): map<Pixel, Counts>
  {
    if s.color in m then m[s.color := Bump(m[s.color], s.cls)] else m[s.color := ZERO_COUNTS]
  }

  /** The dictionary after a sequence of sightings, in order. */
  function RecordAll(m: map<Pixel, Counts>, ss: seq<Sighting>): map<Pixel, Counts>
  {
    if ss == [] then m else Record(RecordAll(m, ss[..|ss| - 1]), ss[|ss| - 1])
  }

  function RowScan(row: seq<Pixel>, labels: seq<Label>): (ss: seq<Sighting>)
    requires |row| == |labels|
    ensures |ss| == |row| && forall j :: 0 <= j < |row| ==> ss[j] == Sighting(row[j], labels[j])
  {
    seq(|row|, j requires 0 <= j < |row| => Sighting(row[j], labels[j]))
  }

  /** The sightings of an image, row by row, as `record_color` visits them. */
  function Scan(image: seq<seq<Pixel>>, labels: seq<seq<Label>>): seq<Sighting>
    requires |image| == |labels| && forall i :: 0 <= i < |image| ==> |image[i]| == |labels[i]|
  {
    if image == [] then []
    else Scan(image[..|image| - 1], labels[..|labels| - 1]) + RowScan(image[|image| - 1], labels[|labels| - 1])
  }

  /** How often colour `p` occurs with class `k`. */
  function Occurrences(ss: seq<Sighting>, p: Pixel, k: Label): nat
  {
    if ss == [] then 0
    else Occurrences(ss[..|ss| - 1], p, k) + (if ss[|ss| - 1] == Sighting(p, k) then 1 else 0)
  }

  /** How often colour `p` occurs at all. */
  function Seen(ss: seq<Sighting>, p: Pixel): nat
  {
    if ss == [] then 0
    else Seen(ss[..|ss| - 1], p) + (if ss[|ss| - 1].color == p then 1 else 0)
  }

  lemma Snoc<T>(s: seq<T>, x: T)
    ensures (s + [x])[..|s|] == s && (s + [x])[|s|] == x
  {
  }

  /** The dictionary `record_color` mutates. */
  class ColorCount {
    var counts: map<Pixel, Counts>

    constructor()
      ensures counts == map[]
    {
      counts := map[];
    }

    /** `record_color(color_count, image, label_image)`. */
    method RecordColor(image: seq<seq<Pixel>>, labels: seq<seq<Label>>, h: nat, w: nat)
      requires IsGrid(image, h, w) && IsGrid(labels, h, w)
      modifies this
      ensures counts == RecordAll(old(counts), Scan(image, labels))
    {
      ghost var start := counts;
      var i := 0;
      while i < h
        invariant 0 <= i <= h
        invariant counts == RecordAll(start, Scan(image[..i], labels[..i]))
      {
        ghost var done := Scan(image[..i], labels[..i]);
        RecordRow(image[i], labels[i]);
        RecordAllAppend(start, done, RowScan(image[i], labels[i]));
        ScanSnoc(image, labels, i);
        i := i + 1;
      }
      assert image[..h] == image && labels[..h] == labels;
    }

    /** The inner loop of `record_color`, over the pixels of one row. */
    method RecordRow(row: seq<Pixel>, labels: seq<Label>)
      requires |row| == |labels|
      modifies this
      ensures counts == RecordAll(old(counts), RowScan(row, labels))
    {
      ghost var start := counts;
      var j := 0;
      while j < |row|
        invariant 0 <= j <= |row|
        invariant counts == RecordAll(start, RowScan(row[..j], labels[..j]))
      {
        var t := row[j];
        RowScanSnoc(row, labels, j);
        RecordAllSnoc(start, RowScan(row[..j], labels[..j]), Sighting(t, labels[j]));
        if t in counts {
          counts := counts[t := Bump(counts[t], labels[j])];
        } else {
          counts := counts[t := ZERO_COUNTS];
        }
        j := j + 1;
      }
      assert row[..|row|] == row && labels[..|labels|] == labels;
    }
  }

  lemma RowScanSnoc(row: seq<Pixel>, labels: seq<Label>, j: nat)
    requires |row| == |labels| && j < |row|
    ensures RowScan(row[..j + 1], labels[..j + 1]) == RowScan(row[..j], labels[..j]) + [Sighting(row[j], labels[j])]
  {
  }

  lemma ScanSnoc(image: seq<seq<Pixel>>, labels: seq<seq<Label>>, i: nat)
    requires |image| == |labels| && forall r :: 0 <= r < |image| ==> |image[r]| == |labels[r]|
    requires i < |image|
    ensures Scan(image[..i + 1], labels[..i + 1]) == Scan(image[..i], labels[..i]) + RowScan(image[i], labels[i])
  {
    assert image[..i + 1][..i] == image[..i] && labels[..i + 1][..i] == labels[..i];
  }

  lemma RecordAllSnoc(m: map<Pixel, Counts>, ss: seq<Sighting>, s: Sighting)
    ensures RecordAll(m, ss + [s]) == Record(RecordAll(m, ss), s)
  {
    Snoc(ss, s);
  }

  /** Recording two runs of sightings is recording their concatenation. */
  lemma {:induction false} RecordAllAppend(m: map<Pixel, Counts>, a: seq<Sighting>, b: seq<Sighting>)
    ensures RecordAll(m, a + b) == RecordAll(RecordAll(m, a), b)
    decreases |b|
  {
    if b == [] {
      assert a + b == a;
    } else {
      var b' := b[..|b| - 1];
      assert (a + b)[..|a + b| - 1] == a + b';
      RecordAllAppend(m, a, b');
    }
  }

  /** `record_color` only adds keys: the colours of the image. */
  lemma {:induction false} RecordAllKeys(m: map<Pixel, Counts>, ss: seq<Sighting>)
    ensures RecordAll(m, ss).Keys == m.Keys + set j | 0 <= j < |ss| :: ss[j].color
  {
    if ss != [] {
      var init := ss[..|ss| - 1];
      RecordAllKeys(m, init);
      var all := set j | 0 <= j < |ss| :: ss[j].color;
      var earlier := set j | 0 <= j < |init| :: init[j].color;
      assert all == earlier + {ss[|ss| - 1].color} by {
        forall q | q in all
          ensures q in earlier + {ss[|ss| - 1].color}
        {
          var j :| 0 <= j < |ss| && ss[j].color == q;
          if j < |init| {
            assert init[j].color == q;
          }
        }
        forall q | q in earlier
          ensures q in all
        {
          var j :| 0 <= j < |init| && init[j].color == q;
          assert ss[j].color == q;
        }
      }
    }
  }

  /** Colours the image does not show keep their entry, or stay absent. */
  lemma {:induction false} RecordAllUnseen(m: map<Pixel, Counts>, ss: seq<Sighting>, p: Pixel)
    requires Seen(ss, p) == 0
    ensures p in RecordAll(m, ss) <==> p in m
    ensures p in m ==> RecordAll(m, ss)[p] == m[p]
  {
    if ss != [] {
      RecordAllUnseen(m, ss[..|ss| - 1], p);
    }
  }

  /** A colour already in the dictionary gains one count per sighting, for the
      class it is seen with. */
  lemma {:induction false} RecordAllKnown(m: map<Pixel, Counts>, ss: seq<Sighting>, p: Pixel, k: Label)
    requires p in m
    ensures p in RecordAll(m, ss)
    ensures RecordAll(m, ss)[p][k] == m[p][k] + Occurrences(ss, p, k)
  {
    if ss != [] {
      RecordAllKnown(m, ss[..|ss| - 1], p, k);
    }
  }

  /** A new colour counts every sighting after its first one. */
  lemma RecordAllNew(m: map<Pixel, Counts>, before: seq<Sighting>, l: Label, after: seq<Sighting>, p: Pixel, k: Label)
    requires p !in m && Seen(before, p) == 0
    ensures p in RecordAll(m, before + [Sighting(p, l)] + after)
    ensures RecordAll(m, before + [Sighting(p, l)] + after)[p][k] == Occurrences(after, p, k)
  {
    RecordAllUnseen(m, before, p);
    var first := before + [Sighting(p, l)];
    Snoc(before, Sighting(p, l));
    var m1 := RecordAll(m, first);
    assert m1[p] == ZERO_COUNTS;
    RecordAllAppend(m, first, after);
    RecordAllKnown(m1, after, p, k);
  }

  /** Counts of a known colour grow by the number of its sightings. */
  lemma {:induction false} TotalKnown(m: map<Pixel, Counts>, ss: seq<Sighting>, p: Pixel)
    requires p in m
    ensures p in RecordAll(m, ss)
    ensures Total(RecordAll(m, ss)[p]) == Total(m[p]) + Seen(ss, p)
  {
    if ss != [] {
      TotalKnown(m, ss[..|ss| - 1], p);
    }
  }

  /** A colour new to the dictionary and seen n times has counts summing to n - 1. */
  lemma {:induction false} TotalNew(m: map<Pixel, Counts>, ss: seq<Sighting>, p: Pixel)
    requires p !in m && Seen(ss, p) > 0
    ensures p in RecordAll(m, ss)
    ensures Total(RecordAll(m, ss)[p]) == Seen(ss, p) - 1
  {
    var init := ss[..|ss| - 1];
    var s := ss[|ss| - 1];
    if Seen(init, p) == 0 {
      RecordAllUnseen(m, init, p);
    } else {
      TotalNew(m, init, p);
    }
  }

  // ---------------------------------------------------------------------------
  // Grouping colours into cubes

  /** `color_count[(r, g, b)]`, or nothing when the colour was never seen or a
      coordinate lies past 255 (the builder's `continue`). */
  function Lookup(m: map<Pixel, Counts>, r: nat, g: nat, b: nat): Counts
  {
    if r < 256 && g < 256 && b < 256 && Pixel(r, g, b) in m then m[Pixel(r, g, b)] else ZERO_COUNTS
  }

  /** Counts of colours (r + i, g + j, b + k) for k < n. */
  function SumK(m: map<Pixel, Counts>, r: nat, g: nat, b: nat, i: nat, j: nat, n: nat): Counts
  {
    if n == 0 then ZERO_COUNTS else AddCounts(SumK(m, r, g, b, i, j, n - 1), Lookup(m, r + i, g + j, b + n - 1))
  }

  /** Counts of colours (r + i, g + j, b + k) for j < n and k < step. */
  function SumJ(m: map<Pixel, Counts>, r: nat, g: nat, b: nat, step: nat, i: nat, n: nat): Counts
  {
    if n == 0 then ZERO_COUNTS else AddCounts(SumJ(m, r, g, b, step, i, n - 1), SumK(m, r, g, b, i, n - 1, step))
  }

  /** Counts of colours (r + i, g + j, b + k) for i < n and j, k < step. */
  function SumI(m: map<Pixel, Counts>, r: nat, g: nat, b: nat, step: nat, n: nat): Counts
  {
    if n == 0 then ZERO_COUNTS else AddCounts(SumI(m, r, g, b, step, n - 1), SumJ(m, r, g, b, step, n - 1, step))
  }

  /** Summed counts of the cube of side `step` with lower corner (r, g, b). */
  function CubeSum(m: map<Pixel, Counts>, r: nat, g: nat, b: nat, step: nat): Counts
  {
    SumI(m, r, g, b, step, step)
  }

  lemma AddCountsAssociative(a: Counts, b: Counts, c: Counts)
    ensures AddCounts(AddCounts(a, b), c) == AddCounts(a, AddCounts(b, c))
  {
  }

  lemma AddZero(a: Counts)
    ensures AddCounts(a, ZERO_COUNTS) == a
  {
  }

  /** The innermost loop of a cube, over k, adding each colour's record to
      `total_count` (the `sub_i` loop is `AddCounts`). */
  method AddLine(total: Counts, m: map<Pixel, Counts>, r: nat, g: nat, b: nat, i: nat, j: nat, step: nat)
    returns (total': Counts)
    ensures total' == AddCounts(total, SumK(m, r, g, b, i, j, step))
  {
    total' := total;
    var k := 0;
    while k < step
      invariant 0 <= k <= step
      invariant total' == AddCounts(total, SumK(m, r, g, b, i, j, k))
    {
      var c := Lookup(m, r + i, g + j, b + k);
      AddCountsAssociative(total, SumK(m, r, g, b, i, j, k), c);
      total' := AddCounts(total', c);
      k := k + 1;
    }
  }

  /** The loop over j and k for the plane i of the cube with lower corner
      (r, g, b). */
  method AddPlane(total: Counts, m: map<Pixel, Counts>, r: nat, g: nat, b: nat, i: nat, step: nat)
    returns (total': Counts)
    ensures total' == AddCounts(total, SumJ(m, r, g, b, step, i, step))
  {
    total' := total;
    AddZero(total);
    var j := 0;
    while j < step
      invariant 0 <= j <= step
      invariant total' == AddCounts(total, SumJ(m, r, g, b, step, i, j))
    {
      AddCountsAssociative(total, SumJ(m, r, g, b, step, i, j), SumK(m, r, g, b, i, j, step));
      total' := AddLine(total', m, r, g, b, i, j, step);
      j := j + 1;
    }
  }

  /** The loops over i, j and k for the cube with lower corner (r, g, b). */
  method CubeTotal(m: map<Pixel, Counts>, r: nat, g: nat, b: nat, step: nat) returns (total: Counts)
    ensures total == CubeSum(m, r, g, b, step)
  {
    total := ZERO_COUNTS;
    var i := 0;
    while i < step
      invariant 0 <= i <= step
      invariant total == SumI(m, r, g, b, step, i)
    {
      total := AddPlane(total, m, r, g, b, i, step);
      i := i + 1;
    }
  }

  /** Length of `color_count_grouped`. */
  function GroupedLength(base: nat): nat
  {
    base + base * base + base * base * base + 1
  }

  /** The position the grouping loops reach a cube at: r is the outer loop, b
      the inner one, so the cube's blue digit varies fastest. */
  function LoopRank(idx: nat, base: nat): nat
    requires base > 0
  {
    MixedRadix(idx / (base * base), (idx / base) % base, idx % base, base)
  }

  /** Record of the cube whose bucket number is `idx`. */
  function CubeAt(m: map<Pixel, Counts>, step: nat, idx: nat): Counts
    requires step > 0
  {
    var base := Base(step);
    CubeSum(m, (idx % base) * step, ((idx / base) % base) * step, (idx / (base * base)) * step, step)
  }

  /** `color_count_grouped` once the first `n` cubes in loop order are written. */
  function Partial(m: map<Pixel, Counts>, step: nat, n: nat): (g: seq<Counts>)
    requires step > 0
    ensures |g| == GroupedLength(Base(step))
  {
    var base := Base(step);
    seq(GroupedLength(base), idx requires 0 <= idx < GroupedLength(base) =>
      if idx < base * base * base && LoopRank(idx, base) < n then CubeAt(m, step, idx) else ZERO_COUNTS)
  }

  /** `color_count_grouped` after the grouping loops. */
  function Grouped(m: map<Pixel, Counts>, step: nat): (g: seq<Counts>)
    requires step > 0
    ensures |g| == GroupedLength(Base(step))
  {
    var base := Base(step);
    seq(GroupedLength(base), idx requires 0 <= idx < GroupedLength(base) =>
      if idx < base * base * base then CubeAt(m, step, idx) else ZERO_COUNTS)
  }

  /** Swapping the outer and inner digit keeps distinct cubes apart. */
  lemma SwappedDistinct(a: nat, b: nat, c: nat, qr: nat, qg: nat, qb: nat, base: nat)
    requires a < base && b < base && c < base && qr < base && qg < base && qb < base
    requires MixedRadix(c, b, a, base) != MixedRadix(qr, qg, qb, base)
    ensures MixedRadix(a, b, c, base) != MixedRadix(qb, qg, qr, base)
  {
    if MixedRadix(a, b, c, base) == MixedRadix(qb, qg, qr, base) {
      MixedRadixInjective(a, b, c, qb, qg, qr, base);
      assert false;
    }
  }

  /** Only the cube with digits (qr, qg, qb) is reached at the loop position
      of that cube. */
  lemma RankDistinct(idx: nat, qr: nat, qg: nat, qb: nat, base: nat)
    requires 0 < base && qr < base && qg < base && qb < base
    requires idx < base * base * base && idx != MixedRadix(qr, qg, qb, base)
    ensures LoopRank(idx, base) != MixedRadix(qb, qg, qr, base)
  {
    MixedRadixEncode(idx, base);
    var a, b, c := idx / (base * base), (idx / base) % base, idx % base;
    SwappedDistinct(a, b, c, qr, qg, qb, base);
  }

  /** The cube with digits (qr, qg, qb) is reached at position
      MixedRadix(qb, qg, qr) and holds the sum of the cube at its corner. */
  lemma RankOfCube(m: map<Pixel, Counts>, step: nat, qr: nat, qg: nat, qb: nat)
    requires step > 0
    requires qr < Base(step) && qg < Base(step) && qb < Base(step)
    ensures var base := Base(step);
      && MixedRadix(qr, qg, qb, base) < base * base * base
      && LoopRank(MixedRadix(qr, qg, qb, base), base) == MixedRadix(qb, qg, qr, base)
      && CubeAt(m, step, MixedRadix(qr, qg, qb, base)) == CubeSum(m, qr * step, qg * step, qb * step, step)
  {
    MixedRadixRange(qr, qg, qb, Base(step));
    MixedRadixDecode(qr, qg, qb, Base(step));
  }

  /** Writing the cube with digits (qr, qg, qb) is the next step in loop order. */
  lemma PartialStep(m: map<Pixel, Counts>, step: nat, qr: nat, qg: nat, qb: nat)
    requires step > 0
    requires qr < Base(step) && qg < Base(step) && qb < Base(step)
    ensures var base := Base(step);
      && MixedRadix(qr, qg, qb, base) < base * base * base
      && Partial(m, step, MixedRadix(qb, qg, qr, base))[MixedRadix(qr, qg, qb, base) := CubeSum(m, qr * step, qg * step, qb * step, step)]
         == Partial(m, step, MixedRadix(qb, qg, qr, base) + 1)
  {
    var base := Base(step);
    var target := MixedRadix(qr, qg, qb, base);
    var n := MixedRadix(qb, qg, qr, base);
    RankOfCube(m, step, qr, qg, qb);
    var before := Partial(m, step, n);
    var after := Partial(m, step, n + 1);
    forall idx | 0 <= idx < |after| && idx != target
      ensures before[idx] == after[idx]
    {
      if idx < base * base * base {
        RankDistinct(idx, qr, qg, qb, base);
      }
    }
  }

  /** Once every cube is written the partial table is the grouped table. */
  lemma PartialComplete(m: map<Pixel, Counts>, step: nat)
    requires step > 0
    ensures Partial(m, step, Base(step) * Base(step) * Base(step)) == Grouped(m, step)
  {
    var base := Base(step);
    forall idx | 0 <= idx < base * base * base
      ensures LoopRank(idx, base) < base * base * base
    {
      RankBound(idx, base);
    }
  }

  lemma RankBound(idx: nat, base: nat)
    requires 0 < base && idx < base * base * base
    ensures LoopRank(idx, base) < base * base * base
  {
    MixedRadixEncode(idx, base);
    var a, b, c := idx / (base * base), (idx / base) % base, idx % base;
    MixedRadixRange(a, b, c, base);
  }

  /** `range(0, 256, step)` has `Base(step)` elements: `q * step < 256` exactly
      when `q < Base(step)`. */
  lemma RangeEnd(q: nat, step: nat)
    requires step > 0
    ensures q * step < 256 <==> q < Base(step)
  {
    var base := Base(step);
    if q < base {
      MulMonotone(step, q, base - 1);
    } else {
      MulMonotone(step, base, q);
    }
  }

  /** Steps of the three cube loops: the next corner and the cubes done so far. */
  lemma NextCorner(q: nat, step: nat)
    ensures q * step + step == (q + 1) * step
  {
  }

  lemma NextRank(qr: nat, qg: nat, base: nat)
    ensures MixedRadix(base, qg, qr, base) == MixedRadix(0, qg + 1, qr, base)
    ensures MixedRadix(0, base, qr, base) == MixedRadix(0, 0, qr + 1, base)
  {
  }

  /** The builder's `int(r / step + base * g / step + base ** 2 * b / step)` at a
      cube corner: every coordinate is a multiple of the step, so each division
      is exact (in Python's float division as here) and the index is the
      cube's bucket number. */
  lemma CornerIndex(r: nat, g: nat, b: nat, qr: nat, qg: nat, qb: nat, step: nat, base: nat)
    requires step > 0 && r == qr * step && g == qg * step && b == qb * step
    ensures r / step + base * g / step + base * base * b / step == MixedRadix(qr, qg, qb, base)
  {
    DivModOf(r, step, qr, 0);
    assert base * g == (base * qg) * step;
    DivModOf(base * g, step, base * qg, 0);
    assert base * base * b == (base * base * qb) * step;
    DivModOf(base * base * b, step, base * base * qb, 0);
  }

  /** The innermost cube loop, over b, for one r and one g. */
  method GroupLine(colorCount: map<Pixel, Counts>, step: nat, grouped: array<Counts>, r: nat, g: nat, ghost qr: nat, ghost qg: nat)
    requires 0 < step && qr < Base(step) && qg < Base(step) && r == qr * step && g == qg * step
    requires grouped[..] == Partial(colorCount, step, MixedRadix(0, qg, qr, Base(step)))
    modifies grouped
    ensures grouped[..] == Partial(colorCount, step, MixedRadix(0, qg + 1, qr, Base(step)))
  {
    var base := 255 / step + 1;
    var b := 0;
    ghost var qb := 0;
    while b < 256
      invariant qb <= base && b == qb * step
      invariant grouped[..] == Partial(colorCount, step, MixedRadix(qb, qg, qr, base))
    {
      RangeEnd(qb, step);
      var total := CubeTotal(colorCount, r, g, b, step);
      PartialStep(colorCount, step, qr, qg, qb);
      CornerIndex(r, g, b, qr, qg, qb, step, base);
      ghost var before := grouped[..];
      grouped[r / step + base * g / step + base * base * b / step] := total;
      assert grouped[..] == before[MixedRadix(qr, qg, qb, base) := total];
      NextCorner(qb, step);
      b, qb := b + step, qb + 1;
    }
    RangeEnd(qb, step);
    NextRank(qr, qg, base);
  }

  /** The middle cube loop, over g, for one r. */
  method GroupPlane(colorCount: map<Pixel, Counts>, step: nat, grouped: array<Counts>, r: nat, ghost qr: nat)
    requires 0 < step && qr < Base(step) && r == qr * step
    requires grouped[..] == Partial(colorCount, step, MixedRadix(0, 0, qr, Base(step)))
    modifies grouped
    ensures grouped[..] == Partial(colorCount, step, MixedRadix(0, 0, qr + 1, Base(step)))
  {
    var base := 255 / step + 1;
    var g := 0;
    ghost var qg := 0;
    while g < 256
      invariant qg <= base && g == qg * step
      invariant grouped[..] == Partial(colorCount, step, MixedRadix(0, qg, qr, base))
    {
      RangeEnd(qg, step);
      GroupLine(colorCount, step, grouped, r, g, qr, qg);
      NextCorner(qg, step);
      g, qg := g + step, qg + 1;
    }
    RangeEnd(qg, step);
    NextRank(qr, qg, base);
  }

  /** The grouping step of the builder: every cube of side `step` is summed
      into `color_count_grouped` at its bucket number. */
  method GroupCounts(colorCount: map<Pixel, Counts>, step: nat) returns (grouped: array<Counts>)
    requires 0 < step
    ensures grouped[..] == Grouped(colorCount, step)
  {
    var base := 255 / step + 1;
    grouped := new Counts[base + base * base + base * base * base + 1](_ => ZERO_COUNTS);
    assert grouped[..] == Partial(colorCount, step, 0);
    var r := 0;
    ghost var qr := 0;
    while r < 256
      invariant qr <= base && r == qr * step
      invariant grouped[..] == Partial(colorCount, step, MixedRadix(0, 0, qr, base))
    {
      RangeEnd(qr, step);
      GroupPlane(colorCount, step, grouped, r, qr);
      NextCorner(qr, step);
      r, qr := r + step, qr + 1;
    }
    RangeEnd(qr, step);
    PartialComplete(colorCount, step);
  }

  /** Past the `base`^3 cube buckets the grouped table holds only zero records. */
  lemma GroupedTail(m: map<Pixel, Counts>, step: nat, idx: nat)
    requires step > 0 && Base(step) * Base(step) * Base(step) <= idx < GroupedLength(Base(step))
    ensures Grouped(m, step)[idx] == ZERO_COUNTS
  {
  }

  /** Builder and reader agree on the layout: the cube holding a pixel is
      stored at the pixel's bucket, which for the default step is the
      `compute_idx` of the classifier, and the pixel lies inside that cube. */
  lemma CubeOfPixel(m: map<Pixel, Counts>, p: Pixel, step: nat)
    requires step > 0
    ensures Bucket(p, step) < GroupedLength(Base(step))
    ensures Grouped(m, step)[Bucket(p, step)] == CubeSum(m, Corner(p.r, step), Corner(p.g, step), Corner(p.b, step), step)
    ensures Corner(p.r, step) <= p.r < Corner(p.r, step) + step
    ensures Corner(p.g, step) <= p.g < Corner(p.g, step) + step
    ensures Corner(p.b, step) <= p.b < Corner(p.b, step) + step
    ensures step == STEP_SIZE ==> Bucket(p, step) == ComputeIdx(p)
  {
    var base := Base(step);
    var qr, qg, qb := Digit(p.r, step), Digit(p.g, step), Digit(p.b, step);
    var idx := MixedRadix(qr, qg, qb, base);
    assert Bucket(p, step) == idx;
    MixedRadixRange(qr, qg, qb, base);
    MixedRadixDecode(qr, qg, qb, base);
    assert Grouped(m, step)[idx] == CubeAt(m, step, idx);
  }

  /** The quantised channel, a digit of the bucket number. */
  function Digit(x: Channel, step: nat): (q: nat)
    requires step > 0
    ensures q < Base(step) && q == x / step
  {
    QuantisedChannel(x, step);
    x / step
  }

  /** Lower corner, along one channel, of the cube holding `x`. */
  function Corner(x: Channel, step: nat): (c: nat)
    requires step > 0
    ensures c == Digit(x, step) * step && c <= x < c + step
  {
    EuclidSplit(x, step);
    Digit(x, step) * step
  }

  // Each colour's counts are part of its cube's record.

  lemma {:induction false} SumKIncludes(m: map<Pixel, Counts>, r: nat, g: nat, b: nat, i: nat, j: nat, n: nat, k: nat, c: nat)
    requires k < n && c < 4
    ensures SumK(m, r, g, b, i, j, n)[c] >= Lookup(m, r + i, g + j, b + k)[c]
  {
    if k < n - 1 {
      SumKIncludes(m, r, g, b, i, j, n - 1, k, c);
    }
  }

  lemma {:induction false} SumJIncludes(m: map<Pixel, Counts>, r: nat, g: nat, b: nat, step: nat, i: nat, n: nat, j: nat, k: nat, c: nat)
    requires j < n && k < step && c < 4
    ensures SumJ(m, r, g, b, step, i, n)[c] >= Lookup(m, r + i, g + j, b + k)[c]
  {
    if j < n - 1 {
      SumJIncludes(m, r, g, b, step, i, n - 1, j, k, c);
    } else {
      SumKIncludes(m, r, g, b, i, j, step, k, c);
    }
  }

  lemma {:induction false} SumIIncludes(m: map<Pixel, Counts>, r: nat, g: nat, b: nat, step: nat, n: nat, i: nat, j: nat, k: nat, c: nat)
    requires i < n && j < step && k < step && c < 4
    ensures SumI(m, r, g, b, step, n)[c] >= Lookup(m, r + i, g + j, b + k)[c]
  {
    if i < n - 1 {
      SumIIncludes(m, r, g, b, step, n - 1, i, j, k, c);
    } else {
      SumJIncludes(m, r, g, b, step, i, step, j, k, c);
    }
  }

  /** Every recorded colour's counts are included in the grouped record at its
      bucket. */
  lemma ColourInBucket(m: map<Pixel, Counts>, p: Pixel, step: nat, c: nat)
    requires step > 0 && p in m && c < 4
    ensures Bucket(p, step) < GroupedLength(Base(step))
    ensures Grouped(m, step)[Bucket(p, step)][c] >= m[p][c]
  {
    CubeOfPixel(m, p, step);
    var r, g, b := Corner(p.r, step), Corner(p.g, step), Corner(p.b, step);
    SumIIncludes(m, r, g, b, step, step, p.r - r, p.g - g, p.b - b, c);
  }
}

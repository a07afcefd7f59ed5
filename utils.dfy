/** The pure helpers of the C++ `Utils` class: suffix test, Windows path
    join, `getline`-based split, and the nearest-colour label encoder. */
module CppUtils {
  import opened Domain

  /** The `k`-th character counted from the end (`*(s.rbegin() + k)`). */
  function FromBack(s: string, k: nat): char
    requires k < |s|
  {
    s[|s| - 1 - k]
  }

  /** `string_ends_with`: false when `ending` is longer; otherwise the
      characters are compared from the back (`std::equal` on reverse iterators). */
  function StringEndsWith(value: string, ending: string): (r: bool)
    ensures r <==> |ending| <= |value| && value[|value| - |ending|..] == ending
  {
    if |ending| > |value| then false
    else
      var ok := forall k :: 0 <= k < |ending| ==> FromBack(ending, k) == FromBack(value, k);
      assert ok ==> value[|value| - |ending|..] == ending by {
        if ok {
          forall i | 0 <= i < |ending|
            ensures value[|value| - |ending|..][i] == ending[i]
          {
            var k := |ending| - 1 - i;
            assert FromBack(ending, k) == FromBack(value, k);
          }
        }
      }
      ok
  }

  const PATH_DELIMITER: char := '\\'

  /** `join_path`: one backslash between the parts unless the first already
      ends with one. `part1.back()` on an empty string is undefined, hence the
      precondition. */
  function JoinPath(part1: string, part2: string): (r: string)
    requires |part1| > 0
    ensures |r| >= |part1| && r[..|part1|] == part1
    ensures |r| >= |part2| && r[|r| - |part2|..] == part2
    ensures |r| - |part2| - 1 >= 0 && r[|r| - |part2| - 1] == PATH_DELIMITER
    ensures |r| == |part1| + |part2| <==> part1[|part1| - 1] == PATH_DELIMITER
    ensures |r| == |part1| + |part2| || |r| == |part1| + |part2| + 1
  {
    if part1[|part1| - 1] == PATH_DELIMITER then part1 + part2 else part1 + [PATH_DELIMITER] + part2
  }

  /** Splitting at every delimiter: one more piece than there are delimiters. */
  function SplitAll(s: string, delim: char): (pieces: seq<string>)
    ensures |pieces| > 0
  {
    if s == [] then [[]]
    else
      var prev := SplitAll(s[..|s| - 1], delim);
      var c := s[|s| - 1];
      if c == delim then prev + [[]]
      else prev[..|prev| - 1] + [prev[|prev| - 1] + [c]]
  }

  /** What `split` returns: `getline` yields every piece except a final empty
      one, so a trailing delimiter (and the empty string) yields no last piece. */
  function SplitPieces(s: string, delim: char): seq<string>
  {
    var all := SplitAll(s, delim);
    if all[|all| - 1] == [] then all[..|all| - 1] else all
  }

  /** The pieces separated by one delimiter each. */
  function Join(pieces: seq<string>, delim: char): string
  {
    if pieces == [] then []
    else if |pieces| == 1 then pieces[0]
    else Join(pieces[..|pieces| - 1], delim) + [delim] + pieces[|pieces| - 1]
  }

  /** `split(s, delim)`: `getline` in a loop, pushing each piece. */
  method Split(s: string, delim: char) returns (elems: seq<string>)
    ensures elems == SplitPieces(s, delim)
  {
    elems := [];
    var item := "";
    var i := 0;
    while i < |s|
      invariant 0 <= i <= |s|
      invariant elems + [item] == SplitAll(s[..i], delim)
    {
      assert s[..i + 1][..i] == s[..i];
      if s[i] == delim {
        elems := elems + [item];
        item := "";
      } else {
        item := item + [s[i]];
      }
      i := i + 1;
    }
    assert s[..|s|] == s;
    if item != "" {
      elems := elems + [item];
    } else {
      assert elems == (elems + [item])[..|elems|];
    }
  }

  lemma {:induction false} SplitAllNoDelimiter(s: string, delim: char)
    ensures forall p, k :: 0 <= p < |SplitAll(s, delim)| && 0 <= k < |SplitAll(s, delim)[p]| ==> SplitAll(s, delim)[p][k] != delim
  {
    if s != [] {
      SplitAllNoDelimiter(s[..|s| - 1], delim);
    }
  }

  lemma {:induction false} JoinSplitAll(s: string, delim: char)
    ensures Join(SplitAll(s, delim), delim) == s
  {
    if s != [] {
      var front, c := s[..|s| - 1], s[|s| - 1];
      assert s == front + [c];
      var prev := SplitAll(front, delim);
      JoinSplitAll(front, delim);
      if c == delim {
        JoinSnoc(prev, [], delim);
      } else {
        var init, last := prev[..|prev| - 1], prev[|prev| - 1];
        if |prev| == 1 {
          assert SplitAll(s, delim) == [last + [c]];
        } else {
          assert prev == init + [last];
          JoinSnoc(init, last, delim);
          JoinSnoc(init, last + [c], delim);
        }
      }
    }
  }

  lemma JoinSnoc(pieces: seq<string>, p: string, delim: char)
    requires |pieces| > 0
    ensures Join(pieces + [p], delim) == Join(pieces, delim) + [delim] + p
  {
    assert (pieces + [p])[..|pieces|] == pieces;
  }

  /** The pieces of `split` contain no delimiter, and joining them again gives
      back the input, less one trailing delimiter if it had one. */
  lemma SplitRoundTrip(s: string, delim: char)
    ensures forall p, k :: 0 <= p < |SplitPieces(s, delim)| && 0 <= k < |SplitPieces(s, delim)[p]| ==> SplitPieces(s, delim)[p][k] != delim
    ensures s == [] ==> SplitPieces(s, delim) == []
    ensures s != [] && s[|s| - 1] == delim ==> Join(SplitPieces(s, delim), delim) + [delim] == s
    ensures s != [] && s[|s| - 1] != delim ==> Join(SplitPieces(s, delim), delim) == s
  {
    SplitAllNoDelimiter(s, delim);
    JoinSplitAll(s, delim);
    var all := SplitAll(s, delim);
    if s != [] && s[|s| - 1] == delim {
      var init := all[..|all| - 1];
      assert all == init + [[]];
    }
  }

  /** `encode_label_image`'s reference colours: background, blue, red, yellow. */
  function Reference(k: Label): Pixel
  {
    match k
    case 0 => Pixel(0, 0, 0)
    case 1 => Pixel(0, 0, 255)
    case 2 => Pixel(255, 0, 0)
    case 3 => Pixel(255, 255, 0)
  }

  /** `cv::Vec3b` subtraction saturates at 0. */
  function SaturatingSub(a: Channel, b: Channel): Channel
  {
    if a >= b then a - b else 0
  }

  /** Square of `norm(label_image(i, j) - mapping(k))`; the square root is
      dropped since it preserves the order of distances. */
  function SaturatedDistance(p: Pixel, q: Pixel): nat
  {
    var dr, dg, db := SaturatingSub(p.r, q.r), SaturatingSub(p.g, q.g), SaturatingSub(p.b, q.b);
    dr * dr + dg * dg + db * db
  }

  function Distances(p: Pixel): (d: seq<int>)
    ensures |d| == 4 && forall k: Label :: d[k] == SaturatedDistance(p, Reference(k))
  {
    [SaturatedDistance(p, Reference(0)), SaturatedDistance(p, Reference(1)),
     SaturatedDistance(p, Reference(2)), SaturatedDistance(p, Reference(3))]
  }

  /** `min_distance` starts at 10000, above every possible norm (at most
      255 * sqrt(3), about 442); squared here. */
  const INITIAL_MIN_DISTANCE: nat := 10000 * 10000

  lemma DistanceBelowInitial(p: Pixel, q: Pixel)
    ensures SaturatedDistance(p, q) < INITIAL_MIN_DISTANCE
  {
    var dr: nat, dg: nat, db: nat := SaturatingSub(p.r, q.r), SaturatingSub(p.g, q.g), SaturatingSub(p.b, q.b);
    assert dr * dr <= 255 * 255 by { SquareMonotone(dr, 255); }
    assert dg * dg <= 255 * 255 by { SquareMonotone(dg, 255); }
    assert db * db <= 255 * 255 by { SquareMonotone(db, 255); }
  }

  lemma SquareMonotone(a: nat, b: nat)
    requires a <= b
    ensures a * a <= b * b
  {
    assert a * a <= a * b;
  }

  /** The class `encode_label_image` gives a pixel: the first reference colour
      at the least saturated distance. */
  function CppLabel(p: Pixel): (k: Label)
    ensures IsFirstArgMin(Distances(p), k)
  {
    FirstArgMin(Distances(p))
  }

  /** The inner loop over the four classes for one pixel. */
  method ClosestClass(p: Pixel) returns (closest: Label)
    ensures closest == CppLabel(p)
  {
    var d := Distances(p);
    closest := 0;
    var minDistance := INITIAL_MIN_DISTANCE;
    var k := 0;
    while k < 4
      invariant 0 <= k <= 4
      invariant k == 0 ==> closest == 0 && minDistance == INITIAL_MIN_DISTANCE
      invariant k > 0 ==> IsFirstArgMin(d[..k], closest) && minDistance == d[closest]
    {
      DistanceBelowInitial(p, Reference(k));
      var distance := SaturatedDistance(p, Reference(k));
      FirstArgMinStep(d, k, closest);
      if distance < minDistance {
        closest := k;
        minDistance := distance;
      }
      k := k + 1;
    }
    assert d[..4] == d;
    FirstArgMinUnique(d, closest);
  }

  /** `encode_label_image`: an h x w label image of class indices. */
  method EncodeLabelImage(labelImage: seq<seq<Pixel>>, h: nat, w: nat) returns (labels: array2<int>)
    requires IsGrid(labelImage, h, w)
    ensures labels.Length0 == h && labels.Length1 == w
    ensures forall i, j :: 0 <= i < h && 0 <= j < w ==> labels[i, j] == CppLabel(labelImage[i][j])
  {
    labels := new int[h, w];
    var i := 0;
    while i < h
      invariant 0 <= i <= h
      invariant forall x, y :: 0 <= x < i && 0 <= y < w ==> labels[x, y] == CppLabel(labelImage[x][y])
    {
      var j := 0;
      while j < w
        invariant 0 <= j <= w
        invariant forall x, y :: 0 <= x < i && 0 <= y < w ==> labels[x, y] == CppLabel(labelImage[x][y])
        invariant forall y :: 0 <= y < j ==> labels[i, y] == CppLabel(labelImage[i][y])
      {
        var closest := ClosestClass(labelImage[i][j]);
        labels[i, j] := closest;
        j := j + 1;
      }
      i := i + 1;
    }
  }

  /** Saturation makes every colour class at least as close as background:
      subtracting a reference channel never increases a channel's difference. */
  lemma ColourClassesNoFartherThanBackground(p: Pixel, k: Label)
    ensures SaturatedDistance(p, Reference(k)) <= SaturatedDistance(p, Reference(0))
  {
    SquareMonotone(SaturatingSub(p.r, Reference(k).r), p.r);
    SquareMonotone(SaturatingSub(p.g, Reference(k).g), p.g);
    SquareMonotone(SaturatingSub(p.b, Reference(k).b), p.b);
  }

  /** Hence only pure black is labelled background. */
  lemma BackgroundOnlyForBlack(p: Pixel)
    ensures CppLabel(p) == 0 <==> p == Pixel(0, 0, 0)
  {
    var d := Distances(p);
    if CppLabel(p) == 0 {
      // No class beat background strictly, so each saturated difference is as large as the pixel's own.
      assert d[3] >= d[0] && d[2] >= d[0] && d[1] >= d[0];
      assert d[1] == p.r * p.r + p.g * p.g;
      assert d[2] == p.g * p.g + p.b * p.b;
      assert d[0] == p.r * p.r + p.g * p.g + p.b * p.b;
      assert p.b * p.b <= 0 && p.r * p.r <= 0;
      assert d[3] == p.b * p.b;
      assert p.g * p.g <= 0;
    } else {
      assert p != Pixel(0, 0, 0);
    }
  }

  /** Each reference colour is labelled with its own class. */
  lemma ReferenceColoursCpp(k: Label)
    ensures CppLabel(Reference(k)) == k
  {
    var d := Distances(Reference(k));
    match k
    case 0 => assert d[0] == 0;
    case 1 => assert d == [255 * 255, 0, 255 * 255, 255 * 255];
    case 2 => assert d == [255 * 255, 255 * 255, 0, 0];
    case 3 => assert d == [2 * 255 * 255, 2 * 255 * 255, 255 * 255, 0];
  }
}

# Pika primary-colour classifier, modelled in Dafny

Pika classifies square tiles of a photograph as blue, red, yellow or
background. It does this by how often each quantised colour was seen with
each class in the labelled training images. The system has two halves, and
this project models the logic of both:

- **Python (`compute_color_mapping.py`).** A table builder encodes every
  mask pixel as the class of its nearest reference colour. It counts, per
  exact RGB colour, how often the colour was seen with each class. It then
  sums those counts over 5 x 5 x 5 colour cubes into a flat list of
  four-count records.
- **C++ `ColorClassifier`.**
  - It reads that list back token by token and normalises every record into
    four probabilities.
  - For a tile it sums the probabilities of its pixels' buckets and scales
    only the background sum by `alpha`.
  - It answers `is_blue`, `is_red` and `is_yellow`.
- **`Main.cpp`.** It walks every training image in 128-pixel tiles. For each
  tile it compares the three answers with the tile's ground truth, taken from
  the label histogram, and keeps eight correct/all counters per image and in
  total.
- **Evaluation script (`test_color_mapping.py`).**
  - Per-pixel argmax segmentation.
  - A per-tile colour with the background share multiplied by 0.1.
  - A majority vote of the label image over 2 x 2 chunks.
  - The accuracy of the chunks against the votes.
  - The in-place relabelling used for display.
- **The C++ `Utils` helpers.** `string_ends_with`, `join_path`, `split` and
  the saturating label encoder.

Modules, one concept each:

| module | file | models |
|---|---|---|
| `Domain` | `domain.dfy` | pixels, labels, four-count records, grids, first argmax/argmin |
| `Quantisation` | `quantisation.dfy` | `STEP_SIZE`, `BASE`, `compute_idx` and the mixed-radix bucket index |
| `StatisticsReader` | `statistics_reader.dfy` | the token loop of the `ColorClassifier` constructor |
| `Classifier` | `classifier.dfy` | normalisation, `compute_percentage`, the three queries, the class itself |
| `CppUtils` | `utils.dfy` | `Utils.cpp` |
| `TableBuilder` | `table_builder.dfy` | `compute_color_mapping.py`: encoder, `record_color`, cube grouping |
| `TileEvaluation` | `main_eval.dfy` | `Main.cpp`: `count_occurences`, truth and prediction rules, the tile loop, counters |
| `MappingEvaluation` | `mapping_eval.dfy` | `test_color_mapping.py`: segmentation, `make_color`, chunk vote, accuracy, `map_label_img` |

Floating-point values (`float`, `double`, numpy `float32`) are modelled as
exact `real`s. Euclidean norms are replaced by squared distances, because the
square root is monotone and only the order of the distances matters.

Some behaviour is modelled as the code has it:

- **`is_red`.** It compares red with itself (`acc_p_red >= acc_p_red`), so it
  ignores blue. `Classifier.RedIgnoresBlue` and `Classifier.BlueAndRedTogether`
  prove the consequences.
- **The two label encoders disagree.** The C++ one subtracts `Vec3b` values
  with saturation at 0. The Python one subtracts and squares `uint8` values
  modulo 256. Both map each reference colour to its own class. On
  `Pixel(1, 0, 0)`, however, Python answers background and C++ answers red
  (`TableBuilder.EncodersDisagree`).
- **`record_color`.** The first sighting of a colour only creates a zero
  record, so a colour seen n times has a total of n - 1.
- **The Python chunk loop.** On an image with an odd side it reaches an empty
  chunk. There `np.argmax` raises, which is modelled as `ok == false`.
- **Buckets outside the table.** The C++ code indexes `p_*[idx]` unchecked and
  gives such a bucket no default contribution. The model therefore requires
  every bucket of a tile to lie inside the table (`ScoreTable.Covers`).

## Model

| member | source | states |
|---|---|---|
| `Domain.Block` | cpp/Pika-Project1/Main.cpp:73 | `rowRange(i, to_i).colRange(j, to_j)` is a `(to_i - i) x (to_j - j)` grid whose cell (x, y) is cell (i + x, j + y) of the image |
| `Domain.FirstArgMax` | python/test_color_mapping.py:104 | `np.argmax`: the result is a maximum, and every earlier entry is strictly smaller |
| `Domain.FirstArgMin` | python/compute_color_mapping.py:38 | `np.argmin`: the result is a minimum, and every earlier entry is strictly larger |
| `Domain.FirstArgMaxUnique` | python/test_color_mapping.py:104 | the first maximum is unique: any index with that property is `FirstArgMax` |
| `Domain.FirstArgMinUnique` | python/compute_color_mapping.py:38 | the first minimum is unique: any index with that property is `FirstArgMin` |
| `Domain.FirstArgMinStep` | cpp/Pika-Project1/Utils.cpp:127-134 | one step of the strict-`<` scan keeps the first minimum of the prefix |
| `Quantisation.Base` | cpp/Pika-Project1/ColorClassifier.h:24 | `255 / step + 1` is the least number of digits whose cubes of side `step` cover 0..255 |
| `Quantisation.QuantisedChannel` | cpp/Pika-Project1/ColorClassifier.h:23-24 | every channel quotient is below `Base(step)`; for step 5 the base is 52 and `255 / 5 == BASE - 1` |
| `Quantisation.ComputeIdx` | cpp/Pika-Project1/ColorClassifier.cpp:77-83 | every 8-bit pixel falls in a bucket below 52³, and it is the mixed-radix bucket for step 5 |
| `Quantisation.MixedRadixRange` | cpp/Pika-Project1/ColorClassifier.cpp:82 | a three-digit index in base `base` lies below `base³` |
| `Quantisation.MixedRadixDecode` | cpp/Pika-Project1/ColorClassifier.cpp:82 | `% base`, `/ base % base` and `/ base²` recover the three digits |
| `Quantisation.MixedRadixEncode` | cpp/Pika-Project1/ColorClassifier.cpp:82 | every index below `base³` is the encoding of its own three digits |
| `Quantisation.MixedRadixInjective` | cpp/Pika-Project1/ColorClassifier.cpp:82 | distinct digit triples give distinct indices |
| `Quantisation.ComputeIdxDecode` | cpp/Pika-Project1/ColorClassifier.cpp:77-83 | round trip: the bucket decodes to `r / 5`, `g / 5` and `b / 5` |
| `Quantisation.SameBucket` | cpp/Pika-Project1/ColorClassifier.cpp:82 | two pixels share a bucket if and only if every channel has the same quotient by 5 |
| `StatisticsReader.DigitsOf` | cpp/Pika-Project1/ColorClassifier.cpp:38-43 | keeps only digit characters, and no more characters than the token has |
| `StatisticsReader.ExtractDigits` | cpp/Pika-Project1/ColorClassifier.cpp:38-43 | the character loop builds exactly the digits of the token, in order |
| `StatisticsReader.Stoi` | cpp/Pika-Project1/ColorClassifier.cpp:45 | `stoi` fails exactly on an empty digit string |
| `StatisticsReader.DigitsOfAppend` | cpp/Pika-Project1/ColorClassifier.cpp:38-43 | filtering digits distributes over concatenation |
| `StatisticsReader.DigitsOfNoDigits` | cpp/Pika-Project1/ColorClassifier.cpp:38-43 | brackets, commas and signs contribute nothing |
| `StatisticsReader.DigitsOfDigits` | cpp/Pika-Project1/ColorClassifier.cpp:38-43 | a token made only of digits is kept whole |
| `StatisticsReader.PunctuationIgnored` | cpp/Pika-Project1/ColorClassifier.cpp:24-26 | a number wrapped in punctuation, as in `"[[584859,"`, yields exactly its digits |
| `StatisticsReader.TokenValues` | cpp/Pika-Project1/ColorClassifier.cpp:30-47 | one value per token, in order, each the number formed by that token's digits |
| `StatisticsReader.GroupInFours` | cpp/Pika-Project1/ColorClassifier.cpp:31-35 | consecutive values form records of four in order, and a short last group is padded with zeros |
| `StatisticsReader.GroupedInFoursUnique` | cpp/Pika-Project1/ColorClassifier.cpp:31-46 | the grouping of a value sequence into records is unique |
| `StatisticsReader.RecordCount` | cpp/Pika-Project1/ColorClassifier.cpp:31-35 | after `count` tokens there are `ceil(count / 4)` records |
| `StatisticsReader.StoreValue` | cpp/Pika-Project1/ColorClassifier.cpp:31-47 | one token of the loop: the record grouping extends by the new value and `sub_counter` stays in step with `counter` |
| `StatisticsReader.ParseTokens` | cpp/Pika-Project1/ColorClassifier.cpp:27-48 | the constructor's token loop fails exactly when some token has no digit; otherwise the records group the token values in fours |
| `Classifier.Probability` | cpp/Pika-Project1/ColorClassifier.cpp:57-72 | each probability lies in [0, 1], is 0 for an all-zero record, and otherwise times the total gives back the count |
| `Classifier.Fraction` | cpp/Pika-Project1/ColorClassifier.cpp:68-71 | `v[k] / float(total)` lies in [0, 1] and times the total gives back `v[k]` |
| `Classifier.ProbabilitiesSumToOne` | cpp/Pika-Project1/ColorClassifier.cpp:66-72 | for a non-zero total the four probabilities sum to 1 |
| `Classifier.TileSumStep` | cpp/Pika-Project1/ColorClassifier.cpp:92-101 | one more row adds that row's sum to the tile sum |
| `Classifier.RowSumStep` | cpp/Pika-Project1/ColorClassifier.cpp:94-100 | one more pixel adds that pixel's four table entries |
| `Classifier.RowSumAppend` | cpp/Pika-Project1/ColorClassifier.cpp:94-100 | row scores are additive over a split of the row |
| `Classifier.TileSumAppend` | cpp/Pika-Project1/ColorClassifier.cpp:92-101 | tile scores are additive over a split of the tile into row ranges |
| `Classifier.PercentageEmptyTile` | cpp/Pika-Project1/ColorClassifier.cpp:86-104 | an empty tile scores (0, 0, 0, 0) for any alpha |
| `Classifier.NormalisedEntries` | cpp/Pika-Project1/ColorClassifier.cpp:56-72 | the vectors built from records hold values in [0, 1], the four entries of a seen bucket sum to 1 and those of an unseen bucket are all 0 |
| `Classifier.RowSumBounds` | cpp/Pika-Project1/ColorClassifier.cpp:94-100 | every row score lies between 0 and the number of pixels |
| `Classifier.RowSumPermutation` | cpp/Pika-Project1/ColorClassifier.cpp:94-100 | visiting the pixels of a row in any other order gives the same four sums |
| `Classifier.TileSumRowPermutation` | cpp/Pika-Project1/ColorClassifier.cpp:92-101 | visiting the rows of a tile in any other order gives the same four sums |
| `Classifier.TileSumFlatten` | cpp/Pika-Project1/ColorClassifier.cpp:92-101 | the row-by-row double loop sums the same as one pass over the pixels in row-major order |
| `Classifier.TileSumPixelOrder` | cpp/Pika-Project1/ColorClassifier.cpp:86-101 | two tiles holding the same pixels with the same multiplicities, in any arrangement, get the same four sums |
| `Classifier.TileSumBounds` | cpp/Pika-Project1/ColorClassifier.cpp:86-101 | with table entries in [0, 1], each of the four tile sums lies between 0 and the number of pixels of the tile |
| `Classifier.UnknownRow` | cpp/Pika-Project1/ColorClassifier.cpp:94-100 | a row of never-seen buckets scores 0 |
| `Classifier.UnknownTile` | cpp/Pika-Project1/ColorClassifier.cpp:106-131 | a tile of never-seen buckets scores 0 and all three queries answer false, whatever alpha is |
| `Classifier.PureBlueRow` | cpp/Pika-Project1/ColorClassifier.cpp:94-100 | purely blue buckets score one blue point per pixel |
| `Classifier.PureBlueTileSum` | cpp/Pika-Project1/ColorClassifier.cpp:92-101 | a purely blue tile scores its cell count in blue and 0 elsewhere |
| `Classifier.PureBlueTile` | cpp/Pika-Project1/ColorClassifier.cpp:106-131 | a non-empty purely blue tile is blue and neither red nor yellow, for every alpha |
| `Classifier.QueriesOnSums` | cpp/Pika-Project1/ColorClassifier.cpp:102-131 | on the raw sums, each query compares its class with `alpha` times the background sum and with the other classes |
| `Classifier.RedIgnoresBlue` | cpp/Pika-Project1/ColorClassifier.cpp:121 | `is_red` holds iff red beats the background and ties or beats yellow, and changing blue never changes it |
| `Classifier.BlueAndRedTogether` | cpp/Pika-Project1/ColorClassifier.cpp:112-121 | `is_blue` and `is_red` can hold together, even with blue strictly above red; blue and yellow can hold together on a tie |
| `Classifier.BlueYellowTieOnly` | cpp/Pika-Project1/ColorClassifier.cpp:112-130 | blue and yellow hold together only when their scores are equal |
| `Classifier.ColorClassifier.constructor` | cpp/Pika-Project1/ColorClassifier.cpp:56-73 | the four vectors are appended in lockstep: one aligned entry per record, holding its probabilities |
| `Classifier.ColorClassifier.AccumulateTile` | cpp/Pika-Project1/ColorClassifier.cpp:87-101 | the four accumulators end as the table entries summed over every pixel of the tile |
| `Classifier.ColorClassifier.ComputePercentage` | cpp/Pika-Project1/ColorClassifier.cpp:86-104 | the tile sums with only the background sum multiplied by alpha |
| `Classifier.ColorClassifier.IsBlue` | cpp/Pika-Project1/ColorClassifier.cpp:106-113 | `is_blue` is the blue rule on the percentages, and the table is left unchanged |
| `Classifier.ColorClassifier.IsRed` | cpp/Pika-Project1/ColorClassifier.cpp:115-122 | `is_red` is the red rule as written on the percentages, and the table is left unchanged |
| `Classifier.ColorClassifier.IsYellow` | cpp/Pika-Project1/ColorClassifier.cpp:124-131 | `is_yellow` is the yellow rule on the percentages, and the table is left unchanged |
| `Classifier.Load` | cpp/Pika-Project1/ColorClassifier.cpp:17-75 | construction fails exactly when a token has no digit; otherwise the table holds the normalised parsed records |
| `CppUtils.StringEndsWith` | cpp/Pika-Project1/Utils.cpp:67-71 | true iff `ending` is no longer than `value` and equals its last characters |
| `CppUtils.JoinPath` | cpp/Pika-Project1/Utils.cpp:39-45 | the result starts with part1, ends with part2 and has a backslash just before part2; no backslash is added iff part1 already ends in one; the length is the sum or the sum plus 1 |
| `CppUtils.SplitAll` | cpp/Pika-Project1/Utils.cpp:23-31 | splitting always yields at least one piece |
| `CppUtils.Split` | cpp/Pika-Project1/Utils.cpp:23-37 | the `getline` loop yields exactly the pieces of the string, without the empty trailing piece |
| `CppUtils.SplitAllNoDelimiter` | cpp/Pika-Project1/Utils.cpp:28-30 | no piece contains the delimiter |
| `CppUtils.JoinSplitAll` | cpp/Pika-Project1/Utils.cpp:23-31 | joining all the pieces with the delimiter gives back the string |
| `CppUtils.SplitRoundTrip` | cpp/Pika-Project1/Utils.cpp:23-37 | no piece of `split` contains the delimiter; the empty string gives no pieces; re-joining gives the string back, minus one trailing delimiter if it had one |
| `CppUtils.Distances` | cpp/Pika-Project1/Utils.cpp:127-129 | the four saturated squared distances to the reference colours, in class order |
| `CppUtils.DistanceBelowInitial` | cpp/Pika-Project1/Utils.cpp:126 | every distance is below the initial `min_distance`, so some class is always chosen |
| `CppUtils.CppLabel` | cpp/Pika-Project1/Utils.cpp:125-134 | the label is the first nearest reference colour under saturating subtraction |
| `CppUtils.ClosestClass` | cpp/Pika-Project1/Utils.cpp:125-134 | the strict-`<` loop over k picks the first nearest class |
| `CppUtils.EncodeLabelImage` | cpp/Pika-Project1/Utils.cpp:110-138 | the label image is h x w, and each cell is its pixel's first nearest class |
| `CppUtils.ColourClassesNoFartherThanBackground` | cpp/Pika-Project1/Utils.cpp:117-129 | with saturation, every colour class is at most as far as the background |
| `CppUtils.BackgroundOnlyForBlack` | cpp/Pika-Project1/Utils.cpp:117-135 | a pixel is labelled background if and only if it is (0, 0, 0) |
| `CppUtils.ReferenceColoursCpp` | cpp/Pika-Project1/Utils.cpp:117-120 | each reference colour encodes to its own class |
| `TableBuilder.WrappedDistances` | python/compute_color_mapping.py:37 | entry `k` is the wrapped distance to reference colour `k`, for each of the four classes |
| `TableBuilder.PyLabel` | python/compute_color_mapping.py:37-38 | the label is the first minimum of the uint8-wrapped squared distances |
| `TableBuilder.EncodeLabelImage` | python/compute_color_mapping.py:27-40 | the label image is h x w, and each cell is the first minimum of its pixel's wrapped distances |
| `TableBuilder.ReferenceColoursPy` | python/compute_color_mapping.py:31-38 | despite the modulo-256 arithmetic, each reference colour encodes to its own class |
| `TableBuilder.PyLabelOf` | python/compute_color_mapping.py:38 | a first minimum of the distances is the label |
| `TableBuilder.BlackIsBackground` | python/compute_color_mapping.py:32 | black encodes to background |
| `TableBuilder.BlueIsBlue` | python/compute_color_mapping.py:33 | pure blue encodes to blue |
| `TableBuilder.RedIsRed` | python/compute_color_mapping.py:34 | pure red encodes to red |
| `TableBuilder.YellowIsYellow` | python/compute_color_mapping.py:35 | pure yellow encodes to yellow |
| `TableBuilder.EncodersDisagree` | python/compute_color_mapping.py:37-38 | on (1, 0, 0) the Python encoder says background where the C++ encoder says red |
| `TableBuilder.NearBlackWrapped` | python/compute_color_mapping.py:37 | under uint8 wrap-around, (1, 0, 0) is nearest to black |
| `TableBuilder.NearBlackSaturated` | cpp/Pika-Project1/Utils.cpp:128 | under saturation, (1, 0, 0) is nearest to red |
| `TableBuilder.Bump` | python/compute_color_mapping.py:87 | one sighting adds 1 to its class's count and to the total, and to nothing else |
| `TableBuilder.RowScan` | python/compute_color_mapping.py:84-85 | the sightings of one row pair each pixel with its label, in order |
| `TableBuilder.ColorCount.constructor` | python/compute_color_mapping.py:123 | the count starts as an empty dictionary |
| `TableBuilder.ColorCount.RecordColor` | python/compute_color_mapping.py:82-89 | the dictionary after the call records every sighting of the image in row-major order |
| `TableBuilder.ColorCount.RecordRow` | python/compute_color_mapping.py:84-89 | the inner loop records the sightings of one row |
| `TableBuilder.RowScanSnoc` | python/compute_color_mapping.py:84-85 | one more pixel appends one sighting |
| `TableBuilder.ScanSnoc` | python/compute_color_mapping.py:83-85 | one more row appends its sightings |
| `TableBuilder.RecordAllSnoc` | python/compute_color_mapping.py:85-89 | recording one more sighting is one more update |
| `TableBuilder.RecordAllAppend` | python/compute_color_mapping.py:123-128 | recording two images in turn is recording their sightings concatenated |
| `TableBuilder.RecordAllKeys` | python/compute_color_mapping.py:86-89 | keys are only added: the new keys are the old ones plus the colours seen |
| `TableBuilder.RecordAllUnseen` | python/compute_color_mapping.py:86-89 | a colour not in the image keeps its presence and its record |
| `TableBuilder.RecordAllKnown` | python/compute_color_mapping.py:86-87 | an already known colour gains one count per sighting with each class |
| `TableBuilder.RecordAllNew` | python/compute_color_mapping.py:88-89 | a new colour's first sighting is not counted; only later sightings are |
| `TableBuilder.TotalKnown` | python/compute_color_mapping.py:86-87 | a known colour's total grows by the number of its sightings |
| `TableBuilder.TotalNew` | python/compute_color_mapping.py:86-89 | a colour first seen in the image and seen n times there has total n - 1 |
| `TableBuilder.AddLine` | python/compute_color_mapping.py:144-150 | the k loop adds the counts of one line of the cube, skipping colours not in the dictionary |
| `TableBuilder.AddPlane` | python/compute_color_mapping.py:143-150 | the j loop adds one plane of the cube |
| `TableBuilder.CubeTotal` | python/compute_color_mapping.py:141-150 | `total_count` ends as the summed counts of every colour of the cube |
| `TableBuilder.Partial` | python/compute_color_mapping.py:132-154 | the list keeps length `base + base² + base³ + 1` at every point of the loops |
| `TableBuilder.Grouped` | python/compute_color_mapping.py:132-154 | the grouped list has `base + base² + base³ + 1` entries |
| `TableBuilder.RankDistinct` | python/compute_color_mapping.py:135-154 | a cube written later in loop order never overwrites another cube's index |
| `TableBuilder.RankOfCube` | python/compute_color_mapping.py:135-154 | each cube's index and its position in loop order correspond one to one |
| `TableBuilder.PartialStep` | python/compute_color_mapping.py:141-154 | writing one cube sets its index to its sum and leaves every other entry alone |
| `TableBuilder.PartialComplete` | python/compute_color_mapping.py:135-154 | after the last cube, the list is the grouped table |
| `TableBuilder.RankBound` | python/compute_color_mapping.py:135-138 | the loops visit fewer than `base³` cubes |
| `TableBuilder.RangeEnd` | python/compute_color_mapping.py:135 | `range(0, 256, step)` visits exactly the corners `q * step` with `q < base` |
| `TableBuilder.CornerIndex` | python/compute_color_mapping.py:151-154 | for corners that are multiples of step, the float index formula is the mixed-radix index of the digits |
| `TableBuilder.GroupLine` | python/compute_color_mapping.py:138-154 | the b loop writes one line of cubes |
| `TableBuilder.GroupPlane` | python/compute_color_mapping.py:137-154 | the g loop writes one plane of cubes |
| `TableBuilder.GroupCounts` | python/compute_color_mapping.py:130-154 | the grouping step fills the list with exactly the grouped table |
| `TableBuilder.GroupedTail` | python/compute_color_mapping.py:132-133 | entries at `base³` and above stay `[0, 0, 0, 0]` |
| `TableBuilder.CubeOfPixel` | python/compute_color_mapping.py:151-154 | builder and reader agree: a pixel's bucket holds the sum of the cube containing it, and for step 5 it is `compute_idx` of the pixel |
| `TableBuilder.Digit` | python/compute_color_mapping.py:152-154 | a channel's cube digit is below the base |
| `TableBuilder.Corner` | python/compute_color_mapping.py:135-138 | every channel lies in the cube whose corner is its digit times step |
| `TableBuilder.SumKIncludes` | python/compute_color_mapping.py:144-150 | a line sum includes every colour of the line |
| `TableBuilder.SumJIncludes` | python/compute_color_mapping.py:143-150 | a plane sum includes every colour of the plane |
| `TableBuilder.SumIIncludes` | python/compute_color_mapping.py:142-150 | a cube sum includes every colour of the cube |
| `TableBuilder.ColourInBucket` | python/compute_color_mapping.py:135-154 | every recorded colour's counts are included in its bucket's counts |
| `TileEvaluation.CountOccurences` | cpp/Pika-Project1/Main.cpp:17-26 | `result[k]` is the number of cells equal to k |
| `TileEvaluation.RowCountsTotal` | cpp/Pika-Project1/Main.cpp:21-23 | for labels in 0..3 the four counts of a row sum to its length |
| `TileEvaluation.HistogramTotal` | cpp/Pika-Project1/Main.cpp:17-26 | the four counts of a patch sum to its number of cells |
| `TileEvaluation.CellsOfGrid` | cpp/Pika-Project1/Main.cpp:19-21 | an h x w patch has h * w cells |
| `TileEvaluation.FactorComparisons` | cpp/Pika-Project1/Main.cpp:94-118 | the integer comparisons are the source's comparisons against `0.4 * oc[0]` |
| `TileEvaluation.TruthExclusive` | cpp/Pika-Project1/Main.cpp:94-124 | the strict comparisons make the four truth categories pairwise exclusive |
| `TileEvaluation.TruthCanBeNothing` | cpp/Pika-Project1/Main.cpp:94-124 | a tile can be in no truth category |
| `TileEvaluation.LabelReducedIsTruth` | cpp/Pika-Project1/Main.cpp:93-116 | `label_reduced` is 1, 2 or 3 exactly for a blue, red or yellow truth, and 0 otherwise |
| `TileEvaluation.PredictionPrecedence` | cpp/Pika-Project1/Main.cpp:79-89 | yellow beats red beats blue, and the colour is 0 only when no query fires |
| `TileEvaluation.TileTallyMeaning` | cpp/Pika-Project1/Main.cpp:94-124 | a tile is correct exactly when its truth holds and the matching query agrees (background: no query fires); at most one `all` counter moves |
| `TileEvaluation.PlusConsistent` | cpp/Pika-Project1/Main.cpp:134-141 | adding consistent counters keeps `correct <= all` |
| `TileEvaluation.TileStartsBound` | cpp/Pika-Project1/Main.cpp:69-70 | tile start `128 * a` is below `n - 1` exactly for the counted tiles |
| `TileEvaluation.ReducedIndexInGrid` | cpp/Pika-Project1/Main.cpp:67-89 | cell `(i / 128, j / 128)` is inside the `(h / 128 + 1) x (w / 128 + 1)` grid |
| `TileEvaluation.TileStartsFit` | cpp/Pika-Project1/Main.cpp:67-70 | there are no more tiles per side than reduced cells |
| `TileEvaluation.BlockCovered` | cpp/Pika-Project1/Main.cpp:73-76 | a tile of a covered image is covered by the table |
| `TileEvaluation.BlockInRange` | cpp/Pika-Project1/Main.cpp:91 | a patch of a label image keeps labels in 0..3 |
| `TileEvaluation.ImageResults` | cpp/Pika-Project1/Main.cpp:69-127 | one result per tile, on the grid of tile starts |
| `TileEvaluation.SumRowSnoc` | cpp/Pika-Project1/Main.cpp:70-125 | one more tile adds its counters |
| `TileEvaluation.SumGridSnoc` | cpp/Pika-Project1/Main.cpp:69-127 | one more row of tiles adds its counters |
| `TileEvaluation.SumRowConsistent` | cpp/Pika-Project1/Main.cpp:94-124 | per row of tiles, `correct <= all` for every class |
| `TileEvaluation.SumGridConsistent` | cpp/Pika-Project1/Main.cpp:69-127 | per image, `correct <= all` for every class |
| `TileEvaluation.ImageTallyConsistent` | cpp/Pika-Project1/Main.cpp:55-127 | the per-image counters satisfy `correct <= all` |
| `TileEvaluation.RowMatchesSnoc` | cpp/Pika-Project1/Main.cpp:70-125 | the results of a row extend tile by tile |
| `TileEvaluation.GridMatchesSnoc` | cpp/Pika-Project1/Main.cpp:69-127 | the results of the image extend row by row |
| `TileEvaluation.AllTilesMatched` | cpp/Pika-Project1/Main.cpp:69-127 | after the loops, the results are exactly those of every tile |
| `TileEvaluation.TallyTile` | cpp/Pika-Project1/Main.cpp:93-124 | the four truth branches add the tile's counters and compute its `label_reduced` value |
| `TileEvaluation.EvaluateTile` | cpp/Pika-Project1/Main.cpp:71-124 | one tile: its queries, colour, histogram and truth, and the counters it adds |
| `TileEvaluation.RecordTile` | cpp/Pika-Project1/Main.cpp:71-124 | the tile's colour and truth are written at `(i / 128, j / 128)` and nowhere else |
| `TileEvaluation.EvaluateRow` | cpp/Pika-Project1/Main.cpp:70-125 | the j loop evaluates one row of tiles, adds their counters and writes their reduced cells |
| `TileEvaluation.RowStep` | cpp/Pika-Project1/Main.cpp:70-125 | one tile of the j loop extends the row's results and counters |
| `TileEvaluation.RecordedExtend` | cpp/Pika-Project1/Main.cpp:89-116 | the reduced cells of earlier rows stay recorded when a row is added |
| `TileEvaluation.EvaluateImage` | cpp/Pika-Project1/Main.cpp:55-127 | the counters of one image are those of its tiles, and every tile's colour and truth are written in two newly allocated reduced grids |
| `TileEvaluation.LabelGrid` | cpp/Pika-Project1/Main.cpp:53 | the encoded mask is an h x w grid of labels in 0..3 |
| `TileEvaluation.Rows` | cpp/Pika-Project1/Main.cpp:91 | the rows of a `Mat`, cell by cell |
| `TileEvaluation.SameGrid` | cpp/Pika-Project1/Main.cpp:53 | two grids with equal cells are equal |
| `TileEvaluation.EvaluateDataset` | cpp/Pika-Project1/Main.cpp:51-141 | the totals are the sums of every image's counters |
| `TileEvaluation.DatasetTallyConsistent` | cpp/Pika-Project1/Main.cpp:134-141 | in the totals, no class has more correct tiles than tiles |
| `MappingEvaluation.SegmentLabelIsMode` | python/test_color_mapping.py:80 | the label is a most frequent class, the smallest on a tie, and 0 for an unseen record |
| `MappingEvaluation.SegmentByColor` | python/test_color_mapping.py:69-81 | the output is h x w, and each cell is the argmax of its bucket's record |
| `MappingEvaluation.SegmentRow` | python/test_color_mapping.py:76-80 | the inner loop writes row i and nothing else |
| `MappingEvaluation.SegmentUsesClassifierBucket` | python/test_color_mapping.py:77-79 | with step 5 the script reads the bucket `compute_idx` reads |
| `MappingEvaluation.Share` | python/test_color_mapping.py:97-99 | a pixel contributes nothing for an unseen bucket, and otherwise a vector summing to 1 of its class probabilities |
| `MappingEvaluation.AsVector` | python/test_color_mapping.py:104 | the four scores in class order |
| `MappingEvaluation.TileSharesStep` | python/test_color_mapping.py:91-100 | one more row adds its shares |
| `MappingEvaluation.RowSharesStep` | python/test_color_mapping.py:92-99 | one more pixel adds its share |
| `MappingEvaluation.AccumulateShares` | python/test_color_mapping.py:89-100 | `percentage` ends as the sum of the shares of every pixel |
| `MappingEvaluation.AddRowShares` | python/test_color_mapping.py:92-100 | the inner loop adds the shares of one row |
| `MappingEvaluation.AddPixelShare` | python/test_color_mapping.py:93-99 | one pixel: its bucket's distribution is added when its total is positive |
| `MappingEvaluation.MakeColor` | python/test_color_mapping.py:84-108 | the whole tile is filled with the one colour of its summed shares |
| `MappingEvaluation.RowSharesAreRowSum` | python/test_color_mapping.py:91-100 | over a table normalised from the same records, a row's shares are the classifier's row sum |
| `MappingEvaluation.TileSharesAreTileSum` | python/test_color_mapping.py:89-103 | the script's `percentage` is the classifier's `compute_percentage` with alpha 0.1 |
| `MappingEvaluation.TileColorMatchesQueries` | python/test_color_mapping.py:103-104 | the tile colour is blue iff `is_blue` holds, is red or yellow only when that query holds, and is background iff no query holds |
| `MappingEvaluation.UnseenRowShares` | python/test_color_mapping.py:97-99 | a row of unseen buckets contributes nothing |
| `MappingEvaluation.UnseenTileShares` | python/test_color_mapping.py:91-100 | a tile of unseen buckets contributes nothing |
| `MappingEvaluation.UnseenTile` | python/test_color_mapping.py:103-108 | a tile of unseen buckets is coloured background |
| `MappingEvaluation.QuietIsBackground` | python/test_color_mapping.py:103-104 | when no colour beats 0.1 times the background, the tile is background |
| `MappingEvaluation.UniqueCounts` | python/test_color_mapping.py:178-179 | the counts beside `unique` are the counts of those classes |
| `MappingEvaluation.PresentFromSpec` | python/test_color_mapping.py:178-179 | `np.unique` lists exactly the classes present, strictly ascending |
| `MappingEvaluation.PresentFromSound` | python/test_color_mapping.py:178-179 | every listed class is present |
| `MappingEvaluation.PresentFromComplete` | python/test_color_mapping.py:178-179 | every present class is listed |
| `MappingEvaluation.PresentFromAscending` | python/test_color_mapping.py:178-179 | the list is strictly ascending |
| `MappingEvaluation.MajorityIsMode` | python/test_color_mapping.py:178-180 | there is no vote exactly for an empty chunk; otherwise the vote is the first argmax of the four counts |
| `MappingEvaluation.WinnerBeats` | python/test_color_mapping.py:180 | the chosen class has at least the count of every class, and more than every smaller class |
| `MappingEvaluation.PresentIndex` | python/test_color_mapping.py:178-179 | a class with a positive count has a place in `unique` |
| `MappingEvaluation.RemapIsSubstitution` | python/test_color_mapping.py:111-114 | the four in-order replacements are exactly the substitution 0→255, 1→30, 2→0, 3→150 |
| `MappingEvaluation.RemapOrderMatters` | python/test_color_mapping.py:111-114 | applied in reverse order the replacements would send red to 255 |
| `MappingEvaluation.ReplaceAll` | python/test_color_mapping.py:111 | a masked assignment replaces exactly the cells equal to `from` |
| `MappingEvaluation.MapLabelImg` | python/test_color_mapping.py:110-121 | every cell is remapped, then row 0, columns 0..3 hold 0, 30, 150 and 255 |
| `MappingEvaluation.BlockMapCovers` | python/test_color_mapping.py:176 | a chunk of a covered image is covered |
| `MappingEvaluation.ChunkOfRow` | python/test_color_mapping.py:170-173 | rows of a chunk share its start and end, and the last row belongs to no chunk |
| `MappingEvaluation.PaintChunk` | python/test_color_mapping.py:176 | the chunk, and only the chunk, gets `make_color`'s colour |
| `MappingEvaluation.VoteChunk` | python/test_color_mapping.py:178-181 | a non-empty chunk is overwritten with its majority label; an empty chunk is the error |
| `MappingEvaluation.ProcessChunk` | python/test_color_mapping.py:172-181 | one chunk is painted and voted, and it errs exactly at the last row or column |
| `MappingEvaluation.ChunkRow` | python/test_color_mapping.py:171-181 | the j loop processes one row of chunks, and it errs exactly when that row starts at the last row or the width is odd |
| `MappingEvaluation.ChunkLoop` | python/test_color_mapping.py:165-181 | the loop errs exactly for a non-empty image with an odd side; otherwise every chunk cell holds its colour and vote, and the last row and column keep 0 and their label |
| `MappingEvaluation.RowMatchBound` | python/test_color_mapping.py:183 | a row's matches are at most its length, with equality iff the rows are equal |
| `MappingEvaluation.GridMatchBound` | python/test_color_mapping.py:183 | the matches are at most h * w, with equality iff the grids are equal |
| `MappingEvaluation.AccuracyInUnitRange` | python/test_color_mapping.py:183-184 | the accuracy lies in [0, 1], is 1 iff every cell matches, and is missing exactly for an empty image |
| `MappingEvaluation.Ratio` | python/test_color_mapping.py:184 | a part of a positive whole is a fraction in [0, 1], equal to 1 iff the part is the whole |
| `MappingEvaluation.CountMatches` | python/test_color_mapping.py:183 | `np.sum(label_image == segmented)` counts the agreeing cells |
| `MappingEvaluation.CountRowMatches` | python/test_color_mapping.py:183 | the agreeing cells of one row |
| `MappingEvaluation.EvaluateImage` | python/test_color_mapping.py:165-184 | the chunk loop, then the accuracy of the painted chunks against the voted labels |

## Left out

- File and OS input/output is not modelled. This covers:
  - opening the statistics file and the "Could not open file!" error;
  - `list_files_in_folder` and the `.png` filters in both languages;
  - `read_complete_file` (image decoding, colour conversion and resizing);
  - the Python `main`s' option parsing, `json.load` and `json.dump`.
  The table reader is modelled over the whitespace tokens of the file instead.
- Display, plotting and console output are not modelled: the OpenCV windows, matplotlib, and the printed per-image and total ratios, including the two averages of `Main.cpp`. They only report values the model computes.
- Floating point is modelled as exact reals. This covers the `float` probabilities, the `double` accumulators, numpy's `float32` `percentage`, `alpha`, 0.4 and 0.1. Rounding is not modelled.
- `Classifier.RowSumPermutation`, `Classifier.TileSumRowPermutation`, `Classifier.TileSumPixelOrder`: order independence holds for exact sums. With `double` accumulators, a different visiting order can round differently.
- `sqrt` and `norm` are dropped. Squared distances keep the same order.
- Integer overflow is not modelled. This covers `accumulate` with an `int` seed, `stoi` on tokens larger than `int`, and the counters.
- Out-of-range indexing is a precondition, where the source has undefined behaviour or raises. This covers:
  - buckets outside the table (`ScoreTable.Covers`, `MappingEvaluation.MapCovers`);
  - labels outside 0..3 in `count_occurences` (`TileEvaluation.LabelsInRange`);
  - `map_label_img` on an image narrower than 4 columns.
- A colour-grouping step of 0, which raises `ZeroDivisionError` in Python, is excluded by `step > 0`.
- `TableBuilder.ColorCount.RecordColor`: labels are typed 0..3. A label outside that range would make the source's list index raise.
- `TableBuilder.CornerIndex`: the builder's index is computed in floating point and truncated. The model uses the exact value, which is exact for the corners the loops visit.
- `MappingEvaluation.MakeColor`: the unused `counter` variable is not modelled.
- `MappingEvaluation.ChunkLoop`: after the error of an empty chunk the program stops. The model states nothing about the arrays in that case.
- `MappingEvaluation.Accuracy`: the 0/0 of an empty image, which numpy turns into NaN, is modelled as no value.
- `TileEvaluation.EvaluateImage`: reduced cells that no tile reaches are uninitialised in the source. The model says nothing about them.
- The training-file constructor of `ColorClassifier` is not modelled because the source marks it as unsupported and it has no body.
- The vector-based query overloads declared in `ColorClassifier.h` are not modelled, because they have no definition. Tiles are sequences of rows of pixels, as in the `cv::Mat` versions.
- The Python `encode_label_image` of `test_color_mapping.py` is a copy of the one in `compute_color_mapping.py` and is modelled once, as `TableBuilder.EncodeLabelImage`.

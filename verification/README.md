# Rooftop segmentation visualisation — Dafny model

The repository is a single script, `visualize_results.py`. It reads
polygon-annotation files for map tiles and turns them into building-footprint
masks. It does three things around its library calls, and this project models
each one as pure functions over immutable datatypes:

- **Mask drawing** (`create_mask_from_polygons`, module `Rasterizer`). The
  script picks which shapes of a record get painted and in which colour. The
  model stops at the list of `draw.polygon` calls the script would make on a
  black canvas of the requested size. Colours cycle through a six-entry
  palette by the shape's index among *all* shapes. So a skipped shape still
  uses up a palette slot. Only polygons with at least three points are drawn.
  Coordinates go through `int(...)`, which truncates toward zero. A shape
  without `shape_type`, or a polygon without `points`, makes the call raise
  (KeyError). The model returns `Err` for this.
- **Dataset statistics** (`analyze_dataset_stats`, module `DatasetStats`).
  Each scanned file is either `Loaded(record)` or `Failed`. `total_tiles`
  counts every file, including failed ones. The building total, mean, maximum
  and minimum use loaded files only, and all of them are 0 when no file
  loaded.
- **Sample display** (`visualize_sample_masks`, module `Visualizer`):
  - An empty scan returns early.
  - `min(num_samples, len(files))` distinct files are shown.
  - Sample i goes to grid cell `(i // 3, i % 3)` of the 2×3 grid.
  - Each cell shows either the rendered tile, with caption
    `"Tile: " + stem.replace("_mask", "")` and the tile's shape count, or an
    error placeholder when loading or drawing fails.
  - A negative sample size raises in `random.sample`.
  - A sample size above six raises when the seventh cell is indexed.

`Annotation` holds the shared data model. `Seqs` holds the `enumerate`,
filter and map combinators that the reference definitions are written with.

Points of the code's behaviour that are easy to miss:

- `total_tiles` is `len(mask_files)` and so counts files that failed to
  load, while the building aggregates skip them (visualize_results.py:118
  against 102-109).
- With no loaded file, `total_tiles` is still the number of files found, not
  0; only the building aggregates fall back to 0 (visualize_results.py:118-122).
- A polygon's `points` are read and converted before the three-point check
  (visualize_results.py:32 against 38). So a polygon without `points` raises
  a KeyError instead of being skipped.
- The 2×3 grid does not cap the sample size. A sample size above six needs
  both `num_samples` and the number of files above six, and it raises an
  IndexError at `axes[2, 0]`. The `except` handler indexes the same cell again
  and raises too (visualize_results.py:53, 56, 60, 71, 82).

## Model

| member | source | states |
|---|---|---|
| Rasterizer.Trunc | visualize_results.py:32 | `int(x)` truncates toward zero: for x ≥ 0 the result is the largest integer ≤ x, for x < 0 the smallest integer ≥ x |
| Rasterizer.ToIntPoints | visualize_results.py:32 | the point list keeps its length and order, and each coordinate is truncated toward zero |
| Rasterizer.ColorFor | visualize_results.py:27-35 | the fill of shape i is always one of the six palette colours |
| Rasterizer.ColorForCycles | visualize_results.py:27-35 | the first six indices get the six palette colours in order, and index i + 6 gets the same colour as i |
| Rasterizer.TruncOdd | visualize_results.py:32 | truncation is symmetric about zero, `int(-x) == -int(x)`, unlike flooring |
| Rasterizer.DrawFrom | visualize_results.py:29-39 | the shape loop raises exactly when some shape lacks `shape_type` or is a polygon without `points`, and reports the first such shape and its kind; otherwise every command has a white outline, at least 3 points and a palette fill, and there are no more commands than shapes |
| Rasterizer.Render | visualize_results.py:20-41 | the canvas has the requested size and a black background; a missing or empty `shapes` list gives an untouched black canvas; the call fails exactly when some shape makes the loop raise; the number of drawn polygons is at most the tile's shape count |
| Rasterizer.DrawFromMatchesReference | visualize_results.py:29-39 | the loop equals the comprehension "one command per qualifying `(index, shape)` of `enumerate(shapes)`, in order" |
| Rasterizer.RenderMatchesReference | visualize_results.py:20-41 | when no shape raises, the mask is the black canvas carrying exactly the reference commands |
| Rasterizer.QualifyingShapeIsDrawn | visualize_results.py:27-39 | every polygon with at least 3 points at index k is drawn, with its points truncated in order and fill `palette[k % 6]` |
| Rasterizer.DrawnCommandHasQualifyingSource | visualize_results.py:30-39 | every drawn command comes from a polygon with at least 3 points at some index k, filled `palette[k % 6]`: nothing else is painted |
| Rasterizer.AllPolygonsDrawnInOrder | visualize_results.py:29-39 | when every shape is a polygon with at least 3 points, command k belongs to shape k: same number of points, same order, each coordinate truncated, fill `palette[k % 6]` |
| Rasterizer.SeventhPolygonReusesFirstColor | visualize_results.py:27-35 | with seven polygons the seventh is filled with `palette[0]` |
| Rasterizer.SkippedShapeConsumesPaletteSlot | visualize_results.py:29-39 | a non-polygon before a polygon is not drawn but uses up slot 0, so the polygon gets `palette[1]` |
| DatasetStats.Max | visualize_results.py:121 | `max` of the per-tile list is one of its entries and bounds all of them from above |
| DatasetStats.Min | visualize_results.py:122 | `min` of the per-tile list is one of its entries and bounds all of them from below |
| DatasetStats.MeanOfCounts | visualize_results.py:120 | the mean of a non-empty per-tile list lies between its minimum and maximum |
| DatasetStats.FromCounts | visualize_results.py:117-123 | the returned dictionary: the building total is the sum of the per-tile counts; all aggregates are 0 for an empty list; otherwise min and max are entries bounding every count, and the average is total / count and lies between them |
| DatasetStats.Analyze | visualize_results.py:100-123 | `total_tiles` is the number of files found, failures included; `total_buildings` is the sum of the loaded files' counts; min, max and mean describe those counts and all aggregates are 0 when none loaded |
| DatasetStats.AnalyzeDatasetStats | visualize_results.py:91-123 | the script's accumulation loop (running total, appended per-tile list, failures skipped) produces exactly the dictionary `Analyze` describes |
| DatasetStats.TileCountsAreLoadedCounts | visualize_results.py:102-107 | the per-tile list is `[len(shapes) for f in files if f loaded]`, in scan order |
| DatasetStats.FailedFileOnlyAddsTile | visualize_results.py:100-109 | appending a file that fails to load raises `total_tiles` by one and changes no other field |
| DatasetStats.LoadedFileAddsItsBuildings | visualize_results.py:102-107 | appending a loaded file raises `total_tiles` by one and `total_buildings` by its full shape count |
| DatasetStats.EmptyDatasetIsAllZero | visualize_results.py:117-123 | with no files every field is 0 and nothing fails |
| DatasetStats.WorkedExample | visualize_results.py:96-123 | tiles with 2, 0 and 5 shapes plus one unreadable file give 4 tiles, 7 buildings, mean 7/3, max 5, min 0 |
| Visualizer.SampleSize | visualize_results.py:53 | the sample size is the smaller of the requested and available counts: at most each, equal to one of them |
| Visualizer.CellOf | visualize_results.py:59-61 | cell `(row, col)` of sample i has `col < 3` and `row * 3 + col == i`, so the index can be read back from the cell |
| Visualizer.CellOfInjective | visualize_results.py:59-61 | two samples never share a cell |
| Visualizer.CellOfInGridIffFirstSix | visualize_results.py:56-61 | sample i's row is inside the 2-row grid exactly when i < 6 |
| Visualizer.RemoveAll | visualize_results.py:72 | `str.replace(pat, "")` never lengthens the stem, shortens it by at least one pattern length when the pattern occurs, and leaves a stem without the pattern unchanged |
| Visualizer.RemoveFirstMask | visualize_results.py:72 | a stem `t + "_mask" + rest` with no `_mask` in `t` becomes `t` followed by the removal applied to `rest`; with `RemoveAll`'s contract for stems without `_mask` this fixes the result for every stem |
| Visualizer.Caption | visualize_results.py:72 | the title starts with `"Tile: "`, and a stem without `_mask` is shown unchanged after it |
| Visualizer.InnerMaskRemoved | visualize_results.py:72 | an inner `_mask` is removed as well: a stem `h + "_mask" + t` with no other `_mask` is captioned `"Tile: " + h + t`, so `"foo_mask_bar"` gives `"Tile: foo_bar"` |
| Visualizer.RemoveMaskSuffix | visualize_results.py:72 | for a stem `t + "_mask"` where `t` holds no `_mask`, removal gives back exactly `t` |
| Visualizer.CaptionOfMaskStem | visualize_results.py:72 | such a stem is captioned `"Tile: " + t` |
| Visualizer.RemovalIsSinglePass | visualize_results.py:72 | removal is one left-to-right pass: `"__maskmask"` becomes `"_mask"`, so a caption can still contain `_mask` |
| Visualizer.ViewFile | visualize_results.py:63-84 | a cell shows the placeholder naming the file exactly when loading or drawing fails; otherwise it shows the caption, the tile's full shape count and exactly the mask `create_mask_from_polygons` draws for the record, which has no more polygons than that count |
| Visualizer.PlaceFrom | visualize_results.py:59-84 | the sample loop raises exactly when there are more than six samples; otherwise sample i goes to `CellOf(i)` inside the grid and shows its own file |
| Visualizer.Visualize | visualize_results.py:43-89 | an empty scan returns early; the call raises exactly for a negative or over-six sample size; otherwise it shows `min(requested, available)` cells, sample j in cell `(j // 3, j % 3)` showing the j-th picked file, and returns the number of files found |
| Visualizer.ShownCellsAreDistinct | visualize_results.py:53-61 | shown samples occupy distinct cells and show distinct files |
| Visualizer.SixRequestedTwoAvailable | visualize_results.py:53 | asking for six samples out of two files shows exactly two and reports two files |
| Visualizer.FailedFileGetsPlaceholder | visualize_results.py:63-84 | a file that fails to load gets the placeholder in its cell, the figure is still shown, and every other cell shows its own file as usual |

## Left out

- Reading files and decoding JSON (`load_mask_data`) are not modelled. A file
  is `Loaded(record)` or `Failed`. Any exception inside the statistics `try`
  block counts as `Failed`, and that includes a record whose top level is not
  an object.
- Directory globbing and `Path.stem` are not modelled. The scanned file list
  is an input, and each file carries its name and stem.
- Pixel rasterisation by the imaging library is not modelled. Fill and
  outline semantics belong to a library that is not part of this model, so
  the model stops at the ordered list of `draw.polygon` calls.
- The matplotlib figure, title, axes, text boxes, layout and `plt.show` are
  not modelled. They are presentation only, so a cell is reduced to its
  position and content.
- The randomness of `random.sample` is not modelled. The picked positions
  are a parameter, constrained only by size, range and no repetition.
- Console output and the `:.2f` formatting are not modelled. The mean is an
  exact real, not a float.
- Exception messages and the placeholder's exact text are not modelled. The
  placeholder records only the file name.
- Malformed point data is not modelled. A point that is not a pair raises
  when it is unpacked. A coordinate that is not a number goes through
  Python's `int(...)` conversion, which accepts some non-numbers (`int("12")`
  is 12, `int(True)` is 1) and raises on others. Here every point is a pair
  of numbers.
- A `shapes` value that is not a list is not modelled, and neither is a
  `shapes` entry that is not an object (for example `"shapes": [1]`). Such an
  entry raises a TypeError at `shape['shape_type']` (visualize_results.py:30),
  so its tile gets the placeholder cell, yet `len(shapes)` still counts it as
  a building (visualize_results.py:76, 105). Here every entry is a `Shape`
  with optional `shape_type` and `points` keys.
- Rasterizer.Trunc: applies to finite numbers only. `int()` of an infinite
  or NaN float raises, and the model has no such values.

/** `visualize_sample_masks`: how many files are shown, which grid cell each
    one occupies, what each cell shows, and how the call ends. The random
    choice of files is a parameter (`picks`, the positions `random.sample`
    returned); the figure itself is reduced to the list of cells. */
module Visualizer {
  import opened Annotation
  import Rasterizer

  /** `plt.subplots(2, 3)`. */
  const GridRows: nat := 2
  const GridCols: nat := 3

  /** The caption prefix and the fragment removed from the file stem. */
  const TitlePrefix: string := "Tile: "
  const MaskFragment: string := "_mask"

  /** What one grid cell shows: a rendered tile with its caption and building
      count, or the error placeholder naming the file. */
  datatype CellContent =
    | TileView(caption: string, mask: Rasterizer.Mask, buildings: nat)
    | ErrorPlaceholder(fileName: string)

  datatype Cell = Cell(row: nat, col: nat, content: CellContent)

  /** Why the call raises instead of showing the figure. */
  datatype VisualError =
    | NegativeSampleSize          // `random.sample` with a negative size
    | GridOverflow(index: nat)    // `axes[row, col]` past the 2x3 grid

  /** How the call ends: the early return on an empty scan (Python `None`),
      a raised exception, or the shown figure and the number of files found. */
  datatype Outcome =
    | NoFiles
    | Raised(error: VisualError)
    | Shown(cells: seq<Cell>, totalFiles: nat)

  /** `min(num_samples, len(mask_files))`. */
  function SampleSize(requested: int, available: nat): (k: int)
    ensures k <= requested && k <= available
    ensures k == requested || k == available
  {
    if requested <= available then requested else available
  }

  /** What `random.sample(mask_files, k)` guarantees: k positions of the file
      list, none repeated. */
  predicate ValidSample(picks: seq<nat>, available: nat, k: nat) {
    && |picks| == k
    && (forall j :: 0 <= j < |picks| ==> picks[j] < available)
    && (forall j, l :: 0 <= j < l < |picks| ==> picks[j] != picks[l])
  }

  /** `row = i // 3; col = i % 3`. */
  function CellOf(i: nat): (rc: (nat, nat))
    ensures rc.1 < GridCols
    ensures rc.0 * GridCols + rc.1 == i
  {
    (i / GridCols, i % GridCols)
  }

  /** Cells are filled row by row: the first six indices are exactly the six
      cells of the grid, each used once. */
  lemma CellOfInGridIffFirstSix(i: nat)
    ensures CellOf(i).0 < GridRows <==> i < GridRows * GridCols
  {
  }

  lemma CellOfInjective(i: nat, j: nat)
    requires CellOf(i) == CellOf(j)
    ensures i == j
  {
  }

  /** `pat` occurs in `s` starting at position `k`. */
  predicate OccursAt(s: string, pat: string, k: nat) {
    k + |pat| <= |s| && s[k..k + |pat|] == pat
  }

  predicate Occurs(s: string, pat: string) {
    exists k: nat :: k <= |s| && OccursAt(s, pat, k)
  }

  /** `s.replace(pat, "")`: left-to-right removal of non-overlapping
      occurrences of a non-empty `pat`. */
  function RemoveAll(s: string, pat: string): (r: string)
    requires |pat| > 0
    ensures |r| <= |s|
    ensures Occurs(s, pat) ==> |r| <= |s| - |pat|
    ensures !Occurs(s, pat) ==> r == s
    decreases |s|
  {
    if |s| == 0 then []
    else if |pat| <= |s| && s[..|pat|] == pat then
      assert OccursAt(s, pat, 0);
      RemoveAll(s[|pat|..], pat)
    else
      assert forall k: nat :: OccursAt(s[1..], pat, k) ==> OccursAt(s, pat, k + 1);
      assert forall k: nat :: 1 <= k && OccursAt(s, pat, k) ==> OccursAt(s[1..], pat, k - 1);
      [s[0]] + RemoveAll(s[1..], pat)
  }

  /** `f'Tile: {stem.replace("_mask", "")}'`. */
  function Caption(stem: string): (r: string)
    ensures |r| >= |TitlePrefix| && r[..|TitlePrefix|] == TitlePrefix
    ensures !Occurs(stem, MaskFragment) ==> r == TitlePrefix + stem
  {
    TitlePrefix + RemoveAll(stem, MaskFragment)
  }

  /** One unfolding of `RemoveAll` when the pattern starts the string. */
  lemma RemoveAllSkip(s: string, pat: string)
    requires 0 < |pat| <= |s| && s[..|pat|] == pat
    ensures RemoveAll(s, pat) == RemoveAll(s[|pat|..], pat)
  {
  }

  /** One unfolding of `RemoveAll` when the pattern does not start the string. */
  lemma RemoveAllKeep(s: string, pat: string)
    requires 0 < |pat| && 0 < |s|
    requires !(|pat| <= |s| && s[..|pat|] == pat)
    ensures RemoveAll(s, pat) == [s[0]] + RemoveAll(s[1..], pat)
  {
  }

  /** A tile part free of `_mask` stays free of it once its first character
      is dropped. */
  lemma NoMaskInTail(tile: string)
    requires |tile| > 0 && !Occurs(tile, MaskFragment)
    ensures !Occurs(tile[1..], MaskFragment)
  {
    assert forall k: nat :: OccursAt(tile[1..], MaskFragment, k) ==> OccursAt(tile, MaskFragment, k + 1);
  }

  /** Before the first `_mask` of a stem no occurrence can start: inside the
      tile part there is none, and one straddling into the `_mask` would need
      a second '_' where `_mask` has none. */
  lemma NoMaskAtFront(tile: string, rest: string)
    requires |tile| > 0 && !Occurs(tile, MaskFragment)
    ensures (tile + MaskFragment + rest)[..|MaskFragment|] != MaskFragment
  {
    var s := tile + MaskFragment + rest;
    if |tile| >= 5 {
      assert s[..5] == tile[..5];
      assert !OccursAt(tile, MaskFragment, 0);
    } else {
      assert s[|tile|] == '_' != MaskFragment[|tile|];
    }
  }

  /** `replace` removes the first `_mask` of a stem and keeps everything before
      it: with `tile` free of `_mask`, the stem `tile + "_mask" + rest` becomes
      `tile` followed by the removal applied to `rest`. Together with
      `RemoveAll`'s contract for stems without `_mask`, this fixes the result
      for every stem. */
  lemma {:induction false} RemoveFirstMask(tile: string, rest: string)
    requires !Occurs(tile, MaskFragment)
    ensures RemoveAll(tile + MaskFragment + rest, MaskFragment)
      == tile + RemoveAll(rest, MaskFragment)
    decreases |tile|
  {
    if |tile| == 0 {
      RemoveLeadingMask(rest);
      assert tile + MaskFragment + rest == MaskFragment + rest;
    } else {
      NoMaskAtFront(tile, rest);
      StemShape(tile, rest);
      NoMaskInTail(tile);
      RemoveFirstMask(tile[1..], rest);
      KeepFirstChar(tile + MaskFragment + rest, MaskFragment, tile, RemoveAll(rest, MaskFragment));
    }
  }

  /** A stem starting with `_mask` loses exactly that prefix first. */
  lemma RemoveLeadingMask(rest: string)
    ensures RemoveAll(MaskFragment + rest, MaskFragment) == RemoveAll(rest, MaskFragment)
  {
    var s := MaskFragment + rest;
    assert s[..|MaskFragment|] == MaskFragment;
    RemoveAllSkip(s, MaskFragment);
    assert s[|MaskFragment|..] == rest;
  }

  /** The inductive step: when the pattern does not start `s`, its first
      character is kept, and removal from the rest gives the rest of the
      tile part followed by `done`. */
  lemma KeepFirstChar(s: string, pat: string, tile: string, done: string)
    requires 0 < |pat| <= |s| && s[..|pat|] != pat
    requires |tile| > 0 && s[0] == tile[0]
    requires RemoveAll(s[1..], pat) == tile[1..] + done
    ensures RemoveAll(s, pat) == tile + done
  {
    RemoveAllKeep(s, pat);
    ConsConcat(tile, done);
  }

  /** Dropping the first character of a stem with a non-empty tile part. */
  lemma StemShape(tile: string, rest: string)
    requires |tile| > 0
    ensures (tile + MaskFragment + rest)[0] == tile[0]
    ensures (tile + MaskFragment + rest)[1..] == tile[1..] + MaskFragment + rest
  {
  }

  lemma ConsConcat(a: string, b: string)
    requires |a| > 0
    ensures [a[0]] + (a[1..] + b) == a + b
  {
    assert [a[0]] + a[1..] == a;
  }

  /** A stem `tile + "_mask"` whose tile part holds no `_mask` is captioned
      with exactly that tile part: the suffix is removed, nothing else is. */
  lemma RemoveMaskSuffix(tile: string)
    requires !Occurs(tile, MaskFragment)
    ensures RemoveAll(tile + MaskFragment, MaskFragment) == tile
  {
    RemoveFirstMask(tile, "");
    assert tile + MaskFragment + "" == tile + MaskFragment;
  }

  lemma CaptionOfMaskStem(tile: string)
    requires !Occurs(tile, MaskFragment)
    ensures Caption(tile + MaskFragment) == TitlePrefix + tile
  {
    RemoveMaskSuffix(tile);
  }

  /** An inner `_mask` goes too: a stem `head + "_mask" + tail` with no other
      `_mask` is captioned with `head + tail`, so `"foo_mask_bar"` becomes
      `"Tile: foo_bar"`. */
  lemma InnerMaskRemoved(head: string, tail: string)
    requires !Occurs(head, MaskFragment) && !Occurs(tail, MaskFragment)
    ensures Caption(head + MaskFragment + tail) == TitlePrefix + head + tail
  {
    RemoveFirstMask(head, tail);
  }

  /** The removal is a single pass: a stem can still hold `_mask` afterwards. */
  lemma RemovalIsSinglePass()
    ensures RemoveAll("__maskmask", MaskFragment) == MaskFragment
  {
    var s := "__maskmask";
    assert s[..5][1] != MaskFragment[1];
    assert s[1..][..5] == MaskFragment;
    assert s[1..][5..] == "mask";
    assert RemoveAll("mask", MaskFragment) == "mask" by {
      assert !Occurs("mask", MaskFragment);
    }
  }

  /** One cell's content: a failed load and a failed render both become the
      placeholder; otherwise the tile is drawn at the default size with its
      caption and its full shape count. */
  function ViewFile(f: MaskFile): (c: CellContent)
    ensures c.ErrorPlaceholder? <==>
      f.content.Failed? ||
      Rasterizer.Render(f.content.record, Rasterizer.DefaultWidth, Rasterizer.DefaultHeight).Err?
    ensures c.ErrorPlaceholder? ==> c.fileName == f.name
    ensures c.TileView? ==>
      && c.caption == Caption(f.stem)
      && c.buildings == BuildingCount(f.content.record)
      && |c.mask.cmds| <= c.buildings
    ensures c.TileView? ==>
      && f.content.Loaded?
      && Rasterizer.Render(f.content.record, Rasterizer.DefaultWidth, Rasterizer.DefaultHeight) == Ok(c.mask)
  {
    match f.content
    case Failed => ErrorPlaceholder(f.name)
    case Loaded(rec) =>
      match Rasterizer.Render(rec, Rasterizer.DefaultWidth, Rasterizer.DefaultHeight)
      case Err(_) => ErrorPlaceholder(f.name)
      case Ok(mask) => TileView(Caption(f.stem), mask, BuildingCount(rec))
  }

  /** The `for i, mask_file in enumerate(sample_files)` loop from sample `i`
      on. A cell index past the grid raises, inside the handler as well, so
      the whole call raises. */
  function PlaceFrom(files: seq<MaskFile>, picks: seq<nat>, i: nat): (r: Result<seq<Cell>, VisualError>)
    requires i <= |picks|
    requires forall j :: 0 <= j < |picks| ==> picks[j] < |files|
    ensures r.Err? <==> i < |picks| && |picks| > GridRows * GridCols
    ensures r.Ok? ==> |r.value| == |picks| - i
    ensures r.Ok? ==> forall j :: 0 <= j < |r.value| ==>
      && (r.value[j].row, r.value[j].col) == CellOf(i + j)
      && r.value[j].row < GridRows
      && r.value[j].content == ViewFile(files[picks[i + j]])
    decreases |picks| - i
  {
    if i == |picks| then Ok([])
    else
      var (row, col) := CellOf(i);
      if row >= GridRows then Err(GridOverflow(i))
      else
        var rest := PlaceFrom(files, picks, i + 1);
        if rest.Err? then rest
        else Ok([Cell(row, col, ViewFile(files[picks[i]]))] + rest.value)
  }

  /** `visualize_sample_masks(data_dir, num_samples)` over the scanned files. */
  function Visualize(files: seq<MaskFile>, requested: int, picks: seq<nat>): (o: Outcome)
    requires |files| > 0 && SampleSize(requested, |files|) >= 0 ==>
      ValidSample(picks, |files|, SampleSize(requested, |files|))
    ensures o.NoFiles? <==> |files| == 0
    ensures o.Raised? <==> |files| > 0 && (requested < 0 || SampleSize(requested, |files|) > GridRows * GridCols)
    ensures o.Shown? ==> o.totalFiles == |files| && |o.cells| == SampleSize(requested, |files|)
    ensures o.Shown? ==> forall j :: 0 <= j < |o.cells| ==>
      && (o.cells[j].row, o.cells[j].col) == CellOf(j)
      && o.cells[j].row < GridRows && o.cells[j].col < GridCols
      && o.cells[j].content == ViewFile(files[picks[j]])
  {
    if |files| == 0 then NoFiles
    else
      var k := SampleSize(requested, |files|);
      if k < 0 then Raised(NegativeSampleSize)
      else
        match PlaceFrom(files, picks, 0)
        case Err(e) => Raised(e)
        case Ok(cells) => Shown(cells, |files|)
  }

  /** Shown cells sit in distinct grid positions and show distinct files. */
  lemma ShownCellsAreDistinct(files: seq<MaskFile>, requested: int, picks: seq<nat>, j: nat, l: nat)
    requires |files| > 0 && SampleSize(requested, |files|) >= 0 ==>
      ValidSample(picks, |files|, SampleSize(requested, |files|))
    requires Visualize(files, requested, picks).Shown?
    requires j < l < |Visualize(files, requested, picks).cells|
    ensures var cells := Visualize(files, requested, picks).cells;
      (cells[j].row, cells[j].col) != (cells[l].row, cells[l].col)
    ensures picks[j] != picks[l]
  {
    var cells := Visualize(files, requested, picks).cells;
    assert PlaceFrom(files, picks, 0).Ok? && cells == PlaceFrom(files, picks, 0).value;
    if (cells[j].row, cells[j].col) == (cells[l].row, cells[l].col) {
      CellOfInjective(j, l);
    }
  }

  /** Asking for six samples from a two-file scan shows exactly those two. */
  lemma SixRequestedTwoAvailable(files: seq<MaskFile>, picks: seq<nat>)
    requires |files| == 2
    requires ValidSample(picks, 2, 2)
    ensures Visualize(files, 6, picks).Shown?
    ensures |Visualize(files, 6, picks).cells| == 2
    ensures Visualize(files, 6, picks).totalFiles == 2
  {
  }

  /** A file that fails to load does not abort the batch: its cell holds the
      placeholder and every other cell is unaffected. */
  lemma FailedFileGetsPlaceholder(files: seq<MaskFile>, requested: int, picks: seq<nat>, j: nat)
    requires |files| > 0 && SampleSize(requested, |files|) >= 0 ==>
      ValidSample(picks, |files|, SampleSize(requested, |files|))
    requires 0 <= requested && SampleSize(requested, |files|) <= GridRows * GridCols
    requires j < SampleSize(requested, |files|)
    requires files[picks[j]].content.Failed?
    ensures Visualize(files, requested, picks).Shown?
    ensures Visualize(files, requested, picks).cells[j].content == ErrorPlaceholder(files[picks[j]].name)
    ensures forall l :: 0 <= l < |Visualize(files, requested, picks).cells| && l != j ==>
      Visualize(files, requested, picks).cells[l].content == ViewFile(files[picks[l]])
  {
  }
}

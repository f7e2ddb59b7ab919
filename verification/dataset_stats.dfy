/** `analyze_dataset_stats`: the reduction of the scanned files to tile and
    building counts. A file whose load raised is counted as a tile but adds
    nothing to the building aggregates. */
module DatasetStats {
  import opened Annotation
  import opened Seqs

  /** The dictionary the function returns. The average is exact; the script
      computes it with `np.mean`. */
  datatype Stats = Stats(
    totalTiles: nat,
    totalBuildings: nat,
    avgPerTile: real,
    maxPerTile: nat,
    minPerTile: nat)

  predicate IsLoaded(f: FileResult) {
    f.Loaded?
  }

  function CountOf(f: FileResult): nat {
    match f
    case Loaded(rec) => BuildingCount(rec)
    case Failed => 0
  }

  /** `buildings_per_tile` after the loop has seen `files`: one entry per
      file that loaded, in scan order. */
  function TileCounts(files: seq<FileResult>): seq<nat>
    decreases |files|
  {
    if |files| == 0 then []
    else
      var last := files[|files| - 1];
      TileCounts(files[..|files| - 1]) + (if last.Loaded? then [BuildingCount(last.record)] else [])
  }

  function Sum(s: seq<nat>): nat
    decreases |s|
  {
    if |s| == 0 then 0 else Sum(s[..|s| - 1]) + s[|s| - 1]
  }

  /** `max(buildings_per_tile)`. */
  function Max(s: seq<nat>): (m: nat)
    requires |s| > 0
    ensures m in s
    ensures forall x :: x in s ==> x <= m
    decreases |s|
  {
    if |s| == 1 then s[0]
    else
      var rest := Max(s[1..]);
      assert forall x :: x in s ==> x == s[0] || x in s[1..];
      if s[0] >= rest then s[0] else rest
  }

  /** `min(buildings_per_tile)`. */
  function Min(s: seq<nat>): (m: nat)
    requires |s| > 0
    ensures m in s
    ensures forall x :: x in s ==> m <= x
    decreases |s|
  {
    if |s| == 1 then s[0]
    else
      var rest := Min(s[1..]);
      assert forall x :: x in s ==> x == s[0] || x in s[1..];
      if s[0] <= rest then s[0] else rest
  }

  /** The dictionary built from the tile total and the per-tile list, as on
      the script's return statement. */
  function FromCounts(tiles: nat, counts: seq<nat>): (r: Stats)
    ensures r.totalTiles == tiles
    ensures r.totalBuildings == Sum(counts)
    ensures |counts| == 0 ==>
      r.totalBuildings == 0 && r.avgPerTile == 0.0 && r.maxPerTile == 0 && r.minPerTile == 0
    ensures forall c :: c in counts ==> r.minPerTile <= c <= r.maxPerTile
    ensures |counts| > 0 ==> r.minPerTile in counts && r.maxPerTile in counts
    ensures |counts| > 0 ==> r.avgPerTile == r.totalBuildings as real / |counts| as real
    ensures r.minPerTile as real <= r.avgPerTile <= r.maxPerTile as real
  {
    var total := Sum(counts);
    if |counts| == 0 then
      Stats(tiles, total, 0.0, 0, 0)
    else
      MeanOfCounts(counts);
      Stats(tiles, total, Mean(counts), Max(counts), Min(counts))
  }

  /** The returned dictionary as a function of the scanned files: every file
      is a tile, only loaded files feed the building aggregates, and with no
      loaded file every aggregate is 0. */
  function Analyze(files: seq<FileResult>): (r: Stats)
    ensures r.totalTiles == |files|
    ensures r.totalBuildings == Sum(TileCounts(files))
    ensures |TileCounts(files)| == 0 ==>
      r.totalBuildings == 0 && r.avgPerTile == 0.0 && r.maxPerTile == 0 && r.minPerTile == 0
    ensures forall c :: c in TileCounts(files) ==> r.minPerTile <= c <= r.maxPerTile
    ensures |TileCounts(files)| > 0 ==>
      r.minPerTile in TileCounts(files) && r.maxPerTile in TileCounts(files)
    ensures |TileCounts(files)| > 0 ==>
      r.avgPerTile == r.totalBuildings as real / |TileCounts(files)| as real
    ensures r.minPerTile as real <= r.avgPerTile <= r.maxPerTile as real
  {
    var counts := TileCounts(files);
    FromCounts(|files|, counts)
  }

  /** `np.mean(buildings_per_tile)`, exactly. */
  function Mean(counts: seq<nat>): real
    requires |counts| > 0
  {
    Sum(counts) as real / |counts| as real
  }

  /** The mean lies between the extremes. */
  lemma MeanOfCounts(counts: seq<nat>)
    requires |counts| > 0
    ensures Min(counts) as real <= Mean(counts) <= Max(counts) as real
  {
    SumBounds(counts, Min(counts), Max(counts));
    MeanBetween(Sum(counts), |counts|, Min(counts), Max(counts));
  }

  /** Every entry between `lo` and `hi` bounds the sum by count times each. */
  lemma {:induction false} SumBounds(s: seq<nat>, lo: nat, hi: nat)
    requires forall x :: x in s ==> lo <= x <= hi
    ensures |s| * lo <= Sum(s) <= |s| * hi
    decreases |s|
  {
    if |s| > 0 {
      var init := s[..|s| - 1];
      assert forall x :: x in init ==> x in s;
      assert s[|s| - 1] in s;
      SumBounds(init, lo, hi);
      assert |s| * lo == |init| * lo + lo;
      assert |s| * hi == |init| * hi + hi;
    }
  }

  lemma MeanBetween(total: nat, n: nat, lo: nat, hi: nat)
    requires n > 0
    requires n * lo <= total <= n * hi
    ensures lo as real <= total as real / n as real <= hi as real
  {
    assert (n * lo) as real == n as real * lo as real;
    assert (n * hi) as real == n as real * hi as real;
    QuotientAtLeast(total as real, n as real, lo as real);
    QuotientAtMost(total as real, n as real, hi as real);
  }

  lemma QuotientAtLeast(t: real, n: real, lo: real)
    requires n > 0.0 && n * lo <= t
    ensures lo <= t / n
  {
    assert (t - n * lo) / n == t / n - lo;
  }

  lemma QuotientAtMost(t: real, n: real, hi: real)
    requires n > 0.0 && t <= n * hi
    ensures t / n <= hi
  {
    assert (n * hi - t) / n == hi - t / n;
  }

  /** The script's loop, statement by statement: the tile total is read off
      the file list, each loaded file adds its shape count to the running
      total and appends it to the per-tile list, a failed file is skipped,
      and the dictionary is built from the list afterwards. */
  method AnalyzeDatasetStats(files: seq<FileResult>) returns (stats: Stats)
    ensures stats == Analyze(files)
  {
    var totalBuildings: nat := 0;
    var buildingsPerTile: seq<nat> := [];
    var i := 0;
    while i < |files|
      invariant 0 <= i <= |files|
      invariant buildingsPerTile == TileCounts(files[..i])
      invariant totalBuildings == Sum(buildingsPerTile)
    {
      assert files[..i + 1][..i] == files[..i];
      match files[i] {
        case Loaded(rec) =>
          var numBuildings := BuildingCount(rec);
          var grown := buildingsPerTile + [numBuildings];
          assert grown[..|grown| - 1] == buildingsPerTile;
          totalBuildings := totalBuildings + numBuildings;
          buildingsPerTile := grown;
        case Failed =>
      }
      i := i + 1;
    }
    assert files[..|files|] == files;
    var n := |buildingsPerTile|;
    stats := Stats(
      |files|,
      totalBuildings,
      if n > 0 then Mean(buildingsPerTile) else 0.0,
      if n > 0 then Max(buildingsPerTile) else 0,
      if n > 0 then Min(buildingsPerTile) else 0);
  }

  /** `buildings_per_tile` is the comprehension
      `[count(f) for f in files if loaded(f)]`. */
  lemma {:induction false} TileCountsAreLoadedCounts(files: seq<FileResult>)
    ensures TileCounts(files) == Map(CountOf, Filter(IsLoaded, files))
    decreases |files|
  {
    if |files| > 0 {
      var init := files[..|files| - 1];
      var last := files[|files| - 1];
      TileCountsAreLoadedCounts(init);
      assert files == init + [last];
      FilterAppend(IsLoaded, init, [last]);
      MapAppend(CountOf, Filter(IsLoaded, init), Filter(IsLoaded, [last]));
      assert Filter(IsLoaded, [last]) == (if last.Loaded? then [last] else []);
    }
  }

  /** A file whose load fails adds a tile and changes nothing else. */
  lemma FailedFileOnlyAddsTile(files: seq<FileResult>)
    ensures Analyze(files + [Failed]) == Analyze(files).(totalTiles := |files| + 1)
  {
    assert (files + [Failed])[..|files|] == files;
    assert TileCounts(files + [Failed]) == TileCounts(files);
  }

  /** A loaded file adds a tile and its shape count to the building total. */
  lemma LoadedFileAddsItsBuildings(files: seq<FileResult>, rec: Record)
    ensures Analyze(files + [Loaded(rec)]).totalTiles == Analyze(files).totalTiles + 1
    ensures Analyze(files + [Loaded(rec)]).totalBuildings
      == Analyze(files).totalBuildings + BuildingCount(rec)
  {
    var grown := files + [Loaded(rec)];
    assert grown[..|files|] == files;
    assert TileCounts(grown) == TileCounts(files) + [BuildingCount(rec)];
    assert TileCounts(grown)[..|TileCounts(grown)| - 1] == TileCounts(files);
  }

  /** No file found: every field of the dictionary is 0. */
  lemma EmptyDatasetIsAllZero()
    ensures Analyze([]) == Stats(0, 0, 0.0, 0, 0)
  {
  }

  /** Three tiles with 2, 0 and 5 shapes plus one unreadable file: four tiles,
      seven buildings, mean 7/3, maximum 5, minimum 0. */
  lemma WorkedExample(a: Shape)
    ensures Analyze([Loaded(Record(Some([a, a]))), Failed, Loaded(Record(Some([]))),
                     Loaded(Record(Some([a, a, a, a, a])))])
      == Stats(4, 7, 7.0 / 3.0, 5, 0)
  {
    var t2 := Loaded(Record(Some([a, a])));
    var t0 := Loaded(Record(Some([])));
    var t5 := Loaded(Record(Some([a, a, a, a, a])));
    var files := [t2, Failed, t0, t5];
    assert files[..3] == [t2, Failed, t0];
    assert [t2, Failed, t0][..2] == [t2, Failed];
    assert [t2, Failed][..1] == [t2];
    assert [t2][..0] == [];
    assert TileCounts([t2]) == [2];
    assert TileCounts([t2, Failed]) == [2];
    assert TileCounts([t2, Failed, t0]) == [2, 0];
    assert TileCounts(files) == [2, 0, 5];
    SumOfWorkedCounts();
    MinMaxOfWorkedCounts();
  }

  lemma SumOfWorkedCounts()
    ensures Sum([2, 0, 5]) == 7
  {
    assert [2, 0, 5][..2] == [2, 0];
    assert [2, 0][..1] == [2];
    assert [2][..0] == [];
  }

  lemma MinMaxOfWorkedCounts()
    ensures Max([2, 0, 5]) == 5 && Min([2, 0, 5]) == 0
  {
    assert [2, 0, 5][1..] == [0, 5];
    assert [0, 5][1..] == [5];
  }
}

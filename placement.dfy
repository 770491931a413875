/** `distributeToGridStrict` (src/lib/ticketLogic.ts): seats the chosen tracks of each column
    on a 3x9 grid so that every row ends with five tracks, or gives up with null. */
module StrictPlacement {
  import opened TicketTypes
  import opened Seqs
  import opened Grids
  import opened Shuffling
  import opened Tracks

  /** One track waiting to be seated in column `col`. */
  datatype Placement = Placement(track: Track, col: int)

  /** The placements of one column's tracks, in order. */
  function ColumnPlacements(ts: seq<Track>, col: int): (r: seq<Placement>)
    ensures |r| == |ts| && forall k :: 0 <= k < |ts| ==> r[k] == Placement(ts[k], col)
  {
    seq(|ts|, k requires 0 <= k < |ts| => Placement(ts[k], col))
  }

  /** The placements of the first `n` columns, column by column (`allPlacements`). */
  function Placements(tpc: seq<seq<Track>>, n: int): seq<Placement>
    requires 0 <= n <= |tpc|
  {
    if n == 0 then [] else Placements(tpc, n - 1) + ColumnPlacements(tpc[n - 1], n - 1)
  }

  /** Number of tracks chosen for each column. */
  function Lengths(tpc: seq<seq<Track>>): (r: seq<int>)
    ensures |r| == |tpc| && forall c :: 0 <= c < |tpc| ==> r[c] == |tpc[c]|
  {
    seq(|tpc|, c requires 0 <= c < |tpc| => |tpc[c]|)
  }

  /** There is one placement per chosen track. */
  lemma {:induction false} PlacementsLength(tpc: seq<seq<Track>>, n: int)
    requires 0 <= n <= |tpc|
    ensures |Placements(tpc, n)| == Sum(Lengths(tpc)[..n])
  {
    if n > 0 {
      PlacementsLength(tpc, n - 1);
      assert Lengths(tpc)[..n][..n - 1] == Lengths(tpc)[..n - 1];
    }
  }

  /** A column's placements hold each of its tracks as often as the column does. */
  lemma {:induction false} ColumnPlacementsCount(ts: seq<Track>, col: int, p: Placement)
    ensures multiset(ColumnPlacements(ts, col))[p] == if p.col == col then multiset(ts)[p.track] else 0
    decreases |ts|
  {
    if ts != [] {
      var ts' := ts[..|ts| - 1];
      assert ts == ts' + [ts[|ts| - 1]];
      assert ColumnPlacements(ts, col) == ColumnPlacements(ts', col) + [Placement(ts[|ts| - 1], col)];
      ColumnPlacementsCount(ts', col, p);
    }
  }

  /** The placements hold track `t` in column `c` exactly as often as column `c`'s list. */
  lemma {:induction false} PlacementsCount(tpc: seq<seq<Track>>, n: int, p: Placement)
    requires 0 <= n <= |tpc|
    ensures multiset(Placements(tpc, n))[p] == if 0 <= p.col < n then multiset(tpc[p.col])[p.track] else 0
  {
    if n > 0 {
      PlacementsCount(tpc, n - 1, p);
      ColumnPlacementsCount(tpc[n - 1], n - 1, p);
    }
  }

  /** The sort key: how many tracks the placement's column has. */
  function ColLen(tpc: seq<seq<Track>>, col: int): int
  {
    if 0 <= col < |tpc| then |tpc[col]| else 0
  }

  /** Row `r` can take a track of column `col`: the cell is empty and the row has room. */
  predicate Available(grid: array2<Option<Track>>, rowCounts: array<int>, r: int, col: int)
    reads grid, rowCounts
    requires grid.Length0 == ROWS && grid.Length1 == COLS && rowCounts.Length == ROWS
    requires 0 <= r < ROWS && 0 <= col < COLS
  {
    grid[r, col].None? && rowCounts[r] < ITEMS_PER_ROW
  }

  /** The row choice of the placement loop: -1 when no row is available, otherwise a random
      one among the available rows with the fewest tracks. */
  method ChooseRow(grid: array2<Option<Track>>, rowCounts: array<int>, col: int) returns (row: int)
    requires grid.Length0 == ROWS && grid.Length1 == COLS && rowCounts.Length == ROWS
    requires 0 <= col < COLS
    ensures row == -1 <==> forall r :: 0 <= r < ROWS ==> !Available(grid, rowCounts, r, col)
    ensures row != -1 ==> 0 <= row < ROWS && Available(grid, rowCounts, row, col)
    ensures row != -1 ==> forall r :: 0 <= r < ROWS && Available(grid, rowCounts, r, col) ==>
                            rowCounts[row] <= rowCounts[r]
  {
    var availableRows: seq<int> := [];
    var r := 0;
    while r < ROWS
      invariant 0 <= r <= ROWS
      invariant forall k :: 0 <= k < |availableRows| ==> 0 <= availableRows[k] < r
      invariant forall x :: 0 <= x < ROWS ==> (x in availableRows <==> x < r && Available(grid, rowCounts, x, col))
    {
      if grid[r, col] == None && rowCounts[r] < ITEMS_PER_ROW {
        availableRows := availableRows + [r];
      }
      r := r + 1;
    }
    if |availableRows| == 0 {
      return -1;
    }
    var minCount := rowCounts[availableRows[0]];
    var k := 1;
    while k < |availableRows|
      invariant 1 <= k <= |availableRows|
      invariant exists j :: 0 <= j < k && rowCounts[availableRows[j]] == minCount
      invariant forall j :: 0 <= j < k ==> minCount <= rowCounts[availableRows[j]]
    {
      if rowCounts[availableRows[k]] < minCount {
        minCount := rowCounts[availableRows[k]];
      }
      k := k + 1;
    }
    var bestRows: seq<int> := [];
    k := 0;
    while k < |availableRows|
      invariant 0 <= k <= |availableRows|
      invariant forall j :: 0 <= j < |bestRows| ==> 0 <= bestRows[j] < ROWS && rowCounts[bestRows[j]] == minCount
      invariant forall x :: 0 <= x < ROWS && rowCounts[x] == minCount ==>
                  (x in bestRows <==> x in availableRows[..k])
      invariant (exists j :: 0 <= j < k && rowCounts[availableRows[j]] == minCount) ==> |bestRows| > 0
    {
      assert availableRows[..k + 1] == availableRows[..k] + [availableRows[k]];
      if rowCounts[availableRows[k]] == minCount {
        bestRows := bestRows + [availableRows[k]];
      }
      k := k + 1;
    }
    assert availableRows[..k] == availableRows;
    assert availableRows[0] in bestRows || |bestRows| > 0;
    var pick :| 0 <= pick < |bestRows|;
    row := bestRows[pick];
    assert row in availableRows;
    forall x | 0 <= x < ROWS && Available(grid, rowCounts, x, col) ensures rowCounts[row] <= rowCounts[x] {
      assert x in availableRows;
      var j :| 0 <= j < |availableRows| && availableRows[j] == x;
    }
  }

  /** The collection loop of `distributeToGridStrict`: every chosen track with its column,
      column by column. */
  method CollectPlacements(tpc: seq<seq<Track>>) returns (allPlacements: seq<Placement>)
    requires |tpc| == COLS
    ensures allPlacements == Placements(tpc, COLS)
  {
    allPlacements := [];
    var col := 0;
    while col < COLS
      invariant 0 <= col <= COLS
      invariant allPlacements == Placements(tpc, col)
    {
      var k := 0;
      while k < |tpc[col]|
        invariant 0 <= k <= |tpc[col]|
        invariant allPlacements == Placements(tpc, col) + ColumnPlacements(tpc[col][..k], col)
      {
        assert ColumnPlacements(tpc[col][..k + 1], col) ==
               ColumnPlacements(tpc[col][..k], col) + [Placement(tpc[col][k], col)];
        allPlacements := allPlacements + [Placement(tpc[col][k], col)];
        k := k + 1;
      }
      assert tpc[col][..k] == tpc[col];
      col := col + 1;
    }
  }

  /** Column contents of `g` are those of `tpc`: track `t` sits in column `c` as often as
      `tpc[c]` lists it. */
  ghost predicate ColumnsMatch(g: Grid, tpc: seq<seq<Track>>)
    requires Shaped(g) && |tpc| == COLS
  {
    forall c, t :: 0 <= c < COLS ==> Occ(Column(g, c), t) == multiset(tpc[c])[t]
  }

  /** The first `i` placements of `sorted` are seated in `g`, each in its own column. */
  ghost predicate Seated(g: Grid, sorted: seq<Placement>, i: int)
    requires Shaped(g) && 0 <= i <= |sorted|
  {
    forall c, t :: 0 <= c < COLS ==> Occ(Column(g, c), t) == multiset(sorted[..i])[Placement(t, c)]
  }

  /** Seating placement i in an empty cell of its column adds one track to that row and
      keeps every column's contents in step with the placements seen so far. */
  lemma SeatStep(g: Grid, sorted: seq<Placement>, i: int, row: int)
    requires Shaped(g) && 0 <= i < |sorted| && 0 <= row < ROWS && 0 <= sorted[i].col < COLS
    requires g[row][sorted[i].col].None? && Seated(g, sorted, i)
    ensures var g' := SetCell(g, row, sorted[i].col, Some(sorted[i].track));
      && Seated(g', sorted, i + 1)
      && RowCount(g', row) == RowCount(g, row) + 1
      && forall r :: 0 <= r < ROWS && r != row ==> RowCount(g', r) == RowCount(g, r)
  {
    var p := sorted[i];
    var g' := SetCell(g, row, p.col, Some(p.track));
    SetCellCounts(g, row, p.col, Some(p.track));
    assert sorted[..i + 1] == sorted[..i] + [p];
    forall c, t | 0 <= c < COLS
      ensures Occ(Column(g', c), t) == multiset(sorted[..i + 1])[Placement(t, c)]
    {
      if c != p.col {
        assert Column(g', c) == Column(g, c);
      }
    }
  }

  /** Every placement names one of the nine columns. */
  lemma PlacementColumns(tpc: seq<seq<Track>>, sorted: seq<Placement>)
    requires |tpc| == COLS && multiset(sorted) == multiset(Placements(tpc, COLS))
    ensures forall k :: 0 <= k < |sorted| ==> 0 <= sorted[k].col < COLS
  {
    forall k | 0 <= k < |sorted| ensures 0 <= sorted[k].col < COLS {
      assert sorted[k] in multiset(sorted);
      PlacementsCount(tpc, COLS, sorted[k]);
    }
  }

  /** Once every placement is seated, each column holds exactly its chosen tracks. */
  lemma SeatedMatches(g: Grid, tpc: seq<seq<Track>>, sorted: seq<Placement>)
    requires Shaped(g) && |tpc| == COLS && multiset(sorted) == multiset(Placements(tpc, COLS))
    requires Seated(g, sorted, |sorted|)
    ensures ColumnsMatch(g, tpc)
  {
    assert sorted[..|sorted|] == sorted;
    forall c, t | 0 <= c < COLS ensures Occ(Column(g, c), t) == multiset(tpc[c])[t] {
      PlacementsCount(tpc, COLS, Placement(t, c));
    }
  }

  /** Column `c` of `g` holds no track more often than list `tpc[c]` does. */
  ghost predicate ColumnsWithin(g: Grid, tpc: seq<seq<Track>>)
    requires Shaped(g) && |tpc| == COLS
  {
    forall c, t :: 0 <= c < COLS ==> Occ(Column(g, c), t) <= multiset(tpc[c])[t]
  }

  /** Each list holds tracks of its own column's block, with no id twice. */
  ghost predicate ColumnListsProper(tpc: seq<seq<Track>>)
    requires |tpc| == COLS
  {
    forall c :: 0 <= c < COLS ==>
      DistinctIds(tpc[c]) && forall k :: 0 <= k < |tpc[c]| ==> InColumnRange(tpc[c][k].id, c)
  }

  /** A filled cell holds a track of its column's list. */
  lemma CellFromList(g: Grid, tpc: seq<seq<Track>>, r: int, c: int)
    requires Shaped(g) && |tpc| == COLS && ColumnsWithin(g, tpc) && IsCell(r, c) && g[r][c].Some?
    ensures g[r][c].value in tpc[c]
  {
    OccColumn(g, c, g[r][c].value);
    assert g[r][c].value in multiset(tpc[c]);
  }

  /** A grid whose columns hold only tracks of lists drawn from `tracks`, each list within
      its own column's block, conforms to the blocks and draws from `tracks`. */
  lemma GridFromLists(g: Grid, tpc: seq<seq<Track>>, tracks: seq<Track>)
    requires Shaped(g) && |tpc| == COLS && ColumnsWithin(g, tpc)
    requires forall c, k :: 0 <= c < COLS && 0 <= k < |tpc[c]| ==> tpc[c][k] in tracks && InColumnRange(tpc[c][k].id, c)
    ensures Conforming(g) && FromPool(g, tracks)
  {
    forall r, c | IsCell(r, c) && g[r][c].Some? ensures InColumnRange(g[r][c].value.id, c) && g[r][c].value in tracks {
      CellFromList(g, tpc, r, c);
    }
  }

  /** Grids built from proper column lists put each track in its own column's block and
      never repeat an id; with lists drawn from `tracks`, every track comes from `tracks`. */
  lemma ProperListsGiveProperGrid(g: Grid, tpc: seq<seq<Track>>, tracks: seq<Track>)
    requires Shaped(g) && |tpc| == COLS && ColumnsWithin(g, tpc) && ColumnListsProper(tpc)
    ensures Conforming(g) && NoDuplicates(g)
    ensures (forall c, k :: 0 <= c < COLS && 0 <= k < |tpc[c]| ==> tpc[c][k] in tracks) ==> FromPool(g, tracks)
  {
    forall r, c | IsCell(r, c) && g[r][c].Some? ensures InColumnRange(g[r][c].value.id, c) && g[r][c].value in tpc[c] {
      CellFromList(g, tpc, r, c);
    }
    forall r1, c1, r2, c2 |
      IsCell(r1, c1) && IsCell(r2, c2) && (r1, c1) != (r2, c2) && g[r1][c1].Some? && g[r2][c2].Some?
      ensures g[r1][c1].value.id != g[r2][c2].value.id
    {
      var t1, t2 := g[r1][c1].value, g[r2][c2].value;
      if c1 != c2 {
        DifferentBlocksDifferentIds(t1.id, t2.id, c1, c2);
      } else if t1 == t2 {
        OccColumn(g, c1, t1);
        TwoOccurrences(tpc[c1], t1);
      } else {
        assert t1 in tpc[c1] && t2 in tpc[c1];
        DistinctIdsDifferentTracks(tpc[c1], t1, t2);
      }
    }
  }

  /** Seats placement `i` in `row`: writes the cell and counts it in the row. */
  method SeatAt(grid: array2<Option<Track>>, rowCounts: array<int>, ghost g: Grid, sorted: seq<Placement>, i: int,
               row: int)
    returns (ghost g': Grid)
    requires Holds(grid, g) && rowCounts.Length == ROWS
    requires forall r :: 0 <= r < ROWS ==> rowCounts[r] == RowCount(g, r)
    requires 0 <= i < |sorted| && 0 <= sorted[i].col < COLS && 0 <= row < ROWS
    requires g[row][sorted[i].col].None? && Seated(g, sorted, i)
    modifies grid, rowCounts
    ensures g' == SetCell(g, row, sorted[i].col, Some(sorted[i].track))
    ensures Holds(grid, g') && Seated(g', sorted, i + 1)
    ensures forall r :: 0 <= r < ROWS ==> rowCounts[r] == RowCount(g', r)
  {
    SeatStep(g, sorted, i, row);
    g' := PutTrack(grid, rowCounts, g, row, sorted[i].col, sorted[i].track);
  }

  /** The placement loop of `distributeToGridStrict`: seats every placement of `sorted` in
      order, each in a row that `ChooseRow` picks, and stops with `false` when a placement
      finds no row. On success `grid` holds `g`, `rowCounts` counts its rows, and every column
      holds exactly the tracks placed in it. */
  method SeatAll(grid: array2<Option<Track>>, rowCounts: array<int>, sorted: seq<Placement>)
    returns (seated: bool, ghost g: Grid)
    requires Holds(grid, EmptyGrid()) && rowCounts.Length == ROWS
    requires forall r :: 0 <= r < ROWS ==> rowCounts[r] == 0
    requires forall k :: 0 <= k < |sorted| ==> 0 <= sorted[k].col < COLS
    modifies grid, rowCounts
    ensures Holds(grid, g)
    ensures forall r :: 0 <= r < ROWS ==> rowCounts[r] == RowCount(g, r)
    ensures seated ==> Seated(g, sorted, |sorted|)
  {
    g := EmptyGrid();
    forall r | 0 <= r < ROWS ensures RowCount(g, r) == 0 {
      FilledAllNone(g[r]);
    }
    forall c, t | 0 <= c < COLS ensures Occ(Column(g, c), t) == 0 {
      OccColumn(g, c, t);
    }
    var i := 0;
    while i < |sorted|
      invariant 0 <= i <= |sorted|
      invariant Holds(grid, g)
      invariant forall r :: 0 <= r < ROWS ==> rowCounts[r] == RowCount(g, r)
      invariant Seated(g, sorted, i)
    {
      var p := sorted[i];
      var row := ChooseRow(grid, rowCounts, p.col);
      if row == -1 {
        return false, g;
      }
      g := SeatAt(grid, rowCounts, g, sorted, i, row);
      i := i + 1;
    }
    seated := true;
  }

  /** The row check of the final check: every row holds five tracks. */
  method AllRowsFull(rowCounts: array<int>) returns (ok: bool)
    requires rowCounts.Length == ROWS
    ensures ok <==> forall r :: 0 <= r < ROWS ==> rowCounts[r] == ITEMS_PER_ROW
  {
    var row := 0;
    while row < ROWS
      invariant 0 <= row <= ROWS
      invariant forall r :: 0 <= r < row ==> rowCounts[r] == ITEMS_PER_ROW
    {
      if rowCounts[row] != ITEMS_PER_ROW {
        return false;
      }
      row := row + 1;
    }
    return true;
  }

  /** The full-column count of the final check: the columns whose three cells are filled. */
  method CountFullColumns(view: Grid) returns (fullCols: int)
    requires Shaped(view)
    ensures fullCols == FullColumns(view)
  {
    fullCols := 0;
    var col := 0;
    while col < COLS
      invariant 0 <= col <= COLS
      invariant fullCols == FullColumnsBelow(view, col)
    {
      if ColCount(view, col) == ROWS {
        fullCols := fullCols + 1;
      }
      col := col + 1;
    }
  }

  /** The seating and final checks of `distributeToGridStrict`, for placements already
      shuffled and sorted: a grid with five tracks per row, at most one full column, and
      each column holding exactly its chosen tracks, or `None`. */
  method PlaceSorted(tpc: seq<seq<Track>>, sorted: seq<Placement>) returns (result: Option<Grid>)
    requires |tpc| == COLS && multiset(sorted) == multiset(Placements(tpc, COLS))
    ensures result.Some? ==> Shaped(result.value)
    ensures result.Some? ==> forall r :: 0 <= r < ROWS ==> RowCount(result.value, r) == ITEMS_PER_ROW
    ensures result.Some? ==> FullColumns(result.value) <= 1
    ensures result.Some? ==> ColumnsMatch(result.value, tpc)
  {
    var grid := new Option<Track>[ROWS, COLS]((_, _) => None);
    var rowCounts := new int[ROWS](_ => 0);
    PlacementColumns(tpc, sorted);
    var seated, g := SeatAll(grid, rowCounts, sorted);
    if !seated {
      return None;
    }
    SeatedMatches(g, tpc, sorted);
    var view := ReadGrid(grid);
    GridExt(view, g);

    var rowsFull := AllRowsFull(rowCounts);
    if !rowsFull {
      return None;
    }
    forall r | 0 <= r < ROWS ensures RowCount(view, r) == ITEMS_PER_ROW {
      assert rowCounts[r] == RowCount(g, r) == ITEMS_PER_ROW;
    }
    var fullCols := CountFullColumns(view);
    if fullCols > 1 {
      return None;
    }
    result := Some(view);
  }

  /** `distributeToGridStrict`. `None` stands for null. */
  method DistributeToGridStrict(tpc: seq<seq<Track>>) returns (result: Option<Grid>)
    requires |tpc| == COLS
    ensures Sum(Lengths(tpc)) != TOTAL_ITEMS_PER_TICKET ==> result.None?
    ensures result.Some? ==> Shaped(result.value)
    ensures result.Some? ==> forall r :: 0 <= r < ROWS ==> RowCount(result.value, r) == ITEMS_PER_ROW
    ensures result.Some? ==> FullColumns(result.value) <= 1
    ensures result.Some? ==> ColumnsMatch(result.value, tpc)
  {
    var allPlacements := CollectPlacements(tpc);
    PlacementsLength(tpc, COLS);
    assert Lengths(tpc)[..COLS] == Lengths(tpc);
    if |allPlacements| != TOTAL_ITEMS_PER_TICKET {
      return None;
    }
    var shuffled := Shuffle(allPlacements);
    var sorted := SortDesc(shuffled, (p: Placement) => ColLen(tpc, p.col));
    result := PlaceSorted(tpc, sorted);
  }
}

/** `generateFallbackTicket` (src/lib/ticketLogic.ts): the fixed template [2,2,2,1,2,2,2,1,1]
    and a greedy placer that puts every track in the least-filled free row of its column.
    The placer keeps the three rows within one track of each other, so it seats every chosen
    track, and with all fifteen chosen it fills each row with exactly five. */
module Fallback {
  import opened TicketTypes
  import opened Seqs
  import opened Grids
  import opened Tracks
  import opened Shuffling
  import opened Distribution
  import opened StrictPlacement
  import opened Selection
  import opened TicketIds

  // ---- the greedy row choice on grid values ----

  ghost function RowSum(g: Grid): int
    requires Shaped(g)
  {
    RowCount(g, 0) + RowCount(g, 1) + RowCount(g, 2)
  }

  /** No row holds more than one track more than another. */
  ghost predicate Balanced(g: Grid)
    requires Shaped(g)
  {
    forall r1, r2 :: 0 <= r1 < ROWS && 0 <= r2 < ROWS ==> RowCount(g, r1) <= RowCount(g, r2) + 1
  }

  /** In column `col`, every filled row holds at least as many tracks as every empty row. */
  ghost predicate OccupiedHeavier(g: Grid, col: int)
    requires Shaped(g) && 0 <= col < COLS
  {
    forall o, u :: 0 <= o < ROWS && 0 <= u < ROWS && g[o][col].Some? && g[u][col].None? ==>
      RowCount(g, o) >= RowCount(g, u)
  }

  /** Row `r` can take a track of column `col`. */
  ghost predicate Eligible(g: Grid, r: int, col: int)
    requires Shaped(g) && 0 <= r < ROWS && 0 <= col < COLS
  {
    g[r][col].None? && RowCount(g, r) < ITEMS_PER_ROW
  }

  ghost predicate ColumnHolds(g: Grid, c: int, ts: seq<Track>)
    requires Shaped(g) && 0 <= c < COLS
  {
    forall t :: Occ(Column(g, c), t) == multiset(ts)[t]
  }

  ghost predicate ColumnEmpty(g: Grid, c: int)
    requires Shaped(g) && 0 <= c < COLS
  {
    forall r :: 0 <= r < ROWS ==> Column(g, c)[r].None?
  }

  /** While fewer than fifteen tracks are seated and column `col` has a free row, some free
      row of the column holds the fewest tracks of all rows, and so can take a track. */
  lemma LightestFreeRow(g: Grid, col: int) returns (y: int)
    requires Shaped(g) && 0 <= col < COLS
    requires Balanced(g) && OccupiedHeavier(g, col)
    requires ColCount(g, col) < ROWS && RowSum(g) < TOTAL_ITEMS_PER_TICKET
    ensures 0 <= y < ROWS && Eligible(g, y, col)
    ensures forall r :: 0 <= r < ROWS ==> RowCount(g, y) <= RowCount(g, r)
  {
    ColCountCells(g, col);
    var u := if g[0][col].None? then 0 else if g[1][col].None? then 1 else 2;
    var x := if RowCount(g, 0) <= RowCount(g, 1) && RowCount(g, 0) <= RowCount(g, 2) then 0
             else if RowCount(g, 1) <= RowCount(g, 2) then 1 else 2;
    y := if g[x][col].None? then x else u;
  }

  /** Seating a track in the least-filled eligible row keeps the rows balanced and keeps
      the filled rows of the column at least as heavy as its empty ones. */
  lemma GreedyStep(g: Grid, col: int, row: int, t: Track)
    requires Shaped(g) && 0 <= col < COLS && 0 <= row < ROWS
    requires Balanced(g) && OccupiedHeavier(g, col)
    requires ColCount(g, col) < ROWS && RowSum(g) < TOTAL_ITEMS_PER_TICKET
    requires Eligible(g, row, col)
    requires forall r :: 0 <= r < ROWS && Eligible(g, r, col) ==> RowCount(g, row) <= RowCount(g, r)
    ensures var g' := SetCell(g, row, col, Some(t));
      Balanced(g') && OccupiedHeavier(g', col) && RowSum(g') == RowSum(g) + 1
  {
    var y := LightestFreeRow(g, col);
    var g' := SetCell(g, row, col, Some(t));
    SetCellCounts(g, row, col, Some(t));
    assert forall r :: 0 <= r < ROWS ==> RowCount(g, row) <= RowCount(g, r);
  }

  /** Balanced rows holding fifteen tracks hold five each; holding at most fifteen, at
      most five each. */
  lemma BalancedRows(g: Grid)
    requires Shaped(g) && Balanced(g) && RowSum(g) <= TOTAL_ITEMS_PER_TICKET
    ensures forall r :: 0 <= r < ROWS ==> RowCount(g, r) <= ITEMS_PER_ROW
    ensures RowSum(g) == TOTAL_ITEMS_PER_TICKET ==> forall r :: 0 <= r < ROWS ==> RowCount(g, r) == ITEMS_PER_ROW
  {
  }

  /** An empty column has no filled row to compare. */
  lemma EmptyColumnHeavier(g: Grid, col: int)
    requires Shaped(g) && 0 <= col < COLS && ColumnEmpty(g, col)
    ensures OccupiedHeavier(g, col)
  {
    forall o | 0 <= o < ROWS ensures g[o][col].None? {
      assert Column(g, col)[o].None?;
    }
  }

  // ---- the placer on the 3x9 array ----

  /** The row scan: the first row with an empty cell in `col`, room left, and the fewest
      tracks (strictly fewer than every earlier candidate), or -1. */
  method LeastFilledRow(grid: array2<Option<Track>>, rowCounts: array<int>, col: int) returns (bestRow: int)
    requires grid.Length0 == ROWS && grid.Length1 == COLS && rowCounts.Length == ROWS
    requires 0 <= col < COLS
    ensures bestRow == -1 <==> forall r :: 0 <= r < ROWS ==> !Available(grid, rowCounts, r, col)
    ensures bestRow != -1 ==> 0 <= bestRow < ROWS && Available(grid, rowCounts, bestRow, col)
    ensures bestRow != -1 ==> forall r :: 0 <= r < ROWS && Available(grid, rowCounts, r, col) ==>
                                rowCounts[bestRow] <= rowCounts[r]
    ensures bestRow != -1 ==> forall r :: 0 <= r < bestRow && Available(grid, rowCounts, r, col) ==>
                                rowCounts[bestRow] < rowCounts[r]
  {
    bestRow := -1;
    var minCount := ITEMS_PER_ROW + 1;
    var r := 0;
    while r < ROWS
      invariant 0 <= r <= ROWS && -1 <= bestRow < r
      invariant bestRow == -1 ==> minCount == ITEMS_PER_ROW + 1
      invariant bestRow == -1 ==> forall x :: 0 <= x < r ==> !Available(grid, rowCounts, x, col)
      invariant bestRow != -1 ==> Available(grid, rowCounts, bestRow, col) && minCount == rowCounts[bestRow]
      invariant bestRow != -1 ==> forall x :: 0 <= x < r && Available(grid, rowCounts, x, col) ==>
                                    minCount <= rowCounts[x]
      invariant bestRow != -1 ==> forall x :: 0 <= x < bestRow && Available(grid, rowCounts, x, col) ==>
                                    minCount < rowCounts[x]
    {
      if grid[r, col] == None && rowCounts[r] < ITEMS_PER_ROW && rowCounts[r] < minCount {
        minCount := rowCounts[r];
        bestRow := r;
      }
      r := r + 1;
    }
  }

  /** One pass of the inner loop: seats track `t` of column `col` in the row
      `LeastFilledRow` picks. Such a row always exists here. */
  method SeatOne(grid: array2<Option<Track>>, rowCounts: array<int>, col: int, t: Track, ghost g: Grid)
    returns (ghost g': Grid)
    requires Holds(grid, g) && rowCounts.Length == ROWS && 0 <= col < COLS
    requires forall r :: 0 <= r < ROWS ==> rowCounts[r] == RowCount(g, r)
    requires Balanced(g) && OccupiedHeavier(g, col)
    requires ColCount(g, col) < ROWS && RowSum(g) < TOTAL_ITEMS_PER_TICKET
    modifies grid, rowCounts
    ensures Holds(grid, g')
    ensures forall r :: 0 <= r < ROWS ==> rowCounts[r] == RowCount(g', r)
    ensures Balanced(g') && OccupiedHeavier(g', col) && RowSum(g') == RowSum(g) + 1
    ensures ColCount(g', col) == ColCount(g, col) + 1
    ensures forall u :: Occ(Column(g', col), u) == Occ(Column(g, col), u) + Ind(u == t)
    ensures forall c :: 0 <= c < COLS && c != col ==> Column(g', c) == Column(g, c)
  {
    var bestRow := LeastFilledRow(grid, rowCounts, col);
    var y := LightestFreeRow(g, col);
    assert Available(grid, rowCounts, y, col);
    g' := g;
    if bestRow != -1 {
      forall r | 0 <= r < ROWS && Eligible(g, r, col) ensures RowCount(g, bestRow) <= RowCount(g, r) {
        assert Available(grid, rowCounts, r, col);
      }
      GreedyStep(g, col, bestRow, t);
      SetCellCounts(g, bestRow, col, Some(t));
      g' := PutTrack(grid, rowCounts, g, bestRow, col, t);
    }
  }

  /** The inner loop for one column: seats the tracks `ts` of the empty column `col`, each
      in the row `LeastFilledRow` picks. Every track finds a row. */
  method PlaceColumn(grid: array2<Option<Track>>, rowCounts: array<int>, col: int, ts: seq<Track>, ghost g: Grid)
    returns (ghost g': Grid)
    requires Holds(grid, g) && rowCounts.Length == ROWS && 0 <= col < COLS
    requires forall r :: 0 <= r < ROWS ==> rowCounts[r] == RowCount(g, r)
    requires Balanced(g) && ColumnEmpty(g, col)
    requires |ts| < ROWS && RowSum(g) + |ts| <= TOTAL_ITEMS_PER_TICKET
    modifies grid, rowCounts
    ensures Holds(grid, g')
    ensures forall r :: 0 <= r < ROWS ==> rowCounts[r] == RowCount(g', r)
    ensures Balanced(g') && RowSum(g') == RowSum(g) + |ts|
    ensures ColumnHolds(g', col, ts) && ColCount(g', col) == |ts|
    ensures forall c :: 0 <= c < COLS && c != col ==> Column(g', c) == Column(g, c)
  {
    g' := g;
    ColCountCells(g, col);
    EmptyColumnHeavier(g, col);
    forall t ensures Occ(Column(g, col), t) == multiset(ts[..0])[t] {
      OccColumn(g, col, t);
    }
    var k := 0;
    while k < |ts|
      invariant 0 <= k <= |ts|
      invariant Holds(grid, g')
      invariant forall r :: 0 <= r < ROWS ==> rowCounts[r] == RowCount(g', r)
      invariant Balanced(g') && OccupiedHeavier(g', col) && RowSum(g') == RowSum(g) + k
      invariant ColumnHolds(g', col, ts[..k]) && ColCount(g', col) == k
      invariant forall c :: 0 <= c < COLS && c != col ==> Column(g', c) == Column(g, c)
    {
      assert ts[..k + 1] == ts[..k] + [ts[k]];
      g' := SeatOne(grid, rowCounts, col, ts[k], g');
      k := k + 1;
    }
    assert ts[..k] == ts;
  }

  /** `Array.from({ length: COLS }, (_, i) => i)`. */
  function ColumnIndices(): (r: seq<int>)
    ensures |r| == COLS && forall i :: 0 <= i < COLS ==> r[i] == i
  {
    seq(COLS, i => i)
  }

  /** A reordering of the column indices names every column exactly once. */
  lemma OrderCoversColumns(order: seq<int>)
    requires multiset(order) == multiset(ColumnIndices())
    ensures |order| == COLS
    ensures forall i :: 0 <= i < COLS ==> 0 <= order[i] < COLS
    ensures forall i, j :: 0 <= i < j < COLS ==> order[i] != order[j]
    ensures forall c :: 0 <= c < COLS ==> c in order
  {
    var cols := ColumnIndices();
    assert |order| == |multiset(order)| == |multiset(cols)| == COLS;
    forall i | 0 <= i < COLS ensures 0 <= order[i] < COLS {
      assert order[i] in multiset(cols);
    }
    forall i, j | 0 <= i < j < COLS ensures order[i] != order[j] {
      OrderEntriesDiffer(order, i, j);
    }
    forall c | 0 <= c < COLS ensures c in order {
      assert cols[c] == c;
      assert c in multiset(order);
    }
  }

  lemma OrderEntriesDiffer(order: seq<int>, i: int, j: int)
    requires multiset(order) == multiset(ColumnIndices()) && 0 <= i < j < |order|
    ensures order[i] != order[j]
  {
    var x := order[i];
    if order[j] == x {
      assert multiset(order)[x] >= 2 by {
        assert order == order[..i] + [x] + order[i + 1..j] + [x] + order[j + 1..];
      }
      TwoOccurrences(ColumnIndices(), x);
    }
  }

  /** The list lengths, taken in column order `order`, sum to at most fifteen: each list
      is no longer than its fallback count. */
  lemma FallbackTotal(tpc: seq<seq<Track>>, order: seq<int>)
    requires |tpc| == COLS && forall c :: 0 <= c < COLS ==> |tpc[c]| <= FALLBACK_COUNTS[c]
    requires multiset(order) == multiset(ColumnIndices())
    ensures var lens := MapSeq(order, (c: int) => ColLen(tpc, c));
      && Sum(lens) == Sum(Lengths(tpc)) <= TOTAL_ITEMS_PER_TICKET
      && forall i :: 0 <= i < |lens| ==> lens[i] >= 0
  {
    var len := (c: int) => ColLen(tpc, c);
    MapPermutation(order, ColumnIndices(), len);
    assert MapSeq(ColumnIndices(), len) == Lengths(tpc);
    SumPermutation(MapSeq(order, len), Lengths(tpc));
    FallbackCounts();
    SumAtMost(Lengths(tpc), FALLBACK_COUNTS);
  }

  /** The outer loop of the placer, over the columns in the order `colsByCount`. On exit
      every column holds exactly its list, the rows stay balanced, and the grid holds as
      many tracks as the lists. */
  method PlaceInOrder(grid: array2<Option<Track>>, rowCounts: array<int>, tpc: seq<seq<Track>>, colsByCount: seq<int>)
    returns (ghost h: Grid)
    requires Holds(grid, EmptyGrid()) && rowCounts.Length == ROWS
    requires forall r :: 0 <= r < ROWS ==> rowCounts[r] == 0
    requires |tpc| == COLS && forall c :: 0 <= c < COLS ==> |tpc[c]| <= FALLBACK_COUNTS[c]
    requires multiset(colsByCount) == multiset(ColumnIndices())
    modifies grid, rowCounts
    ensures Holds(grid, h) && Balanced(h) && RowSum(h) == Sum(Lengths(tpc))
    ensures forall c :: 0 <= c < COLS ==> ColumnHolds(h, c, tpc[c]) && ColCount(h, c) == |tpc[c]|
  {
    ghost var lens := MapSeq(colsByCount, (c: int) => ColLen(tpc, c));
    PlanHolds(tpc, colsByCount, lens);
    h := EmptyGrid();
    PlacedNothing(grid, rowCounts, tpc, colsByCount, lens);
    var j := 0;
    while j < COLS
      invariant PlacedUpTo(grid, rowCounts, h, tpc, colsByCount, lens, j)
    {
      h := PlaceNext(grid, rowCounts, tpc, colsByCount, lens, j, h);
      j := j + 1;
    }
    PlacedAll(grid, rowCounts, h, tpc, colsByCount, lens);
  }

  /** What the outer loop relies on: `order` names every column once, `lens` lists the
      lengths of their lists in that order, and those lengths fit the ticket. */
  ghost predicate Plan(tpc: seq<seq<Track>>, order: seq<int>, lens: seq<int>)
  {
    && |tpc| == COLS && |order| == COLS && |lens| == COLS
    && (forall c :: 0 <= c < COLS ==> |tpc[c]| < ROWS && c in order)
    && (forall i :: 0 <= i < COLS ==> 0 <= order[i] < COLS && lens[i] == |tpc[order[i]]|)
    && Sum(lens) == Sum(Lengths(tpc)) <= TOTAL_ITEMS_PER_TICKET
    && (forall i, k :: 0 <= i < k < COLS ==> order[i] != order[k])
  }

  lemma PlanHolds(tpc: seq<seq<Track>>, order: seq<int>, lens: seq<int>)
    requires |tpc| == COLS && forall c :: 0 <= c < COLS ==> |tpc[c]| <= FALLBACK_COUNTS[c]
    requires multiset(order) == multiset(ColumnIndices())
    requires lens == MapSeq(order, (c: int) => ColLen(tpc, c))
    ensures Plan(tpc, order, lens)
  {
    OrderCoversColumns(order);
    FallbackTotal(tpc, order);
    FallbackCounts();
  }

  /** Before the first column the grid is empty and balanced. */
  lemma PlacedNothing(grid: array2<Option<Track>>, rowCounts: array<int>, tpc: seq<seq<Track>>,
                      order: seq<int>, lens: seq<int>)
    requires Holds(grid, EmptyGrid()) && rowCounts.Length == ROWS
    requires forall r :: 0 <= r < ROWS ==> rowCounts[r] == 0
    requires Plan(tpc, order, lens)
    ensures PlacedUpTo(grid, rowCounts, EmptyGrid(), tpc, order, lens, 0)
  {
    var h := EmptyGrid();
    forall r | 0 <= r < ROWS ensures RowCount(h, r) == 0 {
      FilledAllNone(h[r]);
    }
    assert lens[..0] == [];
  }

  /** After the last column every column holds its list. */
  lemma PlacedAll(grid: array2<Option<Track>>, rowCounts: array<int>, h: Grid, tpc: seq<seq<Track>>,
                  order: seq<int>, lens: seq<int>)
    requires PlacedUpTo(grid, rowCounts, h, tpc, order, lens, COLS) && Plan(tpc, order, lens)
    ensures Holds(grid, h) && Balanced(h) && RowSum(h) == Sum(Lengths(tpc))
    ensures forall c :: 0 <= c < COLS ==> ColumnHolds(h, c, tpc[c]) && ColCount(h, c) == |tpc[c]|
  {
    assert lens[..COLS] == lens;
    forall c | 0 <= c < COLS ensures ColumnHolds(h, c, tpc[c]) && ColCount(h, c) == |tpc[c]| {
      assert c in order;
      var i :| 0 <= i < COLS && order[i] == c;
    }
  }

  /** The state of the outer loop after `j` columns: those columns of `order` hold their
      lists, the others are empty, the rows are balanced and `rowCounts` counts them. */
  ghost predicate PlacedUpTo(grid: array2<Option<Track>>, rowCounts: array<int>, h: Grid, tpc: seq<seq<Track>>,
                             order: seq<int>, lens: seq<int>, j: int)
    reads grid, rowCounts
  {
    && |tpc| == COLS && |order| == COLS && |lens| == COLS && 0 <= j <= COLS && rowCounts.Length == ROWS
    && (forall i :: 0 <= i < COLS ==> 0 <= order[i] < COLS)
    && Holds(grid, h)
    && (forall r :: 0 <= r < ROWS ==> rowCounts[r] == RowCount(h, r))
    && Balanced(h) && RowSum(h) == Sum(lens[..j])
    && (forall i :: 0 <= i < j ==> ColumnHolds(h, order[i], tpc[order[i]]) && ColCount(h, order[i]) == |tpc[order[i]]|)
    && (forall i :: j <= i < COLS ==> ColumnEmpty(h, order[i]))
  }

  /** One pass of the outer loop: the column `order[j]` takes its list. */
  method PlaceNext(grid: array2<Option<Track>>, rowCounts: array<int>, tpc: seq<seq<Track>>, order: seq<int>,
                   ghost lens: seq<int>, j: int, ghost h: Grid)
    returns (ghost h': Grid)
    requires PlacedUpTo(grid, rowCounts, h, tpc, order, lens, j) && j < COLS
    requires Plan(tpc, order, lens)
    modifies grid, rowCounts
    ensures PlacedUpTo(grid, rowCounts, h', tpc, order, lens, j + 1)
  {
    var col := order[j];
    SumStep(lens, j);
    SumPrefixAtMost(lens, j + 1);
    h' := PlaceColumn(grid, rowCounts, col, tpc[col], h);
    forall i | 0 <= i < COLS && i != j ensures Column(h', order[i]) == Column(h, order[i]) { }
  }

  /** The placer of `generateFallbackTicket`, from the chosen lists to the grid. */
  method PlaceFallback(tpc: seq<seq<Track>>) returns (g: Grid)
    requires |tpc| == COLS && forall c :: 0 <= c < COLS ==> |tpc[c]| <= FALLBACK_COUNTS[c]
    ensures Shaped(g) && ColumnsMatch(g, tpc)
    ensures forall c :: 0 <= c < COLS ==> ColCount(g, c) == |tpc[c]|
    ensures Balanced(g) && RowSum(g) == Sum(Lengths(tpc))
    ensures forall r :: 0 <= r < ROWS ==> RowCount(g, r) <= ITEMS_PER_ROW
    ensures FullColumns(g) == 0
    ensures Sum(Lengths(tpc)) == TOTAL_ITEMS_PER_TICKET ==>
              forall r :: 0 <= r < ROWS ==> RowCount(g, r) == ITEMS_PER_ROW
  {
    var grid := new Option<Track>[ROWS, COLS]((_, _) => None);
    var rowCounts := new int[ROWS](_ => 0);
    var colsByCount := SortDesc(ColumnIndices(), (c: int) => ColLen(tpc, c));
    ghost var h := PlaceInOrder(grid, rowCounts, tpc, colsByCount);
    g := ReadGrid(grid);
    GridExt(g, h);
    FallbackCounts();
    FallbackTotal(tpc, ColumnIndices());
    BalancedRows(g);
    NoFullColumns(g, COLS);
  }

  /** Every column of `tracks` has at least as many tracks as the fallback template asks. */
  ghost predicate FallbackSupply(tracks: seq<Track>)
  {
    forall c :: 0 <= c < COLS ==> |TracksForColumn(tracks, c)| >= FALLBACK_COUNTS[c]
  }

  /** In each column, a track outside `priority` sits on the grid only when every priority
      track of the column does. */
  ghost predicate PriorityFirst(g: Grid, tracks: seq<Track>, priority: set<int>)
    requires Shaped(g)
  {
    forall c, t, t' ::
      (0 <= c < COLS && t in TracksForColumn(tracks, c) && t.id in priority &&
       Occ(Column(g, c), t') > 0 && t'.id !in priority) ==> Occ(Column(g, c), t) > 0
  }

  /** Prefixes of priority-first orders keep priority-first on the grid. */
  lemma PrefixKeepsPriority(g: Grid, tracks: seq<Track>, priority: set<int>, selected: seq<seq<Track>>)
    requires Shaped(g) && ColumnOrders(tracks, selected)
    requires forall c, i, j :: 0 <= c < COLS && 0 <= i < j < |selected[c]| && selected[c][j].id in priority ==>
               selected[c][i].id in priority
    requires ColumnsMatch(g, TakeCounts(selected, FALLBACK_COUNTS))
    ensures PriorityFirst(g, tracks, priority)
  {
    FallbackCounts();
    var tpc := TakeCounts(selected, FALLBACK_COUNTS);
    forall c, t, t' |
      0 <= c < COLS && t in TracksForColumn(tracks, c) && t.id in priority &&
      Occ(Column(g, c), t') > 0 && t'.id !in priority
      ensures Occ(Column(g, c), t) > 0
    {
      var sel := selected[c];
      var n := |tpc[c]|;
      assert t' in multiset(tpc[c]);
      var i' :| 0 <= i' < n && tpc[c][i'] == t';
      assert sel[i'] == t';
      assert t in multiset(sel);
      var j :| 0 <= j < |sel| && sel[j] == t;
      assert j < n;
      assert tpc[c][j] == t;
    }
  }

  /** `generateFallbackTicket`: the column lists cut to the fallback template, placed by
      the greedy placer. The ticket never has a full column; every chosen track is seated;
      with enough tracks in every column it is a valid ticket; with a non-empty priority
      set, priority tracks of a column are seated before the others. */
  method GenerateFallbackTicket(tracks: seq<Track>, ticketNumber: nat, priority: set<int>) returns (t: Ticket)
    ensures WellFormedTicket(t) && t.id == TicketId(ticketNumber)
    ensures Conforming(TrackGrid(t)) && FromPool(TrackGrid(t), tracks)
    ensures DistinctIds(tracks) ==> NoDuplicates(TrackGrid(t))
    ensures forall c :: 0 <= c < COLS ==>
              ColCount(TrackGrid(t), c) == Min(FALLBACK_COUNTS[c], |TracksForColumn(tracks, c)|)
    ensures Balanced(TrackGrid(t))
    ensures forall r :: 0 <= r < ROWS ==> RowCount(TrackGrid(t), r) <= ITEMS_PER_ROW
    ensures FullColumns(TrackGrid(t)) == 0
    ensures FallbackSupply(tracks) ==> forall r :: 0 <= r < ROWS ==> RowCount(TrackGrid(t), r) == ITEMS_PER_ROW
    ensures DistinctIds(tracks) && FallbackSupply(tracks) ==> ValidTicket(t)
    ensures |priority| > 0 ==> PriorityFirst(TrackGrid(t), tracks, priority)
  {
    FallbackCounts();
    var selected := SelectByColumn(tracks, priority, 1.0);
    var tracksPerColumn := TakeCounts(selected, FALLBACK_COUNTS);
    TakenLists(tracks, selected, FALLBACK_COUNTS);
    var g := PlaceFallback(tracksPerColumn);
    t := BuildTicket(TicketId(ticketNumber), g);
    GridFromLists(g, tracksPerColumn, tracks);
    if DistinctIds(tracks) {
      ProperListsGiveProperGrid(g, tracksPerColumn, tracks);
    }
    if FallbackSupply(tracks) {
      assert Lengths(tracksPerColumn) == FALLBACK_COUNTS;
    }
    if |priority| > 0 {
      PrefixKeepsPriority(g, tracks, priority, selected);
    }
  }
}

/** The 3x9 grid of a ticket as a value, the counts the engine checks, and how they change
    when one cell is written. */
module Grids {
  import opened TicketTypes

  /** `grid[row][col]`: the track in a cell, or None for an empty cell. */
  type Grid = seq<seq<Option<Track>>>

  predicate Shaped(g: Grid)
  {
    |g| == ROWS && forall r :: 0 <= r < ROWS ==> |g[r]| == COLS
  }

  /** The tracks of the filled cells of `s`, in order (`s.filter(c => c !== null)`). */
  function Filled(s: seq<Option<Track>>): (r: seq<Track>)
    ensures |r| <= |s|
  {
    if s == [] then []
    else Filled(s[..|s| - 1]) + (if s[|s| - 1].Some? then [s[|s| - 1].value] else [])
  }

  /** The column `c` of a grid, top to bottom. */
  function Column(g: Grid, c: int): (col: seq<Option<Track>>)
    requires Shaped(g) && 0 <= c < COLS
    ensures |col| == ROWS && forall r :: 0 <= r < ROWS ==> col[r] == g[r][c]
  {
    [g[0][c], g[1][c], g[2][c]]
  }

  function RowCount(g: Grid, r: int): nat
    requires Shaped(g) && 0 <= r < ROWS
  {
    |Filled(g[r])|
  }

  function ColCount(g: Grid, c: int): nat
    requires Shaped(g) && 0 <= c < COLS
  {
    |Filled(Column(g, c))|
  }

  /** Number of full columns among the first `n`. */
  function FullColumnsBelow(g: Grid, n: int): nat
    requires Shaped(g) && 0 <= n <= COLS
  {
    if n == 0 then 0
    else FullColumnsBelow(g, n - 1) + (if ColCount(g, n - 1) == ROWS then 1 else 0)
  }

  function FullColumns(g: Grid): nat
    requires Shaped(g)
  {
    FullColumnsBelow(g, COLS)
  }

  /** The set of full columns. */
  function FullColumnSet(g: Grid, n: int): set<int>
    requires Shaped(g) && 0 <= n <= COLS
  {
    set c | 0 <= c < n && ColCount(g, c) == ROWS
  }

  /** `FullColumns` is the number of columns whose three cells are filled. */
  lemma {:induction false} FullColumnsCountsFullSet(g: Grid, n: int)
    requires Shaped(g) && 0 <= n <= COLS
    ensures FullColumnsBelow(g, n) == |FullColumnSet(g, n)|
  {
    if n > 0 {
      FullColumnsCountsFullSet(g, n - 1);
      FullColumnSetStep(g, n);
    } else {
      assert FullColumnSet(g, n) == {};
    }
  }

  /** Column `n - 1` joins the set of full columns exactly when it is full. */
  lemma FullColumnSetStep(g: Grid, n: int)
    requires Shaped(g) && 0 < n <= COLS
    ensures |FullColumnSet(g, n)| == |FullColumnSet(g, n - 1)| + if ColCount(g, n - 1) == ROWS then 1 else 0
  {
    var below := FullColumnSet(g, n - 1);
    assert n - 1 !in below;
    if ColCount(g, n - 1) == ROWS {
      assert FullColumnSet(g, n) == below + {n - 1};
    } else {
      assert FullColumnSet(g, n) == below;
    }
  }

  /** Cell (r1, c1) precedes cell (r2, c2) in row-major order. */
  predicate Before(r1: int, c1: int, r2: int, c2: int)
  {
    r1 < r2 || (r1 == r2 && c1 < c2)
  }

  predicate IsCell(r: int, c: int)
  {
    0 <= r < ROWS && 0 <= c < COLS
  }

  /** Two different filled cells hold tracks with the same id `x`. */
  ghost predicate IsDuplicated(g: Grid, x: int)
    requires Shaped(g)
  {
    exists r1, c1, r2, c2 ::
      IsCell(r1, c1) && IsCell(r2, c2) && Before(r1, c1, r2, c2) &&
      g[r1][c1].Some? && g[r2][c2].Some? &&
      g[r1][c1].value.id == x && g[r2][c2].value.id == x
  }

  /** No two different filled cells hold tracks with the same id. */
  ghost predicate NoDuplicates(g: Grid)
    requires Shaped(g)
  {
    forall r1, c1, r2, c2 ::
      (IsCell(r1, c1) && IsCell(r2, c2) && (r1, c1) != (r2, c2) &&
       g[r1][c1].Some? && g[r2][c2].Some?) ==> g[r1][c1].value.id != g[r2][c2].value.id
  }

  lemma NoDuplicatesIffNoneDuplicated(g: Grid)
    requires Shaped(g)
    ensures NoDuplicates(g) <==> forall x :: !IsDuplicated(g, x)
  {
    if !NoDuplicates(g) {
      var r1, c1, r2, c2 :| IsCell(r1, c1) && IsCell(r2, c2) && (r1, c1) != (r2, c2) &&
        g[r1][c1].Some? && g[r2][c2].Some? && g[r1][c1].value.id == g[r2][c2].value.id;
      if Before(r1, c1, r2, c2) {
        assert IsDuplicated(g, g[r1][c1].value.id);
      } else {
        assert IsDuplicated(g, g[r2][c2].value.id);
      }
    }
  }

  /** The three checks of a valid ticket: five filled cells per row, no repeated track id,
      at most one full column. */
  ghost predicate ValidGrid(g: Grid)
  {
    && Shaped(g)
    && (forall r :: 0 <= r < ROWS ==> RowCount(g, r) == ITEMS_PER_ROW)
    && NoDuplicates(g)
    && FullColumns(g) <= 1
  }

  /** Every filled cell holds a track from its column's id block. */
  ghost predicate Conforming(g: Grid)
    requires Shaped(g)
  {
    forall r, c :: IsCell(r, c) && g[r][c].Some? ==> InColumnRange(g[r][c].value.id, c)
  }

  /** Every filled cell holds one of `tracks`. */
  ghost predicate FromPool(g: Grid, tracks: seq<Track>)
    requires Shaped(g)
  {
    forall r, c :: IsCell(r, c) && g[r][c].Some? ==> g[r][c].value in tracks
  }

  /** A fresh grid: every cell empty. */
  function EmptyGrid(): (g: Grid)
    ensures Shaped(g)
    ensures forall r, c :: IsCell(r, c) ==> g[r][c].None?
  {
    seq(ROWS, r => seq(COLS, c => None))
  }

  function SetCell(g: Grid, r: int, c: int, v: Option<Track>): (g': Grid)
    requires Shaped(g) && IsCell(r, c)
    ensures Shaped(g')
  {
    g[r := g[r][c := v]]
  }

  // ---- how one write changes the counts ----

  /** The track of a cell as a sequence of zero or one tracks. */
  function Opt(v: Option<Track>): (r: seq<Track>)
    ensures |r| == if v.Some? then 1 else 0
  {
    if v.Some? then [v.value] else []
  }

  function Ind(b: bool): nat
  {
    if b then 1 else 0
  }

  /** How many entries of `s` hold track `t`. */
  function Occ(s: seq<Option<Track>>, t: Track): nat
  {
    if s == [] then 0
    else Occ(s[..|s| - 1], t) + Ind(s[|s| - 1] == Some(t))
  }

  lemma FilledSnoc(p: seq<Option<Track>>, x: Option<Track>)
    ensures Filled(p + [x]) == Filled(p) + Opt(x)
    ensures forall t :: Occ(p + [x], t) == Occ(p, t) + Ind(x == Some(t))
  {
    assert (p + [x])[..|p|] == p;
  }

  /** Overwriting entry i with `v` removes the old entry and adds `v`, both in the number of
      filled entries and in the number of occurrences of every track. */
  lemma {:induction false} FilledUpdate(s: seq<Option<Track>>, i: int, v: Option<Track>)
    requires 0 <= i < |s|
    ensures |Filled(s[i := v])| + |Opt(s[i])| == |Filled(s)| + |Opt(v)|
    ensures forall t :: Occ(s[i := v], t) + Ind(s[i] == Some(t)) == Occ(s, t) + Ind(v == Some(t))
    decreases |s|
  {
    var n := |s| - 1;
    var p := s[..n];
    var s' := s[i := v];
    assert s == p + [s[n]];
    FilledSnoc(p, s[n]);
    if i == n {
      assert s' == p + [v];
      FilledSnoc(p, v);
    } else {
      var q := p[i := v];
      assert s' == q + [s[n]];
      FilledSnoc(q, s[n]);
      FilledUpdate(p, i, v);
    }
  }

  /** A track occurs in `s` exactly when some entry holds it. */
  lemma {:induction false} OccPositive(s: seq<Option<Track>>, t: Track)
    ensures Occ(s, t) > 0 <==> exists i :: 0 <= i < |s| && s[i] == Some(t)
    decreases |s|
  {
    if s != [] {
      var p := s[..|s| - 1];
      OccPositive(p, t);
      if Occ(p, t) > 0 {
        var i :| 0 <= i < |p| && p[i] == Some(t);
        assert s[i] == Some(t);
      }
      if exists i :: 0 <= i < |s| && s[i] == Some(t) {
        var i :| 0 <= i < |s| && s[i] == Some(t);
        if i < |p| { assert p[i] == Some(t); }
      }
    }
  }

  /** Writing `v` into cell (r, c): row r and column c change as `FilledUpdate` says;
      every other row and column is unchanged. */
  lemma SetCellCounts(g: Grid, r: int, c: int, v: Option<Track>)
    requires Shaped(g) && IsCell(r, c)
    ensures var g' := SetCell(g, r, c, v);
      var d := |Opt(v)| - |Opt(g[r][c])|;
      && RowCount(g', r) == RowCount(g, r) + d
      && ColCount(g', c) == ColCount(g, c) + d
      && (forall r' :: 0 <= r' < ROWS && r' != r ==> RowCount(g', r') == RowCount(g, r'))
      && (forall c' :: 0 <= c' < COLS && c' != c ==> Column(g', c') == Column(g, c'))
      && Column(g', c) == Column(g, c)[r := v]
      && (forall t :: Occ(Column(g', c), t) + Ind(g[r][c] == Some(t)) == Occ(Column(g, c), t) + Ind(v == Some(t)))
  {
    var g' := SetCell(g, r, c, v);
    FilledUpdate(g[r], c, v);
    assert Column(g', c) == Column(g, c)[r := v];
    FilledUpdate(Column(g, c), r, v);
  }

  /** Grids with the same filled cells have the same row, column and full-column counts. */
  ghost predicate SameFilling(g: Grid, h: Grid)
    requires Shaped(g) && Shaped(h)
  {
    forall r, c :: IsCell(r, c) ==> g[r][c].Some? == h[r][c].Some?
  }

  lemma {:induction false} FilledLengthBySome(s: seq<Option<Track>>, t: seq<Option<Track>>)
    requires |s| == |t| && forall i :: 0 <= i < |s| ==> s[i].Some? == t[i].Some?
    ensures |Filled(s)| == |Filled(t)|
    decreases |s|
  {
    if s != [] {
      FilledLengthBySome(s[..|s| - 1], t[..|t| - 1]);
    }
  }

  /** A sequence of empty cells has nothing filled. */
  lemma {:induction false} FilledAllNone(s: seq<Option<Track>>)
    requires forall i :: 0 <= i < |s| ==> s[i].None?
    ensures Filled(s) == []
    decreases |s|
  {
    if s != [] {
      FilledAllNone(s[..|s| - 1]);
    }
  }

  lemma {:induction false} SameFillingCounts(g: Grid, h: Grid)
    requires Shaped(g) && Shaped(h) && SameFilling(g, h)
    ensures forall r :: 0 <= r < ROWS ==> RowCount(g, r) == RowCount(h, r)
    ensures forall c :: 0 <= c < COLS ==> ColCount(g, c) == ColCount(h, c)
    ensures FullColumns(g) == FullColumns(h)
  {
    forall r | 0 <= r < ROWS ensures RowCount(g, r) == RowCount(h, r) {
      FilledLengthBySome(g[r], h[r]);
    }
    forall c | 0 <= c < COLS ensures ColCount(g, c) == ColCount(h, c) {
      FilledLengthBySome(Column(g, c), Column(h, c));
    }
    SameFillingFull(g, h, COLS);
  }

  lemma {:induction false} SameFillingFull(g: Grid, h: Grid, n: int)
    requires Shaped(g) && Shaped(h) && 0 <= n <= COLS
    requires forall c :: 0 <= c < COLS ==> ColCount(g, c) == ColCount(h, c)
    ensures FullColumnsBelow(g, n) == FullColumnsBelow(h, n)
  {
    if n > 0 {
      SameFillingFull(g, h, n - 1);
    }
  }

  // ---- the grid as a 3x9 array ----

  /** Array `a` holds grid `g`. */
  ghost predicate Holds(a: array2<Option<Track>>, g: Grid)
    reads a
  {
    && a.Length0 == ROWS && a.Length1 == COLS && Shaped(g)
    && forall r, c :: IsCell(r, c) ==> a[r, c] == g[r][c]
  }

  /** `grid[row][col] = track; rowCounts[row]++`: writes a track into an empty cell and
      counts it in its row. */
  method PutTrack(grid: array2<Option<Track>>, rowCounts: array<int>, ghost g: Grid, row: int, col: int, t: Track)
    returns (ghost g': Grid)
    requires Holds(grid, g) && rowCounts.Length == ROWS && IsCell(row, col) && g[row][col].None?
    requires forall r :: 0 <= r < ROWS ==> rowCounts[r] == RowCount(g, r)
    modifies grid, rowCounts
    ensures g' == SetCell(g, row, col, Some(t)) && Holds(grid, g')
    ensures forall r :: 0 <= r < ROWS ==> rowCounts[r] == RowCount(g', r)
  {
    SetCellCounts(g, row, col, Some(t));
    grid[row, col] := Some(t);
    g' := SetCell(g, row, col, Some(t));
    rowCounts[row] := rowCounts[row] + 1;
  }

  /** Reads the grid an array holds, row by row. */
  method ReadGrid(a: array2<Option<Track>>) returns (g: Grid)
    requires a.Length0 == ROWS && a.Length1 == COLS
    ensures Holds(a, g)
  {
    g := [];
    var r := 0;
    while r < ROWS
      invariant 0 <= r <= ROWS && |g| == r
      invariant forall i :: 0 <= i < r ==> |g[i]| == COLS
      invariant forall i, c :: 0 <= i < r && 0 <= c < COLS ==> g[i][c] == a[i, c]
    {
      var row: seq<Option<Track>> := [];
      var c := 0;
      while c < COLS
        invariant 0 <= c <= COLS && |row| == c
        invariant forall j :: 0 <= j < c ==> row[j] == a[r, j]
      {
        row := row + [a[r, c]];
        c := c + 1;
      }
      g := g + [row];
      r := r + 1;
    }
  }

  /** Two grids agreeing on every cell are equal. */
  lemma GridExt(g: Grid, h: Grid)
    requires Shaped(g) && Shaped(h)
    requires forall r, c :: IsCell(r, c) ==> g[r][c] == h[r][c]
    ensures g == h
  {
    forall r | 0 <= r < ROWS ensures g[r] == h[r] {
      assert forall c :: 0 <= c < COLS ==> g[r][c] == h[r][c];
    }
  }

  /** Column `c` holds track `t` as often as its three cells do. */
  lemma OccColumn(g: Grid, c: int, t: Track)
    requires Shaped(g) && 0 <= c < COLS
    ensures Occ(Column(g, c), t) ==
            Ind(g[0][c] == Some(t)) + Ind(g[1][c] == Some(t)) + Ind(g[2][c] == Some(t))
  {
    var a, b, d := g[0][c], g[1][c], g[2][c];
    FilledSnoc([], a);
    assert [] + [a] == [a];
    FilledSnoc([a], b);
    assert [a] + [b] == [a, b];
    FilledSnoc([a, b], d);
    assert [a, b] + [d] == Column(g, c);
  }

  /** Column `c` holds as many tracks as it has filled cells. */
  lemma ColCountCells(g: Grid, c: int)
    requires Shaped(g) && 0 <= c < COLS
    ensures ColCount(g, c) == Ind(g[0][c].Some?) + Ind(g[1][c].Some?) + Ind(g[2][c].Some?)
  {
    var a, b, d := g[0][c], g[1][c], g[2][c];
    FilledSnoc([], a);
    assert [] + [a] == [a];
    FilledSnoc([a], b);
    assert [a] + [b] == [a, b];
    FilledSnoc([a, b], d);
    assert [a, b] + [d] == Column(g, c);
  }

  /** A grid none of whose columns is full has no full column among the first `n`. */
  lemma {:induction false} NoFullColumns(g: Grid, n: int)
    requires Shaped(g) && 0 <= n <= COLS
    requires forall c :: 0 <= c < COLS ==> ColCount(g, c) < ROWS
    ensures FullColumnsBelow(g, n) == 0
  {
    if n > 0 {
      NoFullColumns(g, n - 1);
    }
  }

  // ---- tickets built from grids ----

  predicate ShapedTicket(t: Ticket)
  {
    |t.cells| == ROWS && forall r :: 0 <= r < ROWS ==> |t.cells[r]| == COLS
  }

  /** Shaped, and every cell records its own position. */
  ghost predicate WellFormedTicket(t: Ticket)
  {
    ShapedTicket(t) &&
    forall r, c :: IsCell(r, c) ==> t.cells[r][c].row == r && t.cells[r][c].col == c
  }

  /** The tracks of a ticket's cells. */
  function TrackGrid(t: Ticket): (g: Grid)
    requires ShapedTicket(t)
    ensures Shaped(g)
    ensures forall r, c :: IsCell(r, c) ==> g[r][c] == t.cells[r][c].track
  {
    seq(ROWS, r requires 0 <= r < ROWS => seq(COLS, c requires 0 <= c < COLS => t.cells[r][c].track))
  }

  /** The ticket with id `id` whose cell (r, c) holds `g[r][c]` and records (r, c). */
  function BuildTicket(id: string, g: Grid): (t: Ticket)
    requires Shaped(g)
    ensures WellFormedTicket(t) && t.id == id && TrackGrid(t) == g
  {
    var t := Ticket(id, seq(ROWS, r requires 0 <= r < ROWS =>
                              seq(COLS, c requires 0 <= c < COLS => TicketCell(g[r][c], r, c))));
    assert forall r | 0 <= r < ROWS :: TrackGrid(t)[r] == g[r];
    t
  }

  ghost predicate ValidTicket(t: Ticket)
  {
    ShapedTicket(t) && ValidGrid(TrackGrid(t))
  }
}

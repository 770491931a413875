/** Ticket checks (src/lib/ticketLogic.ts): the quick check `validateTicketInternal`, the
    detailed `validateTicket`, and the batch summary `validateTickets`. Both single-ticket
    checks are proved to accept exactly the valid tickets, so they agree. */
module Validation {
  import opened TicketTypes
  import opened Seqs
  import opened Grids
  import opened StrictPlacement

  // ---- scanning the cells in row-major order ----

  /** The ids of the filled cells before (r, c) in row-major order (`trackIds` / `ids`). */
  ghost function Seen(g: Grid, r: int, c: int): set<int>
    requires Shaped(g)
  {
    set r1, c1 | 0 <= r1 < ROWS && 0 <= c1 < COLS && Before(r1, c1, r, c) && g[r1][c1].Some? :: g[r1][c1].value.id
  }

  /** Two different filled cells before (r, c) both hold id `x`. */
  ghost predicate DupBefore(g: Grid, x: int, r: int, c: int)
    requires Shaped(g)
  {
    exists r1, c1, r2, c2 ::
      IsCell(r1, c1) && IsCell(r2, c2) && Before(r1, c1, r2, c2) && Before(r2, c2, r, c) &&
      g[r1][c1].Some? && g[r2][c2].Some? && g[r1][c1].value.id == x && g[r2][c2].value.id == x
  }

  /** Scanning cell (r, c): its id joins the seen ids, and it becomes a duplicate exactly
      when it was seen before. */
  lemma ScanStep(g: Grid, r: int, c: int)
    requires Shaped(g) && IsCell(r, c)
    ensures Seen(g, r, c + 1) == Seen(g, r, c) + (if g[r][c].Some? then {g[r][c].value.id} else {})
    ensures forall y :: DupBefore(g, y, r, c + 1) <==>
              DupBefore(g, y, r, c) || (g[r][c].Some? && g[r][c].value.id == y && y in Seen(g, r, c))
  {
    forall y | DupBefore(g, y, r, c + 1)
      ensures DupBefore(g, y, r, c) || (g[r][c].Some? && g[r][c].value.id == y && y in Seen(g, r, c))
    {
      var r1, c1, r2, c2 :| IsCell(r1, c1) && IsCell(r2, c2) && Before(r1, c1, r2, c2) && Before(r2, c2, r, c + 1) &&
        g[r1][c1].Some? && g[r2][c2].Some? && g[r1][c1].value.id == y && g[r2][c2].value.id == y;
      if (r2, c2) != (r, c) {
        assert Before(r2, c2, r, c);
      } else {
        assert y in Seen(g, r, c);
      }
    }
    forall y | g[r][c].Some? && g[r][c].value.id == y && y in Seen(g, r, c)
      ensures DupBefore(g, y, r, c + 1)
    {
      var r1, c1 :| 0 <= r1 < ROWS && 0 <= c1 < COLS && Before(r1, c1, r, c) && g[r1][c1].Some? && g[r1][c1].value.id == y;
      assert Before(r, c, r, c + 1);
    }
  }

  /** The end of row r is the start of row r + 1. */
  lemma RowEnd(g: Grid, r: int)
    requires Shaped(g) && 0 <= r < ROWS
    ensures Seen(g, r, COLS) == Seen(g, r + 1, 0)
    ensures forall y :: DupBefore(g, y, r, COLS) <==> DupBefore(g, y, r + 1, 0)
  {
    assert forall r1, c1 :: 0 <= c1 < COLS ==> (Before(r1, c1, r, COLS) <==> Before(r1, c1, r + 1, 0));
  }

  /** At the start nothing is seen; after the last row, the duplicates are those of the grid. */
  lemma ScanEnds(g: Grid)
    requires Shaped(g)
    ensures Seen(g, 0, 0) == {}
    ensures forall y :: !DupBefore(g, y, 0, 0)
    ensures forall y :: DupBefore(g, y, ROWS, 0) <==> IsDuplicated(g, y)
  {
  }

  /** The duplicate scan of `validateTicketInternal`: stops at the first filled cell whose
      id was seen before. */
  method HasDuplicate(g: Grid) returns (dup: bool)
    requires Shaped(g)
    ensures dup <==> !NoDuplicates(g)
  {
    NoDuplicatesIffNoneDuplicated(g);
    ScanEnds(g);
    var ids: set<int> := {};
    var row := 0;
    while row < ROWS
      invariant 0 <= row <= ROWS
      invariant ids == Seen(g, row, 0)
      invariant forall y :: !DupBefore(g, y, row, 0)
    {
      var col := 0;
      while col < COLS
        invariant 0 <= col <= COLS
        invariant ids == Seen(g, row, col)
        invariant forall y :: !DupBefore(g, y, row, col)
      {
        ScanStep(g, row, col);
        var cell := g[row][col];
        if cell.Some? {
          if cell.value.id in ids {
            assert DupBefore(g, cell.value.id, row, col + 1);
            DupPersists(g, cell.value.id, row, col + 1);
            return true;
          }
          ids := ids + {cell.value.id};
        }
        ghost var next := col + 1;
        forall y ensures !DupBefore(g, y, row, next) {
          assert !DupBefore(g, y, row, col);
        }
        col := col + 1;
      }
      RowEnd(g, row);
      ghost var nextRow := row + 1;
      forall y ensures !DupBefore(g, y, nextRow, 0) {
        assert !DupBefore(g, y, row, COLS);
      }
      row := row + 1;
    }
    return false;
  }

  /** A duplicate found before (r, c) is a duplicate of the grid. */
  lemma DupPersists(g: Grid, x: int, r: int, c: int)
    requires Shaped(g) && 0 <= r < ROWS && DupBefore(g, x, r, c)
    ensures IsDuplicated(g, x)
  {
    var r1, c1, r2, c2 :| IsCell(r1, c1) && IsCell(r2, c2) && Before(r1, c1, r2, c2) && Before(r2, c2, r, c) &&
      g[r1][c1].Some? && g[r2][c2].Some? && g[r1][c1].value.id == x && g[r2][c2].value.id == x;
    assert Before(r2, c2, ROWS, 0);
  }

  /** `validateTicketInternal`: true exactly for a valid ticket. */
  method ValidateTicketInternal(t: Ticket) returns (isValid: bool)
    requires ShapedTicket(t)
    ensures isValid <==> ValidTicket(t)
  {
    var g := TrackGrid(t);
    var row := 0;
    while row < ROWS
      invariant 0 <= row <= ROWS
      invariant forall r :: 0 <= r < row ==> RowCount(g, r) == ITEMS_PER_ROW
    {
      var count := RowCount(g, row);
      if count != ITEMS_PER_ROW {
        return false;
      }
      row := row + 1;
    }
    var dup := HasDuplicate(g);
    if dup {
      return false;
    }
    var fullCols := CountFullColumns(g);
    if fullCols > 1 {
      return false;
    }
    return true;
  }

  // ---- the detailed check ----

  /** `errors.invalidRowCounts`: in row order, exactly the rows whose filled count is not
      five, each with its count. */
  ghost predicate RowErrorsOf(g: Grid, e: seq<RowCountError>)
    requires Shaped(g)
  {
    && (forall k :: 0 <= k < |e| ==>
          0 <= e[k].row < ROWS && e[k].count == RowCount(g, e[k].row) && e[k].count != ITEMS_PER_ROW)
    && (forall i, j :: 0 <= i < j < |e| ==> e[i].row < e[j].row)
    && (forall r :: 0 <= r < ROWS && RowCount(g, r) != ITEMS_PER_ROW ==> exists k :: 0 <= k < |e| && e[k].row == r)
  }

  /** `errors.duplicateTracks`: every id held by two or more cells, once. */
  ghost predicate DuplicatesOf(g: Grid, d: seq<int>)
    requires Shaped(g)
  {
    && (forall x :: x in d <==> IsDuplicated(g, x))
    && (forall i, j :: 0 <= i < j < |d| ==> d[i] != d[j])
  }

  /** What `validateTicket` reports about ticket `t`. */
  ghost predicate IsValidationOf(t: Ticket, r: TicketValidationResult)
    requires ShapedTicket(t)
  {
    var g := TrackGrid(t);
    && r.ticketId == t.id
    && RowErrorsOf(g, r.errors.invalidRowCounts)
    && DuplicatesOf(g, r.errors.duplicateTracks)
    && r.errors.fullColumnsCount == FullColumns(g)
    && (r.errors.fullColumnsExceeded <==> r.errors.fullColumnsCount > 1)
    && (r.isValid <==> ValidTicket(t))
  }

  /** No row error is reported exactly when every row holds five tracks. */
  lemma RowErrorsEmpty(g: Grid, e: seq<RowCountError>)
    requires Shaped(g) && RowErrorsOf(g, e)
    ensures |e| == 0 <==> forall r :: 0 <= r < ROWS ==> RowCount(g, r) == ITEMS_PER_ROW
  {
    if |e| > 0 {
      assert RowCount(g, e[0].row) != ITEMS_PER_ROW;
    } else {
      forall r | 0 <= r < ROWS ensures RowCount(g, r) == ITEMS_PER_ROW { }
    }
  }

  /** No duplicate is reported exactly when no id is repeated. */
  lemma DuplicatesEmpty(g: Grid, d: seq<int>)
    requires Shaped(g) && DuplicatesOf(g, d)
    ensures |d| == 0 <==> NoDuplicates(g)
  {
    NoDuplicatesIffNoneDuplicated(g);
    if |d| > 0 {
      assert IsDuplicated(g, d[0]);
    } else {
      assert forall x :: !IsDuplicated(g, x);
    }
  }

  /** Check 1 of `validateTicket`. */
  method InvalidRowCounts(g: Grid) returns (e: seq<RowCountError>)
    requires Shaped(g)
    ensures RowErrorsOf(g, e)
  {
    e := [];
    var row := 0;
    while row < ROWS
      invariant 0 <= row <= ROWS
      invariant forall k :: 0 <= k < |e| ==>
                  0 <= e[k].row < row && e[k].count == RowCount(g, e[k].row) && e[k].count != ITEMS_PER_ROW
      invariant forall i, j :: 0 <= i < j < |e| ==> e[i].row < e[j].row
      invariant forall r :: 0 <= r < row && RowCount(g, r) != ITEMS_PER_ROW ==> exists k :: 0 <= k < |e| && e[k].row == r
    {
      var filledCount := RowCount(g, row);
      ghost var e0 := e;
      if filledCount != ITEMS_PER_ROW {
        e := e + [RowCountError(row, filledCount)];
      }
      forall r | 0 <= r <= row && RowCount(g, r) != ITEMS_PER_ROW ensures exists k :: 0 <= k < |e| && e[k].row == r {
        if r < row {
          var k :| 0 <= k < |e0| && e0[k].row == r;
          assert e[k] == e0[k];
        } else {
          assert e[|e| - 1].row == r;
        }
      }
      row := row + 1;
    }
  }

  /** Check 2 of `validateTicket`: the ids met again, each recorded once, in the order of
      their first repeat (`Array.from` of the `duplicates` set). */
  method DuplicateTracks(g: Grid) returns (duplicates: seq<int>)
    requires Shaped(g)
    ensures DuplicatesOf(g, duplicates)
  {
    ScanEnds(g);
    var trackIds: set<int> := {};
    duplicates := [];
    var row := 0;
    while row < ROWS
      invariant 0 <= row <= ROWS
      invariant trackIds == Seen(g, row, 0)
      invariant forall y :: y in duplicates <==> DupBefore(g, y, row, 0)
      invariant forall i, j :: 0 <= i < j < |duplicates| ==> duplicates[i] != duplicates[j]
    {
      var col := 0;
      while col < COLS
        invariant 0 <= col <= COLS
        invariant trackIds == Seen(g, row, col)
        invariant forall y :: y in duplicates <==> DupBefore(g, y, row, col)
        invariant forall i, j :: 0 <= i < j < |duplicates| ==> duplicates[i] != duplicates[j]
      {
        ScanStep(g, row, col);
        var cell := g[row][col];
        if cell.Some? {
          if cell.value.id in trackIds && cell.value.id !in duplicates {
            duplicates := duplicates + [cell.value.id];
          }
          trackIds := trackIds + {cell.value.id};
        }
        col := col + 1;
      }
      RowEnd(g, row);
      row := row + 1;
    }
  }

  /** `validateTicket`. */
  method ValidateTicket(t: Ticket) returns (r: TicketValidationResult)
    requires ShapedTicket(t)
    ensures IsValidationOf(t, r)
  {
    var g := TrackGrid(t);
    var invalidRowCounts := InvalidRowCounts(g);
    var duplicateTracks := DuplicateTracks(g);
    var fullColumnsCount := CountFullColumns(g);
    var errors := TicketValidationErrors(invalidRowCounts, duplicateTracks, fullColumnsCount, fullColumnsCount > 1);
    var isValid := |errors.invalidRowCounts| == 0 && |errors.duplicateTracks| == 0 && !errors.fullColumnsExceeded;
    RowErrorsEmpty(g, invalidRowCounts);
    DuplicatesEmpty(g, duplicateTracks);
    r := TicketValidationResult(isValid, t.id, errors);
  }

  // ---- the batch summary ----

  /** Number of valid tickets among `ts`. */
  ghost function ValidCount(ts: seq<Ticket>): nat
  {
    if ts == [] then 0 else ValidCount(ts[..|ts| - 1]) + (if ValidTicket(ts[|ts| - 1]) then 1 else 0)
  }

  /** The state of `validateTickets` after the first `i` tickets: `valid` counts the valid
      ones, and `results` holds the reports of the invalid ones, whose indices are `failing`. */
  ghost predicate Summarised(tickets: seq<Ticket>, i: int, valid: int, results: seq<TicketValidationResult>,
                             failing: seq<int>)
  {
    && 0 <= i <= |tickets|
    && (forall k :: 0 <= k < |tickets| ==> ShapedTicket(tickets[k]))
    && valid == ValidCount(tickets[..i])
    && |results| == |failing| == i - ValidCount(tickets[..i])
    && (forall k :: 0 <= k < |failing| ==> 0 <= failing[k] < i && IsValidationOf(tickets[failing[k]], results[k]))
    && (forall a, b :: 0 <= a < b < |failing| ==> failing[a] < failing[b])
    && (forall a :: 0 <= a < i && !ValidTicket(tickets[a]) ==> a in failing)
  }

  lemma SummariseStep(tickets: seq<Ticket>, i: int, valid: int, results: seq<TicketValidationResult>,
                      failing: seq<int>, r: TicketValidationResult,
                      valid': int, results': seq<TicketValidationResult>, failing': seq<int>)
    requires Summarised(tickets, i, valid, results, failing) && i < |tickets|
    requires IsValidationOf(tickets[i], r)
    requires valid' == if r.isValid then valid + 1 else valid
    requires results' == if r.isValid then results else results + [r]
    requires failing' == if r.isValid then failing else failing + [i]
    ensures Summarised(tickets, i + 1, valid', results', failing')
  {
    assert tickets[..i + 1][..i] == tickets[..i];
    assert ValidCount(tickets[..i + 1]) == ValidCount(tickets[..i]) + (if ValidTicket(tickets[i]) then 1 else 0);
    assert r.isValid <==> ValidTicket(tickets[i]);
    if !r.isValid {
      forall k | 0 <= k < |failing'|
        ensures 0 <= failing'[k] < i + 1 && IsValidationOf(tickets[failing'[k]], results'[k])
      {
        if k < |failing| {
          assert failing'[k] == failing[k] && results'[k] == results[k];
        }
      }
      forall a | 0 <= a < i + 1 && !ValidTicket(tickets[a])
        ensures a in failing'
      {
        if a < i {
          assert a in failing;
        } else {
          assert failing'[|failing|] == a;
        }
      }
    }
  }

  /** The summary built from the finished loop says what `validateTickets` promises. */
  lemma SummaryComplete(tickets: seq<Ticket>, valid: int, results: seq<TicketValidationResult>, failing: seq<int>,
                        s: TicketsValidationSummary)
    requires Summarised(tickets, |tickets|, valid, results, failing)
    requires s == TicketsValidationSummary(|tickets|, valid, |results|, results)
    ensures s.totalTickets == |tickets|
    ensures s.validTickets == ValidCount(tickets)
    ensures s.invalidTickets == |tickets| - ValidCount(tickets) == |s.invalidDetails|
    ensures |failing| == |s.invalidDetails|
    ensures forall k :: 0 <= k < |failing| ==>
              0 <= failing[k] < |tickets| && IsValidationOf(tickets[failing[k]], s.invalidDetails[k])
    ensures forall i, j :: 0 <= i < j < |failing| ==> failing[i] < failing[j]
    ensures forall i :: 0 <= i < |tickets| && !ValidTicket(tickets[i]) ==> i in failing
  {
    assert tickets[..|tickets|] == tickets;
  }

  /** One turn of the loop of `validateTickets`: validate ticket `i` and count it as valid,
      or add its report to the list. */
  method Tally(tickets: seq<Ticket>, i: int, valid: int, results: seq<TicketValidationResult>,
               ghost failing: seq<int>)
    returns (valid': int, results': seq<TicketValidationResult>, ghost failing': seq<int>)
    requires Summarised(tickets, i, valid, results, failing) && i < |tickets|
    ensures Summarised(tickets, i + 1, valid', results', failing')
  {
    var r := ValidateTicket(tickets[i]);
    if r.isValid {
      valid', results', failing' := valid + 1, results, failing;
    } else {
      valid', results', failing' := valid, results + [r], failing + [i];
    }
    SummariseStep(tickets, i, valid, results, failing, r, valid', results', failing');
  }

  /** `validateTickets`: the counts, and the reports of the invalid tickets in input order
      (`failing` gives the index of each reported ticket). */
  method ValidateTickets(tickets: seq<Ticket>) returns (s: TicketsValidationSummary, ghost failing: seq<int>)
    requires forall i :: 0 <= i < |tickets| ==> ShapedTicket(tickets[i])
    ensures s.totalTickets == |tickets|
    ensures s.validTickets == ValidCount(tickets)
    ensures s.invalidTickets == |tickets| - ValidCount(tickets) == |s.invalidDetails|
    ensures |failing| == |s.invalidDetails|
    ensures forall k :: 0 <= k < |failing| ==>
              0 <= failing[k] < |tickets| && IsValidationOf(tickets[failing[k]], s.invalidDetails[k])
    ensures forall i, j :: 0 <= i < j < |failing| ==> failing[i] < failing[j]
    ensures forall i :: 0 <= i < |tickets| && !ValidTicket(tickets[i]) ==> i in failing
  {
    var validTickets := 0;
    var invalidResults: seq<TicketValidationResult> := [];
    failing := [];
    var i := 0;
    while i < |tickets|
      invariant Summarised(tickets, i, validTickets, invalidResults, failing)
    {
      validTickets, invalidResults, failing := Tally(tickets, i, validTickets, invalidResults, failing);
      i := i + 1;
    }
    s := TicketsValidationSummary(|tickets|, validTickets, |invalidResults|, invalidResults);
    SummaryComplete(tickets, validTickets, invalidResults, failing, s);
  }
}

/** Constants and record shapes of a "music bingo" ticket (src/types/ticket.ts). */
module TicketTypes {

  const ROWS: nat := 3
  const COLS: nat := 9
  const ITEMS_PER_ROW: nat := 5
  const TOTAL_ITEMS_PER_TICKET: nat := 15
  const TOTAL_TRACKS: nat := 90

  /** Inclusive (min, max) id block of each column, in column order. */
  const COLUMN_RANGES: seq<(int, int)> :=
    [(1, 9), (10, 19), (20, 29), (30, 39), (40, 49), (50, 59), (60, 69), (70, 79), (80, 90)]

  datatype Option<T> = None | Some(value: T)

  datatype Track = Track(id: int, name: string)

  /** A grid cell; `track == None` is an empty cell. */
  datatype TicketCell = TicketCell(track: Option<Track>, row: int, col: int)

  datatype Ticket = Ticket(id: string, cells: seq<seq<TicketCell>>)

  datatype RowCountError = RowCountError(row: int, count: int)

  datatype TicketValidationErrors = TicketValidationErrors(
    invalidRowCounts: seq<RowCountError>,
    duplicateTracks: seq<int>,
    fullColumnsCount: int,
    fullColumnsExceeded: bool)

  datatype TicketValidationResult = TicketValidationResult(
    isValid: bool,
    ticketId: string,
    errors: TicketValidationErrors)

  datatype TicketsValidationSummary = TicketsValidationSummary(
    totalTickets: int,
    validTickets: int,
    invalidTickets: int,
    invalidDetails: seq<TicketValidationResult>)

  /** Track id `id` belongs to the block of column `col`. */
  predicate InColumnRange(id: int, col: int)
    requires 0 <= col < COLS
  {
    COLUMN_RANGES[col].0 <= id <= COLUMN_RANGES[col].1
  }

  /** Number of ids in the block of column `col`. */
  function BlockSize(col: int): int
    requires 0 <= col < COLS
  {
    COLUMN_RANGES[col].1 - COLUMN_RANGES[col].0 + 1
  }

  /** The table has one entry per column, starts at 1, ends at TOTAL_TRACKS, and each block
      starts right after the previous one ends. */
  lemma ColumnRangesContiguous()
    ensures |COLUMN_RANGES| == COLS
    ensures COLUMN_RANGES[0].0 == 1 && COLUMN_RANGES[COLS - 1].1 == TOTAL_TRACKS
    ensures forall c :: 1 <= c < COLS ==> COLUMN_RANGES[c].0 == COLUMN_RANGES[c - 1].1 + 1
    ensures forall c :: 0 <= c < COLS ==> COLUMN_RANGES[c].0 <= COLUMN_RANGES[c].1
  {
  }

  /** Contiguous blocks are ordered: a later block lies entirely above an earlier one. */
  lemma {:induction false} BlocksOrdered(c1: int, c2: int)
    requires 0 <= c1 < c2 < COLS
    ensures COLUMN_RANGES[c1].1 < COLUMN_RANGES[c2].0
    decreases c2 - c1
  {
    ColumnRangesContiguous();
    if c1 + 1 < c2 {
      BlocksOrdered(c1 + 1, c2);
    }
  }

  /** Every id in 1..TOTAL_TRACKS belongs to exactly one column. */
  lemma ColumnRangesPartition(id: int)
    requires 1 <= id <= TOTAL_TRACKS
    ensures exists c :: 0 <= c < COLS && InColumnRange(id, c)
    ensures forall c1, c2 :: 0 <= c1 < COLS && 0 <= c2 < COLS && InColumnRange(id, c1) && InColumnRange(id, c2) ==> c1 == c2
  {
    forall c1, c2 | 0 <= c1 < COLS && 0 <= c2 < COLS && InColumnRange(id, c1) && InColumnRange(id, c2)
      ensures c1 == c2
    {
      if c1 < c2 { BlocksOrdered(c1, c2); }
      if c2 < c1 { BlocksOrdered(c2, c1); }
    }
    if id <= 9 { assert InColumnRange(id, 0); }
    else if id <= 19 { assert InColumnRange(id, 1); }
    else if id <= 29 { assert InColumnRange(id, 2); }
    else if id <= 39 { assert InColumnRange(id, 3); }
    else if id <= 49 { assert InColumnRange(id, 4); }
    else if id <= 59 { assert InColumnRange(id, 5); }
    else if id <= 69 { assert InColumnRange(id, 6); }
    else if id <= 79 { assert InColumnRange(id, 7); }
    else { assert InColumnRange(id, 8); }
  }

  /** Two different columns never share an id. */
  lemma ColumnRangesDisjoint(id: int, c1: int, c2: int)
    requires 0 <= c1 < COLS && 0 <= c2 < COLS
    requires InColumnRange(id, c1) && InColumnRange(id, c2)
    ensures c1 == c2
  {
    if c1 < c2 { BlocksOrdered(c1, c2); }
    if c2 < c1 { BlocksOrdered(c2, c1); }
  }

  /** Ids in the blocks of two different columns differ. */
  lemma DifferentBlocksDifferentIds(id1: int, id2: int, c1: int, c2: int)
    requires 0 <= c1 < COLS && 0 <= c2 < COLS && c1 != c2
    requires InColumnRange(id1, c1) && InColumnRange(id2, c2)
    ensures id1 != id2
  {
    if c1 < c2 { BlocksOrdered(c1, c2); } else { BlocksOrdered(c2, c1); }
  }

  /** Block sizes are 9, then 10 seven times, then 11: each block can fill a whole column. */
  lemma BlockSizes()
    ensures BlockSize(0) == 9 && BlockSize(COLS - 1) == 11
    ensures forall c :: 1 <= c < COLS - 1 ==> BlockSize(c) == 10
    ensures forall c :: 0 <= c < COLS ==> BlockSize(c) >= ROWS
  {
  }

  /** Three rows of five make a ticket of fifteen. */
  lemma TicketSize()
    ensures ROWS * ITEMS_PER_ROW == TOTAL_ITEMS_PER_TICKET
  {
  }
}

/** `generateTickets` (src/lib/ticketLogic.ts): a first pass that makes `count` tickets,
    steering each towards the ids no earlier ticket used, and a repair pass that writes ids
    still missing into up to five random filled cells of each of the last tickets, where the
    new id belongs to the same column as the one it replaces. */
module Batch {
  import opened TicketTypes
  import opened Seqs
  import opened Grids
  import opened Tracks
  import opened Shuffling
  import opened Fallback
  import opened TicketIds
  import opened Coverage
  import opened Generation

  /** What every ticket of a batch satisfies, before and after the repair: well formed,
      column-conforming, drawn from the pool, rows of at most five and at most one full
      column; no repeated id when the pool has distinct ids; and valid when the pool also
      fills the fallback template. */
  ghost predicate Sound(t: Ticket, tracks: seq<Track>)
  {
    && WellFormedTicket(t)
    && Conforming(TrackGrid(t)) && FromPool(TrackGrid(t), tracks)
    && (forall r :: 0 <= r < ROWS ==> RowCount(TrackGrid(t), r) <= ITEMS_PER_ROW)
    && FullColumns(TrackGrid(t)) <= 1
    && (DistinctIds(tracks) ==> NoDuplicates(TrackGrid(t)))
    && (DistinctIds(tracks) && FallbackSupply(tracks) ==> ValidTicket(t))
  }

  /** Ticket `i` of the batch has number `i + 1` and is sound. */
  ghost predicate Numbered(tickets: seq<Ticket>, tracks: seq<Track>)
  {
    forall i :: 0 <= i < |tickets| ==> tickets[i].id == TicketId(i + 1) && Sound(tickets[i], tracks)
  }

  lemma NumberedAppend(tickets: seq<Ticket>, t: Ticket, tracks: seq<Track>)
    requires Numbered(tickets, tracks) && Sound(t, tracks) && t.id == TicketId(|tickets| + 1)
    ensures Numbered(tickets + [t], tracks)
  {
    var ts := tickets + [t];
    forall i | 0 <= i < |ts| ensures ts[i].id == TicketId(i + 1) && Sound(ts[i], tracks) {
      if i < |tickets| {
        assert ts[i] == tickets[i];
      }
    }
  }

  /** What `GenerateTicket` promises makes a sound ticket. */
  lemma GeneratedSound(t: Ticket, tracks: seq<Track>)
    requires WellFormedTicket(t)
    requires Conforming(TrackGrid(t)) && FromPool(TrackGrid(t), tracks)
    requires DistinctIds(tracks) ==> NoDuplicates(TrackGrid(t))
    requires forall r :: 0 <= r < ROWS ==> RowCount(TrackGrid(t), r) <= ITEMS_PER_ROW
    requires FullColumns(TrackGrid(t)) <= 1
    requires DistinctIds(tracks) && FallbackSupply(tracks) ==> ValidTicket(t)
    ensures Sound(t, tracks)
  {
  }

  // ---- first pass ----

  /** One round of the first pass: ticket number `n`, with `remaining` tickets still to
      make (this one included), prioritising the ids of `tracks` not in `usedTracks`. */
  method NextTicket(tracks: seq<Track>, tickets: seq<Ticket>, remaining: int, usedTracks: set<int>)
    returns (tickets': seq<Ticket>, usedTracks': set<int>)
    requires Numbered(tickets, tracks) && usedTracks == UsedIds(tickets)
    ensures |tickets'| == |tickets| + 1 && tickets'[..|tickets|] == tickets
    ensures Numbered(tickets', tracks) && usedTracks' == UsedIds(tickets')
  {
    var unusedTracks := set id | id in Uncovered(tracks, usedTracks);
    var priorityWeight := PriorityWeight(|unusedTracks|, remaining);
    var ticket;
    ghost var attempts, fellBack;
    ticket, attempts, fellBack := GenerateTicket(tracks, |tickets| + 1, unusedTracks, priorityWeight);
    GeneratedSound(ticket, tracks);
    NumberedAppend(tickets, ticket, tracks);
    UsedIdsAppend(tickets, ticket);
    tickets' := tickets + [ticket];
    usedTracks' := MarkUsed(usedTracks, ticket);
  }

  /** The first pass: ticket `i + 1` is generated with the ids no earlier ticket used as
      priority, weighted by how many of them remain per remaining ticket. */
  method FirstPass(tracks: seq<Track>, count: int) returns (tickets: seq<Ticket>, usedTracks: set<int>)
    ensures |tickets| == if count > 0 then count else 0
    ensures Numbered(tickets, tracks)
    ensures usedTracks == UsedIds(tickets)
  {
    tickets := [];
    usedTracks := {};
    var i := 0;
    while i < count
      invariant i == |tickets| && (i <= count || i == 0)
      invariant Numbered(tickets, tracks)
      invariant usedTracks == UsedIds(tickets)
    {
      tickets, usedTracks := NextTicket(tracks, tickets, count - i, usedTracks);
      i := i + 1;
    }
  }

  // ---- repair pass ----

  /** A filled cell and the track it held when the ticket was scanned. */
  datatype Position = Position(track: Track, row: int, col: int)

  ghost predicate Listed(ps: seq<Position>, g: Grid)
    requires Shaped(g)
  {
    forall k :: 0 <= k < |ps| ==> IsCell(ps[k].row, ps[k].col) && g[ps[k].row][ps[k].col] == Some(ps[k].track)
  }

  ghost predicate ListsCell(ps: seq<Position>, r: int, c: int)
  {
    exists k :: 0 <= k < |ps| && ps[k].row == r && ps[k].col == c
  }

  /** `ps` lists every filled cell before (row, col), in row-major order, and nothing else. */
  ghost predicate ScannedTo(ps: seq<Position>, g: Grid, row: int, col: int)
    requires Shaped(g)
  {
    && Listed(ps, g)
    && (forall r, c :: IsCell(r, c) && Before(r, c, row, col) && g[r][c].Some? ==> ListsCell(ps, r, c))
    && (forall i, j :: 0 <= i < j < |ps| ==> Before(ps[i].row, ps[i].col, ps[j].row, ps[j].col))
    && (forall k :: 0 <= k < |ps| ==> Before(ps[k].row, ps[k].col, row, col))
  }

  /** Filled cells of the rows above `r`. */
  ghost function FilledAbove(g: Grid, r: int): nat
    requires Shaped(g) && 0 <= r <= ROWS
  {
    if r == 0 then 0 else FilledAbove(g, r - 1) + RowCount(g, r - 1)
  }

  /** One cell of the scan. */
  lemma ScanCell(ps: seq<Position>, g: Grid, row: int, col: int)
    requires Shaped(g) && IsCell(row, col) && ScannedTo(ps, g, row, col)
    ensures g[row][col].Some? ==> ScannedTo(ps + [Position(g[row][col].value, row, col)], g, row, col + 1)
    ensures g[row][col].None? ==> ScannedTo(ps, g, row, col + 1)
  {
    if g[row][col].Some? {
      var ps' := ps + [Position(g[row][col].value, row, col)];
      forall r, c | ListsCell(ps, r, c) ensures ListsCell(ps', r, c) {
        var k :| 0 <= k < |ps| && ps[k].row == r && ps[k].col == c;
        assert ps'[k] == ps[k];
      }
      assert ListsCell(ps', row, col) by {
        assert ps'[|ps|].row == row && ps'[|ps|].col == col;
      }
    }
  }

  /** The end of a row is the start of the next. */
  lemma ScanRowEnd(ps: seq<Position>, g: Grid, row: int)
    requires Shaped(g) && 0 <= row < ROWS && ScannedTo(ps, g, row, COLS)
    ensures ScannedTo(ps, g, row + 1, 0)
  {
  }

  /** The inner loop of the scan: the filled cells of row `row`, left to right. */
  method ScanRow(t: Ticket, ps: seq<Position>, row: int) returns (ps': seq<Position>)
    requires ShapedTicket(t) && 0 <= row < ROWS
    requires ScannedTo(ps, TrackGrid(t), row, 0) && |ps| == FilledAbove(TrackGrid(t), row)
    ensures ScannedTo(ps', TrackGrid(t), row + 1, 0) && |ps'| == FilledAbove(TrackGrid(t), row + 1)
  {
    ghost var g: Grid := TrackGrid(t);
    ps' := ps;
    var col := 0;
    while col < COLS
      invariant 0 <= col <= COLS
      invariant ScannedTo(ps', g, row, col)
      invariant |ps'| == FilledAbove(g, row) + |Filled(g[row][..col])|
    {
      assert g[row][..col + 1] == g[row][..col] + [g[row][col]];
      FilledSnoc(g[row][..col], g[row][col]);
      ScanCell(ps', g, row, col);
      if t.cells[row][col].track.Some? {
        ps' := ps' + [Position(t.cells[row][col].track.value, row, col)];
      }
      col := col + 1;
    }
    assert g[row][..COLS] == g[row];
    assert FilledAbove(g, row + 1) == FilledAbove(g, row) + RowCount(g, row);
    ScanRowEnd(ps', g, row);
  }

  /** The scan of a ticket's cells in row-major order that collects its filled cells. */
  method FilledPositions(t: Ticket) returns (ps: seq<Position>)
    requires ShapedTicket(t)
    ensures Listed(ps, TrackGrid(t))
    ensures forall r, c :: IsCell(r, c) && TrackGrid(t)[r][c].Some? ==> ListsCell(ps, r, c)
    ensures forall i, j :: 0 <= i < j < |ps| ==> Before(ps[i].row, ps[i].col, ps[j].row, ps[j].col)
    ensures |ps| == RowSum(TrackGrid(t))
  {
    ghost var g: Grid := TrackGrid(t);
    ps := [];
    var row := 0;
    while row < ROWS
      invariant 0 <= row <= ROWS
      invariant ScannedTo(ps, g, row, 0)
      invariant |ps| == FilledAbove(g, row)
    {
      ps := ScanRow(t, ps, row);
      row := row + 1;
    }
    assert FilledAbove(g, 1) == RowCount(g, 0);
    assert FilledAbove(g, 2) == RowCount(g, 0) + RowCount(g, 1);
  }

  /** `tracks.find((t) => t.id === id)`: the first track with that id, if any. */
  function FindTrack(tracks: seq<Track>, id: int): (r: Option<Track>)
    ensures r.Some? ==> r.value in tracks && r.value.id == id
    ensures r.None? <==> forall i :: 0 <= i < |tracks| ==> tracks[i].id != id
  {
    if tracks == [] then None
    else if tracks[0].id == id then Some(tracks[0])
    else
      var r := FindTrack(tracks[1..], id);
      assert forall i :: 1 <= i < |tracks| ==> tracks[i] == tracks[1..][i - 1];
      r
  }

  /** The ticket with cell (r, c) holding `track`: `ticket.cells[r][c].track = track`. */
  function SetTrack(t: Ticket, r: int, c: int, track: Track): (t': Ticket)
    requires WellFormedTicket(t) && IsCell(r, c)
    ensures WellFormedTicket(t') && t'.id == t.id
    ensures TrackGrid(t') == SetCell(TrackGrid(t), r, c, Some(track))
    ensures forall r', c' :: IsCell(r', c') && (r', c') != (r, c) ==> t'.cells[r'][c'] == t.cells[r'][c']
  {
    var t' := t.(cells := t.cells[r := t.cells[r][c := t.cells[r][c].(track := Some(track))]]);
    GridExt(TrackGrid(t'), SetCell(TrackGrid(t), r, c, Some(track)));
    t'
  }

  /** Writing a track whose id no filled cell holds keeps the grid free of repeats. */
  lemma FreshKeepsNoDuplicates(g: Grid, r: int, c: int, track: Track)
    requires Shaped(g) && IsCell(r, c) && NoDuplicates(g)
    requires forall r', c' :: IsCell(r', c') && g[r'][c'].Some? ==> g[r'][c'].value.id != track.id
    ensures NoDuplicates(SetCell(g, r, c, Some(track)))
  {
  }

  /** A write brings in its own id and no other. */
  lemma SetTrackIds(t: Ticket, r: int, c: int, track: Track)
    requires WellFormedTicket(t) && IsCell(r, c)
    ensures forall y :: y in IdsIn(SetTrack(t, r, c, track)) ==> y in IdsIn(t) || y == track.id
  {
    var t' := SetTrack(t, r, c, track);
    forall y | y in IdsIn(t') ensures y in IdsIn(t) || y == track.id {
      IdsInCells(t', y);
      IdsInCells(t, y);
      var r', c' :| IsCell(r', c') && TrackGrid(t')[r'][c'].Some? && TrackGrid(t')[r'][c'].value.id == y;
      if (r', c') != (r, c) {
        assert TrackGrid(t)[r'][c'] == TrackGrid(t')[r'][c'];
      }
    }
  }

  /** The cells whose content differs between two tickets. */
  ghost function ChangedCells(before: Ticket, after: Ticket): set<(int, int)>
    requires ShapedTicket(before) && ShapedTicket(after)
  {
    set r, c | 0 <= r < ROWS && 0 <= c < COLS && after.cells[r][c] != before.cells[r][c] :: (r, c)
  }

  /** A block id lies in 1..90. */
  lemma BlockIdBounds(id: int, c: int)
    requires 0 <= c < COLS && InColumnRange(id, c)
    ensures 1 <= id <= TOTAL_TRACKS
  {
  }

  /** The state of one ticket's repair: a sound-so-far ticket with the same id and filled
      cells, differing from `ticket` only in the cells of `changed`, each of which holds an
      id of `ids`, and using no id outside `ticket`'s and `ids`. */
  ghost predicate Repairing(tracks: seq<Track>, ticket: Ticket, t: Ticket, ids: seq<int>, changed: set<(int, int)>)
    requires WellFormedTicket(ticket)
  {
    && WellFormedTicket(t) && t.id == ticket.id
    && SameFilling(TrackGrid(ticket), TrackGrid(t))
    && Conforming(TrackGrid(t)) && FromPool(TrackGrid(t), tracks)
    && (DistinctIds(tracks) ==> NoDuplicates(TrackGrid(t)))
    && (forall r, c :: IsCell(r, c) && (r, c) !in changed ==> t.cells[r][c] == ticket.cells[r][c])
    && (forall r, c :: IsCell(r, c) && (r, c) in changed ==>
          t.cells[r][c].track.Some? && t.cells[r][c].track.value.id in ids)
    && (forall y :: y in IdsIn(t) ==> y in IdsIn(ticket) || y in ids)
  }

  lemma RepairingStart(tracks: seq<Track>, ticket: Ticket)
    requires Sound(ticket, tracks)
    ensures Repairing(tracks, ticket, ticket, [], {})
  {
  }

  lemma RepairingMoreIds(tracks: seq<Track>, ticket: Ticket, t: Ticket, ids: seq<int>, ids': seq<int>, changed: set<(int, int)>)
    requires WellFormedTicket(ticket) && Repairing(tracks, ticket, t, ids, changed)
    requires forall y :: y in ids ==> y in ids'
    ensures Repairing(tracks, ticket, t, ids', changed)
  {
  }

  /** Writing into a filled cell a pool track of the cell's column whose id the ticket does
      not use keeps the repair state. */
  lemma RepairingSwap(tracks: seq<Track>, ticket: Ticket, t: Ticket, ids: seq<int>, ids': seq<int>,
                      changed: set<(int, int)>, r: int, c: int, track: Track)
    requires WellFormedTicket(ticket) && Repairing(tracks, ticket, t, ids, changed)
    requires IsCell(r, c) && TrackGrid(ticket)[r][c].Some?
    requires track in tracks && InColumnRange(track.id, c)
    requires DistinctIds(tracks) ==> track.id !in IdsIn(ticket) && track.id !in ids
    requires forall y :: y in ids ==> y in ids'
    requires track.id in ids'
    ensures Repairing(tracks, ticket, SetTrack(t, r, c, track), ids', changed + {(r, c)})
  {
    var t' := SetTrack(t, r, c, track);
    var g := TrackGrid(t);
    var g' := TrackGrid(t');
    assert g' == SetCell(g, r, c, Some(track));
    if DistinctIds(tracks) {
      IdsInCells(t, track.id);
      FreshKeepsNoDuplicates(g, r, c, track);
    }
    SetTrackIds(t, r, c, track);
    forall r', c' | IsCell(r', c') && (r', c') in changed + {(r, c)}
      ensures t'.cells[r'][c'].track.Some? && t'.cells[r'][c'].track.value.id in ids'
    {
      if (r', c') != (r, c) {
        assert t'.cells[r'][c'] == t.cells[r'][c'];
      }
    }
  }

  /** A finished repair leaves a sound ticket. */
  lemma RepairingSound(tracks: seq<Track>, ticket: Ticket, t: Ticket, ids: seq<int>, changed: set<(int, int)>)
    requires Sound(ticket, tracks) && Repairing(tracks, ticket, t, ids, changed)
    ensures Sound(t, tracks)
    ensures ChangedCells(ticket, t) <= changed
  {
    SameFillingCounts(TrackGrid(ticket), TrackGrid(t));
  }

  /** One replacement of the repair: the track with id `id`, when the pool has one, goes
      into the cell of `position` if it belongs to the same column as the track found there
      when the ticket was scanned. */
  method ReplaceAt(tracks: seq<Track>, ticket: Ticket, t: Ticket, ids: seq<int>, ghost changed: set<(int, int)>,
                   position: Position, id: int)
    returns (t': Ticket, ghost changed': set<(int, int)>)
    requires Sound(ticket, tracks) && Repairing(tracks, ticket, t, ids, changed)
    requires IsCell(position.row, position.col) && TrackGrid(ticket)[position.row][position.col] == Some(position.track)
    requires DistinctIds(tracks) ==> id !in IdsIn(ticket) && id !in ids
    ensures Repairing(tracks, ticket, t', ids + [id], changed')
    ensures |changed'| <= |changed| + 1
  {
    t', changed' := t, changed;
    var unusedTrack := FindTrack(tracks, id);
    if unusedTrack.Some? {
      var oldCol := GetColumnForId(position.track.id);
      var newCol := GetColumnForId(unusedTrack.value.id);
      if oldCol == newCol {
        BlockIdBounds(position.track.id, position.col);
        ColumnRangesDisjoint(position.track.id, oldCol, position.col);
        RepairingSwap(tracks, ticket, t, ids, ids + [id], changed, position.row, position.col, unusedTrack.value);
        t' := SetTrack(t, position.row, position.col, unusedTrack.value);
        changed' := changed + {(position.row, position.col)};
        return;
      }
    }
    RepairingMoreIds(tracks, ticket, t, ids, ids + [id], changed);
  }

  /** The repair of one ticket: its filled cells in a random order, and for each of the first
      `min(5, |queue|, filled cells)` of them the next queued id, which stops the repair if it
      is 0, is skipped if no pool track has it, and otherwise replaces the cell's track when
      both ids lie in the same column. */
  method RepairTicket(tracks: seq<Track>, ticket: Ticket, queue: seq<int>)
    returns (t: Ticket, rest: seq<int>, ghost consumed: nat)
    requires Sound(ticket, tracks)
    requires DistinctIds(tracks) ==> Distinct(queue) && forall x :: x in queue ==> x !in IdsIn(ticket)
    ensures consumed <= 5 && consumed <= |queue| && rest == queue[consumed..]
    ensures 0 !in queue ==> consumed == Min(5, Min(|queue|, RowSum(TrackGrid(ticket))))
    ensures Sound(t, tracks) && t.id == ticket.id
    ensures SameFilling(TrackGrid(ticket), TrackGrid(t))
    ensures |ChangedCells(ticket, t)| <= consumed
    ensures forall r, c :: IsCell(r, c) && t.cells[r][c] != ticket.cells[r][c] ==>
      t.cells[r][c].track.Some? && t.cells[r][c].track.value.id in queue[..consumed]
    ensures forall y :: y in IdsIn(t) ==> y in IdsIn(ticket) || y in queue[..consumed]
  {
    var shuffledPositions := ShuffledPositions(ticket);
    var toReplace := Min(5, Min(|queue|, |shuffledPositions|));
    t := ticket;
    rest := queue;
    consumed := 0;
    ghost var changed: set<(int, int)> := {};
    RepairingStart(tracks, ticket);
    var j := 0;
    while j < toReplace
      invariant 0 <= j <= toReplace && consumed == j && rest == queue[j..]
      invariant Repairing(tracks, ticket, t, queue[..j], changed) && |changed| <= j
    {
      var position := shuffledPositions[j];
      var stop;
      t, changed, stop := RepairOne(tracks, ticket, queue, j, t, changed, position);
      rest := rest[1..];
      consumed := consumed + 1;
      if stop {
        break;
      }
      j := j + 1;
    }
    RepairingDone(tracks, ticket, t, queue, consumed, changed);
  }

  /** The filled cells of a ticket, scanned and then shuffled. */
  method ShuffledPositions(t: Ticket) returns (ps: seq<Position>)
    requires ShapedTicket(t)
    ensures Listed(ps, TrackGrid(t))
    ensures |ps| == RowSum(TrackGrid(t))
  {
    var tracksInTicket := FilledPositions(t);
    ps := Shuffle(tracksInTicket);
    forall k | 0 <= k < |ps|
      ensures IsCell(ps[k].row, ps[k].col) && TrackGrid(t)[ps[k].row][ps[k].col] == Some(ps[k].track)
    {
      assert ps[k] in multiset(tracksInTicket);
    }
  }

  /** One turn of the repair loop: queued id `queue[j]` stops the repair if it is 0 and is
      otherwise offered to the cell of `position`. */
  method RepairOne(tracks: seq<Track>, ticket: Ticket, queue: seq<int>, j: int, t: Ticket,
                   ghost changed: set<(int, int)>, position: Position)
    returns (t': Ticket, ghost changed': set<(int, int)>, stop: bool)
    requires Sound(ticket, tracks)
    requires DistinctIds(tracks) ==> Distinct(queue) && forall x :: x in queue ==> x !in IdsIn(ticket)
    requires 0 <= j < |queue| && Repairing(tracks, ticket, t, queue[..j], changed) && |changed| <= j
    requires IsCell(position.row, position.col) && TrackGrid(ticket)[position.row][position.col] == Some(position.track)
    ensures Repairing(tracks, ticket, t', queue[..j + 1], changed') && |changed'| <= j + 1
    ensures stop <==> queue[j] == 0
  {
    var unusedTrackId := queue[j];
    assert queue[..j + 1] == queue[..j] + [unusedTrackId];
    if unusedTrackId == 0 {
      RepairingMoreIds(tracks, ticket, t, queue[..j], queue[..j + 1], changed);
      return t, changed, true;
    }
    if DistinctIds(tracks) {
      assert unusedTrackId !in queue[..j];
    }
    t', changed' := ReplaceAt(tracks, ticket, t, queue[..j], changed, position, unusedTrackId);
    stop := false;
  }

  /** A finished repair that took the first `consumed` queued ids says what `RepairTicket`
      promises. */
  lemma RepairingDone(tracks: seq<Track>, ticket: Ticket, t: Ticket, queue: seq<int>, consumed: nat,
                      changed: set<(int, int)>)
    requires Sound(ticket, tracks) && consumed <= |queue|
    requires Repairing(tracks, ticket, t, queue[..consumed], changed) && |changed| <= consumed
    ensures Sound(t, tracks) && t.id == ticket.id
    ensures SameFilling(TrackGrid(ticket), TrackGrid(t))
    ensures |ChangedCells(ticket, t)| <= consumed
    ensures forall r, c :: IsCell(r, c) && t.cells[r][c] != ticket.cells[r][c] ==>
      t.cells[r][c].track.Some? && t.cells[r][c].track.value.id in queue[..consumed]
    ensures forall y :: y in IdsIn(t) ==> y in IdsIn(ticket) || y in queue[..consumed]
  {
    RepairingSound(tracks, ticket, t, queue[..consumed], changed);
    SubsetCard(ChangedCells(ticket, t), changed);
  }

  /** What the repair pass did to one ticket of the batch: it is sound, keeps its id and its
      filled cells, differs in at most five cells, writes only ids of `extra` and brings in no
      other id. */
  ghost predicate RepairedFrom(before: Ticket, after: Ticket, tracks: seq<Track>, extra: seq<int>)
  {
    && WellFormedTicket(before) && Sound(after, tracks) && after.id == before.id
    && SameFilling(TrackGrid(before), TrackGrid(after))
    && |ChangedCells(before, after)| <= 5
    && (forall r, c :: IsCell(r, c) && after.cells[r][c] != before.cells[r][c] ==>
          after.cells[r][c].track.Some? && after.cells[r][c].track.value.id in extra)
    && (forall y :: y in IdsIn(after) ==> y in IdsIn(before) || y in extra)
  }

  lemma RepairedFromItself(t: Ticket, tracks: seq<Track>, extra: seq<int>)
    requires Sound(t, tracks)
    ensures RepairedFrom(t, t, tracks, extra)
  {
    assert ChangedCells(t, t) == {};
  }

  /** Every ticket of the batch is a repair of its first-pass ticket. */
  ghost predicate AllRepairedFrom(firstPass: seq<Ticket>, tickets: seq<Ticket>, tracks: seq<Track>, extra: seq<int>)
  {
    && |tickets| == |firstPass|
    && forall i :: 0 <= i < |tickets| ==> RepairedFrom(firstPass[i], tickets[i], tracks, extra)
  }

  lemma AllRepairedFromStart(firstPass: seq<Ticket>, tracks: seq<Track>, extra: seq<int>)
    requires Numbered(firstPass, tracks)
    ensures AllRepairedFrom(firstPass, firstPass, tracks, extra)
  {
    forall i | 0 <= i < |firstPass| ensures RepairedFrom(firstPass[i], firstPass[i], tracks, extra) {
      RepairedFromItself(firstPass[i], tracks, extra);
    }
  }

  lemma AllRepairedFromUpdate(firstPass: seq<Ticket>, tickets: seq<Ticket>, tracks: seq<Track>, extra: seq<int>,
                              k: int, repaired: Ticket)
    requires AllRepairedFrom(firstPass, tickets, tracks, extra) && 0 <= k < |tickets|
    requires RepairedFrom(firstPass[k], repaired, tracks, extra)
    ensures AllRepairedFrom(firstPass, tickets[k := repaired], tracks, extra)
  {
  }

  /** The repair pass: with `missed` the pool ids the first pass left out, the last
      `min(ceil(|missed| / 5), |tickets|)` tickets, last first, each take the next ids of
      `missed` through `RepairTicket`, while ids remain. */
  method RepairCoverage(tracks: seq<Track>, firstPass: seq<Ticket>, usedTracks: set<int>)
    returns (tickets: seq<Ticket>)
    requires Numbered(firstPass, tracks) && usedTracks == UsedIds(firstPass)
    ensures AllRepairedFrom(firstPass, tickets, tracks, Uncovered(tracks, usedTracks))
    ensures forall i :: 0 <= i < |tickets| - (|Uncovered(tracks, usedTracks)| + 4) / 5 ==>
      tickets[i] == firstPass[i]
  {
    tickets := firstPass;
    var stillUnused := Uncovered(tracks, usedTracks);
    ghost var missed := stillUnused;
    ghost var taken := 0;
    AllRepairedFromStart(firstPass, tracks, stillUnused);
    if |stillUnused| > 0 {
      var ticketsToModify := Min((|stillUnused| + 4) / 5, |tickets|);
      var i := 0;
      while i < ticketsToModify && |stillUnused| > 0
        invariant 0 <= i <= ticketsToModify
        invariant RepairProgress(tracks, firstPass, missed, tickets, stillUnused, i, taken)
      {
        tickets, stillUnused, taken := RepairNext(tracks, firstPass, usedTracks, tickets, stillUnused, i, taken);
        i := i + 1;
      }
    }
  }

  /** The state of the repair pass after `i` tickets: the missed ids after the first `taken`
      are still queued, the tickets before the last `i` are untouched, and each ticket is a
      repair of its first-pass ticket. */
  ghost predicate RepairProgress(tracks: seq<Track>, firstPass: seq<Ticket>, missed: seq<int>,
                                 tickets: seq<Ticket>, stillUnused: seq<int>, i: int, taken: int)
  {
    && 0 <= taken <= |missed| && stillUnused == missed[taken..]
    && |tickets| == |firstPass| && 0 <= i
    && AllRepairedFrom(firstPass, tickets, tracks, missed)
    && (forall k :: 0 <= k < |tickets| - i ==> tickets[k] == firstPass[k])
  }

  /** One round of the repair pass: ticket `|tickets| - 1 - i` takes the next queued ids. */
  method RepairNext(tracks: seq<Track>, firstPass: seq<Ticket>, usedTracks: set<int>,
                    tickets: seq<Ticket>, stillUnused: seq<int>, i: int, ghost taken: int)
    returns (tickets': seq<Ticket>, stillUnused': seq<int>, ghost taken': int)
    requires Numbered(firstPass, tracks) && usedTracks == UsedIds(firstPass)
    requires RepairProgress(tracks, firstPass, Uncovered(tracks, usedTracks), tickets, stillUnused, i, taken)
    requires 0 <= i < |tickets|
    ensures RepairProgress(tracks, firstPass, Uncovered(tracks, usedTracks), tickets', stillUnused', i + 1, taken')
  {
    var ticketIndex := |tickets| - 1 - i;
    var ticket := tickets[ticketIndex];
    QueueFresh(tracks, firstPass, usedTracks, ticketIndex, taken);
    var repaired;
    ghost var consumed;
    repaired, stillUnused', consumed := RepairTicket(tracks, ticket, stillUnused);
    RepairedTicket(tracks, ticket, repaired, stillUnused, consumed, Uncovered(tracks, usedTracks), taken);
    tickets' := tickets[ticketIndex := repaired];
    taken' := taken + consumed;
    ProgressStep(tracks, firstPass, Uncovered(tracks, usedTracks), tickets, stillUnused, i, taken, ticket, repaired, consumed,
                 tickets', stillUnused', taken');
  }

  /** Writing the repair of ticket `|tickets| - 1 - i` back into the batch keeps the progress
      of the pass. */
  lemma ProgressStep(tracks: seq<Track>, firstPass: seq<Ticket>, missed: seq<int>,
                     tickets: seq<Ticket>, stillUnused: seq<int>, i: int, taken: int,
                     ticket: Ticket, repaired: Ticket, consumed: nat,
                     tickets': seq<Ticket>, stillUnused': seq<int>, taken': int)
    requires RepairProgress(tracks, firstPass, missed, tickets, stillUnused, i, taken)
    requires 0 <= i < |tickets| && ticket == tickets[|tickets| - 1 - i]
    requires consumed <= |stillUnused| && stillUnused' == stillUnused[consumed..]
    requires RepairedFrom(ticket, repaired, tracks, missed)
    requires tickets' == tickets[|tickets| - 1 - i := repaired] && taken' == taken + consumed
    ensures RepairProgress(tracks, firstPass, missed, tickets', stillUnused', i + 1, taken')
  {
    var k := |tickets| - 1 - i;
    assert ticket == firstPass[k];
    AllRepairedFromUpdate(firstPass, tickets, tracks, missed, k, repaired);
  }

  /** The ids still queued are new to every first-pass ticket and, with distinct pool ids,
      distinct. */
  lemma QueueFresh(tracks: seq<Track>, firstPass: seq<Ticket>, usedTracks: set<int>, k: int, taken: int)
    requires usedTracks == UsedIds(firstPass) && 0 <= k < |firstPass|
    requires 0 <= taken <= |Uncovered(tracks, usedTracks)|
    ensures var queue := Uncovered(tracks, usedTracks)[taken..];
      DistinctIds(tracks) ==> Distinct(queue) && forall x :: x in queue ==> x !in IdsIn(firstPass[k])
  {
    var missed := Uncovered(tracks, usedTracks);
    if DistinctIds(tracks) {
      UncoveredDistinct(tracks, usedTracks);
      forall x | x in missed[taken..] ensures x !in IdsIn(firstPass[k]) {
        UsedIdsMembers(firstPass, x);
      }
    }
  }

  /** What `RepairTicket` promises, stated against the whole list of missed ids. */
  lemma RepairedTicket(tracks: seq<Track>, ticket: Ticket, repaired: Ticket, queue: seq<int>, consumed: nat,
                       missed: seq<int>, taken: int)
    requires Sound(ticket, tracks)
    requires 0 <= taken <= |missed| && queue == missed[taken..] && consumed <= 5 && consumed <= |queue|
    requires Sound(repaired, tracks) && repaired.id == ticket.id
    requires SameFilling(TrackGrid(ticket), TrackGrid(repaired))
    requires |ChangedCells(ticket, repaired)| <= consumed
    requires forall r, c :: IsCell(r, c) && repaired.cells[r][c] != ticket.cells[r][c] ==>
      repaired.cells[r][c].track.Some? && repaired.cells[r][c].track.value.id in queue[..consumed]
    requires forall y :: y in IdsIn(repaired) ==> y in IdsIn(ticket) || y in queue[..consumed]
    ensures RepairedFrom(ticket, repaired, tracks, missed)
  {
    assert forall y :: y in queue[..consumed] ==> y in missed;
  }

  // ---- the whole batch ----

  /** `generateTickets`: `count` tickets (none when `count` is not positive) numbered from 1.
      `firstPass` is the batch before the repair; the repair leaves all but the last
      `ceil(|missed| / 5)` tickets as they were, changes at most five cells of the others,
      and brings in only ids the first pass missed. */
  method GenerateTickets(tracks: seq<Track>, count: int) returns (tickets: seq<Ticket>, ghost firstPass: seq<Ticket>)
    ensures |tickets| == if count > 0 then count else 0
    ensures Numbered(tickets, tracks) && Numbered(firstPass, tracks)
    ensures forall i, j :: 0 <= i < j < |tickets| ==> tickets[i].id != tickets[j].id
    ensures var missed := Uncovered(tracks, UsedIds(firstPass));
      && AllRepairedFrom(firstPass, tickets, tracks, missed)
      && (forall i :: 0 <= i < |tickets| - (|missed| + 4) / 5 ==> tickets[i] == firstPass[i])
      && (forall x :: x in UsedIds(tickets) ==> x in UsedIds(firstPass) || x in missed)
  {
    var usedTracks;
    tickets, usedTracks := FirstPass(tracks, count);
    firstPass := tickets;
    tickets := RepairCoverage(tracks, tickets, usedTracks);
    RepairedBatch(firstPass, tickets, tracks, Uncovered(tracks, usedTracks));
  }

  /** What the repair pass leaves of a numbered first pass. */
  lemma RepairedBatch(firstPass: seq<Ticket>, tickets: seq<Ticket>, tracks: seq<Track>, missed: seq<int>)
    requires Numbered(firstPass, tracks) && AllRepairedFrom(firstPass, tickets, tracks, missed)
    ensures Numbered(tickets, tracks)
    ensures forall i, j :: 0 <= i < j < |tickets| ==> tickets[i].id != tickets[j].id
    ensures forall x :: x in UsedIds(tickets) ==> x in UsedIds(firstPass) || x in missed
  {
    RepairedNumbered(firstPass, tickets, tracks, missed);
    RepairedIds(firstPass, tickets, tracks, missed);
    forall i, j | 0 <= i < j < |tickets| ensures tickets[i].id != tickets[j].id {
      TicketIdInjective(i + 1, j + 1);
    }
    UsedIdsBound(tickets, firstPass, set x | x in missed);
  }

  /** Repaired tickets keep the numbering of the first pass. */
  lemma RepairedNumbered(firstPass: seq<Ticket>, tickets: seq<Ticket>, tracks: seq<Track>, extra: seq<int>)
    requires Numbered(firstPass, tracks) && AllRepairedFrom(firstPass, tickets, tracks, extra)
    ensures Numbered(tickets, tracks)
  {
  }

  /** Repaired tickets use only their first-pass ids and the extra ones. */
  lemma RepairedIds(firstPass: seq<Ticket>, tickets: seq<Ticket>, tracks: seq<Track>, extra: seq<int>)
    requires AllRepairedFrom(firstPass, tickets, tracks, extra)
    ensures forall k :: 0 <= k < |tickets| ==> IdsIn(tickets[k]) <= IdsIn(firstPass[k]) + set x | x in extra
  {
    forall k | 0 <= k < |tickets| ensures IdsIn(tickets[k]) <= IdsIn(firstPass[k]) + set x | x in extra {
      assert RepairedFrom(firstPass[k], tickets[k], tracks, extra);
      forall y | y in IdsIn(tickets[k]) ensures y in IdsIn(firstPass[k]) + set x | x in extra {
      }
    }
  }

  /** Every ticket generated from an input the input check accepts is valid. */
  lemma AcceptedInputTicketsValid(input: string, tickets: seq<Ticket>)
    requires ValidateInput(input).isValid && Numbered(tickets, ParseTracks(input))
    ensures forall i :: 0 <= i < |tickets| ==> ValidTicket(tickets[i])
  {
    AcceptedInputSuffices(input);
  }
}

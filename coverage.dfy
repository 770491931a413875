/** Which track ids a batch of tickets uses (src/lib/ticketLogic.ts): the `usedTracks` set
    the batch generator keeps, and `getMissedTracks`. */
module Coverage {
  import opened TicketTypes
  import opened Seqs
  import opened Grids
  import opened Tracks

  /** The ids of the filled cells of one row. */
  function RowIds(row: seq<TicketCell>): set<int>
  {
    if row == [] then {}
    else RowIds(row[..|row| - 1]) + (if row[|row| - 1].track.Some? then {row[|row| - 1].track.value.id} else {})
  }

  /** The ids of the filled cells of a list of rows. */
  function CellIds(rows: seq<seq<TicketCell>>): set<int>
  {
    if rows == [] then {} else CellIds(rows[..|rows| - 1]) + RowIds(rows[|rows| - 1])
  }

  /** The ids a ticket uses. */
  function IdsIn(t: Ticket): set<int>
  {
    CellIds(t.cells)
  }

  /** The ids a batch of tickets uses. */
  function UsedIds(tickets: seq<Ticket>): set<int>
  {
    if tickets == [] then {} else UsedIds(tickets[..|tickets| - 1]) + IdsIn(tickets[|tickets| - 1])
  }

  lemma UsedIdsAppend(tickets: seq<Ticket>, t: Ticket)
    ensures UsedIds(tickets + [t]) == UsedIds(tickets) + IdsIn(t)
  {
    assert (tickets + [t])[..|tickets|] == tickets;
  }

  lemma {:induction false} RowIdsMembers(row: seq<TicketCell>, x: int)
    ensures x in RowIds(row) <==>
      exists c :: 0 <= c < |row| && row[c].track.Some? && row[c].track.value.id == x
  {
    if row != [] {
      var row' := row[..|row| - 1];
      RowIdsMembers(row', x);
      if x in RowIds(row') {
        var c :| 0 <= c < |row'| && row'[c].track.Some? && row'[c].track.value.id == x;
        assert row[c] == row'[c];
      }
      forall c | 0 <= c < |row| - 1 ensures row[c] == row'[c] { }
    }
  }

  lemma {:induction false} CellIdsMembers(rows: seq<seq<TicketCell>>, x: int)
    ensures x in CellIds(rows) <==> exists r :: 0 <= r < |rows| && x in RowIds(rows[r])
  {
    if rows != [] {
      var rows' := rows[..|rows| - 1];
      CellIdsMembers(rows', x);
      if x in CellIds(rows') {
        var r :| 0 <= r < |rows'| && x in RowIds(rows'[r]);
        assert rows[r] == rows'[r];
      }
      forall r | 0 <= r < |rows| - 1 ensures rows[r] == rows'[r] { }
    }
  }

  /** A ticket uses exactly the ids of its filled cells. */
  lemma IdsInCells(t: Ticket, x: int)
    requires ShapedTicket(t)
    ensures x in IdsIn(t) <==>
      exists r, c :: IsCell(r, c) && TrackGrid(t)[r][c].Some? && TrackGrid(t)[r][c].value.id == x
  {
    var g: Grid := TrackGrid(t);
    CellIdsMembers(t.cells, x);
    forall r | 0 <= r < ROWS
      ensures x in RowIds(t.cells[r]) <==> exists c :: 0 <= c < COLS && g[r][c].Some? && g[r][c].value.id == x
    {
      RowIdsMembers(t.cells[r], x);
      assert forall c :: 0 <= c < COLS ==> t.cells[r][c].track == g[r][c];
    }
  }

  /** A batch uses exactly the ids its tickets use. */
  lemma {:induction false} UsedIdsMembers(tickets: seq<Ticket>, x: int)
    ensures x in UsedIds(tickets) <==> exists k :: 0 <= k < |tickets| && x in IdsIn(tickets[k])
  {
    if tickets != [] {
      var ts := tickets[..|tickets| - 1];
      UsedIdsMembers(ts, x);
      if x in UsedIds(ts) {
        var k :| 0 <= k < |ts| && x in IdsIn(ts[k]);
        assert tickets[k] == ts[k];
      }
      forall k | 0 <= k < |tickets| - 1 ensures tickets[k] == ts[k] { }
    }
  }

  /** Tickets that use no more than given tickets do, position by position, use no more in
      total. */
  lemma {:induction false} UsedIdsBound(tickets: seq<Ticket>, before: seq<Ticket>, extra: set<int>)
    requires |tickets| == |before|
    requires forall k :: 0 <= k < |tickets| ==> IdsIn(tickets[k]) <= IdsIn(before[k]) + extra
    ensures UsedIds(tickets) <= UsedIds(before) + extra
  {
    if tickets != [] {
      var n := |tickets| - 1;
      UsedIdsBound(tickets[..n], before[..n], extra);
    }
  }

  /** The nested loop that adds the ids of one ticket's filled cells to `used`. */
  method MarkUsed(used: set<int>, t: Ticket) returns (used': set<int>)
    ensures used' == used + IdsIn(t)
  {
    used' := used;
    var r := 0;
    while r < |t.cells|
      invariant 0 <= r <= |t.cells|
      invariant used' == used + CellIds(t.cells[..r])
    {
      var row := t.cells[r];
      var c := 0;
      while c < |row|
        invariant 0 <= c <= |row|
        invariant used' == used + CellIds(t.cells[..r]) + RowIds(row[..c])
      {
        if row[c].track.Some? {
          used' := used' + {row[c].track.value.id};
        }
        assert row[..c + 1][..c] == row[..c];
        c := c + 1;
      }
      assert row[..c] == row;
      assert t.cells[..r + 1][..r] == t.cells[..r];
      r := r + 1;
    }
    assert t.cells[..r] == t.cells;
  }

  /** The tracks of `tracks` whose id is not in `used`, in input order. */
  function Missed(tracks: seq<Track>, used: set<int>): (r: seq<Track>)
    ensures forall x :: x in r <==> x in tracks && x.id !in used
  {
    Filter(tracks, (t: Track) => t.id !in used)
  }

  /** The ids of `tracks` not in `used`, in input order (`allTrackIds.filter(...)`). */
  function Uncovered(tracks: seq<Track>, used: set<int>): (r: seq<int>)
    ensures forall x :: x in r <==> x !in used && exists i :: 0 <= i < |tracks| && tracks[i].id == x
  {
    var ids := MapSeq(tracks, (t: Track) => t.id);
    assert forall x :: x in ids <==> exists i :: 0 <= i < |tracks| && tracks[i].id == x;
    Filter(ids, (id: int) => id !in used)
  }

  /** With distinct track ids, the uncovered ids repeat no value. */
  lemma UncoveredDistinct(tracks: seq<Track>, used: set<int>)
    requires DistinctIds(tracks)
    ensures Distinct(Uncovered(tracks, used))
  {
    FilterDistinct(MapSeq(tracks, (t: Track) => t.id), (id: int) => id !in used);
  }

  /** `getMissedTracks`: the tracks no ticket uses, in input order. */
  method GetMissedTracks(tracks: seq<Track>, tickets: seq<Ticket>) returns (missed: seq<Track>)
    ensures missed == Missed(tracks, UsedIds(tickets))
    ensures forall x :: x in missed <==> x in tracks && forall k :: 0 <= k < |tickets| ==> x.id !in IdsIn(tickets[k])
  {
    var usedTrackIds := {};
    var k := 0;
    while k < |tickets|
      invariant 0 <= k <= |tickets|
      invariant usedTrackIds == UsedIds(tickets[..k])
    {
      usedTrackIds := MarkUsed(usedTrackIds, tickets[k]);
      assert tickets[..k + 1][..k] == tickets[..k];
      k := k + 1;
    }
    assert tickets[..k] == tickets;
    missed := Missed(tracks, usedTrackIds);
    forall x: Track ensures x.id in UsedIds(tickets) <==> exists k :: 0 <= k < |tickets| && x.id in IdsIn(tickets[k]) {
      UsedIdsMembers(tickets, x.id);
    }
  }
}

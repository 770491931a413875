/** Choosing the tracks of each column (src/lib/ticketLogic.ts): the per-column candidate
    orders of `generateTicket` and `generateFallbackTicket`, and the prefixes of the wanted
    lengths cut from them. */
module Selection {
  import opened TicketTypes
  import opened Seqs
  import opened Tracks
  import opened Shuffling
  import opened Grids
  import opened StrictPlacement

  /** Track lists with one list per column, each a reordering of that column's tracks. */
  ghost predicate ColumnOrders(tracks: seq<Track>, selected: seq<seq<Track>>)
  {
    && |selected| == COLS
    && forall c :: 0 <= c < COLS ==> multiset(selected[c]) == multiset(TracksForColumn(tracks, c))
  }

  /** What the candidate loop promises about column `c`'s list `s`. */
  ghost predicate ColumnChoice(tracks: seq<Track>, priority: set<int>, weight: real, c: int, s: seq<Track>)
    requires 0 <= c < COLS
  {
    && multiset(s) == multiset(TracksForColumn(tracks, c))
    && (forall k :: 0 <= k < |s| ==> InColumnRange(s[k].id, c))
    && (DistinctIds(tracks) ==> DistinctIds(s))
    && (|priority| > 0 && weight >= 1.0 ==>
          forall i, j :: 0 <= i < j < |s| && s[j].id in priority ==> s[i].id in priority)
  }

  /** The candidate loop: for each column, its tracks in a random order, with the priority
      tracks first when the priority set is non-empty and a coin of weight `weight` says so.
      The fallback placer runs the same loop without the coin, which is weight 1. */
  method SelectByColumn(tracks: seq<Track>, priority: set<int>, weight: real)
    returns (selected: seq<seq<Track>>)
    ensures ColumnOrders(tracks, selected)
    ensures forall c, k :: 0 <= c < COLS && 0 <= k < |selected[c]| ==> InColumnRange(selected[c][k].id, c)
    ensures DistinctIds(tracks) ==> forall c :: 0 <= c < COLS ==> DistinctIds(selected[c])
    ensures |priority| > 0 && weight >= 1.0 ==>
      forall c, i, j :: 0 <= c < COLS && 0 <= i < j < |selected[c]| && selected[c][j].id in priority ==>
        selected[c][i].id in priority
  {
    selected := [];
    var col := 0;
    while col < COLS
      invariant 0 <= col <= COLS && |selected| == col
      invariant forall c :: 0 <= c < col ==> ColumnChoice(tracks, priority, weight, c, selected[c])
    {
      var usePriority := false;
      if |priority| > 0 {
        usePriority := Coin(weight);
      }
      var sortedTracks := OrderColumn(tracks, col, priority, usePriority);
      assert ColumnChoice(tracks, priority, weight, col, sortedTracks);
      selected := selected + [sortedTracks];
      col := col + 1;
    }
    forall c | 0 <= c < COLS ensures ColumnChoice(tracks, priority, weight, c, selected[c]) { }
  }

  /** `selectedByColumn[col].slice(0, count)` for every column. */
  function TakeCounts(selected: seq<seq<Track>>, counts: seq<int>): (tpc: seq<seq<Track>>)
    requires |selected| == COLS && |counts| == COLS
    requires forall c :: 0 <= c < COLS ==> counts[c] >= 0
    ensures |tpc| == COLS
    ensures forall c :: 0 <= c < COLS ==> tpc[c] == selected[c][..Min(counts[c], |selected[c]|)]
  {
    seq(COLS, c requires 0 <= c < COLS => selected[c][..Min(counts[c], |selected[c]|)])
  }

  /** Prefixes of the candidate orders are lists of the column's own tracks, taken from
      `tracks`; with distinct ids in `tracks` they repeat no id. Each column gets as many
      tracks as it asks for, unless the column has fewer. */
  lemma TakenLists(tracks: seq<Track>, selected: seq<seq<Track>>, counts: seq<int>)
    requires ColumnOrders(tracks, selected) && |counts| == COLS
    requires forall c :: 0 <= c < COLS ==> counts[c] >= 0
    requires DistinctIds(tracks) ==> forall c :: 0 <= c < COLS ==> DistinctIds(selected[c])
    ensures var tpc := TakeCounts(selected, counts);
      && (forall c :: 0 <= c < COLS ==> |tpc[c]| == Min(counts[c], |TracksForColumn(tracks, c)|))
      && (forall c, k :: 0 <= c < COLS && 0 <= k < |tpc[c]| ==> tpc[c][k] in tracks && InColumnRange(tpc[c][k].id, c))
      && (DistinctIds(tracks) ==> ColumnListsProper(tpc))
  {
    var tpc := TakeCounts(selected, counts);
    forall c | 0 <= c < COLS ensures |tpc[c]| == Min(counts[c], |TracksForColumn(tracks, c)|) {
      assert |selected[c]| == |multiset(selected[c])| == |TracksForColumn(tracks, c)|;
    }
    forall c, k | 0 <= c < COLS && 0 <= k < |tpc[c]|
      ensures tpc[c][k] in tracks && InColumnRange(tpc[c][k].id, c)
    {
      assert tpc[c][k] == selected[c][k];
      assert selected[c][k] in multiset(TracksForColumn(tracks, c));
    }
    if DistinctIds(tracks) {
      forall c | 0 <= c < COLS ensures DistinctIds(tpc[c]) {
        assert forall i :: 0 <= i < |tpc[c]| ==> tpc[c][i] == selected[c][i];
      }
    }
  }
}

/** Randomised ordering (src/lib/ticketLogic.ts): the Fisher-Yates shuffle and the per-column
    ordering of candidate tracks with an optional priority group. Every draw of
    `Math.random` is a nondeterministic choice, so each contract holds for every outcome. */
module Shuffling {
  import opened TicketTypes
  import opened Seqs
  import opened Tracks

  /** `shuffleArray`: a copy of `s` in a random order. The argument is a value and so stays
      as it was; the copy is a fresh array swapped in place. */
  method Shuffle<T>(s: seq<T>) returns (r: seq<T>)
    ensures |r| == |s|
    ensures multiset(r) == multiset(s)
  {
    var a := new T[|s|](i requires 0 <= i < |s| => s[i]);
    assert a[..] == s;
    var i := a.Length - 1;
    while i > 0
      invariant -1 <= i < a.Length
      invariant multiset(a[..]) == multiset(s)
    {
      var j :| 0 <= j <= i;
      a[i], a[j] := a[j], a[i];
      i := i - 1;
    }
    r := a[..];
  }

  /** `Math.random() < w` for a weight `w`: never below 0, always at or above 1, otherwise
      either outcome. */
  method Coin(w: real) returns (b: bool)
    ensures w <= 0.0 ==> !b
    ensures w >= 1.0 ==> b
  {
    if w <= 0.0 {
      b := false;
    } else if w >= 1.0 {
      b := true;
    } else {
      b :| true;
    }
  }

  /** Tracks whose id is (resp. is not) in the priority set. */
  function Prioritised(ts: seq<Track>, priority: set<int>): seq<Track>
  {
    Filter(ts, (t: Track) => t.id in priority)
  }

  function NotPrioritised(ts: seq<Track>, priority: set<int>): seq<Track>
  {
    Filter(ts, (t: Track) => t.id !in priority)
  }

  /** Splitting by a predicate and joining the parts again loses and adds nothing. */
  lemma PartitionCount(ts: seq<Track>, priority: set<int>)
    ensures multiset(Prioritised(ts, priority) + NotPrioritised(ts, priority)) == multiset(ts)
  {
    forall t
      ensures multiset(Prioritised(ts, priority) + NotPrioritised(ts, priority))[t] == multiset(ts)[t]
    {
      FilterCount(ts, (t: Track) => t.id in priority, t);
      FilterCount(ts, (t: Track) => t.id !in priority, t);
    }
  }

  /** Candidate order for one column (the column loops of `generateTicket` and
      `generateFallbackTicket`): with `usePriority`, the shuffled tracks of the column whose
      id is in `priority`, then the shuffled rest; otherwise the whole column shuffled. */
  method OrderColumn(tracks: seq<Track>, col: int, priority: set<int>, usePriority: bool)
    returns (sorted: seq<Track>)
    requires 0 <= col < COLS
    ensures multiset(sorted) == multiset(TracksForColumn(tracks, col))
    ensures forall k :: 0 <= k < |sorted| ==> InColumnRange(sorted[k].id, col)
    ensures DistinctIds(tracks) ==> DistinctIds(sorted)
    ensures usePriority ==> forall i, j :: 0 <= i < j < |sorted| && sorted[j].id in priority ==> sorted[i].id in priority
  {
    var columnTracks := TracksForColumn(tracks, col);
    if usePriority {
      var first := Shuffle(Prioritised(columnTracks, priority));
      var rest := Shuffle(NotPrioritised(columnTracks, priority));
      sorted := first + rest;
      PartitionCount(columnTracks, priority);
      PriorityGroupFirst(columnTracks, priority, first, rest);
    } else {
      sorted := Shuffle(columnTracks);
    }
    ReorderedInColumn(columnTracks, sorted, col);
    if DistinctIds(tracks) {
      FilterKeepsDistinct(tracks, (t: Track) => InColumnRange(t.id, col));
      PermutationKeepsDistinct(columnTracks, sorted);
    }
  }

  /** The prioritised group in any order, then the rest in any order: no track of the rest
      comes before a prioritised one. */
  lemma PriorityGroupFirst(ts: seq<Track>, priority: set<int>, first: seq<Track>, rest: seq<Track>)
    requires multiset(first) == multiset(Prioritised(ts, priority))
    requires multiset(rest) == multiset(NotPrioritised(ts, priority))
    ensures forall i, j :: 0 <= i < j < |first + rest| && (first + rest)[j].id in priority ==>
      (first + rest)[i].id in priority
  {
    var sorted := first + rest;
    forall k | 0 <= k < |first| ensures sorted[k].id in priority {
      assert sorted[k] == first[k] && first[k] in multiset(first);
      assert first[k] in Prioritised(ts, priority);
    }
    forall k | |first| <= k < |sorted| ensures sorted[k].id !in priority {
      assert sorted[k] == rest[k - |first|] && rest[k - |first|] in multiset(rest);
      assert rest[k - |first|] in NotPrioritised(ts, priority);
    }
  }

  /** A reordering of a column's candidates holds only tracks of that column. */
  lemma ReorderedInColumn(columnTracks: seq<Track>, sorted: seq<Track>, col: int)
    requires 0 <= col < COLS
    requires forall k :: 0 <= k < |columnTracks| ==> InColumnRange(columnTracks[k].id, col)
    requires multiset(sorted) == multiset(columnTracks)
    ensures forall k :: 0 <= k < |sorted| ==> InColumnRange(sorted[k].id, col)
  {
    forall k | 0 <= k < |sorted| ensures InColumnRange(sorted[k].id, col) {
      assert sorted[k] in multiset(columnTracks);
    }
  }
}

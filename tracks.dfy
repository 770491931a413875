/** Track pool: parsing the input text into numbered tracks, the input check, and the
    column lookup and column filter (src/lib/ticketLogic.ts). */
module Tracks {
  import opened TicketTypes
  import opened Seqs
  import opened Text

  /** The `line.length > 0` test of the parser's filter. */
  predicate NotEmptyLine(line: string)
  {
    line != []
  }

  /** The trimmed lines of `input`, before empty ones are dropped. */
  function TrimmedLines(input: string): seq<string>
  {
    MapSeq(SplitLines(input), Trim)
  }

  /** The trimmed, non-empty lines of `input`, in input order. */
  function Names(input: string): seq<string>
  {
    Filter(TrimmedLines(input), NotEmptyLine)
  }

  /** Every non-empty trimmed line is a name exactly as often as it occurs, and an empty
      one never is. */
  lemma NamesCount(input: string, name: string)
    ensures multiset(Names(input))[name] == if name != [] then multiset(TrimmedLines(input))[name] else 0
  {
    FilterCount(TrimmedLines(input), NotEmptyLine, name);
  }

  /** The names keep the input order: those of the first `k` lines come before those of
      the rest. */
  lemma NamesInOrder(input: string, k: int)
    requires 0 <= k <= |TrimmedLines(input)|
    ensures Names(input) == Filter(TrimmedLines(input)[..k], NotEmptyLine) + Filter(TrimmedLines(input)[k..], NotEmptyLine)
  {
    FilterSplit(TrimmedLines(input), NotEmptyLine, k);
  }

  /** `parseTracksFromInput`: the first 90 names, numbered from 1 in input order. */
  function ParseTracks(input: string): (r: seq<Track>)
    ensures |r| == Min(|Names(input)|, TOTAL_TRACKS)
    ensures forall i :: 0 <= i < |r| ==> r[i] == Track(i + 1, Names(input)[i])
  {
    var names := Names(input);
    var n := Min(|names|, TOTAL_TRACKS);
    seq(n, i requires 0 <= i < n => Track(i + 1, names[i]))
  }

  /** A trimmed piece of a line has no line break, and no white space at either end. */
  lemma TrimmedLine(line: string)
    requires '\n' !in line && Trim(line) != []
    ensures '\n' !in Trim(line)
    ensures !IsWhiteSpace(Trim(line)[0]) && !IsWhiteSpace(Trim(line)[|Trim(line)| - 1])
  {
    TrimIsCore(line);
    var t := Trim(line);
    var a, b :| 0 <= a <= b <= |line| && t == line[a..b];
    forall j | 0 <= j < |t| ensures t[j] != '\n' {
      assert t[j] == line[a + j];
    }
  }

  /** Every parsed name is a trimmed, non-empty line of the input. */
  lemma ParsedNamesAreTrimmedLines(input: string, i: int)
    requires 0 <= i < |ParseTracks(input)|
    ensures var name := ParseTracks(input)[i].name;
      && name != []
      && '\n' !in name
      && !IsWhiteSpace(name[0]) && !IsWhiteSpace(name[|name| - 1])
      && exists k :: 0 <= k < |SplitLines(input)| && name == Trim(SplitLines(input)[k])
  {
    var name := Names(input)[i];
    var lines := SplitLines(input);
    var trimmed := TrimmedLines(input);
    assert name != [] && name in trimmed;
    var k :| 0 <= k < |trimmed| && trimmed[k] == name;
    assert name == Trim(lines[k]);
    TrimmedLine(lines[k]);
  }

  /** `validateInput`'s outcome: the reason is kept as its kind and numbers. */
  datatype InputMessage = NoTracks | TooFew(count: int, missing: int) | Ready

  datatype InputCheck = InputCheck(isValid: bool, trackCount: int, message: InputMessage)

  /** `validateInput`. */
  function ValidateInput(input: string): (r: InputCheck)
    ensures r.isValid <==> |Names(input)| >= TOTAL_TRACKS
    ensures r.trackCount == Min(|Names(input)|, TOTAL_TRACKS)
    ensures r.message == NoTracks <==> |Names(input)| == 0
    ensures r.message.TooFew? ==> r.message.count + r.message.missing == TOTAL_TRACKS
    ensures r.message.TooFew? ==> r.message.count == r.trackCount
    ensures r.message.TooFew? <==> 0 < |Names(input)| < TOTAL_TRACKS
    ensures r.message == Ready <==> r.isValid
  {
    var count := |ParseTracks(input)|;
    if count == 0 then InputCheck(false, 0, NoTracks)
    else if count < 90 then InputCheck(false, count, TooFew(count, 90 - count))
    else InputCheck(true, 90, Ready)
  }

  /** No two tracks share an id. */
  ghost predicate DistinctIds(ts: seq<Track>)
  {
    forall i, j :: 0 <= i < j < |ts| ==> ts[i].id != ts[j].id
  }

  /** Parsed tracks have ids 1..n, so no two share an id. */
  lemma ParsedIdsDistinct(input: string)
    ensures DistinctIds(ParseTracks(input))
  {
  }

  /** `getColumnForId`: the column whose block contains `id`, or -1 when none does. */
  method GetColumnForId(id: int) returns (col: int)
    ensures 1 <= id <= TOTAL_TRACKS ==> 0 <= col < COLS && InColumnRange(id, col)
    ensures !(1 <= id <= TOTAL_TRACKS) ==> col == -1
    ensures col == -1 || (0 <= col < COLS && InColumnRange(id, col))
  {
    col := 0;
    while col < |COLUMN_RANGES|
      invariant 0 <= col <= COLS
      invariant forall c :: 0 <= c < col ==> !InColumnRange(id, c)
    {
      var (min, max) := COLUMN_RANGES[col];
      if id >= min && id <= max {
        return;
      }
      col := col + 1;
    }
    if 1 <= id <= TOTAL_TRACKS {
      ColumnRangesPartition(id);
    }
    col := -1;
  }

  /** Two ids with the same lookup result, one of them in a block, share that block. */
  lemma SameColumnSameBlock(id1: int, id2: int, col: int)
    requires 0 <= col < COLS && InColumnRange(id1, col)
    requires 1 <= id2 <= TOTAL_TRACKS
    requires forall c :: 0 <= c < COLS && InColumnRange(id1, c) ==> InColumnRange(id2, c)
    ensures InColumnRange(id2, col)
  {
  }

  /** `getTracksForColumn`: the tracks whose id lies in the block of `col`, in order. */
  function TracksForColumn(tracks: seq<Track>, col: int): (r: seq<Track>)
    requires 0 <= col < COLS
    ensures forall t :: t in r <==> t in tracks && InColumnRange(t.id, col)
  {
    Filter(tracks, (t: Track) => InColumnRange(t.id, col))
  }

  /** The column filter keeps each in-block track as often as it occurs and drops the rest. */
  lemma TracksForColumnCount(tracks: seq<Track>, col: int, t: Track)
    requires 0 <= col < COLS
    ensures multiset(TracksForColumn(tracks, col))[t] ==
            if InColumnRange(t.id, col) then multiset(tracks)[t] else 0
  {
    FilterCount(tracks, (t: Track) => InColumnRange(t.id, col), t);
  }

  /** The column filter keeps input order: it commutes with concatenation. */
  lemma TracksForColumnConcat(a: seq<Track>, b: seq<Track>, col: int)
    requires 0 <= col < COLS
    ensures TracksForColumn(a + b, col) == TracksForColumn(a, col) + TracksForColumn(b, col)
  {
    FilterConcat(a, b, (t: Track) => InColumnRange(t.id, col));
  }

  // ---- distinct ids through filters and permutations ----

  lemma {:induction false} FilterKeepsDistinct(s: seq<Track>, p: Track -> bool)
    requires DistinctIds(s)
    ensures DistinctIds(Filter(s, p))
    decreases |s|
  {
    if s != [] {
      var s' := s[..|s| - 1];
      var x := s[|s| - 1];
      assert DistinctIds(s');
      FilterKeepsDistinct(s', p);
      var f := Filter(s', p);
      forall y | y in f ensures y.id != x.id {
        var k :| 0 <= k < |s'| && s'[k] == y;
        assert s[k] == y;
      }
    }
  }

  lemma PermutationKeepsDistinct(s: seq<Track>, r: seq<Track>)
    requires DistinctIds(s) && multiset(r) == multiset(s)
    ensures DistinctIds(r)
  {
    forall i, j | 0 <= i < j < |r| ensures r[i].id != r[j].id {
      if r[i].id == r[j].id {
        if r[i] == r[j] {
          assert multiset(r)[r[i]] >= 2 by {
            assert r == r[..i] + [r[i]] + r[i + 1..j] + [r[j]] + r[j + 1..];
          }
          TwoOccurrences(s, r[i]);
        } else {
          DistinctIdsSameTrack(s, r[i], r[j]);
        }
      }
    }
  }

  /** Different tracks of a sequence with distinct ids have different ids. */
  lemma DistinctIdsDifferentTracks(s: seq<Track>, x: Track, y: Track)
    requires DistinctIds(s) && x in s && y in s && x != y
    ensures x.id != y.id
  {
    var a :| 0 <= a < |s| && s[a] == x;
    var b :| 0 <= b < |s| && s[b] == y;
    assert a != b;
  }

  /** Ids of tracks in a sequence with distinct ids identify the tracks. */
  lemma DistinctIdsSameTrack(s: seq<Track>, x: Track, y: Track)
    requires DistinctIds(s) && x in s && y in s && x.id == y.id
    ensures x == y
  {
    var a :| 0 <= a < |s| && s[a] == x;
    var b :| 0 <= b < |s| && s[b] == y;
    assert a == b;
  }
}

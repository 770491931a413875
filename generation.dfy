/** Ticket generation (src/lib/ticketLogic.ts): `generateTicket` with its bounded retry loop
    and fallback, the priority weight of the batch generator, `generateTickets` with its
    coverage repair pass, and `getMissedTracks`. */
module Generation {
  import opened TicketTypes
  import opened Seqs
  import opened Grids
  import opened Tracks
  import opened Shuffling
  import opened Distribution
  import opened StrictPlacement
  import opened Selection
  import opened Fallback
  import opened Validation
  import opened TicketIds

  const MAX_GLOBAL_ATTEMPTS: nat := 100

  /** `generateTicket`. Up to 100 attempts each draw candidate orders, a column template and a
      strict placement, and return the first ticket that passes `validateTicketInternal`;
      after 100 failed attempts the fallback ticket is returned. `attempts` counts the failed
      attempts and `fellBack` says whether the fallback was used. */
  method GenerateTicket(tracks: seq<Track>, ticketNumber: nat, priority: set<int>, weight: real)
    returns (t: Ticket, ghost attempts: nat, ghost fellBack: bool)
    ensures WellFormedTicket(t) && t.id == TicketId(ticketNumber)
    ensures Conforming(TrackGrid(t)) && FromPool(TrackGrid(t), tracks)
    ensures DistinctIds(tracks) ==> NoDuplicates(TrackGrid(t))
    ensures forall r :: 0 <= r < ROWS ==> RowCount(TrackGrid(t), r) <= ITEMS_PER_ROW
    ensures FullColumns(TrackGrid(t)) <= 1
    ensures attempts <= MAX_GLOBAL_ATTEMPTS && (fellBack <==> attempts == MAX_GLOBAL_ATTEMPTS)
    ensures !fellBack ==> ValidTicket(t)
    ensures DistinctIds(tracks) && FallbackSupply(tracks) ==> ValidTicket(t)
  {
    attempts := 0;
    var globalAttempt := 0;
    while globalAttempt < MAX_GLOBAL_ATTEMPTS
      invariant 0 <= globalAttempt <= MAX_GLOBAL_ATTEMPTS && attempts == globalAttempt
    {
      var ticket := TryTicket(tracks, ticketNumber, priority, weight);
      if ticket.Some? {
        return ticket.value, attempts, false;
      }
      globalAttempt := globalAttempt + 1;
      attempts := attempts + 1;
    }
    fellBack := true;
    t := GenerateFallbackTicket(tracks, ticketNumber, priority);
  }

  /** One attempt of `generateTicket`: a ticket that passed `validateTicketInternal`, or
      `None` when the strict placer or the check rejected this draw. */
  method TryTicket(tracks: seq<Track>, ticketNumber: nat, priority: set<int>, weight: real)
    returns (result: Option<Ticket>)
    ensures result.Some? ==> WellFormedTicket(result.value) && result.value.id == TicketId(ticketNumber)
    ensures result.Some? ==> ValidTicket(result.value)
    ensures result.Some? ==> Conforming(TrackGrid(result.value)) && FromPool(TrackGrid(result.value), tracks)
  {
    var selectedByColumn := SelectByColumn(tracks, priority, weight);
    var columnCounts := GenerateValidColumnDistribution();
    var tracksPerColumn := TakeCounts(selectedByColumn, columnCounts);
    TakenLists(tracks, selectedByColumn, columnCounts);
    var grid := DistributeToGridStrict(tracksPerColumn);
    if grid.None? {
      return None;
    }
    var ticket := BuildTicket(TicketId(ticketNumber), grid.value);
    var isValid := ValidateTicketInternal(ticket);
    if !isValid {
      return None;
    }
    GridFromLists(grid.value, tracksPerColumn, tracks);
    result := Some(ticket);
  }

  // ---- the pools the engine is fed ----

  /** A sequence holding two different values has at least two entries. */
  lemma TwoMembers<T>(s: seq<T>, x: T, y: T)
    requires x in s && y in s && x != y
    ensures |s| >= 2
  {
    var i :| 0 <= i < |s| && s[i] == x;
    var j :| 0 <= j < |s| && s[j] == y;
    assert i != j;
  }

  /** A pool of ninety tracks numbered 1 to 90 supplies every column with the fallback
      template's count: each block has at least nine ids. */
  lemma FullPoolSupply(tracks: seq<Track>)
    requires |tracks| == TOTAL_TRACKS && forall i :: 0 <= i < |tracks| ==> tracks[i].id == i + 1
    ensures FallbackSupply(tracks)
  {
    FallbackCounts();
    BlockSizes();
    forall c | 0 <= c < COLS ensures |TracksForColumn(tracks, c)| >= FALLBACK_COUNTS[c] {
      var lo := COLUMN_RANGES[c].0;
      assert 1 <= lo && lo + 1 <= TOTAL_TRACKS;
      assert tracks[lo - 1].id == lo && tracks[lo].id == lo + 1;
      TwoMembers(TracksForColumn(tracks, c), tracks[lo - 1], tracks[lo]);
    }
  }

  /** Once the input check accepts, the parsed pool has distinct ids and enough tracks in
      every column, so every ticket generated from it is valid. */
  lemma AcceptedInputSuffices(input: string)
    requires ValidateInput(input).isValid
    ensures DistinctIds(ParseTracks(input)) && FallbackSupply(ParseTracks(input))
  {
    ParsedIdsDistinct(input);
    FullPoolSupply(ParseTracks(input));
  }

  // ---- the batch generator ----

  /** The number of tickets left times fifteen, at least one: the denominator of the urgency. */
  function Cover(remaining: int): (m: int)
    ensures m >= 1 && m >= remaining * 15
  {
    var tracksCanCover := remaining * 15;
    if tracksCanCover >= 1 then tracksCanCover else 1
  }

  /** The priority weight for `unused` uncovered ids and `remaining` tickets still to make:
      0.1 when nothing is uncovered, else by the urgency `unused / Cover(remaining)` against
      0.5, 0.3 and 0.15. The comparisons are made by cross-multiplication, which
      `PriorityWeightUrgency` shows equal to the quotient comparisons. */
  function PriorityWeight(unused: nat, remaining: int): (w: real)
    ensures w == 0.1 || w == 0.3 || w == 0.6 || w == 0.9
    ensures unused == 0 ==> w == 0.1
  {
    var cover := Cover(remaining);
    if unused == 0 then 0.1
    else if 2 * unused > cover then 0.9
    else if 10 * unused > 3 * cover then 0.6
    else if 20 * unused > 3 * cover then 0.3
    else 0.1
  }

  /** Comparing a quotient with a fraction is comparing cross products. */
  lemma QuotientAbove(u: int, m: int, a: int, b: int)
    requires m >= 1 && b >= 1
    ensures (u as real) / (m as real) > (a as real) / (b as real) <==> b * u > a * m
  {
    var q := (u as real) / (m as real);
    var p := (a as real) / (b as real);
    var mb := (m as real) * (b as real);
    assert mb > 0.0;
    assert q * (m as real) == u as real;
    assert p * (b as real) == a as real;
    assert q * mb == (u as real) * (b as real);
    assert p * mb == (a as real) * (m as real);
    assert (b * u) as real == (u as real) * (b as real);
    assert (a * m) as real == (a as real) * (m as real);
    if q > p {
      assert q * mb > p * mb;
    } else {
      assert q * mb <= p * mb;
    }
  }

  /** The weight as the source states it: with uncovered ids, 0.9 above urgency 0.5, 0.6
      above 0.3, 0.3 above 0.15 and 0.1 otherwise. */
  lemma PriorityWeightUrgency(unused: nat, remaining: int)
    requires unused > 0
    ensures var urgency := (unused as real) / (Cover(remaining) as real);
      var w := PriorityWeight(unused, remaining);
      && (w == 0.9 <==> urgency > 0.5)
      && (w == 0.6 <==> !(urgency > 0.5) && urgency > 0.3)
      && (w == 0.3 <==> !(urgency > 0.3) && urgency > 0.15)
      && (w == 0.1 <==> !(urgency > 0.15))
  {
    var m := Cover(remaining);
    QuotientAbove(unused, m, 1, 2);
    QuotientAbove(unused, m, 3, 10);
    QuotientAbove(unused, m, 3, 20);
    assert (1 as real) / (2 as real) == 0.5;
    assert (3 as real) / (10 as real) == 0.3;
    assert (3 as real) / (20 as real) == 0.15;
  }

  /** More uncovered ids never lower the weight. */
  lemma PriorityWeightMonotone(u1: nat, u2: nat, remaining: int)
    requires u1 <= u2
    ensures PriorityWeight(u1, remaining) <= PriorityWeight(u2, remaining)
  {
  }
}

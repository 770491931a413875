# Music lotto ticket engine, modelled in Dafny

This project models the ticket engine of a "music lotto" generator. The game is Russian
Lotto played with songs. The user types up to ninety track names, one per line. Track `i`
gets the id `i`. A ticket is a 3 × 9 grid. Column `c` may only hold ids from its block:
1–9, 10–19, …, 70–79 and 80–90. A ticket is valid when:

- each row holds exactly five tracks;
- no id appears twice;
- at most one column is full (all three cells filled).

The model covers four parts:

- **Input.** It parses and checks the input.
- **One ticket.** It builds a ticket: per-column candidate orders, a column-count template, a
  strict row placement and a final validity check. This repeats up to 100 times, then a
  deterministic fallback placement is used.
- **A batch.** It generates a batch of tickets. A first pass favours ids no earlier ticket
  used. A repair pass then swaps uncovered ids into the last tickets.
- **Reporting and sanitising.** It reports missed tracks and validates tickets. It also
  covers the input sanitisers: trimming, deleting control characters, cutting to a length,
  and a case-insensitive block list of script and markup patterns.

How the source is represented:

- **Randomness.** `Math.random` is nondeterministic choice. A shuffle is any permutation. A
  pick is any index. The coin `Math.random() < w` is any boolean, except that it is `false`
  for `w <= 0` and `true` for `w >= 1`.
- **Tickets** are values (`Ticket(id, cells)`).
- **Loops.** Loops that build grids and sets are methods with loop invariants. The two
  placement routines keep the source's 3 × 9 grid and row counters as arrays.
- **Pure code** becomes functions with lemmas. This covers the parsing, filtering,
  sanitising and pattern matching.

Module by source file:

| Source | Modules |
|---|---|
| `src/types/ticket.ts` | `TicketTypes`, `Grids` |
| `src/lib/ticketLogic.ts` | `Text`, `Tracks`, `Shuffling`, `Selection`, `Distribution`, `StrictPlacement`, `Fallback`, `Validation`, `TicketIds`, `Generation`, `Coverage`, `Batch` |
| `src/lib/security.ts` | `Security` |

`Seqs` holds the sequence helpers (sum, map, filter, a stable descending sort).

Main results:

- **Every ticket meets its column blocks.** It is drawn from the pool, has at most five
  tracks per row and at most one full column. It has no duplicate when the pool's ids are
  distinct.
- **Valid input gives valid tickets.** Once `validateInput` accepts, every generated ticket
  is valid, including the fallback ticket. This is `Generation.AcceptedInputSuffices` and
  `Batch.AcceptedInputTicketsValid`.
- **The fallback always fills its rows.** Its greedy "least-filled row" placement keeps the
  row counts within one of each other, so fifteen tracks always land as 5/5/5.
- **The repair pass is safe.** It touches only the last ⌈missed/5⌉ tickets and changes at
  most five cells in each. Each new cell holds a missed id. Every ticket stays sound.
- **The validators are exact.** `validateTicket` and `validateTicketInternal` accept exactly
  the valid tickets. The error lists they build are exactly the faulty rows and the
  duplicated ids.
- **The block list is a specification.** `isInputSafe` is specified by the positions where
  each of its regular expressions matches.

## Model

| member | source | states |
|---|---|---|
| TicketTypes.ColumnRangesContiguous | src/types/ticket.ts:20-30 | nine blocks, the first starts at 1, the last ends at 90, and each starts right after the previous one |
| TicketTypes.ColumnRangesPartition | src/types/ticket.ts:20-32 | every id 1..90 lies in exactly one column block |
| TicketTypes.BlockSizes | src/types/ticket.ts:20-30 | the blocks hold 9, 10 (seven times) and 11 ids, so each has at least three |
| TicketTypes.TicketSize | src/types/ticket.ts:33-36 | three rows of five make the fifteen tracks of a ticket |
| Text.TrimIsCore | src/lib/ticketLogic.ts:20 | `trim` removes exactly the leading and trailing white space and leaves a core with non-blank ends |
| Text.TrimIdempotent | src/lib/ticketLogic.ts:20 | trimming twice is trimming once |
| Text.SplitJoin | src/lib/ticketLogic.ts:18-19 | `split("\n")` loses nothing: joining the pieces with line feeds gives the input back, and no piece holds a line feed |
| Tracks.ParseTracks | src/lib/ticketLogic.ts:17-27 | the i-th track is `Track(i+1, i-th non-blank trimmed line)`, for at most 90 lines |
| Tracks.ParsedNamesAreTrimmedLines | src/lib/ticketLogic.ts:18-23 | every parsed name is a trimmed input line, non-empty, without line feeds and with non-blank ends |
| Tracks.NamesCount | src/lib/ticketLogic.ts:18-21 | every non-empty trimmed line becomes a name exactly as often as it occurs; an empty one never does |
| Tracks.NamesInOrder | src/lib/ticketLogic.ts:18-21 | names from earlier lines come before names from later lines |
| Tracks.ParsedIdsDistinct | src/lib/ticketLogic.ts:23-26 | parsed ids are pairwise distinct |
| Tracks.ValidateInput | src/lib/ticketLogic.ts:588-617 | valid iff at least 90 non-blank lines; the count is capped at 90; "no tracks" exactly for none; the shortfall message exactly for 1 to 89 names, showing the track count and the number missing to 90; the ready message exactly when valid |
| Tracks.GetColumnForId | src/lib/ticketLogic.ts:32-40 | ids 1..90 get the unique column whose block holds them, every other id -1 |
| Tracks.TracksForColumn | src/lib/ticketLogic.ts:45-48 | exactly the tracks whose id lies in the column's block |
| Tracks.TracksForColumnCount | src/lib/ticketLogic.ts:45-48 | the filter keeps every in-block track as often as it occurs and drops the rest |
| Tracks.PermutationKeepsDistinct | src/lib/ticketLogic.ts:53-60 | reordering a pool with distinct ids keeps them distinct |
| Shuffling.Shuffle | src/lib/ticketLogic.ts:53-60 | the Fisher–Yates loop returns a permutation of its input |
| Shuffling.Coin | src/lib/ticketLogic.ts:84 | `Math.random() < w` is never true for w ≤ 0 and always for w ≥ 1 |
| Shuffling.PartitionCount | src/lib/ticketLogic.ts:85-87 | priority and non-priority tracks together are the column's tracks |
| Shuffling.OrderColumn | src/lib/ticketLogic.ts:80-90 | a permutation of the column's tracks, all in its block; with the priority branch taken, every priority track comes before every other |
| Selection.SelectByColumn | src/lib/ticketLogic.ts:77-93 | nine orders, one per column, each a permutation of that column's tracks; with a non-empty priority set and weight ≥ 1, priority tracks first |
| Selection.TakenLists | src/lib/ticketLogic.ts:99-101 | each taken list has min(count, available) tracks from the pool and the column's block, and distinct ids when the pool has them |
| Distribution.TemplatesWellFormed | src/lib/ticketLogic.ts:257-278 | all twenty templates have nine counts in 1..3 summing to 15 with at most one 3 |
| Distribution.FallbackCounts | src/lib/ticketLogic.ts:189 | the fallback template sums to 15 with every count 1 or 2 |
| Distribution.PermutedCounts | src/lib/ticketLogic.ts:281-282 | shuffling a well-formed template keeps it well formed |
| Distribution.GenerateValidColumnDistribution | src/lib/ticketLogic.ts:254-283 | a permutation of one of the twenty templates, hence well formed |
| StrictPlacement.CollectPlacements | src/lib/ticketLogic.ts:331-336 | the (track, column) pairs column by column, in list order |
| StrictPlacement.PlacementsCount | src/lib/ticketLogic.ts:331-336 | each pair occurs as often as its track in its column's list |
| StrictPlacement.ChooseRow | src/lib/ticketLogic.ts:352-367 | -1 iff no row has the column free and fewer than five tracks; otherwise such a row with the fewest tracks |
| StrictPlacement.SeatAll | src/lib/ticketLogic.ts:350-371 | the arrays hold the grid built so far with matching row counters; on success every placement is seated in its column |
| StrictPlacement.AllRowsFull | src/lib/ticketLogic.ts:374-378 | true iff every row counter is five |
| StrictPlacement.CountFullColumns | src/lib/ticketLogic.ts:381-385 | the number of columns with all three cells filled |
| StrictPlacement.PlaceSorted | src/lib/ticketLogic.ts:350-390 | a returned grid has five tracks per row, at most one full column, and in each column exactly that column's list |
| StrictPlacement.DistributeToGridStrict | src/lib/ticketLogic.ts:326-391 | null unless there are fifteen tracks; a returned grid has five per row, at most one full column and each column's list |
| StrictPlacement.GridFromLists | src/lib/ticketLogic.ts:99-104 | a grid built from the taken lists respects the column blocks and uses only pool tracks |
| StrictPlacement.ProperListsGiveProperGrid | src/lib/ticketLogic.ts:99-104 | lists with distinct ids in their blocks give a grid without duplicates |
| Fallback.LeastFilledRow | src/lib/ticketLogic.ts:220-228 | -1 iff no eligible row; else the first eligible row with the fewest tracks |
| Fallback.GreedyStep | src/lib/ticketLogic.ts:220-231 | seating in a least-filled eligible row keeps the row counts within one of each other |
| Fallback.BalancedRows | src/lib/ticketLogic.ts:186-189 | balanced rows holding at most 15 have at most five each, and exactly five at 15 |
| Fallback.SeatOne | src/lib/ticketLogic.ts:219-232 | one track is always seated: the total grows by one, the rows stay balanced, other columns are unchanged |
| Fallback.PlaceColumn | src/lib/ticketLogic.ts:217-233 | a column's one or two tracks all land in that column, keeping the rows balanced |
| Fallback.OrderCoversColumns | src/lib/ticketLogic.ts:214-215 | the sorted column order visits each of the nine columns exactly once |
| Fallback.PlaceInOrder | src/lib/ticketLogic.ts:214-234 | after all columns every column holds its list and the rows are balanced |
| Fallback.PlaceFallback | src/lib/ticketLogic.ts:209-234 | each column holds its list, no column is full, at most five per row, and five per row when fifteen tracks are given |
| Fallback.PrefixKeepsPriority | src/lib/ticketLogic.ts:195-207 | with a priority set, a column never holds a non-priority track while a priority track of its block is left out |
| Fallback.GenerateFallbackTicket | src/lib/ticketLogic.ts:181-248 | a well-formed ticket with the right id and column blocks; per-column counts min(template, available); no full column; valid when the pool has distinct ids and enough per column; priority respected |
| Validation.HasDuplicate | src/lib/ticketLogic.ts:152-163 | the set-based scan finds a repeat iff some id occupies two cells |
| Validation.ValidateTicketInternal | src/lib/ticketLogic.ts:143-176 | true iff five per row, no duplicate id and at most one full column |
| Validation.InvalidRowCounts | src/lib/ticketLogic.ts:635-641 | exactly the rows whose count is not five, in order, with their counts |
| Validation.DuplicateTracks | src/lib/ticketLogic.ts:643-657 | exactly the duplicated ids, each once |
| Validation.RowErrorsEmpty | src/lib/ticketLogic.ts:668-671 | the row error list is empty iff every row holds five |
| Validation.DuplicatesEmpty | src/lib/ticketLogic.ts:668-671 | the duplicate list is empty iff no id repeats |
| Validation.ValidateTicket | src/lib/ticketLogic.ts:627-678 | the result's lists, full-column count and flag describe the ticket, and `isValid` holds iff the ticket is valid |
| Validation.ValidateTickets | src/lib/ticketLogic.ts:683-693 | total, valid and invalid counts add up; the details are the reports of exactly the invalid tickets, in order |
| TicketIds.TicketId | src/lib/ticketLogic.ts:125 | "TICKET-" followed by at least four digits |
| TicketIds.TicketIdValue | src/lib/ticketLogic.ts:125 | the digits after "TICKET-" read back as the ticket number |
| TicketIds.TicketIdInjective | src/lib/ticketLogic.ts:125 | different ticket numbers give different ids |
| Generation.TryTicket | src/lib/ticketLogic.ts:76-133 | an accepted attempt is a well-formed, valid ticket within the column blocks and the pool |
| Generation.GenerateTicket | src/lib/ticketLogic.ts:67-138 | at most 100 attempts, then the fallback; always well formed and within blocks and pool; valid unless it fell back, and valid anyway on a pool with distinct ids and enough per column |
| Generation.FullPoolSupply | src/lib/ticketLogic.ts:186-189 | ninety tracks numbered 1..90 supply every column with its fallback count |
| Generation.AcceptedInputSuffices | src/lib/ticketLogic.ts:604-616 | an accepted input parses to a pool with distinct ids that supplies the fallback |
| Generation.Cover | src/lib/ticketLogic.ts:478-488 | the urgency denominator is at least 1 and at least 15 times the tickets left |
| Generation.PriorityWeight | src/lib/ticketLogic.ts:485-497 | one of 0.1, 0.3, 0.6 and 0.9, and 0.1 when nothing is uncovered |
| Generation.PriorityWeightUrgency | src/lib/ticketLogic.ts:487-496 | 0.9 iff urgency > 0.5, 0.6 iff 0.3 < urgency ≤ 0.5, 0.3 iff 0.15 < urgency ≤ 0.3, else 0.1 |
| Generation.PriorityWeightMonotone | src/lib/ticketLogic.ts:485-497 | more uncovered ids never lower the weight |
| Coverage.UsedIdsMembers | src/lib/ticketLogic.ts:502-509 | an id is used by a batch iff some ticket holds it |
| Coverage.IdsInCells | src/lib/ticketLogic.ts:503-508 | a ticket uses exactly the ids of its filled cells |
| Coverage.MarkUsed | src/lib/ticketLogic.ts:502-509 | the loop adds exactly the ticket's ids to the used set |
| Coverage.Uncovered | src/lib/ticketLogic.ts:473-475 | exactly the pool ids outside the used set |
| Coverage.UncoveredDistinct | src/lib/ticketLogic.ts:513 | the uncovered id list has no repeats when the pool's ids are distinct |
| Coverage.Missed | src/lib/ticketLogic.ts:582 | exactly the pool tracks whose id is outside the used set |
| Coverage.GetMissedTracks | src/lib/ticketLogic.ts:569-583 | exactly the pool tracks no ticket holds, in input order |
| Batch.NextTicket | src/lib/ticketLogic.ts:472-509 | one round appends one sound ticket numbered next and keeps the used set equal to the ids used |
| Batch.FirstPass | src/lib/ticketLogic.ts:470-510 | `count` tickets (none for count ≤ 0), numbered 1.. and sound, with the used set equal to the ids used |
| Batch.FilledPositions | src/lib/ticketLogic.ts:524-535 | the filled cells, each once, in row-major order; one per filled cell |
| Batch.FindTrack | src/lib/ticketLogic.ts:545 | a pool track with that id, or nothing exactly when none has it |
| Batch.SetTrack | src/lib/ticketLogic.ts:556 | the ticket with one cell's track replaced and every other cell unchanged |
| Batch.FreshKeepsNoDuplicates | src/lib/ticketLogic.ts:556 | writing an id the ticket lacks keeps it free of duplicates |
| Batch.SetTrackIds | src/lib/ticketLogic.ts:556 | after the write the ticket uses only its old ids and the new one |
| Batch.RepairTicket | src/lib/ticketLogic.ts:537-559 | takes min(5, queued, filled) ids off the queue; at most that many cells change, each to a queued id; the ticket stays sound with the same filling |
| Batch.RepairNext | src/lib/ticketLogic.ts:519-560 | one repair round keeps the progress invariant: rounds done, ids taken and tickets repaired |
| Batch.RepairCoverage | src/lib/ticketLogic.ts:512-561 | every ticket is its first-pass self with at most five cells swapped to missed ids; tickets before the last ⌈missed/5⌉ are untouched |
| Batch.RepairedNumbered | src/lib/ticketLogic.ts:512-561 | the repaired batch is still numbered 1.. and sound |
| Batch.GenerateTickets | src/lib/ticketLogic.ts:463-564 | `count` sound tickets with distinct ids; the repair changes only the last ⌈missed/5⌉; every used id was used in the first pass or was missed |
| Batch.AcceptedInputTicketsValid | src/lib/ticketLogic.ts:463-564 | on an accepted input every generated ticket is valid |
| Security.StripControl | src/lib/security.ts:21 | no deleted control character remains and the result is no longer |
| Security.StripControlConcat | src/lib/security.ts:21 | deleting works character by character: it distributes over concatenation |
| Security.StripControlKeeps | src/lib/security.ts:20-21 | every other character, tab, line feed and carriage return included, is kept as often as it occurs |
| Security.StripControlClean | src/lib/security.ts:20-21 | a string without those characters is unchanged |
| Security.SliceTo | src/lib/security.ts:23 | a prefix of length min(end, len), or len + end clamped at 0 for a negative end |
| Security.Sanitize | src/lib/security.ts:66-69 | a prefix of the trimmed, control-free input: all of it when it fits, exactly maxLength characters when it is longer, and `slice`'s count from the end for a negative maxLength |
| Security.SanitizeTrackName | src/lib/security.ts:17-24 | the trimmed, control-stripped name cut at 200 characters: a prefix of it, of length min(its length, 200), with no deleted control character |
| Security.SanitizeTicketTitle | src/lib/security.ts:32-39 | the trimmed, control-stripped title cut at 50 characters: a prefix of it, of length min(its length, 50), with no deleted control character |
| Security.SanitizeKeepsCleanName | src/lib/security.ts:17-24 | a trimmed, control-free name of at most 200 characters is returned unchanged |
| Security.SanitizeMayStartWithSpace | src/lib/security.ts:18-21 | the trim runs before the deletion, so "\u0001 x" sanitises to " x", which starts with a space |
| Security.Search | src/lib/security.ts:47-56 | the leftmost matching position from `from`, or -1 exactly when none matches |
| Security.IsInputSafe | src/lib/security.ts:45-59 | true iff none of the four patterns matches at any position |
| Security.ScriptIsUnsafe | src/lib/security.ts:47-50 | "<script" or "javascript:", in any mix of ASCII case, makes the input unsafe |
| Security.PlainTextIsSafe | src/lib/security.ts:45-59 | text of letters, digits, '_' and spaces is always safe |
| Security.SanitizeAndValidate | src/lib/security.ts:65-77 | the sanitised input when it is safe or empty, else ""; a non-empty result is safe and at most maxLength long |

## Left out

- Random draws are not modelled as probabilities. The model covers every outcome: every
  shuffle, template, row pick and coin. The Fisher–Yates distribution, the uniform choices
  and the probability `w` of the coin are not modelled.
- `distributeItemsToColumns`, `canDistributeToRows` and `distributeToGrid`
  (src/lib/ticketLogic.ts:289-457) are not modelled. Nothing reachable from the exported
  functions calls them.
- Batch.GenerateTickets: the doc comment promises that all 90 tracks are covered. The model
  does not state that promise, because it does not hold:
  - a batch of fewer than six tickets has room for fewer than 90 ids;
  - a repair swap only happens when both ids are in the same column block;
  - a swap can remove the only occurrence of an id that was already covered.
  What the model proves is that no id outside the first pass's ids and the missed ids
  appears.
- The repair pass writes into a ticket that the `tickets` array and the local variable
  share. The model rebuilds the ticket as a value and stores it back. The ticket is
  reachable only through the array, so nothing else observes the write. Its
  `usedTracks.add` (line 557) is never read afterwards, so it is not modelled.
- `if (!unusedTrackId) break;` (line 543) is modelled as a stop on id 0. The queue cannot
  run dry there, because `toReplace` is at most its length.
- Optional arguments become explicit values:
  - a missing priority set is the empty set, which the source treats the same way;
  - ticket numbers are naturals.
- Weights and urgencies are exact rationals. IEEE-754 rounding of `unusedCount / max(...)`
  is not modelled.
- StrictPlacement.DistributeToGridStrict: the descending sort by column size is a stable
  sort, as `Array.prototype.sort` is. The model proves that the result is sorted and is a
  permutation of its input, but not that it is stable.
- Validation.DuplicateTracks: the list order is not stated. In the source it is the order
  of the second occurrences.
- Validation.ValidateTicket, Validation.ValidateTicketInternal and
  Validation.ValidateTickets require a 3 × 9 cell grid. Every ticket the engine builds
  has that shape (`Ticket` values are well formed at every call site), so the
  requirement is met wherever the source calls them. On other shapes the source
  behaves in two ways, neither of them modelled:
  - fewer than three rows, or a row shorter than nine cells, makes it read `.track` of
    `undefined` (src/lib/ticketLogic.ts:168, 661) and throw;
  - extra rows or longer rows are accepted without an exception: the duplicate scan
    also counts the extra cells (lines 154, 647), and the row check ignores rows after
    the third (lines 146, 637).
- `validateInput` returns Russian message texts. The model replaces them with a message
  datatype that keeps the numbers they show. The localisation layer is not part of this
  model.
- Strings are sequences of Unicode code points. JavaScript counts UTF-16 code units, so
  `slice(0, 200)` on text outside the Basic Multilingual Plane cuts at a different place
  and may split a surrogate pair.
- Security.SanitizeAndValidate: `maxLength` is an integer. Fractional, NaN and infinite
  lengths are not modelled. The `console.warn` on a blocked input is left out.
- The `i` flag is modelled as ASCII case folding. Without the `u` flag, JavaScript never
  folds a non-ASCII character onto an ASCII one, and every pattern is ASCII. `\w` is
  `[A-Za-z0-9_]`. `\s` is the white space set that `trim` uses.

/** Column counts of a ticket (src/lib/ticketLogic.ts): the twenty templates of
    `generateValidColumnDistribution`, and the fixed template of the fallback placer. */
module Distribution {
  import opened TicketTypes
  import opened Seqs
  import opened Shuffling

  /** The twenty column-count templates, in source order; the last four hold one 3. */
  const TEMPLATES: seq<seq<int>> := [
    [2, 2, 2, 1, 2, 2, 2, 1, 1],
    [2, 2, 1, 2, 2, 1, 2, 2, 1],
    [1, 2, 2, 2, 1, 2, 2, 2, 1],
    [2, 1, 2, 2, 2, 1, 2, 2, 1],
    [2, 2, 2, 2, 1, 1, 2, 2, 1],
    [1, 2, 2, 2, 2, 1, 2, 2, 1],
    [2, 1, 2, 2, 2, 2, 1, 2, 1],
    [2, 2, 1, 2, 2, 2, 1, 2, 1],
    [1, 2, 2, 1, 2, 2, 2, 2, 1],
    [2, 2, 2, 1, 2, 1, 2, 2, 1],
    [2, 1, 2, 2, 1, 2, 2, 2, 1],
    [1, 2, 2, 2, 2, 2, 1, 2, 1],
    [2, 2, 1, 2, 1, 2, 2, 2, 1],
    [2, 2, 2, 2, 2, 1, 1, 2, 1],
    [1, 2, 1, 2, 2, 2, 2, 2, 1],
    [2, 1, 2, 1, 2, 2, 2, 2, 1],
    [3, 2, 1, 2, 1, 2, 2, 1, 1],
    [2, 3, 1, 2, 1, 2, 1, 2, 1],
    [1, 2, 3, 1, 2, 2, 2, 1, 1],
    [2, 1, 2, 3, 1, 2, 1, 2, 1]
  ]

  /** The fallback placer's fixed column counts. */
  const FALLBACK_COUNTS: seq<int> := [2, 2, 2, 1, 2, 2, 2, 1, 1]

  /** Nine counts, each 0..3, summing to fifteen, with at most one 3. */
  ghost predicate WellFormedCounts(counts: seq<int>)
  {
    && |counts| == COLS
    && (forall c :: 0 <= c < |counts| ==> 0 <= counts[c] <= ROWS)
    && Sum(counts) == TOTAL_ITEMS_PER_TICKET
    && (forall i, j :: 0 <= i < j < |counts| && counts[i] == ROWS ==> counts[j] != ROWS)
  }

  lemma SumStep(s: seq<int>, k: int)
    requires 0 <= k < |s|
    ensures Sum(s[..k + 1]) == Sum(s[..k]) + s[k]
  {
    assert s[..k + 1][..k] == s[..k];
  }

  /** A sum of nine terms, written out. */
  lemma SumNine(s: seq<int>)
    requires |s| == 9
    ensures Sum(s) == s[0] + s[1] + s[2] + s[3] + s[4] + s[5] + s[6] + s[7] + s[8]
  {
    assert s[..0] == [];
    SumStep(s, 0); SumStep(s, 1); SumStep(s, 2); SumStep(s, 3); SumStep(s, 4);
    SumStep(s, 5); SumStep(s, 6); SumStep(s, 7); SumStep(s, 8);
    assert s[..9] == s;
  }

  function Threes(x: int): int { if x == 3 then 1 else 0 }

  /** Nine counts in 1..3, summing to fifteen, with at most one 3, are well formed. */
  lemma CountsWellFormed(t: seq<int>)
    requires |t| == 9
    requires 1 <= t[0] <= 3 && 1 <= t[1] <= 3 && 1 <= t[2] <= 3 && 1 <= t[3] <= 3 && 1 <= t[4] <= 3
    requires 1 <= t[5] <= 3 && 1 <= t[6] <= 3 && 1 <= t[7] <= 3 && 1 <= t[8] <= 3
    requires t[0] + t[1] + t[2] + t[3] + t[4] + t[5] + t[6] + t[7] + t[8] == 15
    requires Threes(t[0]) + Threes(t[1]) + Threes(t[2]) + Threes(t[3]) + Threes(t[4])
           + Threes(t[5]) + Threes(t[6]) + Threes(t[7]) + Threes(t[8]) <= 1
    ensures WellFormedCounts(t)
    ensures forall c :: 0 <= c < COLS ==> 1 <= t[c]
  {
    SumNine(t);
    assert t == [t[0], t[1], t[2], t[3], t[4], t[5], t[6], t[7], t[8]];
  }

  /** Template `k` is well formed and has no empty column. */
  lemma TemplateWellFormed(k: int)
    requires 0 <= k < |TEMPLATES|
    ensures WellFormedCounts(TEMPLATES[k])
    ensures forall c :: 0 <= c < COLS ==> 1 <= TEMPLATES[k][c]
  {
    if k < 10 { FirstTemplatesWellFormed(k); } else { LastTemplatesWellFormed(k); }
  }

  lemma FirstTemplatesWellFormed(k: int)
    requires 0 <= k < 10
    ensures WellFormedCounts(TEMPLATES[k])
    ensures forall c :: 0 <= c < COLS ==> 1 <= TEMPLATES[k][c]
  {
    if k == 0 { CountsWellFormed(TEMPLATES[0]); }
    else if k == 1 { CountsWellFormed(TEMPLATES[1]); }
    else if k == 2 { CountsWellFormed(TEMPLATES[2]); }
    else if k == 3 { CountsWellFormed(TEMPLATES[3]); }
    else if k == 4 { CountsWellFormed(TEMPLATES[4]); }
    else if k == 5 { CountsWellFormed(TEMPLATES[5]); }
    else if k == 6 { CountsWellFormed(TEMPLATES[6]); }
    else if k == 7 { CountsWellFormed(TEMPLATES[7]); }
    else if k == 8 { CountsWellFormed(TEMPLATES[8]); }
    else { CountsWellFormed(TEMPLATES[9]); }
  }

  lemma LastTemplatesWellFormed(k: int)
    requires 10 <= k < 20
    ensures WellFormedCounts(TEMPLATES[k])
    ensures forall c :: 0 <= c < COLS ==> 1 <= TEMPLATES[k][c]
  {
    if k == 10 { CountsWellFormed(TEMPLATES[10]); }
    else if k == 11 { CountsWellFormed(TEMPLATES[11]); }
    else if k == 12 { CountsWellFormed(TEMPLATES[12]); }
    else if k == 13 { CountsWellFormed(TEMPLATES[13]); }
    else if k == 14 { CountsWellFormed(TEMPLATES[14]); }
    else if k == 15 { CountsWellFormed(TEMPLATES[15]); }
    else if k == 16 { CountsWellFormed(TEMPLATES[16]); }
    else if k == 17 { CountsWellFormed(TEMPLATES[17]); }
    else if k == 18 { CountsWellFormed(TEMPLATES[18]); }
    else { CountsWellFormed(TEMPLATES[19]); }
  }

  /** Every template is well formed, and the fallback template is the first one. */
  lemma TemplatesWellFormed()
    ensures |TEMPLATES| == 20
    ensures forall k :: 0 <= k < |TEMPLATES| ==> WellFormedCounts(TEMPLATES[k])
    ensures FALLBACK_COUNTS == TEMPLATES[0]
  {
    forall k | 0 <= k < |TEMPLATES| ensures WellFormedCounts(TEMPLATES[k]) {
      TemplateWellFormed(k);
    }
  }

  /** The fallback template sums to fifteen, has no 3, and its largest count is 2. */
  lemma FallbackCounts()
    ensures WellFormedCounts(FALLBACK_COUNTS)
    ensures forall c :: 0 <= c < COLS ==> 1 <= FALLBACK_COUNTS[c] <= 2
  {
    TemplatesWellFormed();
  }

  /** Permuting counts keeps them well formed. */
  lemma PermutedCounts(counts: seq<int>, r: seq<int>)
    requires WellFormedCounts(counts) && multiset(r) == multiset(counts)
    ensures WellFormedCounts(r)
  {
    assert |r| == |multiset(r)| == |multiset(counts)| == |counts|;
    forall c | 0 <= c < |r| ensures 0 <= r[c] <= ROWS {
      assert r[c] in multiset(counts);
    }
    SumPermutation(r, counts);
    forall i, j | 0 <= i < j < |r| && r[i] == ROWS ensures r[j] != ROWS {
      if r[j] == ROWS {
        assert multiset(r)[ROWS] >= 2 by {
          assert r == r[..i] + [r[i]] + r[i + 1..j] + [r[j]] + r[j + 1..];
        }
        TwoOccurrences(counts, ROWS);
      }
    }
  }

  /** `generateValidColumnDistribution`: a random template, shuffled. */
  method GenerateValidColumnDistribution() returns (counts: seq<int>)
    ensures WellFormedCounts(counts)
    ensures exists k :: 0 <= k < |TEMPLATES| && multiset(counts) == multiset(TEMPLATES[k])
  {
    TemplatesWellFormed();
    var k :| 0 <= k < |TEMPLATES|;
    counts := Shuffle(TEMPLATES[k]);
    PermutedCounts(TEMPLATES[k], counts);
  }
}

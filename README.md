# D'Hondt seat calculator — verified model

A model of a municipal-election seat calculator. The user edits an election
snapshot: the municipality, the number of registered voters, the number of
council seats (mandates), and the candidate lists. Each list has a name, a vote
count, a minority flag and a minority coefficient. The engine
`calculateDhondt` then allocates the seats by the D'Hondt method:

1. Each list's votes are multiplied by its coefficient (1, or 1.35 for a
   recognised minority list) and divided by 1, 2, …, `totalMandates`.
2. All cells are put into one candidate list, list by list and divisor by
   divisor.
3. That list is sorted by descending quotient with a stable sort.
4. The first `totalMandates` candidates win.
5. The engine also reports the threshold quotient, the seats per list, the
   boolean matrix of winning cells, and some turnout statistics.

The page's editing operations (`updateParty`, `updateField`, `addParty`,
`removeParty` and the minority checkbox) are modelled as functions from one
snapshot to the next.

Modules:

- `Election` (election.dfy): the records (`Party`, `ElectionData`,
  `Candidate`, `DhondtResult`), the adjusted strength and quotient of a list,
  and counting helpers.
- `Ranking` (ranking.dfy): the specification of the allocation. `Ahead(a, b)`
  holds when `a` has the higher quotient, or the same quotient and an earlier
  place in the flat list; that is the order a stable descending sort of the
  flat list produces. The rank of a cell is the number of candidates ahead of
  it, and a cell wins a seat iff its rank is below `totalMandates`.
- `Dhondt` (dhondt.dfy): the engine, written as methods with loops. They
  build the quotient rows by pushing, collect the candidates by pushing, sort
  an array in place with a stable insertion sort, and tally the seats and the
  matrix. The statistics are functions. `CalculateDhondt` is proved to return
  exactly the winners the rank specification selects.
- `Editing` (editing.dfy): the snapshot transformers, with one typed setter
  per field in place of the keyed `[field]: value` update.
- `Scenarios` (scenarios.dfy): two worked allocations, a tie and a minority
  list.

Numbers are exact. Votes, seat counts and voter counts are `nat`. Quotients,
coefficients and percentages are `real`. A coefficient is always positive.
Ratios whose divisor is zero give `None`; in JavaScript they give
`Infinity` or `NaN`.

Where the documentation and the code differ, the model follows the code:
`totalValid` is the plain sum of the lists' votes, not the ballots in the box
minus the invalid ones. `percentVoted` and `partyPercentages` are not guarded
against a zero divisor; the model turns each of those cases into `None`.

## Model

| member | source | states |
|---|---|---|
| Election.Strength | src/lib/dhondt.ts:45 | A list's adjusted votes `votes * minorityCoefficient` are never negative, and are 0 exactly when the list has no votes. |
| Election.Quotient | src/lib/dhondt.ts:45-46 | The quotient for divisor `d` times `d` gives back the list's adjusted votes, and it lies between 0 and the adjusted votes. |
| Election.QuotientNonIncreasing | src/lib/dhondt.ts:42-49 | A list's quotient never grows as the divisor grows, and it strictly falls when the list has votes. |
| Ranking.FlattenMembers | src/lib/dhondt.ts:52-57 | A candidate is in the flat list iff it is a cell of the matrix: right list index, a divisor in range, and that cell's quotient. |
| Ranking.FlattenLength | src/lib/dhondt.ts:52-57 | A matrix of `n` rows of width `m` flattens to `n * m` candidates. |
| Ranking.FlattenOrdered | src/lib/dhondt.ts:52-57 | The flat list is strictly increasing in (list index, divisor) order, so no cell appears twice. |
| Ranking.CountAheadPerm | src/lib/dhondt.ts:60 | The number of candidates ahead of a cell depends only on the multiset of candidates, so the rank does not change when the list is sorted. |
| Ranking.CountAheadOfRanked | src/lib/dhondt.ts:60-63 | In a list in rank order, the element at position `p` has exactly `p` candidates ahead of it. |
| Ranking.AheadOfWinnerWins | src/lib/dhondt.ts:60-63 | A cell ranked ahead of a winning cell also wins. |
| Ranking.TieGoesToEarlierCell | src/lib/dhondt.ts:52-63 | Of two cells with equal quotients, the one with the lower list index, or the same list and a lower divisor, wins whenever the other does. |
| Ranking.WinsPrefix | src/lib/dhondt.ts:42-75 | A list's winning cells are a prefix of its row: if divisor `d` wins, every smaller divisor wins. |
| Ranking.RankNotWorse | src/lib/dhondt.ts:42-63 | Giving one list more votes never worsens the rank of any of its cells. |
| Ranking.MoreVotesNoFewerSeats | src/lib/dhondt.ts:42-75 | Giving one list more votes, with everything else the same, never lowers its seat count. |
| Dhondt.SumVotes | src/lib/dhondt.ts:31 | The `reduce` total of the lists' votes is at least each list's votes, and is 0 exactly when no list has a vote. |
| Dhondt.SumVotesConcat | src/lib/dhondt.ts:31 | The vote total of two concatenated list sequences is the sum of their totals. |
| Dhondt.SimulatedInvalid | src/lib/dhondt.ts:34 | The simulated invalid-ballot count is the nearest integer to `totalVoted * 0.0046`, with halves rounded up (`Math.round`). |
| Dhondt.PercentOf | src/lib/dhondt.ts:37 | The percentage is defined iff the divisor is positive, and then it times the divisor equals 100 times the part. |
| Dhondt.PartyPercentages | src/lib/dhondt.ts:39 | One share per list, in list order; share `i` is `votes_i / total * 100`; with no lists the `map` gives no shares, whatever the total. |
| Dhondt.PercentagesSum | src/lib/dhondt.ts:31-39 | The shares add up to the lists' vote total over `total`, times 100. |
| Dhondt.PercentagesSumToHundred | src/lib/dhondt.ts:31-39 | When some list has votes, the shares of all lists add up to exactly 100. |
| Dhondt.ComputeQuotients | src/lib/dhondt.ts:42-49 | One row per list, each of length `totalMandates`; cell `[i][d-1]` is `votes_i * coefficient_i / d`. |
| Dhondt.CollectCandidates | src/lib/dhondt.ts:51-57 | The pushed list is the flat candidate list: list by list, divisor by divisor, with the 1-based divisor. |
| Dhondt.SortDescending | src/lib/dhondt.ts:59-60 | The array ends up a permutation of its input, in descending quotient order, with equal quotients kept in flat order (a stable sort). |
| Dhondt.InsertAt | src/lib/dhondt.ts:60 | One insertion step: the element at `i` moves left past the preceding elements whose quotient is strictly smaller. It stops at the first one whose quotient is at least its own. The others keep their order. |
| Dhondt.InsertionKeepsRankOrder | src/lib/dhondt.ts:60 | After an insertion step into a sorted prefix, the first `i + 1` elements are in rank order; equal quotients are never swapped. |
| Dhondt.InsertionKeepsFlatOrder | src/lib/dhondt.ts:60 | An insertion step keeps the unsorted rest in flat order, and keeps the sorted prefix before the rest in flat order. |
| Dhondt.Tally | src/lib/dhondt.ts:66-75 | Starting from zeros and an all-`false` matrix, a cell is marked iff some winner names it; each list's seats equal its marked cells, and the seats sum to the number of winners. |
| Dhondt.SortedElement | src/lib/dhondt.ts:59-63 | The element at position `k` of the sorted list is a cell of the election, and its rank is `k`. |
| Dhondt.CellPosition | src/lib/dhondt.ts:59-63 | Every cell of the election sits in the sorted list at its rank. |
| Dhondt.SortedSlotsDistinct | src/lib/dhondt.ts:52-63 | No two positions of the sorted list hold the same (list, divisor) cell, so no winner is counted twice. |
| Dhondt.MarkedIffRankBelow | src/lib/dhondt.ts:63 | A cell is among the first `w` sorted candidates iff its rank is below `w`. |
| Dhondt.ThresholdSeparates | src/lib/dhondt.ts:63-64 | The last winner's quotient is at most every winner's quotient and at least every loser's. |
| Dhondt.RankCandidates | src/lib/dhondt.ts:51-60 | The flattened and sorted list holds exactly the election's candidates, in rank order, one per cell of the matrix. |
| Dhondt.SelectWinners | src/lib/dhondt.ts:62-75 | The matrix marks exactly the cells whose rank is below `totalMandates`; seats equal marked cells and sum to `totalMandates` (0 with no lists); the threshold is 0 with no winners, else the minimum winning quotient, separating winners from losers. |
| Dhondt.CalculateDhondt | src/lib/dhondt.ts:28-89 | The result's shapes and quotients; the mandate matrix equals the rank specification and is a prefix in every row; seats match the matrix and the specification; the sum of seats; the threshold properties; every statistic (valid = sum of votes, invalid as simulated, in-box = valid + invalid, voted = in-box, turnout and shares as ratios, undefined on a zero divisor; with no lists the shares are the empty row). |
| Editing.Edit | src/pages/Index.tsx:16 | `{ ...p, [field]: value }`: the named field takes the new value and every other field is kept. |
| Editing.EditAt | src/pages/Index.tsx:15-17 | The `map` keeps the length, edits position `index`, and leaves every other position unchanged. |
| Editing.UpdateParty | src/pages/Index.tsx:12-19 | Same number of lists; only list `index` changes, and only in the named field; the top-level fields are kept; an out-of-range index changes nothing. |
| Editing.UpdateField | src/pages/Index.tsx:21-23 | The named top-level field takes the new value; the lists and the other fields are untouched. |
| Editing.AddParty | src/pages/Index.tsx:25-30 | Appends exactly one list, `Нова листа` with 0 votes, not a minority, coefficient 1, after the existing lists in their order. |
| Editing.Without | src/pages/Index.tsx:36 | The `filter` drops exactly position `index` and keeps the others in order; an out-of-range index drops nothing. |
| Editing.RemoveParty | src/pages/Index.tsx:32-38 | With at most two lists nothing changes; otherwise exactly list `index` is removed, in order; an out-of-range index changes nothing; starting from two or more lists, two or more remain. |
| Editing.SetMinority | src/components/SummarySheet.tsx:109-112 | The checkbox sets the minority flag and the coefficient together: 1.35 when checked, 1 otherwise; nothing else changes. |
| Editing.RemoveUndoesAdd | src/pages/Index.tsx:25-38 | Removing the list just added restores the snapshot. |
| Editing.UpdatePartyLastWins | src/pages/Index.tsx:12-19 | Two edits of the same field of the same list keep only the second value. |
| Editing.SetVotesChangesTotal | src/pages/Index.tsx:12-19 | A vote edit changes the vote total by the difference between the new and the old count. |
| Editing.AddPartyKeepsTotal | src/pages/Index.tsx:25-30 | The new list has no votes, so the vote total is unchanged. |
| Editing.RaisingVotesKeepsSeats | src/pages/Index.tsx:12-19 | Raising a list's votes through the editor never costs it a seat. |
| Scenarios.TieCandidates | src/lib/dhondt.ts:42-57 | For lists of 100 and 50 votes with two seats, the candidate list is 100, 50 (first list), then 50, 25 (second list). |
| Scenarios.TieGoesToFirstList | src/lib/dhondt.ts:52-75 | In that election the second seat is tied at 50, and the first list wins it: seats 2 and 0. |
| Scenarios.MinorityCoefficientTakesSeat | src/lib/dhondt.ts:42-63 | With one seat, a minority list of 100 votes (coefficient 1.35, quotient 135) beats a regular list of 120 votes. |

## Left out

- React rendering is not modelled: the tables, inputs, tabs, chart and stat cards are presentation only.
- The number of quotient rows shown on screen (a cut at 5% of the threshold) is not modelled; it does not affect the result.
- Number formatting (`toFixed`, Serbian locale) and the ratio sub-labels of the summary sheet are not modelled.
- IEEE-754 arithmetic is replaced by exact rationals. The model ignores the binary rounding of 1.35 and of `totalVoted * 0.0046`, and the `|| 0` coercion of a `NaN` threshold. With non-negative votes and a positive coefficient, the threshold is never `NaN`.
- Because of that rounding, an exact tie in the model can be a strict win in the program. In exact arithmetic a minority list of 740 votes has first quotient `740 * 1.35 = 999`, which ties with a regular list of 999 votes, and the tie goes to the list with the lower index. In the program `740 * 1.35` is `999.0000000000001`, so the minority list takes that seat whatever its position.
- Dhondt.CalculateDhondt: when `totalVoters` is 0, `percentVoted` is `None`; JavaScript gives `Infinity` or `NaN`. When the vote total is 0 and there is at least one list, `partyPercentages` is `None`; JavaScript gives a row of `NaN`. With no lists the model, like the program, gives the empty row.
- Votes and the number of registered voters are `nat` because they are counts. The program would accept fractional or negative values typed into those fields (the vote input is converted with `Number`) and compute with them anyway: fractional votes give fractional quotients that are ranked as usual, and any `totalVoters` other than 0 gives a finite turnout percentage. The model does not cover those inputs.
- The number of seats is `nat`. A negative or fractional seat count makes the program throw a `RangeError` from `new Array` when there is at least one list; the model does not cover that error.
- The coefficient is a positive real. The page only ever sets it to 1 or 1.35; a coefficient of 0 or below is not modelled.
- React state plumbing (`useState`, `useMemo`, `setData`) is not modelled. In the source, `removeParty`'s guard reads the rendered snapshot rather than the pending one; the model guards on the snapshot it is given.
- The quotient rows, candidate list, seat counts and seat matrix are sequences that the methods reassign, rather than shared JavaScript arrays. Only the sort works in place on an array. The final copy of the quotients is their value.
- Dhondt.SortDescending: stability is stated only for an input in flat order, which is the only list the engine sorts. There, a stable sort puts equal quotients in flat order.

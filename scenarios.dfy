/** Worked allocations, stated about the rank specification. */
module Scenarios {
  import opened Election
  import opened Ranking

  /** Lists A and B with the given votes (A's with coefficient `coefA`),
      and `m` seats. */
  function TwoLists(votesA: nat, coefA: Coefficient, votesB: nat, m: nat): ElectionData
  {
    ElectionData("", 0, m, [Party("A", votesA, false, coefA), Party("B", votesB, false, 1.0)])
  }

  /** Lists A (100 votes) and B (50 votes) with two seats: the candidate list
      is A's 100 and 50, then B's 50 and 25. */
  lemma TieCandidates()
    ensures CandidateList(TwoLists(100, 1.0, 50, 2)) ==
      [Candidate(100.0, 0, 1), Candidate(50.0, 0, 2), Candidate(50.0, 1, 1), Candidate(25.0, 1, 2)]
  {
    var data := TwoLists(100, 1.0, 50, 2);
    var q := QuotientMatrix(data);
    assert q[0][0] == Quotient(data.parties[0], 1) == 100.0;
    assert q[0][1] == Quotient(data.parties[0], 2) == 50.0;
    assert q[1][0] == Quotient(data.parties[1], 1) == 50.0;
    assert q[1][1] == Quotient(data.parties[1], 2) == 25.0;
    assert q[..1][..0] == [] && q[..2][..1] == q[..1] && q[..2] == q;
    assert Flatten(q[..1]) == RowCandidates(q[0], 0);
    assert Flatten(q) == Flatten(q[..1]) + RowCandidates(q[1], 1);
  }

  /** The second seat is tied at 50 between A's second quotient and B's
      first; the tie goes to the cell earlier in the flat list, so A takes
      both seats and B none. */
  lemma TieGoesToFirstList()
    ensures Seats(TwoLists(100, 1.0, 50, 2), 0) == 2
    ensures Seats(TwoLists(100, 1.0, 50, 2), 1) == 0
  {
    var data := TwoLists(100, 1.0, 50, 2);
    TieCandidates();
    var all := CandidateList(data);
    assert InRankOrder(all);
    CountAheadOfRanked(all, 0);
    CountAheadOfRanked(all, 1);
    CountAheadOfRanked(all, 2);
    CountAheadOfRanked(all, 3);
    assert Cell(data, 0, 1) == all[0] && Cell(data, 0, 2) == all[1];
    assert Cell(data, 1, 1) == all[2] && Cell(data, 1, 2) == all[3];
    assert WinRow(data, 0) == [true, true];
    assert WinRow(data, 1) == [false, false];
    assert [true, true][..1] == [true] && [true][..0] == [];
  }

  /** A minority list of 100 votes with coefficient 1.35 has first quotient
      135 and takes a single seat from a regular list of 120 votes. */
  lemma MinorityCoefficientTakesSeat()
    ensures Wins(TwoLists(100, 1.35, 120, 1), 0, 1)
    ensures !Wins(TwoLists(100, 1.35, 120, 1), 1, 1)
  {
    var data := TwoLists(100, 1.35, 120, 1);
    var c1, d1 := Candidate(135.0, 0, 1), Candidate(120.0, 1, 1);
    assert Cell(data, 0, 1) == c1 && Cell(data, 1, 1) == d1;
    var q := QuotientMatrix(data);
    assert q[0] == [135.0] && q[1] == [120.0];
    assert RowCandidates(q[0], 0) == [c1];
    assert RowCandidates(q[1], 1) == [d1];
    assert q[..1][..0] == [] && q[..2][..1] == q[..1] && q[..2] == q;
    assert Flatten(q[..1]) == [c1];
    assert Flatten(q) == Flatten(q[..1]) + [d1];
    var all := CandidateList(data);
    assert all == [c1, d1];
    CountAheadOfRanked(all, 0);
    CountAheadOfRanked(all, 1);
  }
}

/** The specification of seat allocation: the quotient matrix, the flat
    candidate list in party-major then divisor order, the ranking order that
    a stable descending sort of that list produces, and the rank-based
    definition of which cells win a seat. */
module Ranking {
  import opened Election

  /** `a` comes before `b` in the flat candidate list: lower list index, or
      the same list and a lower divisor. */
  predicate FlatBefore(a: Candidate, b: Candidate)
  {
    a.partyIdx < b.partyIdx || (a.partyIdx == b.partyIdx && a.divisor < b.divisor)
  }

  /** `a` is ranked ahead of `b`: a higher quotient, or an equal quotient and
      earlier in the flat list (the order a stable descending sort keeps). */
  predicate Ahead(a: Candidate, b: Candidate)
  {
    a.value > b.value || (a.value == b.value && FlatBefore(a, b))
  }

  predicate InFlatOrder(s: seq<Candidate>)
  {
    forall k, l :: 0 <= k < l < |s| ==> FlatBefore(s[k], s[l])
  }

  predicate InRankOrder(s: seq<Candidate>)
  {
    forall k, l :: 0 <= k < l < |s| ==> Ahead(s[k], s[l])
  }

  /** The candidates of row `i` of a quotient matrix, divisors 1, 2, ... */
  function RowCandidates(row: seq<real>, i: nat): seq<Candidate>
  {
    seq(|row|, e requires 0 <= e < |row| => Candidate(row[e], i, e + 1))
  }

  /** The flat candidate list of a quotient matrix: row by row, and within a
      row by divisor. */
  function Flatten(q: seq<seq<real>>): seq<Candidate>
  {
    if q == [] then [] else Flatten(q[..|q| - 1]) + RowCandidates(q[|q| - 1], |q| - 1)
  }

  /** `c` is the cell of `q` that its list index and divisor name. */
  predicate InMatrix(q: seq<seq<real>>, c: Candidate)
  {
    c.partyIdx < |q| && 1 <= c.divisor <= |q[c.partyIdx]| && c.value == q[c.partyIdx][c.divisor - 1]
  }

  /** The quotient matrix of an election: one row per list, one column per
      divisor `1..totalMandates`. */
  function QuotientMatrix(data: ElectionData): seq<seq<real>>
  {
    seq(|data.parties|, i requires 0 <= i < |data.parties| =>
      seq(data.totalMandates, e requires 0 <= e < data.totalMandates => Quotient(data.parties[i], e + 1)))
  }

  /** The candidate for list `i` and divisor `d`. */
  function Cell(data: ElectionData, i: nat, d: nat): Candidate
    requires i < |data.parties| && d > 0
  {
    Candidate(Quotient(data.parties[i], d), i, d)
  }

  function CandidateList(data: ElectionData): seq<Candidate>
  {
    Flatten(QuotientMatrix(data))
  }

  /** How many elements of `s` are ranked ahead of `c`. */
  function CountAhead(s: seq<Candidate>, c: Candidate): nat
  {
    if s == [] then 0 else CountAhead(s[..|s| - 1], c) + (if Ahead(s[|s| - 1], c) then 1 else 0)
  }

  /** The rank of a cell: the number of candidates with a strictly greater
      quotient plus the number with an equal quotient earlier in the flat
      list. */
  function Rank(data: ElectionData, i: nat, d: nat): nat
    requires i < |data.parties| && d > 0
  {
    CountAhead(CandidateList(data), Cell(data, i, d))
  }

  /** The cell of list `i` and divisor `d` wins a seat iff its rank is below
      the number of seats. */
  predicate Wins(data: ElectionData, i: nat, d: nat)
    requires i < |data.parties| && 1 <= d <= data.totalMandates
  {
    Rank(data, i, d) < data.totalMandates
  }

  /** Row `i` of the specified mandate matrix. */
  function WinRow(data: ElectionData, i: nat): seq<bool>
    requires i < |data.parties|
  {
    seq(data.totalMandates, e requires 0 <= e < data.totalMandates => Wins(data, i, e + 1))
  }

  /** The number of seats list `i` wins. */
  function Seats(data: ElectionData, i: nat): nat
    requires i < |data.parties|
  {
    CountTrue(WinRow(data, i))
  }

  // ---------------------------------------------------------------------
  // The flat candidate list

  /** A candidate is in the flat list exactly when it is a cell of the
      matrix; so each (list, divisor) cell appears in it once. */
  lemma {:induction false} FlattenMembers(q: seq<seq<real>>, c: Candidate)
    ensures c in Flatten(q) <==> InMatrix(q, c)
  {
    if q != [] {
      var n := |q| - 1;
      var row := RowCandidates(q[n], n);
      FlattenMembers(q[..n], c);
      assert Flatten(q) == Flatten(q[..n]) + row;
      if c.partyIdx == n && InMatrix(q, c) {
        assert row[c.divisor - 1] == c;
      }
    }
  }

  /** Every element of the flat list is a cell of the matrix. */
  lemma FlattenAllInMatrix(q: seq<seq<real>>)
    ensures forall k :: 0 <= k < |Flatten(q)| ==> InMatrix(q, Flatten(q)[k])
  {
    forall k | 0 <= k < |Flatten(q)|
      ensures InMatrix(q, Flatten(q)[k])
    {
      FlattenMembers(q, Flatten(q)[k]);
    }
  }

  /** A rectangular matrix of `|q|` rows of width `m` has `|q| * m` cells. */
  lemma {:induction false} FlattenLength(q: seq<seq<real>>, m: nat)
    requires forall i :: 0 <= i < |q| ==> |q[i]| == m
    ensures |Flatten(q)| == |q| * m
  {
    if q != [] {
      var n := |q| - 1;
      FlattenLength(q[..n], m);
      assert |Flatten(q)| == n * m + m;
    }
  }

  /** The flat list is strictly increasing in flat order. */
  lemma {:induction false} FlattenOrdered(q: seq<seq<real>>)
    ensures InFlatOrder(Flatten(q))
  {
    if q != [] {
      var n := |q| - 1;
      var front, row := Flatten(q[..n]), RowCandidates(q[n], n);
      FlattenOrdered(q[..n]);
      FlattenAllInMatrix(q[..n]);
      var s := front + row;
      assert Flatten(q) == s;
      forall k, l | 0 <= k < l < |s|
        ensures FlatBefore(s[k], s[l])
      {
        if l < |front| {
          assert s[k] == front[k] && s[l] == front[l];
        } else if k < |front| {
          assert s[k] == front[k] && InMatrix(q[..n], front[k]);
          assert s[l] == row[l - |front|];
        } else {
          assert s[k] == row[k - |front|] && s[l] == row[l - |front|];
        }
      }
    }
  }

  /** Two matrices with the same row lengths have flat lists of the same
      length whose positions name the same cells. */
  lemma {:induction false} FlattenSameShape(q: seq<seq<real>>, q': seq<seq<real>>)
    requires |q| == |q'|
    requires forall i :: 0 <= i < |q| ==> |q[i]| == |q'[i]|
    ensures |Flatten(q)| == |Flatten(q')|
    ensures forall k :: 0 <= k < |Flatten(q)| ==>
      Flatten(q)[k].partyIdx == Flatten(q')[k].partyIdx && Flatten(q)[k].divisor == Flatten(q')[k].divisor
  {
    if q != [] {
      var n := |q| - 1;
      FlattenSameShape(q[..n], q'[..n]);
      var f, f' := Flatten(q[..n]), Flatten(q'[..n]);
      var r, r' := RowCandidates(q[n], n), RowCandidates(q'[n], n);
      assert Flatten(q) == f + r;
      assert Flatten(q') == f' + r';
      forall k | 0 <= k < |Flatten(q)|
        ensures Flatten(q)[k].partyIdx == Flatten(q')[k].partyIdx && Flatten(q)[k].divisor == Flatten(q')[k].divisor
      {
        if k < |f| {
          assert Flatten(q)[k] == f[k] && Flatten(q')[k] == f'[k];
        } else {
          assert Flatten(q)[k] == r[k - |f|] && Flatten(q')[k] == r'[k - |f|];
        }
      }
    }
  }

  /** Every element of an election's candidate list is the `Cell` its list
      index and divisor name. */
  lemma CandidateListCells(data: ElectionData, k: nat)
    requires k < |CandidateList(data)|
    ensures CandidateList(data)[k].partyIdx < |data.parties|
    ensures 1 <= CandidateList(data)[k].divisor <= data.totalMandates
    ensures CandidateList(data)[k] == Cell(data, CandidateList(data)[k].partyIdx, CandidateList(data)[k].divisor)
  {
    FlattenMembers(QuotientMatrix(data), CandidateList(data)[k]);
  }

  // ---------------------------------------------------------------------
  // Counting candidates ranked ahead

  lemma {:induction false} CountAheadConcat(s: seq<Candidate>, t: seq<Candidate>, c: Candidate)
    ensures CountAhead(s + t, c) == CountAhead(s, c) + CountAhead(t, c)
  {
    if t == [] {
      assert s + t == s;
    } else {
      var n := |t| - 1;
      assert (s + t)[..|s + t| - 1] == s + t[..n];
      CountAheadConcat(s, t[..n], c);
    }
  }

  /** Taking element `k` out of a list lowers the count by one exactly when
      that element is ahead of `c`. */
  lemma CountAheadRemove(t: seq<Candidate>, k: nat, c: Candidate)
    requires k < |t|
    ensures CountAhead(t, c) == CountAhead(t[..k] + t[k + 1..], c) + (if Ahead(t[k], c) then 1 else 0)
  {
    assert t == (t[..k] + [t[k]]) + t[k + 1..];
    CountAheadConcat(t[..k] + [t[k]], t[k + 1..], c);
    CountAheadConcat(t[..k], [t[k]], c);
    CountAheadConcat(t[..k], t[k + 1..], c);
    assert [t[k]][..0] == [];
  }

  /** Removing the last element of `s` and an equal element of `t` keeps
      two lists with the same multiset equal as multisets. */
  lemma SameAfterRemoving(s: seq<Candidate>, t: seq<Candidate>, k: nat)
    requires multiset(s) == multiset(t) && s != []
    requires k < |t| && t[k] == s[|s| - 1]
    ensures multiset(s[..|s| - 1]) == multiset(t[..k] + t[k + 1..])
  {
    var n, x := |s| - 1, s[|s| - 1];
    assert s == s[..n] + [x];
    assert t == t[..k] + [x] + t[k + 1..];
    assert multiset(t) == multiset(t[..k] + t[k + 1..]) + multiset{x};
    assert multiset(s) == multiset(s[..n]) + multiset{x};
    assert multiset(s[..n]) == multiset(s) - multiset{x} == multiset(t) - multiset{x};
  }

  /** The count depends only on the multiset of candidates. */
  lemma {:induction false} CountAheadPerm(s: seq<Candidate>, t: seq<Candidate>, c: Candidate)
    requires multiset(s) == multiset(t)
    ensures CountAhead(s, c) == CountAhead(t, c)
    decreases |s|
  {
    if s == [] {
      assert |t| == |multiset(t)| == 0;
    } else {
      var n := |s| - 1;
      var x := s[n];
      assert x in multiset(t) by {
        assert s == s[..n] + [x];
      }
      var k :| 0 <= k < |t| && t[k] == x;
      var t' := t[..k] + t[k + 1..];
      SameAfterRemoving(s, t, k);
      CountAheadPerm(s[..n], t', c);
      CountAheadRemove(t, k, c);
    }
  }

  lemma {:induction false} CountAheadAll(s: seq<Candidate>, c: Candidate)
    requires forall k :: 0 <= k < |s| ==> Ahead(s[k], c)
    ensures CountAhead(s, c) == |s|
  {
    if s != [] {
      CountAheadAll(s[..|s| - 1], c);
    }
  }

  lemma {:induction false} CountAheadNone(s: seq<Candidate>, c: Candidate)
    requires forall k :: 0 <= k < |s| ==> !Ahead(s[k], c)
    ensures CountAhead(s, c) == 0
  {
    if s != [] {
      CountAheadNone(s[..|s| - 1], c);
    }
  }

  /** In a list in rank order, the element at position `p` has exactly `p`
      elements ranked ahead of it. */
  lemma CountAheadOfRanked(s: seq<Candidate>, p: nat)
    requires InRankOrder(s) && p < |s|
    ensures CountAhead(s, s[p]) == p
  {
    assert s == s[..p] + s[p..];
    CountAheadConcat(s[..p], s[p..], s[p]);
    CountAheadAll(s[..p], s[p]);
    CountAheadNone(s[p..], s[p]);
  }

  /** If every candidate ranked ahead of `b'` in `t` sits where `s` has one
      ranked ahead of `b`, then `b'` has no more candidates ahead. */
  lemma {:induction false} CountAheadPointwise(s: seq<Candidate>, b: Candidate, t: seq<Candidate>, b': Candidate)
    requires |s| == |t|
    requires forall k :: 0 <= k < |t| && Ahead(t[k], b') ==> Ahead(s[k], b)
    ensures CountAhead(t, b') <= CountAhead(s, b)
  {
    if s != [] {
      var n := |s| - 1;
      CountAheadPointwise(s[..n], b, t[..n], b');
    }
  }

  /** A candidate ranked ahead of `b` has fewer candidates ahead of it than
      `b` has, strictly fewer when it is itself in the list. */
  lemma {:induction false} CountAheadLess(s: seq<Candidate>, a: Candidate, b: Candidate)
    requires Ahead(a, b)
    ensures CountAhead(s, a) <= CountAhead(s, b)
    ensures a in s ==> CountAhead(s, a) < CountAhead(s, b)
  {
    if s != [] {
      var n := |s| - 1;
      assert s == s[..n] + [s[n]];
      CountAheadLess(s[..n], a, b);
    }
  }

  // ---------------------------------------------------------------------
  // Properties of the winner specification

  /** A cell ranked ahead of a winning cell wins too: a higher quotient is
      served first, and an equal quotient earlier in the flat list is served
      first. */
  lemma AheadOfWinnerWins(data: ElectionData, i: nat, d: nat, j: nat, e: nat)
    requires i < |data.parties| && 1 <= d <= data.totalMandates
    requires j < |data.parties| && 1 <= e <= data.totalMandates
    requires Ahead(Cell(data, i, d), Cell(data, j, e))
    requires Wins(data, j, e)
    ensures Wins(data, i, d)
  {
    var q := QuotientMatrix(data);
    FlattenMembers(q, Cell(data, i, d));
    CountAheadLess(CandidateList(data), Cell(data, i, d), Cell(data, j, e));
  }

  /** Tie-break: of two cells with equal quotients, the one with the lower
      list index (or the same list and a lower divisor) is served first. */
  lemma TieGoesToEarlierCell(data: ElectionData, i: nat, d: nat, j: nat, e: nat)
    requires i < |data.parties| && 1 <= d <= data.totalMandates
    requires j < |data.parties| && 1 <= e <= data.totalMandates
    requires Quotient(data.parties[i], d) == Quotient(data.parties[j], e)
    requires i < j || (i == j && d < e)
    requires Wins(data, j, e)
    ensures Wins(data, i, d)
  {
    AheadOfWinnerWins(data, i, d, j, e);
  }

  /** The winning cells of a row form a prefix of it. */
  lemma WinsPrefix(data: ElectionData, i: nat, d: nat, e: nat)
    requires i < |data.parties| && 1 <= e < d <= data.totalMandates
    requires Wins(data, i, d)
    ensures Wins(data, i, e)
  {
    QuotientNonIncreasing(data.parties[i], e, d);
    AheadOfWinnerWins(data, i, e, i, d);
  }

  /** `data'` is `data` with list `j` given at least as many votes. */
  predicate VotesRaised(data: ElectionData, data': ElectionData, j: nat)
  {
    && j < |data.parties| == |data'.parties|
    && data'.totalMandates == data.totalMandates
    && (forall i :: 0 <= i < |data.parties| && i != j ==> data'.parties[i] == data.parties[i])
    && data'.parties[j].minorityCoefficient == data.parties[j].minorityCoefficient
    && data'.parties[j].votes >= data.parties[j].votes
  }

  lemma StrengthRaised(p: Party, p': Party)
    requires p'.minorityCoefficient == p.minorityCoefficient && p'.votes >= p.votes
    ensures Strength(p') >= Strength(p)
  {
    var c := p.minorityCoefficient;
    assert (p'.votes as real) * c - (p.votes as real) * c == ((p'.votes - p.votes) as real) * c;
  }

  lemma QuotientRaised(p: Party, p': Party, d: nat)
    requires p'.minorityCoefficient == p.minorityCoefficient && p'.votes >= p.votes && d > 0
    ensures Quotient(p', d) >= Quotient(p, d)
  {
    StrengthRaised(p, p');
    assert Quotient(p', d) - Quotient(p, d) == (Strength(p') - Strength(p)) / (d as real);
  }

  /** Within one list, a cell is ranked ahead of another exactly when its
      divisor is smaller. */
  lemma SameListAhead(p: Party, i: nat, e: nat, d: nat)
    requires e > 0 && d > 0
    ensures Ahead(Candidate(Quotient(p, e), i, e), Candidate(Quotient(p, d), i, d)) <==> e < d
  {
    if e < d {
      QuotientNonIncreasing(p, e, d);
    } else {
      QuotientNonIncreasing(p, d, e);
    }
  }

  /** Raising one list's votes never lowers that list's cells in the
      ranking. */
  lemma RankNotWorse(data: ElectionData, data': ElectionData, j: nat, d: nat)
    requires VotesRaised(data, data', j)
    requires 1 <= d <= data.totalMandates
    ensures Rank(data', j, d) <= Rank(data, j, d)
  {
    var q, q' := QuotientMatrix(data), QuotientMatrix(data');
    var s, s' := CandidateList(data), CandidateList(data');
    var c, c' := Cell(data, j, d), Cell(data', j, d);
    FlattenSameShape(q, q');
    QuotientRaised(data.parties[j], data'.parties[j], d);
    forall k | 0 <= k < |s'| && Ahead(s'[k], c')
      ensures Ahead(s[k], c)
    {
      CandidateListCells(data, k);
      CandidateListCells(data', k);
      var i, e := s[k].partyIdx, s[k].divisor;
      if i == j {
        SameListAhead(data'.parties[j], j, e, d);
        SameListAhead(data.parties[j], j, e, d);
      }
    }
    CountAheadPointwise(s, c, s', c');
  }

  /** Monotonicity: giving a list more votes, all else equal, never costs
      it a seat. */
  lemma MoreVotesNoFewerSeats(data: ElectionData, data': ElectionData, j: nat)
    requires VotesRaised(data, data', j)
    ensures Seats(data, j) <= Seats(data', j)
  {
    var m := data.totalMandates;
    forall e | 0 <= e < m && WinRow(data, j)[e]
      ensures WinRow(data', j)[e]
    {
      RankNotWorse(data, data', j, e + 1);
    }
    CountTruePointwise(WinRow(data, j), WinRow(data', j));
  }
}

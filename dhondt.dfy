/** The allocation engine: `CalculateDhondt` builds the quotient matrix,
    flattens it into one candidate list, sorts that list in place by
    descending quotient with a stable sort, takes the first `totalMandates`
    candidates as winners, reads the threshold off the last winner, tallies
    the seats and derives the turnout statistics. */
module Dhondt {
  import opened Election
  import opened Ranking

  // ---------------------------------------------------------------------
  // Statistics

  /** The sum of the lists' votes, folded from the left: at least each
      list's own votes, and 0 exactly when no list has a vote. */
  function SumVotes(ps: seq<Party>): (r: nat)
    ensures forall i :: 0 <= i < |ps| ==> ps[i].votes <= r
    ensures r == 0 <==> forall i :: 0 <= i < |ps| ==> ps[i].votes == 0
  {
    if ps == [] then 0 else SumVotes(ps[..|ps| - 1]) + ps[|ps| - 1].votes
  }

  lemma {:induction false} SumVotesConcat(ps: seq<Party>, qs: seq<Party>)
    ensures SumVotes(ps + qs) == SumVotes(ps) + SumVotes(qs)
  {
    if qs == [] {
      assert ps + qs == ps;
    } else {
      var n := |qs| - 1;
      assert (ps + qs)[..|ps + qs| - 1] == ps + qs[..n];
      SumVotesConcat(ps, qs[..n]);
    }
  }

  /** The simulated number of invalid ballots: `totalVoted * 0.0046`
      rounded to the nearest integer, halves rounded up. */
  function SimulatedInvalid(totalVoted: nat): (r: nat)
    ensures (r as real) - 0.5 <= (totalVoted as real) * 0.0046 < (r as real) + 0.5
  {
    var r := (46 * totalVoted + 5000) / 10000;
    assert r * 10000 <= 46 * totalVoted + 5000 < r * 10000 + 10000;
    assert (r * 10000) as real == (r as real) * 10000.0;
    assert (46 * totalVoted + 5000) as real == (totalVoted as real) * 46.0 + 5000.0;
    r
  }

  /** A ratio as a percentage; `None` when the divisor is zero. */
  function PercentOf(part: nat, whole: nat): (r: Option<real>)
    ensures r.Some? <==> whole > 0
    ensures r.Some? ==> r.value * (whole as real) == (part as real) * 100.0
  {
    if whole == 0 then None else Some((part as real) / (whole as real) * 100.0)
  }

  /** Each list's share of `total` votes, in percent, in list order; no
      lists give no shares, whatever the total. */
  function PartyPercentages(ps: seq<Party>, total: nat): (r: seq<real>)
    requires total > 0 || ps == []
    ensures |r| == |ps|
    ensures forall i :: 0 <= i < |ps| ==> r[i] == (ps[i].votes as real) / (total as real) * 100.0
  {
    if ps == [] then []
    else PartyPercentages(ps[..|ps| - 1], total) + [(ps[|ps| - 1].votes as real) / (total as real) * 100.0]
  }

  function RealSum(xs: seq<real>): real
  {
    if xs == [] then 0.0 else RealSum(xs[..|xs| - 1]) + xs[|xs| - 1]
  }

  lemma {:induction false} PercentagesSum(ps: seq<Party>, total: nat)
    requires total > 0
    ensures RealSum(PartyPercentages(ps, total)) == (SumVotes(ps) as real) / (total as real) * 100.0
  {
    if ps != [] {
      var n := |ps| - 1;
      var r := PartyPercentages(ps, total);
      var a, b, t := SumVotes(ps[..n]) as real, ps[n].votes as real, total as real;
      assert r[..n] == PartyPercentages(ps[..n], total);
      assert RealSum(r) == RealSum(r[..n]) + r[n];
      assert r[n] == b / t * 100.0;
      assert ps[..|ps| - 1] == ps[..n];
      assert SumVotes(ps) as real == a + b;
      PercentagesSum(ps[..n], total);
      ShareAdds(a, b, t);
    }
  }

  lemma ShareAdds(a: real, b: real, t: real)
    requires t > 0.0
    ensures a / t * 100.0 + b / t * 100.0 == (a + b) / t * 100.0
  {
    assert a / t + b / t == (a + b) / t;
  }

  /** When some list has votes, the shares of all lists add up to 100. */
  lemma PercentagesSumToHundred(ps: seq<Party>)
    requires SumVotes(ps) > 0
    ensures RealSum(PartyPercentages(ps, SumVotes(ps))) == 100.0
  {
    PercentagesSum(ps, SumVotes(ps));
    WholeIsHundred(SumVotes(ps) as real);
  }

  lemma WholeIsHundred(t: real)
    requires t > 0.0
    ensures t / t * 100.0 == 100.0
  {
  }

  // ---------------------------------------------------------------------
  // The imperative steps of the allocation

  /** Builds each list's row of quotients `votes * coefficient / d` for
      `d = 1..totalMandates` by appending one quotient at a time. */
  method ComputeQuotients(data: ElectionData) returns (quotients: seq<seq<real>>)
    ensures |quotients| == |data.parties|
    ensures forall i :: 0 <= i < |quotients| ==> |quotients[i]| == data.totalMandates
    ensures forall i, e :: 0 <= i < |quotients| && 0 <= e < data.totalMandates ==>
      quotients[i][e] == Quotient(data.parties[i], e + 1)
  {
    quotients := [];
    var i := 0;
    while i < |data.parties|
      invariant 0 <= i <= |data.parties|
      invariant |quotients| == i
      invariant forall k :: 0 <= k < i ==> |quotients[k]| == data.totalMandates
      invariant forall k, e :: 0 <= k < i && 0 <= e < data.totalMandates ==>
        quotients[k][e] == Quotient(data.parties[k], e + 1)
    {
      var party := data.parties[i];
      var row: seq<real> := [];
      var d := 1;
      while d <= data.totalMandates
        invariant 1 <= d <= data.totalMandates + 1
        invariant |row| == d - 1
        invariant forall e :: 0 <= e < d - 1 ==> row[e] == Quotient(party, e + 1)
      {
        var adjustedVotes := (party.votes as real) * party.minorityCoefficient;
        row := row + [adjustedVotes / (d as real)];
        d := d + 1;
      }
      quotients := quotients + [row];
      i := i + 1;
    }
  }

  /** Pushes every cell of the matrix onto one candidate list, row by row
      and within a row by divisor. */
  method CollectCandidates(quotients: seq<seq<real>>) returns (all: seq<Candidate>)
    ensures all == Flatten(quotients)
  {
    all := [];
    var p := 0;
    while p < |quotients|
      invariant 0 <= p <= |quotients|
      invariant all == Flatten(quotients[..p])
    {
      var row := quotients[p];
      var e := 0;
      while e < |row|
        invariant 0 <= e <= |row|
        invariant all == Flatten(quotients[..p]) + RowCandidates(row, p)[..e]
      {
        assert RowCandidates(row, p)[..e + 1] == RowCandidates(row, p)[..e] + [Candidate(row[e], p, e + 1)];
        all := all + [Candidate(row[e], p, e + 1)];
        e := e + 1;
      }
      assert RowCandidates(row, p)[..e] == RowCandidates(row, p);
      assert quotients[..p + 1][..p] == quotients[..p];
      p := p + 1;
    }
    assert quotients[..p] == quotients;
  }

  /** What holds after the first `i` elements have been sorted: they are in
      rank order, and the whole list is still in flat order from each of
      them onwards to the unsorted rest, and within the unsorted rest. */
  predicate SortedUpTo(s: seq<Candidate>, i: nat)
  {
    && i <= |s|
    && (forall p, q :: 0 <= p < q < i ==> Ahead(s[p], s[q]))
    && (forall p, q :: 0 <= p < i <= q < |s| ==> FlatBefore(s[p], s[q]))
    && (forall p, q :: i <= p < q < |s| ==> FlatBefore(s[p], s[q]))
  }

  /** Moves `a[i]` left past every element with a strictly smaller quotient
      and returns its new position; the elements it passes shift right by
      one. */
  method InsertAt(a: array<Candidate>, i: nat) returns (j: nat)
    requires i < a.Length
    modifies a
    ensures j <= i
    ensures a[..] == old(a[..])[..j] + [old(a[i])] + old(a[..])[j..i] + old(a[..])[i + 1..]
    ensures forall k :: j <= k < i ==> old(a[k]).value < old(a[i]).value
    ensures j > 0 ==> old(a[j - 1]).value >= old(a[i]).value
  {
    ghost var pre := a[..];
    var x := a[i];
    j := i;
    while j > 0 && a[j - 1].value < x.value
      invariant 0 <= j <= i
      invariant forall k :: 0 <= k < j ==> a[k] == pre[k]
      invariant forall k :: j < k <= i ==> a[k] == pre[k - 1]
      invariant forall k :: i < k < a.Length ==> a[k] == pre[k]
      invariant forall k :: j <= k < i ==> pre[k].value < x.value
    {
      a[j] := a[j - 1];
      j := j - 1;
    }
    a[j] := x;
    assert a[..] == pre[..j] + [x] + pre[j..i] + pre[i + 1..];
  }

  /** `post` is `pre` with element `i` moved to position `j <= i` and the
      elements `j..i-1` shifted right by one. */
  predicate MovedLeft(post: seq<Candidate>, pre: seq<Candidate>, i: nat, j: nat)
  {
    && j <= i < |pre| == |post|
    && (forall k :: 0 <= k < j ==> post[k] == pre[k])
    && post[j] == pre[i]
    && (forall k :: j < k <= i ==> post[k] == pre[k - 1])
    && (forall k :: i < k < |pre| ==> post[k] == pre[k])
  }

  lemma MovedLeftConcat(pre: seq<Candidate>, i: nat, j: nat)
    requires j <= i < |pre|
    ensures MovedLeft(pre[..j] + [pre[i]] + pre[j..i] + pre[i + 1..], pre, i, j)
    ensures multiset(pre[..j] + [pre[i]] + pre[j..i] + pre[i + 1..]) == multiset(pre)
  {
    assert pre == pre[..j] + pre[j..i] + [pre[i]] + pre[i + 1..];
  }

  /** The moved element belongs after every element with a quotient at
      least its own and before every element with a smaller one; so the
      first `i + 1` elements are in rank order. */
  lemma InsertionKeepsRankOrder(post: seq<Candidate>, pre: seq<Candidate>, i: nat, j: nat)
    requires MovedLeft(post, pre, i, j)
    requires SortedUpTo(pre, i)
    requires forall k :: j <= k < i ==> pre[k].value < pre[i].value
    requires j > 0 ==> pre[j - 1].value >= pre[i].value
    ensures forall p, q :: 0 <= p < q < i + 1 ==> Ahead(post[p], post[q])
  {
    forall p, q | 0 <= p < q < i + 1
      ensures Ahead(post[p], post[q])
    {
      if q == j {
        if p < j - 1 {
          assert Ahead(pre[p], pre[j - 1]);
        }
        assert FlatBefore(pre[p], pre[i]);
      } else if j < q {
        assert post[q] == pre[q - 1];
        if j < p {
          assert post[p] == pre[p - 1];
        }
      }
    }
  }

  /** Flat order from the first `i + 1` elements to the rest, and within
      the rest, is untouched by the move. */
  lemma InsertionKeepsFlatOrder(post: seq<Candidate>, pre: seq<Candidate>, i: nat, j: nat)
    requires MovedLeft(post, pre, i, j)
    requires SortedUpTo(pre, i)
    ensures forall p, q :: 0 <= p < i + 1 <= q < |post| ==> FlatBefore(post[p], post[q])
    ensures forall p, q :: i + 1 <= p < q < |post| ==> FlatBefore(post[p], post[q])
  {
    forall p, q | 0 <= p < i + 1 <= q < |post|
      ensures FlatBefore(post[p], post[q])
    {
      assert post[q] == pre[q];
      if j < p {
        assert post[p] == pre[p - 1];
      }
    }
  }

  /** Stable in-place insertion sort by descending quotient. It compares
      quotients only; because the list arrives in flat order, stability
      leaves equal quotients in flat order, so the result is in rank order. */
  method SortDescending(a: array<Candidate>)
    requires InFlatOrder(a[..])
    modifies a
    ensures InRankOrder(a[..])
    ensures multiset(a[..]) == multiset(old(a[..]))
  {
    var i := 0;
    while i < a.Length
      invariant 0 <= i <= a.Length
      invariant SortedUpTo(a[..], i)
      invariant multiset(a[..]) == multiset(old(a[..]))
    {
      ghost var pre := a[..];
      var j := InsertAt(a, i);
      MovedLeftConcat(pre, i, j);
      InsertionKeepsRankOrder(a[..], pre, i, j);
      InsertionKeepsFlatOrder(a[..], pre, i, j);
      i := i + 1;
    }
  }

  /** The winners include a candidate for list `i` and divisor `d`. */
  predicate Marks(winners: seq<Candidate>, i: nat, d: nat)
  {
    exists k :: 0 <= k < |winners| && winners[k].partyIdx == i && winners[k].divisor == d
  }

  /** The first `t + 1` winners name a cell iff the first `t` do or winner
      `t` does. */
  lemma MarksExtend(winners: seq<Candidate>, t: nat, i: nat, d: nat)
    requires t < |winners|
    ensures Marks(winners[..t + 1], i, d) <==>
      Marks(winners[..t], i, d) || (winners[t].partyIdx == i && winners[t].divisor == d)
  {
    assert winners[..t + 1][t] == winners[t];
    if Marks(winners[..t + 1], i, d) && !(winners[t].partyIdx == i && winners[t].divisor == d) {
      var k :| 0 <= k < t + 1 && winners[..t + 1][k].partyIdx == i && winners[..t + 1][k].divisor == d;
      assert winners[..t][k] == winners[..t + 1][k];
    }
    if Marks(winners[..t], i, d) {
      var k :| 0 <= k < t && winners[..t][k].partyIdx == i && winners[..t][k].divisor == d;
      assert winners[..t + 1][k] == winners[..t][k];
    }
  }

  /** With distinct winners, winner `t` names no cell the earlier ones do. */
  lemma NotYetMarked(winners: seq<Candidate>, t: nat)
    requires t < |winners|
    requires forall k, l :: 0 <= k < l < |winners| ==>
      winners[k].partyIdx != winners[l].partyIdx || winners[k].divisor != winners[l].divisor
    ensures !Marks(winners[..t], winners[t].partyIdx, winners[t].divisor)
  {
  }

  /** Counts the seats of each list and marks each winning cell, starting
      from all zeros and an all-`false` matrix. */
  method Tally(winners: seq<Candidate>, parties: nat, mandates: nat) returns (seats: seq<nat>, marked: seq<seq<bool>>)
    requires forall k :: 0 <= k < |winners| ==> winners[k].partyIdx < parties && 1 <= winners[k].divisor <= mandates
    requires forall k, l :: 0 <= k < l < |winners| ==>
      winners[k].partyIdx != winners[l].partyIdx || winners[k].divisor != winners[l].divisor
    ensures |seats| == parties && |marked| == parties
    ensures forall i :: 0 <= i < parties ==> |marked[i]| == mandates
    ensures forall i, e :: 0 <= i < parties && 0 <= e < mandates ==> (marked[i][e] <==> Marks(winners, i, e + 1))
    ensures forall i :: 0 <= i < parties ==> seats[i] == CountTrue(marked[i])
    ensures Sum(seats) == |winners|
  {
    seats := seq(parties, _ => 0);
    marked := seq(parties, _ => seq(mandates, _ => false));
    SumZeros(seats);
    forall i | 0 <= i < parties
      ensures CountTrue(marked[i]) == 0
    {
      CountTrueNone(marked[i]);
    }
    var t := 0;
    while t < |winners|
      invariant 0 <= t <= |winners|
      invariant |seats| == parties && |marked| == parties
      invariant forall i :: 0 <= i < parties ==> |marked[i]| == mandates
      invariant forall i, e :: 0 <= i < parties && 0 <= e < mandates ==>
        (marked[i][e] <==> Marks(winners[..t], i, e + 1))
      invariant forall i :: 0 <= i < parties ==> seats[i] == CountTrue(marked[i])
      invariant Sum(seats) == t
    {
      var w := winners[t];
      var p, e := w.partyIdx, w.divisor - 1;
      NotYetMarked(winners, t);
      CountTrueSet(marked[p], e);
      SumIncrement(seats, p);
      seats := seats[p := seats[p] + 1];
      marked := marked[p := marked[p][e := true]];
      forall i, f | 0 <= i < parties && 0 <= f < mandates
        ensures marked[i][f] <==> Marks(winners[..t + 1], i, f + 1)
      {
        MarksExtend(winners, t, i, f + 1);
      }
      t := t + 1;
    }
    assert winners[..t] == winners;
  }

  // ---------------------------------------------------------------------
  // Linking the sorted list to the rank specification

  /** The sorted list holds the election's candidates, in rank order. */
  predicate SortedCandidates(data: ElectionData, s: seq<Candidate>)
  {
    multiset(s) == multiset(CandidateList(data)) && InRankOrder(s)
  }

  /** The element at position `k` of the sorted list is a cell of the
      election, and its rank is `k`. */
  lemma SortedElement(data: ElectionData, s: seq<Candidate>, k: nat)
    requires SortedCandidates(data, s) && k < |s|
    ensures s[k].partyIdx < |data.parties| && 1 <= s[k].divisor <= data.totalMandates
    ensures s[k] == Cell(data, s[k].partyIdx, s[k].divisor)
    ensures Rank(data, s[k].partyIdx, s[k].divisor) == k
  {
    var all := CandidateList(data);
    assert s[k] in multiset(s);
    var m :| 0 <= m < |all| && all[m] == s[k];
    CandidateListCells(data, m);
    CountAheadPerm(all, s, s[k]);
    CountAheadOfRanked(s, k);
  }

  /** Every cell of the election sits in the sorted list at the position
      given by its rank. */
  lemma CellPosition(data: ElectionData, s: seq<Candidate>, i: nat, e: nat)
    requires SortedCandidates(data, s)
    requires i < |data.parties| && 1 <= e <= data.totalMandates
    ensures Rank(data, i, e) < |s| && s[Rank(data, i, e)] == Cell(data, i, e)
  {
    FlattenMembers(QuotientMatrix(data), Cell(data, i, e));
    assert Cell(data, i, e) in multiset(CandidateList(data));
    var p :| 0 <= p < |s| && s[p] == Cell(data, i, e);
    SortedElement(data, s, p);
  }

  /** Distinct positions of the sorted list hold distinct cells. */
  lemma SortedSlotsDistinct(data: ElectionData, s: seq<Candidate>, k: nat, l: nat)
    requires SortedCandidates(data, s) && k < l < |s|
    ensures s[k].partyIdx != s[l].partyIdx || s[k].divisor != s[l].divisor
  {
    SortedElement(data, s, k);
    SortedElement(data, s, l);
  }

  /** A cell is among the first `w` sorted candidates iff its rank is below
      `w`. */
  lemma MarkedIffRankBelow(data: ElectionData, s: seq<Candidate>, w: nat, i: nat, e: nat)
    requires SortedCandidates(data, s) && w <= |s|
    requires i < |data.parties| && 1 <= e <= data.totalMandates
    ensures Marks(s[..w], i, e) <==> Rank(data, i, e) < w
  {
    CellPosition(data, s, i, e);
    var p := Rank(data, i, e);
    if Marks(s[..w], i, e) {
      var k :| 0 <= k < w && s[..w][k].partyIdx == i && s[..w][k].divisor == e;
      SortedElement(data, s, k);
    }
    if p < w {
      assert s[..w][p] == s[p];
    }
  }

  /** The last winner's quotient separates winners from the rest. */
  lemma ThresholdSeparates(data: ElectionData, s: seq<Candidate>, w: nat, i: nat, e: nat)
    requires SortedCandidates(data, s) && 0 < w <= |s|
    requires i < |data.parties| && 1 <= e <= data.totalMandates
    ensures Rank(data, i, e) < w ==> Quotient(data.parties[i], e) >= s[w - 1].value
    ensures Rank(data, i, e) >= w ==> Quotient(data.parties[i], e) <= s[w - 1].value
  {
    CellPosition(data, s, i, e);
    var p := Rank(data, i, e);
    if p < w - 1 {
      assert Ahead(s[p], s[w - 1]);
    } else if p > w - 1 {
      assert Ahead(s[w - 1], s[p]);
    }
  }

  /** A mandate matrix that marks exactly the winning cells has the
      specified rows, so its seat counts are the specified ones and its
      winning cells form a prefix of every row. */
  lemma SpecifiedMatrix(data: ElectionData, mandates: seq<nat>, matrix: seq<seq<bool>>)
    requires |matrix| == |data.parties| == |mandates|
    requires forall i :: 0 <= i < |data.parties| ==> |matrix[i]| == data.totalMandates
    requires forall i, e :: 0 <= i < |data.parties| && 0 <= e < data.totalMandates ==>
      (matrix[i][e] <==> Wins(data, i, e + 1))
    requires forall i :: 0 <= i < |data.parties| ==> mandates[i] == CountTrue(matrix[i])
    ensures forall i :: 0 <= i < |data.parties| ==> mandates[i] == Seats(data, i)
    ensures forall i, e, e' :: 0 <= i < |data.parties| && 0 <= e' < e < data.totalMandates && matrix[i][e] ==>
      matrix[i][e']
  {
    forall i | 0 <= i < |data.parties|
      ensures matrix[i] == WinRow(data, i)
    {
    }
    forall i, e, e' | 0 <= i < |data.parties| && 0 <= e' < e < data.totalMandates && matrix[i][e]
      ensures matrix[i][e']
    {
      WinsPrefix(data, i, e + 1, e' + 1);
    }
  }

  /** The first `w` sorted candidates name distinct cells of the election. */
  lemma WinnersAreCells(data: ElectionData, s: seq<Candidate>, w: nat)
    requires SortedCandidates(data, s) && w <= |s|
    ensures forall k :: 0 <= k < |s[..w]| ==>
      s[..w][k].partyIdx < |data.parties| && 1 <= s[..w][k].divisor <= data.totalMandates
    ensures forall k, l :: 0 <= k < l < |s[..w]| ==>
      s[..w][k].partyIdx != s[..w][l].partyIdx || s[..w][k].divisor != s[..w][l].divisor
  {
    forall k | 0 <= k < w
      ensures s[k].partyIdx < |data.parties| && 1 <= s[k].divisor <= data.totalMandates
    {
      SortedElement(data, s, k);
    }
    forall k, l | 0 <= k < l < w
      ensures s[k].partyIdx != s[l].partyIdx || s[k].divisor != s[l].divisor
    {
      SortedSlotsDistinct(data, s, k, l);
    }
  }

  /** A cell is marked among the first `w = min(totalMandates, |s|)` sorted
      candidates iff it wins, and the threshold separates it accordingly. */
  lemma WinnerCell(data: ElectionData, s: seq<Candidate>, w: nat, i: nat, d: nat)
    requires SortedCandidates(data, s)
    requires w == if data.totalMandates < |s| then data.totalMandates else |s|
    requires i < |data.parties| && 1 <= d <= data.totalMandates
    ensures Marks(s[..w], i, d) <==> Wins(data, i, d)
    ensures w > 0 && Marks(s[..w], i, d) ==> Quotient(data.parties[i], d) >= s[w - 1].value
    ensures w > 0 && !Marks(s[..w], i, d) ==> Quotient(data.parties[i], d) <= s[w - 1].value
  {
    MarkedIffRankBelow(data, s, w, i, d);
    CellPosition(data, s, i, d);
    if w > 0 {
      ThresholdSeparates(data, s, w, i, d);
    }
  }

  /** Taking the first `m` of `p * m` candidates selects `m` of them when
      there is at least one list, and none otherwise. */
  lemma SeatsAvailable(p: nat, m: nat)
    ensures (if m < p * m then m else p * m) == if p == 0 then 0 else m
  {
    if p > 0 {
      assert p * m == (p - 1) * m + m;
    }
  }

  /** The last of the first `w` sorted candidates is a cell of the election
      that is among them. */
  lemma LastWinner(data: ElectionData, s: seq<Candidate>, w: nat)
    requires SortedCandidates(data, s) && 0 < w <= |s|
    ensures s[w - 1].partyIdx < |data.parties| && 1 <= s[w - 1].divisor <= data.totalMandates
    ensures s[w - 1].value == Quotient(data.parties[s[w - 1].partyIdx], s[w - 1].divisor)
    ensures Marks(s[..w], s[w - 1].partyIdx, s[w - 1].divisor)
  {
    SortedElement(data, s, w - 1);
    assert s[..w][w - 1] == s[w - 1];
  }

  // ---------------------------------------------------------------------
  // The engine

  /** Flattens the quotient matrix into one candidate list and sorts it in
      place by descending quotient; returns the sorted list. */
  method RankCandidates(data: ElectionData, quotients: seq<seq<real>>) returns (s: seq<Candidate>)
    requires quotients == QuotientMatrix(data)
    ensures SortedCandidates(data, s)
    ensures |s| == |data.parties| * data.totalMandates
  {
    var all := CollectCandidates(quotients);
    FlattenOrdered(quotients);
    FlattenLength(quotients, data.totalMandates);
    var allQuotients := new Candidate[|all|](k requires 0 <= k < |all| => all[k]);
    assert allQuotients[..] == all;
    SortDescending(allQuotients);
    s := allQuotients[..];
  }

  /** Takes the first `totalMandates` sorted candidates as winners, reads the
      threshold off the last of them, and tallies seats per list. */
  method SelectWinners(data: ElectionData, s: seq<Candidate>)
    returns (mandates: seq<nat>, mandateMatrix: seq<seq<bool>>, thresholdQuotient: real)
    requires SortedCandidates(data, s)
    requires |s| == |data.parties| * data.totalMandates
    ensures |mandateMatrix| == |data.parties|
    ensures forall i :: 0 <= i < |data.parties| ==> |mandateMatrix[i]| == data.totalMandates
    ensures forall i, e :: 0 <= i < |data.parties| && 0 <= e < data.totalMandates ==>
      (mandateMatrix[i][e] <==> Wins(data, i, e + 1))
    ensures |mandates| == |data.parties|
    ensures forall i :: 0 <= i < |data.parties| ==> mandates[i] == CountTrue(mandateMatrix[i])
    ensures Sum(mandates) == if |data.parties| == 0 then 0 else data.totalMandates
    ensures |data.parties| == 0 || data.totalMandates == 0 ==> thresholdQuotient == 0.0
    ensures forall i, e :: 0 <= i < |data.parties| && 0 <= e < data.totalMandates ==>
      (mandateMatrix[i][e] ==> Quotient(data.parties[i], e + 1) >= thresholdQuotient) &&
      (!mandateMatrix[i][e] ==> Quotient(data.parties[i], e + 1) <= thresholdQuotient)
    ensures |data.parties| > 0 && data.totalMandates > 0 ==>
      exists i, e :: 0 <= i < |data.parties| && 0 <= e < data.totalMandates &&
        mandateMatrix[i][e] && Quotient(data.parties[i], e + 1) == thresholdQuotient
  {
    var parties, totalMandates := |data.parties|, data.totalMandates;
    var w := if totalMandates < |s| then totalMandates else |s|;
    var winners := s[..w];
    thresholdQuotient := if w > 0 then s[w - 1].value else 0.0;
    SeatsAvailable(parties, totalMandates);

    WinnersAreCells(data, s, w);
    mandates, mandateMatrix := Tally(winners, parties, totalMandates);
    forall i, e | 0 <= i < parties && 0 <= e < totalMandates
      ensures mandateMatrix[i][e] <==> Wins(data, i, e + 1)
      ensures mandateMatrix[i][e] ==> Quotient(data.parties[i], e + 1) >= thresholdQuotient
      ensures !mandateMatrix[i][e] ==> Quotient(data.parties[i], e + 1) <= thresholdQuotient
    {
      WinnerCell(data, s, w, i, e + 1);
    }
    if w > 0 {
      var c := s[w - 1];
      LastWinner(data, s, w);
      assert mandateMatrix[c.partyIdx][c.divisor - 1];
    }
  }

  /** The whole allocation. */
  method CalculateDhondt(data: ElectionData) returns (res: DhondtResult)
    // quotient matrix
    ensures |res.quotients| == |data.parties|
    ensures forall i :: 0 <= i < |data.parties| ==> |res.quotients[i]| == data.totalMandates
    ensures forall i, e :: 0 <= i < |data.parties| && 0 <= e < data.totalMandates ==>
      res.quotients[i][e] == Quotient(data.parties[i], e + 1)
    // mandate matrix: exactly the cells the rank specification selects
    ensures |res.mandateMatrix| == |data.parties|
    ensures forall i :: 0 <= i < |data.parties| ==> |res.mandateMatrix[i]| == data.totalMandates
    ensures forall i, e :: 0 <= i < |data.parties| && 0 <= e < data.totalMandates ==>
      (res.mandateMatrix[i][e] <==> Wins(data, i, e + 1))
    ensures forall i, e, e' :: 0 <= i < |data.parties| && 0 <= e' < e < data.totalMandates && res.mandateMatrix[i][e] ==>
      res.mandateMatrix[i][e']
    // seats
    ensures |res.mandates| == |data.parties|
    ensures forall i :: 0 <= i < |data.parties| ==> res.mandates[i] == CountTrue(res.mandateMatrix[i])
    ensures forall i :: 0 <= i < |data.parties| ==> res.mandates[i] == Seats(data, i)
    ensures Sum(res.mandates) == if |data.parties| == 0 then 0 else data.totalMandates
    // threshold
    ensures |data.parties| == 0 || data.totalMandates == 0 ==> res.thresholdQuotient == 0.0
    ensures forall i, e :: 0 <= i < |data.parties| && 0 <= e < data.totalMandates ==>
      (res.mandateMatrix[i][e] ==> res.quotients[i][e] >= res.thresholdQuotient) &&
      (!res.mandateMatrix[i][e] ==> res.quotients[i][e] <= res.thresholdQuotient)
    ensures |data.parties| > 0 && data.totalMandates > 0 ==>
      exists i, e :: 0 <= i < |data.parties| && 0 <= e < data.totalMandates &&
        res.mandateMatrix[i][e] && res.quotients[i][e] == res.thresholdQuotient
    // statistics
    ensures res.totalValid == SumVotes(data.parties)
    ensures res.totalInvalid == SimulatedInvalid(res.totalValid)
    ensures res.totalInBox == res.totalValid + res.totalInvalid
    ensures res.totalVoted == res.totalInBox
    ensures res.percentVoted == PercentOf(res.totalInBox, data.totalVoters)
    ensures res.partyPercentages.Some? <==> res.totalValid > 0 || |data.parties| == 0
    ensures |data.parties| == 0 ==> res.partyPercentages == Some([])
    ensures res.partyPercentages.Some? ==> res.partyPercentages.value == PartyPercentages(data.parties, res.totalValid)
  {
    var parties, totalVoters := data.parties, data.totalVoters;

    var totalVoted := SumVotes(parties);
    var totalValid := totalVoted;
    var totalInvalid := SimulatedInvalid(totalVoted);
    var totalInBox := totalValid + totalInvalid;
    var percentVoted := PercentOf(totalInBox, totalVoters);
    var partyPercentages := if totalValid > 0 || parties == [] then Some(PartyPercentages(parties, totalValid)) else None;

    var quotients := ComputeQuotients(data);
    forall i | 0 <= i < |parties|
      ensures quotients[i] == QuotientMatrix(data)[i]
    {
    }
    assert quotients == QuotientMatrix(data);
    var sorted := RankCandidates(data, quotients);
    var mandates, mandateMatrix, thresholdQuotient := SelectWinners(data, sorted);

    res := DhondtResult(quotients, mandates, mandateMatrix, thresholdQuotient,
                        totalInBox, totalInBox, totalInvalid, totalValid, percentVoted, partyPercentages);

    SpecifiedMatrix(data, mandates, mandateMatrix);
  }
}

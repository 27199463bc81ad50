/** Data model of the D'Hondt calculator: electoral lists, the election
    snapshot the engine reads, the candidate quotients it ranks and the
    result it returns. Numbers are exact: votes and seat counts are `nat`,
    quotients and coefficients are `real`. */
module Election {

  /** `None` stands for the non-finite number JavaScript produces when a
      ratio's divisor is zero. */
  datatype Option<+T> = None | Some(value: T)

  /** The multiplier applied to a list's votes: 1 for a regular list, 1.35
      for a recognised minority list, and always positive. */
  type Coefficient = c: real | c > 0.0 witness 1.0

  /** One electoral list. */
  datatype Party = Party(name: string, votes: nat, isMinority: bool, minorityCoefficient: Coefficient)

  /** The full input snapshot edited by the user. */
  datatype ElectionData = ElectionData(
    municipality: string,
    totalVoters: nat,
    totalMandates: nat,
    parties: seq<Party>)

  /** One cell of the quotient matrix put into the global candidate list:
      its quotient, the index of its list and its divisor (1-based). */
  datatype Candidate = Candidate(value: real, partyIdx: nat, divisor: nat)

  /** The derived snapshot. `quotients` and `mandateMatrix` are indexed
      `[partyIdx][divisor - 1]`. */
  datatype DhondtResult = DhondtResult(
    quotients: seq<seq<real>>,
    mandates: seq<nat>,
    mandateMatrix: seq<seq<bool>>,
    thresholdQuotient: real,
    totalVoted: nat,
    totalInBox: nat,
    totalInvalid: nat,
    totalValid: nat,
    percentVoted: Option<real>,
    partyPercentages: Option<seq<real>>)

  /** The adjusted strength of a list: its votes times its coefficient. */
  function Strength(p: Party): (s: real)
    ensures s >= 0.0
    ensures s == 0.0 <==> p.votes == 0
  {
    (p.votes as real) * p.minorityCoefficient
  }

  /** The quotient of a list for divisor `d`: the share of its strength
      that, taken `d` times, gives the whole strength. */
  function Quotient(p: Party, d: nat): (q: real)
    requires d > 0
    ensures q * (d as real) == Strength(p)
    ensures 0.0 <= q <= Strength(p)
  {
    var q := Strength(p) / (d as real);
    assert q * (d as real) == Strength(p);
    assert q >= 0.0;
    assert q * (d as real) - q == q * ((d - 1) as real) >= 0.0;
    q
  }

  /** A list's quotients never increase with the divisor, and they strictly
      decrease when the list has at least one vote. */
  lemma QuotientNonIncreasing(p: Party, e: nat, d: nat)
    requires 0 < e <= d
    ensures Quotient(p, e) >= Quotient(p, d)
    ensures p.votes > 0 && e < d ==> Quotient(p, e) > Quotient(p, d)
  {
    var s := Strength(p);
    assert Quotient(p, e) * (e as real) == s;
    assert Quotient(p, d) * (d as real) == s;
  }

  /** The number of `true` cells in a row. */
  function CountTrue(row: seq<bool>): nat
  {
    if row == [] then 0 else CountTrue(row[..|row| - 1]) + (if row[|row| - 1] then 1 else 0)
  }

  /** The sum of a sequence of seat counts. */
  function Sum(xs: seq<nat>): nat
  {
    if xs == [] then 0 else Sum(xs[..|xs| - 1]) + xs[|xs| - 1]
  }

  /** Setting one `false` cell of a row to `true` adds one to its count. */
  lemma {:induction false} CountTrueSet(row: seq<bool>, e: nat)
    requires e < |row| && !row[e]
    ensures CountTrue(row[e := true]) == CountTrue(row) + 1
  {
    var n := |row| - 1;
    var row' := row[e := true];
    if e == n {
      assert row'[..n] == row[..n];
    } else {
      assert row'[..n] == row[..n][e := true];
      CountTrueSet(row[..n], e);
    }
  }

  /** An all-`false` row has count 0. */
  lemma {:induction false} CountTrueNone(row: seq<bool>)
    requires forall e :: 0 <= e < |row| ==> !row[e]
    ensures CountTrue(row) == 0
  {
    if row != [] {
      CountTrueNone(row[..|row| - 1]);
    }
  }

  /** Turning cells on never lowers the count. */
  lemma {:induction false} CountTruePointwise(row: seq<bool>, row': seq<bool>)
    requires |row| == |row'|
    requires forall e :: 0 <= e < |row| && row[e] ==> row'[e]
    ensures CountTrue(row) <= CountTrue(row')
  {
    if row != [] {
      var n := |row| - 1;
      CountTruePointwise(row[..n], row'[..n]);
    }
  }

  /** Adding one to an entry adds one to the sum. */
  lemma {:induction false} SumIncrement(xs: seq<nat>, i: nat)
    requires i < |xs|
    ensures Sum(xs[i := xs[i] + 1]) == Sum(xs) + 1
  {
    var n := |xs| - 1;
    var xs' := xs[i := xs[i] + 1];
    if i == n {
      assert xs'[..n] == xs[..n];
    } else {
      assert xs'[..n] == xs[..n][i := xs[i] + 1];
      SumIncrement(xs[..n], i);
    }
  }

  /** A sequence of zeros sums to 0. */
  lemma {:induction false} SumZeros(xs: seq<nat>)
    requires forall i :: 0 <= i < |xs| ==> xs[i] == 0
    ensures Sum(xs) == 0
  {
    if xs != [] {
      SumZeros(xs[..|xs| - 1]);
    }
  }
}

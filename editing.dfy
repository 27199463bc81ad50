/** The dataset editing operations of the calculator's page: replace one
    field of one list, replace one top-level field, append a default list,
    and remove a list while at least three remain. Each returns a new
    snapshot; the typed edit datatypes stand for the keyed `[field]: value`
    updates. */
module Editing {
  import opened Election
  import opened Ranking
  import opened Dhondt

  /** A new value for one field of a list. */
  datatype PartyEdit =
    | SetName(name: string)
    | SetVotes(votes: nat)
    | SetIsMinority(isMinority: bool)
    | SetCoefficient(coefficient: Coefficient)

  /** A new value for one top-level field of the snapshot. */
  datatype DataEdit =
    | SetMunicipality(municipality: string)
    | SetTotalVoters(totalVoters: nat)
    | SetTotalMandates(totalMandates: nat)

  /** The field that `f` names holds the value `f` carries. */
  predicate Carries(p: Party, f: PartyEdit)
  {
    match f
    case SetName(n) => p.name == n
    case SetVotes(v) => p.votes == v
    case SetIsMinority(b) => p.isMinority == b
    case SetCoefficient(c) => p.minorityCoefficient == c
  }

  /** `p` and `p'` agree on every field other than the one `f` names. */
  predicate SameExcept(p: Party, p': Party, f: PartyEdit)
  {
    && (f.SetName? || p.name == p'.name)
    && (f.SetVotes? || p.votes == p'.votes)
    && (f.SetIsMinority? || p.isMinority == p'.isMinority)
    && (f.SetCoefficient? || p.minorityCoefficient == p'.minorityCoefficient)
  }

  predicate DataCarries(data: ElectionData, f: DataEdit)
  {
    match f
    case SetMunicipality(m) => data.municipality == m
    case SetTotalVoters(v) => data.totalVoters == v
    case SetTotalMandates(m) => data.totalMandates == m
  }

  predicate DataSameExcept(data: ElectionData, data': ElectionData, f: DataEdit)
  {
    && (f.SetMunicipality? || data.municipality == data'.municipality)
    && (f.SetTotalVoters? || data.totalVoters == data'.totalVoters)
    && (f.SetTotalMandates? || data.totalMandates == data'.totalMandates)
    && data.parties == data'.parties
  }

  /** `{ ...p, [field]: value }`. */
  function Edit(p: Party, f: PartyEdit): (r: Party)
    ensures Carries(r, f) && SameExcept(r, p, f)
  {
    match f
    case SetName(n) => p.(name := n)
    case SetVotes(v) => p.(votes := v)
    case SetIsMinority(b) => p.(isMinority := b)
    case SetCoefficient(c) => p.(minorityCoefficient := c)
  }

  /** The parties mapped so that the one at position `index` is edited. */
  function EditAt(ps: seq<Party>, index: int, f: PartyEdit): (r: seq<Party>)
    ensures |r| == |ps|
    ensures forall k :: 0 <= k < |ps| && k != index ==> r[k] == ps[k]
    ensures 0 <= index < |ps| ==> r[index] == Edit(ps[index], f)
  {
    if ps == [] then []
    else
      var n := |ps| - 1;
      EditAt(ps[..n], index, f) + [if n == index then Edit(ps[n], f) else ps[n]]
  }

  /** The parties with position `index` filtered out. */
  function Without(ps: seq<Party>, index: int): (r: seq<Party>)
    ensures r == if 0 <= index < |ps| then ps[..index] + ps[index + 1..] else ps
  {
    if ps == [] then []
    else
      var n := |ps| - 1;
      var front := Without(ps[..n], index);
      assert 0 <= index < n ==> ps[..n][..index] == ps[..index] && ps[..n][index + 1..] + [ps[n]] == ps[index + 1..];
      front + (if n == index then [] else [ps[n]])
  }

  /** `updateParty(index, field, value)`: the list at `index` gets the new
      field value; an index out of range changes nothing. */
  function UpdateParty(data: ElectionData, index: int, f: PartyEdit): (r: ElectionData)
    ensures r.municipality == data.municipality && r.totalVoters == data.totalVoters
    ensures r.totalMandates == data.totalMandates
    ensures |r.parties| == |data.parties|
    ensures forall k :: 0 <= k < |data.parties| && k != index ==> r.parties[k] == data.parties[k]
    ensures 0 <= index < |data.parties| ==>
      Carries(r.parties[index], f) && SameExcept(r.parties[index], data.parties[index], f)
    ensures !(0 <= index < |data.parties|) ==> r == data
  {
    var ps := EditAt(data.parties, index, f);
    assert !(0 <= index < |data.parties|) ==> ps == data.parties;
    data.(parties := ps)
  }

  /** `updateField(field, value)`: one top-level field replaced. */
  function UpdateField(data: ElectionData, f: DataEdit): (r: ElectionData)
    ensures DataCarries(r, f) && DataSameExcept(r, data, f)
  {
    match f
    case SetMunicipality(m) => data.(municipality := m)
    case SetTotalVoters(v) => data.(totalVoters := v)
    case SetTotalMandates(m) => data.(totalMandates := m)
  }

  /** The list `addParty` appends. */
  function NewParty(): Party
  {
    Party("Нова листа", 0, false, 1.0)
  }

  /** `addParty()`: one default list appended at the end. */
  function AddParty(data: ElectionData): (r: ElectionData)
    ensures r.municipality == data.municipality && r.totalVoters == data.totalVoters
    ensures r.totalMandates == data.totalMandates
    ensures |r.parties| == |data.parties| + 1
    ensures r.parties[..|data.parties|] == data.parties
    ensures r.parties[|data.parties|] == Party("Нова листа", 0, false, 1.0)
  {
    data.(parties := data.parties + [NewParty()])
  }

  /** `removeParty(index)`: refused while at most two lists remain;
      otherwise the list at `index` is filtered out. */
  function RemoveParty(data: ElectionData, index: int): (r: ElectionData)
    ensures |data.parties| <= 2 ==> r == data
    ensures |data.parties| > 2 && 0 <= index < |data.parties| ==>
      r == data.(parties := data.parties[..index] + data.parties[index + 1..])
    ensures !(0 <= index < |data.parties|) ==> r == data
    ensures |data.parties| >= 2 ==> |r.parties| >= 2
  {
    if |data.parties| <= 2 then data
    else data.(parties := Without(data.parties, index))
  }

  /** The minority checkbox: sets the flag and, with it, the coefficient
      1.35 for a minority list or 1 otherwise. */
  function SetMinority(data: ElectionData, index: int, checked: bool): (r: ElectionData)
    ensures r.municipality == data.municipality && r.totalVoters == data.totalVoters
    ensures r.totalMandates == data.totalMandates
    ensures |r.parties| == |data.parties|
    ensures forall k :: 0 <= k < |data.parties| && k != index ==> r.parties[k] == data.parties[k]
    ensures 0 <= index < |data.parties| ==>
      r.parties[index] == data.parties[index].(isMinority := checked,
                                               minorityCoefficient := if checked then 1.35 else 1.0)
  {
    var flagged := UpdateParty(data, index, SetIsMinority(checked));
    UpdateParty(flagged, index, SetCoefficient(if checked then 1.35 else 1.0))
  }

  // ---------------------------------------------------------------------
  // Properties relating the operations

  /** Removing the list just added restores the snapshot. */
  lemma RemoveUndoesAdd(data: ElectionData)
    requires |data.parties| >= 2
    ensures RemoveParty(AddParty(data), |data.parties|) == data
  {
    var added := AddParty(data);
    assert added.parties[..|data.parties|] + added.parties[|data.parties| + 1..] == data.parties;
  }

  /** Editing the same field of the same list twice keeps only the second
      value. */
  lemma UpdatePartyLastWins(data: ElectionData, index: int, f: PartyEdit, g: PartyEdit)
    requires f.SetName? == g.SetName? && f.SetVotes? == g.SetVotes?
    requires f.SetIsMinority? == g.SetIsMinority? && f.SetCoefficient? == g.SetCoefficient?
    ensures UpdateParty(UpdateParty(data, index, f), index, g) == UpdateParty(data, index, g)
  {
    var r1 := UpdateParty(UpdateParty(data, index, f), index, g);
    var r2 := UpdateParty(data, index, g);
    assert r1.parties == r2.parties;
  }

  /** The vote total after a vote edit changes by the difference. */
  lemma SetVotesChangesTotal(data: ElectionData, index: nat, v: nat)
    requires index < |data.parties|
    ensures SumVotes(UpdateParty(data, index, SetVotes(v)).parties) + data.parties[index].votes
         == SumVotes(data.parties) + v
  {
    var ps := data.parties;
    var ps' := UpdateParty(data, index, SetVotes(v)).parties;
    assert ps == ps[..index] + [ps[index]] + ps[index + 1..];
    assert ps' == ps[..index] + [ps'[index]] + ps[index + 1..];
    SumVotesConcat(ps[..index] + [ps[index]], ps[index + 1..]);
    SumVotesConcat(ps[..index], [ps[index]]);
    SumVotesConcat(ps[..index] + [ps'[index]], ps[index + 1..]);
    SumVotesConcat(ps[..index], [ps'[index]]);
    assert SumVotes([ps[index]]) == ps[index].votes by { assert [ps[index]][..0] == []; }
    assert SumVotes([ps'[index]]) == v by { assert [ps'[index]][..0] == []; }
  }

  /** The new list has no votes, so adding it keeps the vote total. */
  lemma AddPartyKeepsTotal(data: ElectionData)
    ensures SumVotes(AddParty(data).parties) == SumVotes(data.parties)
  {
    assert AddParty(data).parties[..|data.parties|] == data.parties;
  }

  /** Raising a list's votes through the editor never costs it a seat. */
  lemma RaisingVotesKeepsSeats(data: ElectionData, index: nat, v: nat)
    requires index < |data.parties| && v >= data.parties[index].votes
    ensures Seats(data, index) <= Seats(UpdateParty(data, index, SetVotes(v)), index)
  {
    MoreVotesNoFewerSeats(data, UpdateParty(data, index, SetVotes(v)), index);
  }
}

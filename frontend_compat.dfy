/** `getCompatibleBloodGroups` of the browser-side database: a table from a recipient
    group to the donor groups it may receive from. */
module FrontendCompatibility {
  import opened Wrappers
  import opened BloodGroups

  /** The table's row for a recipient, in the order the source lists it. */
  function DonorsFor(r: BloodGroup): seq<BloodGroup> {
    match r
    case Group(A, Pos) => [APos, ANeg, OPos, ONeg]
    case Group(A, Neg) => [ANeg, ONeg]
    case Group(B, Pos) => [BPos, BNeg, OPos, ONeg]
    case Group(B, Neg) => [BNeg, ONeg]
    case Group(AB, Pos) => [APos, ANeg, BPos, BNeg, ABPos, ABNeg, OPos, ONeg]
    case Group(AB, Neg) => [ANeg, BNeg, ABNeg, ONeg]
    case Group(O, Pos) => [OPos, ONeg]
    case Group(O, Neg) => [ONeg]
  }

  /** `getCompatibleBloodGroups(requestedGroup)`: the row for a known code, and the
      empty list (`compatibility[requestedGroup] || []`) for any other string. */
  function GetCompatibleBloodGroups(requested: string): seq<string> {
    match Parse(requested)
    case Some(g) => Codes(DonorsFor(g))
    case None => []
  }

  /** The table row holds exactly the donors the transfusion rule allows. */
  lemma DonorsForMatchesRule(d: BloodGroup, r: BloodGroup)
    ensures d in DonorsFor(r) <==> Receives(d, r)
  {
    match r {
      case Group(A, Pos) =>
      case Group(A, Neg) =>
      case Group(B, Pos) =>
      case Group(B, Neg) =>
      case Group(AB, Pos) =>
      case Group(AB, Neg) =>
      case Group(O, Pos) =>
      case Group(O, Neg) =>
    }
  }

  lemma CodeInCodes(d: BloodGroup, gs: seq<BloodGroup>)
    ensures Code(d) in Codes(gs) <==> d in gs
  {
    if Code(d) in Codes(gs) {
      var i :| 0 <= i < |gs| && Codes(gs)[i] == Code(d);
      CodeInjective(d, gs[i]);
    }
    if d in gs {
      var i :| 0 <= i < |gs| && gs[i] == d;
      assert Codes(gs)[i] == Code(d);
    }
  }

  /** For the 64 pairs of valid groups, the donor's code is in the recipient's list
      exactly when the transfusion rule allows the pair. */
  lemma TableMatchesRule(d: BloodGroup, r: BloodGroup)
    ensures Code(d) in GetCompatibleBloodGroups(Code(r)) <==> Receives(d, r)
  {
    ParseCode(r);
    CodeInCodes(d, DonorsFor(r));
    DonorsForMatchesRule(d, r);
  }

  /** Only codes of blood groups appear in any list. */
  lemma ListHoldsOnlyCodes(requested: string, s: string)
    requires s in GetCompatibleBloodGroups(requested)
    ensures IsCode(s)
  {
    var l := GetCompatibleBloodGroups(requested);
    var i :| 0 <= i < |l| && l[i] == s;
    ParseCode(DonorsFor(Parse(requested).value)[i]);
  }

  /** Every recipient may receive its own group. */
  lemma SelfCompatible(r: BloodGroup)
    ensures Code(r) in GetCompatibleBloodGroups(Code(r))
  {
    TableMatchesRule(r, r);
  }

  /** "O-" is in every recipient's list, the list for "O-" is just ["O-"], and the list
      for "AB+" is all eight groups. */
  lemma UniversalDonorAndRecipient(r: BloodGroup)
    ensures "O-" in GetCompatibleBloodGroups(Code(r))
    ensures GetCompatibleBloodGroups("O-") == ["O-"]
    ensures GetCompatibleBloodGroups("AB+") == Codes(AllGroups)
  {
    UniversalDonor(r);
    UniversalDonorList();
    UniversalRecipientList();
  }

  lemma UniversalDonor(r: BloodGroup)
    ensures "O-" in GetCompatibleBloodGroups(Code(r))
  {
    assert Code(ONeg) == "O-";
    TableMatchesRule(ONeg, r);
  }

  lemma UniversalDonorList()
    ensures GetCompatibleBloodGroups("O-") == ["O-"]
  {
    assert Code(ONeg) == "O-";
    ParseCode(ONeg);
    assert DonorsFor(ONeg) == [ONeg];
    assert Codes([ONeg]) == ["O-"];
  }

  lemma UniversalRecipientList()
    ensures GetCompatibleBloodGroups("AB+") == Codes(AllGroups)
  {
    assert Code(ABPos) == "AB+";
    ParseCode(ABPos);
    assert DonorsFor(ABPos) == AllGroups;
  }

  /** An Rh-negative recipient's list holds only Rh-negative donors. */
  lemma RhNegativeReceivesOnlyNegative(r: BloodGroup, d: BloodGroup)
    requires r.rh == Neg && Code(d) in GetCompatibleBloodGroups(Code(r))
    ensures d.rh == Neg
  {
    TableMatchesRule(d, r);
  }

  /** A string that is not one of the eight codes yields the empty list, and every
      known code yields a non-empty one. */
  lemma UnknownGroupYieldsEmpty(requested: string)
    ensures GetCompatibleBloodGroups(requested) == [] <==> !IsCode(requested)
  {
    if IsCode(requested) {
      SelfCompatible(Parse(requested).value);
    }
  }

  lemma RowHasNoDuplicates(r: BloodGroup, i: int, j: int)
    requires 0 <= i < j < |DonorsFor(r)|
    ensures DonorsFor(r)[i] != DonorsFor(r)[j]
  {
    match r {
      case Group(A, Pos) =>
      case Group(A, Neg) =>
      case Group(B, Pos) =>
      case Group(B, Neg) =>
      case Group(AB, Pos) =>
      case Group(AB, Neg) =>
      case Group(O, Pos) =>
      case Group(O, Neg) =>
    }
  }

  /** No list names a group twice. */
  lemma ListsHaveNoDuplicates(requested: string, i: int, j: int)
    requires 0 <= i < j < |GetCompatibleBloodGroups(requested)|
    ensures GetCompatibleBloodGroups(requested)[i] != GetCompatibleBloodGroups(requested)[j]
  {
    var r := Parse(requested).value;
    var gs := DonorsFor(r);
    assert GetCompatibleBloodGroups(requested) == Codes(gs);
    RowHasNoDuplicates(r, i, j);
    CodeInjective(gs[i], gs[j]);
  }
}

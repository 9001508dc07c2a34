/** The eight ABO/Rh blood groups, their two- or three-character codes, and the
    transfusion rule every compatibility table of the application encodes. */
module BloodGroups {
  import opened Wrappers

  datatype Abo = A | B | AB | O
  datatype Rh = Pos | Neg
  datatype BloodGroup = Group(abo: Abo, rh: Rh)

  const APos := Group(A, Pos)
  const ANeg := Group(A, Neg)
  const BPos := Group(B, Pos)
  const BNeg := Group(B, Neg)
  const ABPos := Group(AB, Pos)
  const ABNeg := Group(AB, Neg)
  const OPos := Group(O, Pos)
  const ONeg := Group(O, Neg)

  /** The eight groups in the order the source lists them. */
  const AllGroups: seq<BloodGroup> := [APos, ANeg, BPos, BNeg, ABPos, ABNeg, OPos, ONeg]

  function AboCode(a: Abo): string {
    match a
    case A => "A"
    case B => "B"
    case AB => "AB"
    case O => "O"
  }

  /** The code written in the source: "A+", "AB-", ... */
  function Code(g: BloodGroup): (s: string)
    ensures 2 <= |s| <= 3
    ensures s[|s| - 1] == (if g.rh == Pos then '+' else '-')
  {
    AboCode(g.abo) + (if g.rh == Pos then "+" else "-")
  }

  function Codes(gs: seq<BloodGroup>): (r: seq<string>)
    ensures |r| == |gs| && forall i :: 0 <= i < |gs| ==> r[i] == Code(gs[i])
  {
    seq(|gs|, i requires 0 <= i < |gs| => Code(gs[i]))
  }

  function ParseAbo(t: string): Option<Abo> {
    if |t| == 1 && t[0] == 'A' then Some(A)
    else if |t| == 1 && t[0] == 'B' then Some(B)
    else if |t| == 2 && t[0] == 'A' && t[1] == 'B' then Some(AB)
    else if |t| == 1 && t[0] == 'O' then Some(O)
    else None
  }

  /** The group whose code is exactly `s` (case-sensitive), if any. */
  function Parse(s: string): (r: Option<BloodGroup>)
    ensures r.Some? ==> Code(r.value) == s
  {
    if |s| < 2 || (s[|s| - 1] != '+' && s[|s| - 1] != '-') then None
    else
      match ParseAbo(s[..|s| - 1])
      case None => None
      case Some(a) =>
        var g := Group(a, if s[|s| - 1] == '+' then Pos else Neg);
        assert Code(g) == s[..|s| - 1] + [s[|s| - 1]];
        Some(g)
  }

  /** Every group's code parses back to that group, so `Parse` fails exactly on the
      strings that are not one of the eight codes. */
  lemma ParseCode(g: BloodGroup)
    ensures Parse(Code(g)) == Some(g)
  {
    var s := Code(g);
    assert s[..|s| - 1] == AboCode(g.abo);
  }

  /** The literal codes the source compares against. */
  lemma CodeLiterals()
    ensures Code(APos) == "A+" && Code(ANeg) == "A-" && Code(BPos) == "B+" && Code(BNeg) == "B-"
    ensures Code(ABPos) == "AB+" && Code(ABNeg) == "AB-" && Code(OPos) == "O+" && Code(ONeg) == "O-"
  {
  }

  lemma CodeInjective(g: BloodGroup, h: BloodGroup)
    ensures Code(g) == Code(h) <==> g == h
  {
    ParseCode(g);
    ParseCode(h);
  }

  /** `s` is one of the eight codes. */
  predicate IsCode(s: string) {
    Parse(s).Some?
  }

  lemma IsCodeIffInAll(s: string)
    ensures IsCode(s) <==> s in Codes(AllGroups)
  {
    if IsCode(s) {
      var g := Parse(s).value;
      assert g in AllGroups;
      var i :| 0 <= i < |AllGroups| && AllGroups[i] == g;
      assert Codes(AllGroups)[i] == s;
    }
    if s in Codes(AllGroups) {
      var i :| 0 <= i < 8 && Codes(AllGroups)[i] == s;
      ParseCode(AllGroups[i]);
    }
  }

  lemma AllGroupsComplete(g: BloodGroup)
    ensures g in AllGroups
  {
    match g {
      case Group(A, Pos) => assert AllGroups[0] == g;
      case Group(A, Neg) => assert AllGroups[1] == g;
      case Group(B, Pos) => assert AllGroups[2] == g;
      case Group(B, Neg) => assert AllGroups[3] == g;
      case Group(AB, Pos) => assert AllGroups[4] == g;
      case Group(AB, Neg) => assert AllGroups[5] == g;
      case Group(O, Pos) => assert AllGroups[6] == g;
      case Group(O, Neg) => assert AllGroups[7] == g;
    }
  }

  /** The reference rule: red cells from `d` may be given to `r` when `d` carries no
      antigen `r` lacks -- O has no A/B antigen, AB receives both, and an Rh-negative
      recipient receives only Rh-negative cells. */
  predicate Receives(d: BloodGroup, r: BloodGroup) {
    (d.rh == Neg || r.rh == Pos) && (d.abo == O || d.abo == r.abo || r.abo == AB)
  }
}

/** The FastAPI backend's compatibility logic: the ABO/Rh rule behind
    `POST /api/compatibility` and the two-way table of `GET /api/compatibility/{type}`. */
module BackendCompatibility {
  import opened Wrappers
  import opened BloodGroups
  import FrontendCompatibility
  import Cpp = CppBloodLogic
  import Text

  /** Python exceptions the modelled code can raise. */
  datatype PyException = IndexError | ValueError | StopIteration

  /** An `HTTPException` (or FastAPI's answer to an uncaught exception). */
  datatype HttpError = HttpError(status: int, detail: string)

  datatype Verdict = Verdict(compatible: bool, message: string)

  /** `check_blood_compatibility(donor_type, recipient_type)`: two universal cases, then
      the Rh factor (the last character) and the ABO part (the rest). Indexing `[-1]` of
      an empty string raises `IndexError`. */
  function CheckBloodCompatibility(donorType: string, recipientType: string): Result<Verdict, PyException> {
    if donorType == "O-" then
      Ok(Verdict(true, "O- is a universal donor and can donate to " + recipientType))
    else if recipientType == "AB+" then
      Ok(Verdict(true, "AB+ is a universal recipient and can receive from " + donorType))
    else if donorType == [] || recipientType == [] then
      Err(IndexError)
    else
      var donorRh := donorType[|donorType| - 1];
      var recipientRh := recipientType[|recipientType| - 1];
      if recipientRh == '-' && donorRh == '+' then
        Ok(Verdict(false, donorType + " cannot donate to " + recipientType + " due to Rh factor incompatibility"))
      else
        var donorAbo := donorType[..|donorType| - 1];
        var recipientAbo := recipientType[..|recipientType| - 1];
        if donorAbo == "O" then
          Ok(Verdict(true, donorType + " can donate to " + recipientType))
        else if donorAbo == "A" && recipientAbo in ["A", "AB"] then
          Ok(Verdict(true, donorType + " can donate to " + recipientType))
        else if donorAbo == "B" && recipientAbo in ["B", "AB"] then
          Ok(Verdict(true, donorType + " can donate to " + recipientType))
        else if donorAbo == "AB" && recipientAbo == "AB" then
          Ok(Verdict(true, donorType + " can donate to " + recipientType))
        else
          Ok(Verdict(false, donorType + " cannot donate to " + recipientType + " due to blood type incompatibility"))
  }

  datatype CompatibilityResponse = CompatibilityResponse(compatible: bool, message: string, usingPythonFallback: bool)

  /** `POST /api/compatibility`: any exception becomes a 500 carrying its text. */
  function CheckCompatibilityEndpoint(donorType: string, recipientType: string): Result<CompatibilityResponse, HttpError> {
    match CheckBloodCompatibility(donorType, recipientType)
    case Ok(v) => Ok(CompatibilityResponse(v.compatible, v.message, true))
    case Err(_) => Err(HttpError(500, "string index out of range"))
  }

  /** Donor "O-" is compatible with every recipient string, even the empty one. */
  lemma UniversalDonor(recipientType: string)
    ensures CheckBloodCompatibility("O-", recipientType).Ok?
    ensures CheckBloodCompatibility("O-", recipientType).value.compatible
  {
  }

  /** Recipient "AB+" is compatible with every donor string, even one that is not a
      blood group. */
  lemma UniversalRecipient(donorType: string)
    ensures CheckBloodCompatibility(donorType, "AB+").Ok?
    ensures CheckBloodCompatibility(donorType, "AB+").value.compatible
  {
  }

  /** A recipient ending in '-' with a donor ending in '+' is refused for the Rh factor,
      unless one of the two universal cases applies first. */
  lemma RhFactorRejected(donorType: string, recipientType: string)
    requires donorType != "O-" && recipientType != "AB+"
    requires donorType != [] && donorType[|donorType| - 1] == '+'
    requires recipientType != [] && recipientType[|recipientType| - 1] == '-'
    ensures CheckBloodCompatibility(donorType, recipientType) ==
            Ok(Verdict(false, donorType + " cannot donate to " + recipientType + " due to Rh factor incompatibility"))
  {
  }

  /** An empty donor or recipient that misses both early returns raises `IndexError`,
      which the endpoint turns into HTTP 500. */
  lemma EmptyTypeIsServerError(donorType: string, recipientType: string)
    requires donorType != "O-" && recipientType != "AB+"
    requires donorType == [] || recipientType == []
    ensures CheckBloodCompatibility(donorType, recipientType) == Err(IndexError)
    ensures CheckCompatibilityEndpoint(donorType, recipientType).Err?
    ensures CheckCompatibilityEndpoint(donorType, recipientType).error.status == 500
  {
  }

  lemma CodeSplit(g: BloodGroup)
    ensures Code(g)[..|Code(g)| - 1] == AboCode(g.abo)
  {
  }

  /** On the 64 pairs of valid groups the rule is the transfusion rule... */
  lemma AgreesWithRule(d: BloodGroup, r: BloodGroup)
    ensures CheckBloodCompatibility(Code(d), Code(r)).Ok?
    ensures CheckBloodCompatibility(Code(d), Code(r)).value.compatible <==> Receives(d, r)
  {
    var ds, rs := Code(d), Code(r);
    Cpp.CodeEqualsLiteral(d);
    Cpp.CodeEqualsLiteral(r);
    if d != ONeg && r != ABPos {
      CodeSplit(d);
      CodeSplit(r);
      CheckPastUniversalCases(ds, rs);
      AboAllowsCodes(d.abo, r.abo);
    }
  }

  /** Which ABO parts the rule lets through once the Rh test has passed. */
  predicate AboAllows(donorAbo: string, recipientAbo: string) {
    donorAbo == "O" || (donorAbo == "A" && recipientAbo in ["A", "AB"])
    || (donorAbo == "B" && recipientAbo in ["B", "AB"]) || (donorAbo == "AB" && recipientAbo == "AB")
  }

  lemma CheckPastUniversalCases(donorType: string, recipientType: string)
    requires donorType != "O-" && recipientType != "AB+" && donorType != [] && recipientType != []
    ensures var v := CheckBloodCompatibility(donorType, recipientType);
      v.Ok? && (v.value.compatible <==>
        !(recipientType[|recipientType| - 1] == '-' && donorType[|donorType| - 1] == '+') &&
        AboAllows(donorType[..|donorType| - 1], recipientType[..|recipientType| - 1]))
  {
  }

  lemma AboAllowsCodes(a: Abo, b: Abo)
    ensures AboAllows(AboCode(a), AboCode(b)) <==> a == O || a == b || b == AB
  {
  }

  /** ... and so agrees with the C++ core's `canDonate`. */
  lemma AgreesWithCpp(d: BloodGroup, r: BloodGroup)
    ensures CheckBloodCompatibility(Code(d), Code(r)).Ok?
    ensures CheckBloodCompatibility(Code(d), Code(r)).value.compatible == Cpp.CanDonate(Code(d), Code(r))
  {
    AgreesWithRule(d, r);
    Cpp.AgreesWithRule(d, r);
  }

  /** Off the eight groups the versions part ways: this rule is case-sensitive and lets
      any donor give to "AB+", while the C++ core upper-cases and refuses an unknown
      donor. */
  lemma DiffersFromCppOffTable()
    ensures CheckBloodCompatibility("XYZ", "AB+").value.compatible && !Cpp.CanDonate("XYZ", "AB+")
    ensures !CheckBloodCompatibility("o-", "A+").value.compatible && Cpp.CanDonate("o-", "A+")
  {
    assert Text.Upper("XYZ") == "XYZ";
    assert Text.Upper("AB+") == "AB+";
    assert Text.Upper("o-") == "O-";
    var v := CheckBloodCompatibility("o-", "A+");
    assert "o-"[..1] == "o";
  }

  datatype BloodCompatibility = BloodCompatibility(bloodType: string, canDonateTo: seq<string>, canReceiveFrom: seq<string>)

  /** The `compatibility_map` literal: for each group, whom it can donate to and whom it
      can receive from, in the source's order. */
  function MapEntry(g: BloodGroup): (seq<BloodGroup>, seq<BloodGroup>) {
    match g
    case Group(A, Pos) => ([APos, ABPos], [APos, ANeg, OPos, ONeg])
    case Group(A, Neg) => ([APos, ANeg, ABPos, ABNeg], [ANeg, ONeg])
    case Group(B, Pos) => ([BPos, ABPos], [BPos, BNeg, OPos, ONeg])
    case Group(B, Neg) => ([BPos, BNeg, ABPos, ABNeg], [BNeg, ONeg])
    case Group(AB, Pos) => ([ABPos], [APos, ANeg, BPos, BNeg, ABPos, ABNeg, OPos, ONeg])
    case Group(AB, Neg) => ([ABPos, ABNeg], [ANeg, BNeg, ABNeg, ONeg])
    case Group(O, Pos) => ([APos, BPos, ABPos, OPos], [OPos, ONeg])
    case Group(O, Neg) => ([APos, ANeg, BPos, BNeg, ABPos, ABNeg, OPos, ONeg], [ONeg])
  }

  /** `GET /api/compatibility/{blood_type}`: the entry for an exact key, 404 otherwise. */
  function GetBloodCompatibility(bloodType: string): Result<BloodCompatibility, HttpError> {
    match Parse(bloodType)
    case None => Err(HttpError(404, "Blood type not found"))
    case Some(g) => Ok(BloodCompatibility(bloodType, Codes(MapEntry(g).0), Codes(MapEntry(g).1)))
  }

  lemma MapEntryMatchesRule(x: BloodGroup, y: BloodGroup)
    ensures y in MapEntry(x).0 <==> Receives(x, y)
    ensures y in MapEntry(x).1 <==> Receives(y, x)
  {
    match y {
      case Group(A, Pos) =>
      case Group(A, Neg) =>
      case Group(B, Pos) =>
      case Group(B, Neg) =>
      case Group(AB, Pos) =>
      case Group(AB, Neg) =>
      case Group(O, Pos) =>
      case Group(O, Neg) =>
    }
  }

  /** The two columns are mirror images: X is in `can_donate_to` of Y exactly when Y is
      in `can_receive_from` of X, for all 64 pairs; both follow the transfusion rule. */
  lemma TableIsSymmetric(x: BloodGroup, y: BloodGroup)
    ensures GetBloodCompatibility(Code(y)).Ok? && GetBloodCompatibility(Code(x)).Ok?
    ensures Code(x) in GetBloodCompatibility(Code(y)).value.canDonateTo
            <==> Code(y) in GetBloodCompatibility(Code(x)).value.canReceiveFrom
    ensures Code(x) in GetBloodCompatibility(Code(y)).value.canDonateTo <==> Receives(y, x)
  {
    ParseCode(x);
    ParseCode(y);
    FrontendCompatibility.CodeInCodes(x, MapEntry(y).0);
    FrontendCompatibility.CodeInCodes(y, MapEntry(x).1);
    MapEntryMatchesRule(y, x);
    MapEntryMatchesRule(x, y);
  }

  /** The `can_receive_from` column is the browser's table, list for list. */
  lemma ReceiveColumnIsFrontendTable(x: BloodGroup)
    ensures GetBloodCompatibility(Code(x)).Ok?
    ensures GetBloodCompatibility(Code(x)).value.canReceiveFrom == FrontendCompatibility.GetCompatibleBloodGroups(Code(x))
  {
    ParseCode(x);
    assert MapEntry(x).1 == FrontendCompatibility.DonorsFor(x) by {
      match x {
        case Group(A, Pos) =>
        case Group(A, Neg) =>
        case Group(B, Pos) =>
        case Group(B, Neg) =>
        case Group(AB, Pos) =>
        case Group(AB, Neg) =>
        case Group(O, Pos) =>
        case Group(O, Neg) =>
      }
    }
  }

  /** A type outside the map's keys (lower case included) gives 404. */
  lemma UnknownTypeNotFound(bloodType: string)
    requires !IsCode(bloodType)
    ensures GetBloodCompatibility(bloodType) == Err(HttpError(404, "Blood type not found"))
  {
  }
}

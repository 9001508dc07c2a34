/** The Flask application around the C++ core: its pure-Python fallback check, the
    parser for the C++ program's output line, and the input normalisation of the
    `/api/check_compatibility` handler. */
module PythonApp {
  import opened Wrappers
  import opened Text
  import opened BloodGroups
  import Cpp = CppBloodLogic

  /** The dictionary both checkers return; `usingPythonFallback` is false where the key
      `using_python_fallback` is absent. */
  datatype CheckResult = CheckResult(compatible: bool, message: string, usingPythonFallback: bool)

  datatype ApiResponse =
    | BadRequest(error: string)   // HTTP 400 with an `error` field
    | Answer(result: CheckResult)

  const InvalidResponseMessage := "Invalid response from compatibility checker"
  const MissingTypeMessage := "Both donor_type and recipient_type are required"
  const InvalidTypeMessage := "Invalid blood type. Must be one of: A+, A-, B+, B-, AB+, AB-, O+, O-"

  /** `check_blood_compatibility_py`: the C++ chain rewritten as an if/elif chain. */
  function CheckPy(donorType: string, recipientType: string): CheckResult {
    var donor := Upper(donorType);
    var recipient := Upper(recipientType);
    var compatible :=
      if donor == "O-" then true
      else if donor == recipient then true
      else if donor == "O+" && recipient in ["A+", "B+", "AB+", "O+"] then true
      else if donor == "A-" && recipient in ["A+", "A-", "AB+", "AB-"] then true
      else if donor == "B-" && recipient in ["B+", "B-", "AB+", "AB-"] then true
      else if donor == "A+" && recipient in ["A+", "AB+"] then true
      else if donor == "B+" && recipient in ["B+", "AB+"] then true
      else if donor == "AB-" && recipient in ["AB-", "AB+"] then true
      else donor == "AB+" && recipient == "AB+";
    var message := "Donor (" + donorType + ") can" + (if compatible then "" else "not") +
                   " donate to recipient (" + recipientType + ").";
    CheckResult(compatible, message, true)
  }

  /** With `upper` on ASCII letters, the fallback gives the C++ core's verdict and
      message on every pair of strings, and marks its answer as coming from the
      fallback. */
  lemma FallbackAgreesWithCpp(donorType: string, recipientType: string)
    ensures CheckPy(donorType, recipientType) ==
            CheckResult(Cpp.CanDonate(donorType, recipientType),
                        Cpp.CompatibilityMessage(donorType, recipientType), true)
  {
  }

  /** How `check_blood_compatibility` reads the subprocess's standard output. */
  function ParseCliOutput(stdout: string): CheckResult {
    var output := Strip(stdout);
    var i := FirstIndexOf(output, ':');
    if i >= 0 then
      CheckResult(Lower(output[..i]) == "true", Strip(output[i + 1..]), false)
    else
      CheckResult(false, InvalidResponseMessage, false)
  }

  /** With a ':' in the stripped output, the verdict is whether the text before the first
      ':' lower-cases to "true" and the message is the rest, stripped. */
  lemma ParseWithColon(stdout: string, i: nat)
    requires i < |Strip(stdout)| && Strip(stdout)[i] == ':' && ':' !in Strip(stdout)[..i]
    ensures ParseCliOutput(stdout) ==
            CheckResult(Lower(Strip(stdout)[..i]) == "true", Strip(Strip(stdout)[i + 1..]), false)
  {
    FirstIndexOfIs(Strip(stdout), ':', i);
  }

  /** Without a ':' the parser reports an incompatible pair and an invalid response. */
  lemma ParseWithoutColon(stdout: string)
    requires ':' !in Strip(stdout)
    ensures ParseCliOutput(stdout) == CheckResult(false, InvalidResponseMessage, false)
  {
  }

  /** Stripping the printed line removes the newline and any whitespace ending `m`. */
  lemma {:induction false} StripCliLine(p: string, m: string)
    requires p != [] && !IsPySpace(p[0])
    ensures Strip(p + ":" + m + "\n") == p + ":" + RStrip(m)
  {
    var u := p + ":";
    assert p + ":" + m + "\n" == (u + m) + ['\n'];
    RStripDropSpace(u + m, '\n');
    RStripConcat(u, m);
    assert (u + RStrip(m))[0] == p[0];
  }

  lemma LowerOfVerdict(b: bool)
    ensures Lower(if b then "true" else "false") == "true" <==> b
  {
    if !b {
      assert Lower("false")[0] == 'f';
    } else {
      assert Lower("true") == "true";
    }
  }

  /** Round trip: parsing the line `true:m` or `false:m` printed by the C++ program
      returns the same verdict and `m` stripped. */
  lemma {:induction false} CliLineRoundTrip(b: bool, m: string)
    ensures ParseCliOutput((if b then "true" else "false") + ":" + m + "\n") == CheckResult(b, Strip(m), false)
  {
    var p := if b then "true" else "false";
    var line := p + ":" + m + "\n";
    StripCliLine(p, m);
    var output := p + ":" + RStrip(m);
    assert output[..|p|] == p && output[|p|] == ':';
    assert ':' !in p;
    ParseWithColon(line, |p|);
    LowerOfVerdict(b);
    assert output[|p| + 1..] == RStrip(m);
    StripAfterRStrip(m);
  }

  /** Reading the C++ program's line for any two strings gives `canDonate` and the full
      message of `getCompatibilityMessage`. */
  lemma CppLineParsesToVerdict(donorType: string, recipientType: string)
    ensures ParseCliOutput(Cpp.CliLine(donorType, recipientType)) ==
            CheckResult(Cpp.CanDonate(donorType, recipientType),
                        Cpp.CompatibilityMessage(donorType, recipientType), false)
  {
    var m := Cpp.CompatibilityMessage(donorType, recipientType);
    CliLineRoundTrip(Cpp.CanDonate(donorType, recipientType), m);
    assert m[0] == 'D' && m[|m| - 1] == '.';
    StripUnchanged(m);
  }

  /** `data.get(key, '').strip().upper()`; `None` stands for a missing key. */
  function Normalize(field: Option<string>): string {
    Upper(Strip(if field.Some? then field.value else ""))
  }

  /** The validation at the top of `api_check_compatibility`: the two normalised types,
      or the error message of its 400 response. */
  function ValidateTypes(donorField: Option<string>, recipientField: Option<string>): Result<(string, string), string> {
    var donor := Normalize(donorField);
    var recipient := Normalize(recipientField);
    if donor == "" || recipient == "" then Err(MissingTypeMessage)
    else if !IsCode(donor) || !IsCode(recipient) then Err(InvalidTypeMessage)
    else Ok((donor, recipient))
  }

  /** `api_check_compatibility`. `cppAvailable` records whether the start-up build
      found the C++ program, which decides which checker `check_blood_compatibility`
      is bound to. */
  function ApiCheckCompatibility(donorField: Option<string>, recipientField: Option<string>, cppAvailable: bool): ApiResponse {
    match ValidateTypes(donorField, recipientField)
    case Err(e) => BadRequest(e)
    case Ok((donor, recipient)) => Answer(BoundChecker(donor, recipient, cppAvailable))
  }

  /** The function `check_blood_compatibility` names after start-up: the C++ program,
      whose output line is parsed, or the pure-Python fallback. */
  function BoundChecker(donor: string, recipient: string, cppAvailable: bool): CheckResult {
    if cppAvailable then ParseCliOutput(Cpp.CliLine(donor, recipient)) else CheckPy(donor, recipient)
  }

  /** On two valid groups both checkers give the transfusion rule's verdict and the same
      sentence; only the fallback flag tells them apart. */
  lemma BoundCheckerAnswersRule(d: BloodGroup, r: BloodGroup, cppAvailable: bool)
    ensures BoundChecker(Code(d), Code(r), cppAvailable) ==
            CheckResult(Receives(d, r), Cpp.MessageFor(Code(d), Code(r), Receives(d, r)), !cppAvailable)
  {
    Cpp.AgreesWithRule(d, r);
    if cppAvailable {
      CppLineParsesToVerdict(Code(d), Code(r));
    } else {
      FallbackAgreesWithCpp(Code(d), Code(r));
    }
  }

  /** A field that is missing or only whitespace gives the 400 "Both ... are required". */
  lemma MissingFieldRejected(donorField: Option<string>, recipientField: Option<string>, cppAvailable: bool)
    requires Normalize(donorField) == "" || Normalize(recipientField) == ""
    ensures ApiCheckCompatibility(donorField, recipientField, cppAvailable) == BadRequest(MissingTypeMessage)
  {
  }

  /** After normalisation, anything outside the eight groups gives the 400 listing them. */
  lemma InvalidTypeRejected(donorField: Option<string>, recipientField: Option<string>, cppAvailable: bool)
    requires Normalize(donorField) != "" && Normalize(recipientField) != ""
    requires !IsCode(Normalize(donorField)) || !IsCode(Normalize(recipientField))
    ensures ApiCheckCompatibility(donorField, recipientField, cppAvailable) == BadRequest(InvalidTypeMessage)
  {
  }

  /** Surrounding whitespace and lower case are accepted: " o- " is read as "O-". */
  lemma NormalizeExample()
    ensures Normalize(Some(" o- ")) == "O-"
  {
    var s := " o- ";
    assert RStrip(s) == " o-" by {
      assert s[..|s| - 1] == " o-";
    }
    assert LStrip(" o-") == "o-" by {
      assert " o-"[1..] == "o-";
    }
    assert Upper("o-") == "O-";
  }

  /** Once both fields name valid groups, the answer is the transfusion rule's verdict
      with the "can/cannot" sentence, whichever checker is bound; the two differ only in
      the `using_python_fallback` flag. */
  lemma ValidRequestAnswersRule(donorField: Option<string>, recipientField: Option<string>, cppAvailable: bool, d: BloodGroup, r: BloodGroup)
    requires Normalize(donorField) == Code(d) && Normalize(recipientField) == Code(r)
    ensures ApiCheckCompatibility(donorField, recipientField, cppAvailable) ==
            Answer(CheckResult(Receives(d, r), Cpp.MessageFor(Code(d), Code(r), Receives(d, r)), !cppAvailable))
  {
    CodesAreValid(Normalize(donorField), Normalize(recipientField), d, r);
    assert ValidateTypes(donorField, recipientField) == Ok((Code(d), Code(r)));
    BoundCheckerAnswersRule(d, r, cppAvailable);
  }

  lemma CodesAreValid(donor: string, recipient: string, d: BloodGroup, r: BloodGroup)
    requires donor == Code(d) && recipient == Code(r)
    ensures donor != "" && recipient != "" && IsCode(donor) && IsCode(recipient)
  {
    ParseCode(d);
    ParseCode(r);
  }
}

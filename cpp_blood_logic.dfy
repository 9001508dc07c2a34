/** `BloodCompatibility::canDonate` and `getCompatibilityMessage` of the C++ core, and
    the one line its command-line program prints. */
module CppBloodLogic {
  import opened Text
  import opened BloodGroups
  import FrontendCompatibility

  /** `canDonate(donorType, recipientType)`: both strings are upper-cased, then a chain
      of early returns decides. */
  function CanDonate(donorType: string, recipientType: string): bool {
    var donor := Upper(donorType);
    var recipient := Upper(recipientType);
    if donor == "O-" then true
    else if donor == recipient then true
    else if donor == "O+" && (recipient == "A+" || recipient == "B+" || recipient == "AB+" || recipient == "O+") then true
    else if donor == "A-" && (recipient == "A+" || recipient == "A-" || recipient == "AB+" || recipient == "AB-") then true
    else if donor == "B-" && (recipient == "B+" || recipient == "B-" || recipient == "AB+" || recipient == "AB-") then true
    else if donor == "A+" && (recipient == "A+" || recipient == "AB+") then true
    else if donor == "B+" && (recipient == "B+" || recipient == "AB+") then true
    else if donor == "AB-" && (recipient == "AB-" || recipient == "AB+") then true
    else donor == "AB+" && recipient == "AB+"
  }

  /** The sentence both the C++ core and the Python fallback build around a verdict,
      quoting the caller's strings as given. */
  function MessageFor(donorType: string, recipientType: string, compatible: bool): string {
    "Donor (" + donorType + ") can" + (if compatible then "" else "not") +
    " donate to recipient (" + recipientType + ")."
  }

  /** `getCompatibilityMessage(donorType, recipientType)`. */
  function CompatibilityMessage(donorType: string, recipientType: string): string {
    MessageFor(donorType, recipientType, CanDonate(donorType, recipientType))
  }

  /** What `main` writes to standard output: `true` or `false`, a colon, the message
      and the newline of `std::endl`. */
  function CliLine(donorType: string, recipientType: string): string {
    (if CanDonate(donorType, recipientType) then "true" else "false") + ":" +
    CompatibilityMessage(donorType, recipientType) + "\n"
  }

  lemma UpperCode(g: BloodGroup)
    ensures Upper(Code(g)) == Code(g)
  {
    var s := Code(g);
    forall i | 0 <= i < |s|
      ensures UpperChar(s[i]) == s[i]
    {
      assert s[i] in {'A', 'B', 'O', '+', '-'} by {
        match g.abo {
          case A =>
          case B =>
          case AB =>
          case O =>
        }
      }
    }
  }

  /** A group's code equals one of the literals the chain compares with exactly when it
      is that group. */
  lemma CodeEqualsLiteral(g: BloodGroup)
    ensures Code(g) == "A+" <==> g == APos
    ensures Code(g) == "A-" <==> g == ANeg
    ensures Code(g) == "B+" <==> g == BPos
    ensures Code(g) == "B-" <==> g == BNeg
    ensures Code(g) == "AB+" <==> g == ABPos
    ensures Code(g) == "AB-" <==> g == ABNeg
    ensures Code(g) == "O+" <==> g == OPos
    ensures Code(g) == "O-" <==> g == ONeg
  {
    CodeLiterals();
    CodeInjective(g, APos);
    CodeInjective(g, ANeg);
    CodeInjective(g, BPos);
    CodeInjective(g, BNeg);
    CodeInjective(g, ABPos);
    CodeInjective(g, ABNeg);
    CodeInjective(g, OPos);
    CodeInjective(g, ONeg);
  }

  /** On the 64 pairs of valid groups the chain is the transfusion rule. */
  lemma AgreesWithRule(d: BloodGroup, r: BloodGroup)
    ensures CanDonate(Code(d), Code(r)) <==> Receives(d, r)
  {
    UpperCode(d);
    UpperCode(r);
    CodeEqualsLiteral(d);
    CodeEqualsLiteral(r);
    CodeInjective(d, r);
  }

  /** ... and hence agrees with the browser's table, `d` being compatible with `r`
      exactly when `d` is in `getCompatibleBloodGroups(r)`. */
  lemma AgreesWithFrontendTable(d: BloodGroup, r: BloodGroup)
    ensures CanDonate(Code(d), Code(r)) <==> Code(d) in FrontendCompatibility.GetCompatibleBloodGroups(Code(r))
  {
    AgreesWithRule(d, r);
    FrontendCompatibility.TableMatchesRule(d, r);
  }

  /** The comparison ignores case: only the upper-cased strings matter. */
  lemma CaseInsensitive(donorType: string, recipientType: string)
    ensures CanDonate(donorType, recipientType) == CanDonate(Upper(donorType), Upper(recipientType))
  {
    UpperIdempotent(donorType);
    UpperIdempotent(recipientType);
  }

  /** Any spelling of a valid pair, in any case, gets the transfusion rule's answer. */
  lemma AgreesWithRuleInAnyCase(donorType: string, recipientType: string, d: BloodGroup, r: BloodGroup)
    requires Upper(donorType) == Code(d) && Upper(recipientType) == Code(r)
    ensures CanDonate(donorType, recipientType) <==> Receives(d, r)
  {
    CaseInsensitive(donorType, recipientType);
    AgreesWithRule(d, r);
  }

  /** A donor that upper-cases to "O-" is compatible with every recipient string, even
      one that is not a blood group. */
  lemma UniversalDonorAnyRecipient(donorType: string, recipientType: string)
    requires Upper(donorType) == "O-"
    ensures CanDonate(donorType, recipientType)
  {
  }

  /** Two strings that upper-case to the same string are always compatible, whether or
      not they name a blood group ("XYZ" and "xyz" included). */
  lemma SameStringAlwaysCompatible(donorType: string, recipientType: string)
    requires Upper(donorType) == Upper(recipientType)
    ensures CanDonate(donorType, recipientType)
  {
  }

  lemma SameStringExample()
    ensures CanDonate("XYZ", "xyz")
  {
    assert Upper("xyz") == "XYZ";
    assert Upper("XYZ") == "XYZ";
  }

  /** A Rh-positive donor group never gives to any recipient string ending in '-'. */
  lemma PositiveNeverToNegative(donorType: string, recipientType: string, d: BloodGroup)
    requires Upper(donorType) == Code(d) && d.rh == Pos
    requires |recipientType| > 0 && recipientType[|recipientType| - 1] == '-'
    ensures !CanDonate(donorType, recipientType)
  {
    var u := Upper(recipientType);
    assert u[|u| - 1] == '-';
    CodeEqualsLiteral(d);
    assert u != "A+" && u != "B+" && u != "AB+" && u != "O+" by {
      assert "A+"[1] == '+' && "B+"[1] == '+' && "AB+"[2] == '+' && "O+"[1] == '+';
    }
  }

  /** "AB+" gives to "AB+" only: whatever the recipient string, compatibility means it
      upper-cases to "AB+". */
  lemma ABPositiveOnlyToABPositive(donorType: string, recipientType: string)
    requires Upper(donorType) == "AB+" && CanDonate(donorType, recipientType)
    ensures Upper(recipientType) == "AB+"
  {
  }

  /** A donor string that names no blood group is compatible only with the same string. */
  lemma InvalidDonorIncompatible(donorType: string, recipientType: string)
    requires !IsCode(Upper(donorType)) && Upper(donorType) != Upper(recipientType)
    ensures !CanDonate(donorType, recipientType)
  {
    CodeLiterals();
    var u := Upper(donorType);
    if u == "O-" { ParseCode(ONeg); }
    if u == "O+" { ParseCode(OPos); }
    if u == "A-" { ParseCode(ANeg); }
    if u == "B-" { ParseCode(BNeg); }
    if u == "A+" { ParseCode(APos); }
    if u == "B+" { ParseCode(BPos); }
    if u == "AB-" { ParseCode(ABNeg); }
    if u == "AB+" { ParseCode(ABPos); }
  }

  /** The message determines the verdict: the "can" and "cannot" sentences for the same
      pair of strings differ, at the character after "can". */
  lemma MessageDeterminesVerdict(donorType: string, recipientType: string)
    ensures MessageFor(donorType, recipientType, true) != MessageFor(donorType, recipientType, false)
  {
    var k := |"Donor (" + donorType + ") can"|;
    assert MessageFor(donorType, recipientType, true)[k] == ' ';
    assert MessageFor(donorType, recipientType, false)[k] == 'n';
  }

  /** The message reads "Donor (d) can donate to recipient (r)." exactly when
      `canDonate` holds, with the caller's original strings. */
  lemma MessageIffCompatible(donorType: string, recipientType: string)
    ensures CompatibilityMessage(donorType, recipientType) == MessageFor(donorType, recipientType, true)
            <==> CanDonate(donorType, recipientType)
  {
    if CompatibilityMessage(donorType, recipientType) == MessageFor(donorType, recipientType, true) {
      MessageDeterminesVerdict(donorType, recipientType);
    }
  }
}

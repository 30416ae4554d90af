/** The older `no.hvl.dowhile.utility.StringTools` (under src/no), whose name
    validator accepts letters and digits only. */
module LegacyStringTools {
  import opened JavaLang
  import StringTools

  /** A character the legacy validator allows: a letter or a digit (no space). */
  predicate IsLetterOrDigit(cc: CharClasses, c: char) {
    cc.isLetter(c) || cc.isDigit(c)
  }

  /** Non-null, non-empty, and made of letters and digits only. */
  ghost predicate IsValidLegacyName(cc: CharClasses, opName: JString) {
    && opName.Ref?
    && opName.value != []
    && forall i :: 0 <= i < |opName.value| ==> IsLetterOrDigit(cc, opName.value[i])
  }

  /** Scans every character without stopping early; a character that is neither
      a letter nor a digit clears the flag, and nothing sets it again. */
  method IsValidOperationName(cc: CharClasses, opName: JString) returns (isValid: bool)
    ensures opName.Null? || opName.value == [] ==> !isValid
    ensures isValid <==> IsValidLegacyName(cc, opName)
  {
    isValid := true;
    if opName.Null? || opName.value == [] {
      return false;
    }
    var s := opName.value;
    for i := 0 to |s|
      invariant isValid <==> forall j :: 0 <= j < i ==> IsLetterOrDigit(cc, s[j])
    {
      if !cc.isLetter(s[i]) && !cc.isDigit(s[i]) {
        isValid := false;
      }
    }
  }

  /** Every name the legacy validator accepts, the current one accepts too. */
  lemma LegacyAcceptedByCurrent(cc: CharClasses, opName: JString)
    requires IsValidLegacyName(cc, opName)
    ensures StringTools.IsValidName(cc, opName)
  {
    var s := opName.value;
    forall i | 0 <= i < |s| ensures StringTools.IsNameChar(cc, s[i]) {
      assert IsLetterOrDigit(cc, s[i]);
    }
  }

  /** A space is a letter for neither validator: any name containing one is
      rejected by the legacy validator. */
  lemma LegacyRejectsSpace(cc: CharClasses, s: string, k: nat)
    requires WellFormed(cc)
    requires k < |s| && s[k] == ' '
    ensures !IsValidLegacyName(cc, Ref(s))
  {
    assert !IsLetterOrDigit(cc, s[k]);
  }

  /** The converse of `LegacyAcceptedByCurrent` fails: "a b" is accepted only by
      the current validator. */
  lemma CurrentAcceptsMore(cc: CharClasses)
    requires WellFormed(cc)
    ensures StringTools.IsValidName(cc, Ref("a b"))
    ensures !IsValidLegacyName(cc, Ref("a b"))
  {
    var s := "a b";
    assert StringTools.IsNameChar(cc, s[0]) && StringTools.IsNameChar(cc, s[2]);
    LegacyRejectsSpace(cc, s, 1);
  }

  /** Hyphens and full stops are rejected here too. */
  lemma LegacyRejectsTestWrong(cc: CharClasses)
    requires WellFormed(cc)
    ensures !IsValidLegacyName(cc, Ref("TestWrong-.-"))
  {
    var s := "TestWrong-.-";
    assert !IsLetterOrDigit(cc, s[9]);
  }
}

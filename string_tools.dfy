/** The operation-name and file-name utilities of `no.hvl.dowhile.utility.StringTools`
    (the current version, under src/main/java). */
module StringTools {
  import opened JavaLang

  // ---------------------------------------------------------------------------
  // purifyString

  /** A character `purifyString` keeps: alphabetic, a digit or a space. */
  predicate IsPureChar(cc: CharClasses, c: char) {
    cc.isAlphabetic(c) || cc.isDigit(c) || c == ' '
  }

  ghost predicate AllPure(cc: CharClasses, s: string) {
    forall i :: 0 <= i < |s| ==> IsPureChar(cc, s[i])
  }

  /** The kept characters of `s`, in their original order. */
  function Purified(cc: CharClasses, s: string): string {
    if s == [] then []
    else (if IsPureChar(cc, s[0]) then [s[0]] else []) + Purified(cc, s[1..])
  }

  /** `r` is obtained from `s` by deleting zero or more characters. */
  ghost predicate IsSubsequence(r: string, s: string)
    decreases |s|
  {
    || r == []
    || (s != [] && ((r[0] == s[0] && IsSubsequence(r[1..], s[1..])) || IsSubsequence(r, s[1..])))
  }

  /** Removes every character that is not alphabetic, a digit or a space. */
  method PurifyString(cc: CharClasses, s: string) returns (r: string)
    ensures r == Purified(cc, s)
  {
    r := [];
    for i := 0 to |s|
      invariant r == Purified(cc, s[..i])
    {
      assert s[..i + 1] == s[..i] + [s[i]];
      PurifiedAppend(cc, s[..i], [s[i]]);
      if cc.isAlphabetic(s[i]) || cc.isDigit(s[i]) || s[i] == ' ' {
        r := r + [s[i]];
      }
    }
    assert s[..|s|] == s;
  }

  /** Purifying a concatenation purifies each part. */
  lemma {:induction false} PurifiedAppend(cc: CharClasses, a: string, b: string)
    ensures Purified(cc, a + b) == Purified(cc, a) + Purified(cc, b)
    decreases |a|
  {
    if a == [] {
      assert a + b == b;
    } else {
      assert (a + b)[0] == a[0] && (a + b)[1..] == a[1..] + b;
      PurifiedAppend(cc, a[1..], b);
    }
  }

  /** Only alphabetic characters, digits and spaces survive. */
  lemma {:induction false} PurifiedIsPure(cc: CharClasses, s: string)
    ensures AllPure(cc, Purified(cc, s))
    decreases |s|
  {
    if s != [] {
      PurifiedIsPure(cc, s[1..]);
    }
  }

  /** The result is the input with some characters deleted, order kept. */
  lemma {:induction false} PurifiedIsSubsequence(cc: CharClasses, s: string)
    ensures IsSubsequence(Purified(cc, s), s)
    decreases |s|
  {
    if s != [] {
      PurifiedIsSubsequence(cc, s[1..]);
      var r := Purified(cc, s);
      if IsPureChar(cc, s[0]) {
        assert r[0] == s[0] && r[1..] == Purified(cc, s[1..]);
      } else {
        assert r == Purified(cc, s[1..]);
      }
    }
  }

  /** Every occurrence of a kept character survives, and no other character does. */
  lemma {:induction false} PurifiedCounts(cc: CharClasses, s: string)
    ensures forall c :: multiset(Purified(cc, s))[c] == if IsPureChar(cc, c) then multiset(s)[c] else 0
    decreases |s|
  {
    if s != [] {
      PurifiedCounts(cc, s[1..]);
      assert s == [s[0]] + s[1..];
      assert multiset(s) == multiset{s[0]} + multiset(s[1..]);
    }
  }

  /** A character beyond U+FFFF never survives: Java sees two surrogates,
      neither alphabetic, a digit nor a space. */
  lemma PurifiedDropsSupplementary(cc: CharClasses, s: string, c: char)
    requires WellFormed(cc) && IsSupplementary(c)
    ensures c !in Purified(cc, s)
  {
    PurifiedCounts(cc, s);
    assert multiset(Purified(cc, s))[c] == 0;
  }

  lemma {:induction false} SubsequenceNoLonger(r: string, s: string)
    requires IsSubsequence(r, s)
    ensures |r| <= |s|
    decreases |s|
  {
    if r != [] {
      if r[0] == s[0] && IsSubsequence(r[1..], s[1..]) {
        SubsequenceNoLonger(r[1..], s[1..]);
      } else {
        SubsequenceNoLonger(r, s[1..]);
      }
    }
  }

  /** Purifying never lengthens a string. */
  lemma PurifiedLength(cc: CharClasses, s: string)
    ensures |Purified(cc, s)| <= |s|
  {
    PurifiedIsSubsequence(cc, s);
    SubsequenceNoLonger(Purified(cc, s), s);
  }

  lemma {:induction false} SubsequenceCounts(r: string, s: string)
    requires IsSubsequence(r, s)
    ensures multiset(r) <= multiset(s)
    decreases |s|
  {
    if r != [] {
      assert s == [s[0]] + s[1..];
      if r[0] == s[0] && IsSubsequence(r[1..], s[1..]) {
        SubsequenceCounts(r[1..], s[1..]);
        assert r == [r[0]] + r[1..];
      } else {
        SubsequenceCounts(r, s[1..]);
      }
    }
  }

  /** Every kept character of `s` occurs in `r` as often as in `s`. */
  ghost predicate KeepsAllPure(cc: CharClasses, r: string, s: string) {
    forall c :: IsPureChar(cc, c) ==> multiset(r)[c] == multiset(s)[c]
  }

  /** Only one string is a subsequence of `s`, made of kept characters, that
      keeps every kept character of `s`. */
  lemma {:induction false} PurifiedUnique(cc: CharClasses, s: string, r: string)
    requires IsSubsequence(r, s) && AllPure(cc, r) && KeepsAllPure(cc, r, s)
    ensures r == Purified(cc, s)
    decreases |s|
  {
    if s == [] {
      assert r == [];
    } else {
      assert s == [s[0]] + s[1..];
      assert multiset(s) == multiset{s[0]} + multiset(s[1..]);
      if r == [] {
        assert !IsPureChar(cc, s[0]);
        PurifiedUnique(cc, s[1..], r);
      } else {
        assert r == [r[0]] + r[1..];
        assert multiset(r) == multiset{r[0]} + multiset(r[1..]);
        if r[0] == s[0] && IsSubsequence(r[1..], s[1..]) {
          assert IsPureChar(cc, r[0]);
          PurifiedUnique(cc, s[1..], r[1..]);
        } else {
          assert IsSubsequence(r, s[1..]);
          SubsequenceCounts(r, s[1..]);
          assert !IsPureChar(cc, s[0]);
          PurifiedUnique(cc, s[1..], r);
        }
      }
    }
  }

  /** `purifyString`'s result is exactly the in-order subsequence of the
      alphabetic characters, digits and spaces of its input. */
  lemma PurifiedCharacterized(cc: CharClasses, s: string, r: string)
    ensures r == Purified(cc, s) <==> IsSubsequence(r, s) && AllPure(cc, r) && KeepsAllPure(cc, r, s)
  {
    PurifiedIsSubsequence(cc, s);
    PurifiedIsPure(cc, s);
    PurifiedCounts(cc, s);
    if IsSubsequence(r, s) && AllPure(cc, r) && KeepsAllPure(cc, r, s) {
      PurifiedUnique(cc, s, r);
    }
  }

  /** A string is left unchanged exactly when all its characters are kept. */
  lemma {:induction false} PurifiedUnchangedIff(cc: CharClasses, s: string)
    ensures Purified(cc, s) == s <==> AllPure(cc, s)
    decreases |s|
  {
    if s != [] {
      PurifiedUnchangedIff(cc, s[1..]);
      PurifiedLength(cc, s[1..]);
      if !IsPureChar(cc, s[0]) {
        assert |Purified(cc, s)| < |s|;
      } else if Purified(cc, s) == s {
        assert Purified(cc, s[1..]) == s[1..];
      }
    }
  }

  /** Purifying twice is the same as purifying once. */
  lemma PurifiedIdempotent(cc: CharClasses, s: string)
    ensures Purified(cc, Purified(cc, s)) == Purified(cc, s)
  {
    PurifiedIsPure(cc, s);
    PurifiedUnchangedIff(cc, Purified(cc, s));
  }

  // ---------------------------------------------------------------------------
  // isValidOperationName

  /** A character allowed in an operation name: a letter, a digit or a space. */
  predicate IsNameChar(cc: CharClasses, c: char) {
    cc.isLetter(c) || cc.isDigit(c) || c == ' '
  }

  /** Non-null, non-empty, and made of letters, digits and spaces only. */
  ghost predicate IsValidName(cc: CharClasses, name: JString) {
    && name.Ref?
    && name.value != []
    && forall i :: 0 <= i < |name.value| ==> IsNameChar(cc, name.value[i])
  }

  /** Checks that a name contains only letters, digits and spaces; the first
      other character ends the scan. */
  method IsValidOperationName(cc: CharClasses, operationName: JString) returns (valid: bool)
    ensures operationName.Null? || operationName.value == [] ==> !valid
    ensures valid <==> IsValidName(cc, operationName)
  {
    if operationName.Null? || operationName.value == [] {
      return false;
    }
    var s := operationName.value;
    for i := 0 to |s|
      invariant forall j :: 0 <= j < i ==> IsNameChar(cc, s[j])
    {
      var c := s[i];
      if !cc.isLetter(c) && !cc.isDigit(c) && !(c == ' ') {
        return false;
      }
    }
    return true;
  }

  /** A name containing an ASCII character other than a letter, a digit or a
      space (a hyphen, a full stop, ...) is rejected. */
  lemma RejectsAsciiPunctuation(cc: CharClasses, s: string, k: nat)
    requires WellFormed(cc)
    requires k < |s| && IsAscii(s[k]) && !IsAsciiLetter(s[k]) && !IsAsciiDigit(s[k]) && s[k] != ' '
    ensures !IsValidName(cc, Ref(s))
  {
    assert !IsNameChar(cc, s[k]);
  }

  /** A character outside the Basic Multilingual Plane is, in Java, a pair of
      surrogate code units, neither of which is a letter or a digit: a name
      containing one is rejected. */
  lemma RejectsSupplementary(cc: CharClasses, s: string, k: nat)
    requires WellFormed(cc)
    requires k < |s| && IsSupplementary(s[k])
    ensures !IsValidName(cc, Ref(s))
  {
    assert !IsNameChar(cc, s[k]);
  }

  /** The name entered in the user-interface test for invalid characters. */
  lemma RejectsTestWrong(cc: CharClasses)
    requires WellFormed(cc)
    ensures !IsValidName(cc, Ref("TestWrong-.-"))
  {
    RejectsAsciiPunctuation(cc, "TestWrong-.-", 9);
  }

  /** A valid operation name is already pure: `purifyString` leaves it as it is.
      (Every letter is alphabetic.) */
  lemma ValidNameIsPure(cc: CharClasses, s: string)
    requires WellFormed(cc)
    requires IsValidName(cc, Ref(s))
    ensures Purified(cc, s) == s
  {
    assert AllPure(cc, s) by {
      forall i | 0 <= i < |s| ensures IsPureChar(cc, s[i]) {
        assert IsNameChar(cc, s[i]);
      }
    }
    PurifiedUnchangedIff(cc, s);
  }

  // ---------------------------------------------------------------------------
  // operationNameLengthIsValid

  const MinOperationNameLength := 2
  const MaxOperationNameLength := 50

  /** An operation name must have between 2 and 50 characters, both included. */
  function OperationNameLengthIsValid(operationName: string): (ok: bool)
    ensures ok <==> 2 <= |operationName| <= 50
  {
    |operationName| >= MinOperationNameLength && |operationName| <= MaxOperationNameLength
  }

  /** The full operation-name rule is the conjunction of the two checks: a
      name of 2 to 50 characters made of letters, digits and spaces only. */
  lemma OperationNameRule(cc: CharClasses, s: string)
    ensures IsValidName(cc, Ref(s)) && OperationNameLengthIsValid(s)
        <==> 2 <= |s| <= 50 && forall i :: 0 <= i < |s| ==> IsNameChar(cc, s[i])
  {
  }

  // ---------------------------------------------------------------------------
  // renameRawWaypointName

  /** `new StringBuilder(s).insert(offset, t).toString()`. */
  function Insert(s: string, offset: nat, t: string): (r: string)
    requires offset <= |s|
    ensures |r| == |s| + |t|
    ensures r[..offset] == s[..offset]
    ensures r[offset..offset + |t|] == t
    ensures r[offset + |t|..] == s[offset..]
  {
    s[..offset] + t + s[offset..]
  }

  /** Injects `"_" + index` just before the last four characters of `name`
      (the extension of a name such as "track.gpx"). */
  function RenameRawWaypointName(name: string, index: Int32): (r: string)
    requires |name| >= 4
    ensures |r| == |name| + 1 + |Decimal(index)|
    ensures r[..|name| - 4] == name[..|name| - 4]
    ensures r[|name| - 4] == '_'
    ensures r[|name| - 3..|r| - 4] == Decimal(index)
    ensures r[|r| - 4..] == name[|name| - 4..]
  {
    Insert(name, |name| - 4, "_" + Decimal(index))
  }

  /** Both the original name and the index can be read back from the new name. */
  lemma RenameRoundTrip(name: string, index: Int32)
    requires |name| >= 4
    ensures var r := RenameRawWaypointName(name, index);
      && r[..|name| - 4] + r[|r| - 4..] == name
      && ParseDecimal(r[|name| - 3..|r| - 4]) == Some(index as int)
  {
    DecimalRoundTrip(index);
  }

  /** Different indices give different names. */
  lemma RenameInjective(name: string, i: Int32, j: Int32)
    requires |name| >= 4
    requires RenameRawWaypointName(name, i) == RenameRawWaypointName(name, j)
    ensures i == j
  {
    RenameRoundTrip(name, i);
    RenameRoundTrip(name, j);
  }

  lemma RenameTrackExample()
    ensures RenameRawWaypointName("track.gpx", 3) == "track_3.gpx"
  {
    assert Decimal(3) == "3";
  }
}

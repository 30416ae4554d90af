# track-purifier: string utilities and track data holders

This project models the self-contained logic of track-purifier, a tool that organizes GPS track recordings by search-and-rescue operation. That logic is:

- the operation-name and file-name utilities of `StringTools`, in its current version:
  - `purifyString` removes every character that is not alphabetic, a digit or a space.
  - `isValidOperationName` accepts non-null, non-empty names made of letters, digits and spaces.
  - `operationNameLengthIsValid` accepts names of 2 to 50 characters.
  - `renameRawWaypointName` inserts `"_" + index` before the last four characters of a file name, so `track.gpx` becomes `track_3.gpx`.
- the legacy `isValidOperationName`, which accepts letters and digits only and scans the whole name with a flag.
- `TrackInfo`, the crew and search-area annotation for a track, with a default constructor, a full constructor, four getters and four setters.
- `GpxFile`, which binds an imported file to its original name, its hash and its parsed track. Only the parsed track can be replaced.

Files:

- `java_lang.dfy` (module `JavaLang`) holds the Java platform pieces these classes use:
  - `Int32` for Java's `int`.
  - `Nullable` for references that may be `null`; `JString` is a nullable `String`.
  - `CharClasses` for `Character.isLetter`, `isAlphabetic` and `isDigit`. These are kept abstract: every operation takes them as a parameter. `WellFormed` states what Java guarantees about them: every letter is alphabetic; on ASCII they are exactly A-Z/a-z and 0-9; and a character beyond U+FFFF, which Java sees as two surrogate code units, is none of the three. `Ascii` is one instance that meets `WellFormed`.
  - `Decimal` for `Integer.toString`, and `ParseDecimal`, its inverse.
- `string_tools.dfy` (module `StringTools`) holds the current utilities.
- `legacy_string_tools.dfy` (module `LegacyStringTools`) holds the legacy validator and how it compares with the current one.
- `core.dfy` (module `Core`) holds the classes `TrackInfo` and `GpxFile`. `File` and `Gpx` are opaque types.

The two validators are methods with loops, as in the source. Each is proved equal to a predicate: `IsValidName` for the current one and `IsValidLegacyName` for the legacy one.

`PurifyString` is a method whose loop builds the result one character at a time. It is proved equal to the function `Purified`, and the lemmas state what `Purified` guarantees.

`isValidOperationName` does not check the length. A name meets the full operation-name rule only if both `isValidOperationName` and `operationNameLengthIsValid` accept it. The model keeps the two checks separate, as the code does.

## Model

| member | source | states |
|---|---|---|
| `StringTools.PurifyString` | src/main/java/no/hvl/dowhile/utility/StringTools.java:18-26 | the string built by appending each kept character in order equals `Purified(s)` |
| `StringTools.PurifiedIsPure` | src/main/java/no/hvl/dowhile/utility/StringTools.java:18-26 | every character of the result is alphabetic, a digit or a space |
| `StringTools.PurifiedIsSubsequence` | src/main/java/no/hvl/dowhile/utility/StringTools.java:20-24 | the result is the input with some characters deleted, in the original order |
| `StringTools.PurifiedCounts` | src/main/java/no/hvl/dowhile/utility/StringTools.java:20-24 | each alphabetic character, digit or space occurs in the result as often as in the input; every other character occurs zero times |
| `StringTools.PurifiedCharacterized` | src/main/java/no/hvl/dowhile/utility/StringTools.java:20-24 | a string is the result if and only if it is a subsequence of the input, holds only kept characters and keeps every kept character of the input |
| `StringTools.PurifiedAppend` | src/main/java/no/hvl/dowhile/utility/StringTools.java:20-24 | purifying a concatenation gives the concatenation of the purified parts (the loop's step) |
| `StringTools.PurifiedDropsSupplementary` | src/main/java/no/hvl/dowhile/utility/StringTools.java:20-24 | a character beyond U+FFFF never appears in the result, as Java drops both of its surrogate code units |
| `StringTools.PurifiedLength` | src/main/java/no/hvl/dowhile/utility/StringTools.java:20-24 | the result is never longer than the input |
| `StringTools.PurifiedUnchangedIff` | src/main/java/no/hvl/dowhile/utility/StringTools.java:20-25 | purifying leaves a string unchanged exactly when all its characters are alphabetic, digits or spaces |
| `StringTools.PurifiedIdempotent` | src/main/java/no/hvl/dowhile/utility/StringTools.java:20-25 | purifying the result again returns it unchanged |
| `StringTools.IsValidOperationName` | src/main/java/no/hvl/dowhile/utility/StringTools.java:74-84 | false for null or empty; otherwise true exactly when every character is a letter, a digit or a space |
| `StringTools.RejectsAsciiPunctuation` | src/main/java/no/hvl/dowhile/utility/StringTools.java:78-83 | a name containing an ASCII character other than a letter, a digit or a space is rejected |
| `StringTools.RejectsSupplementary` | src/main/java/no/hvl/dowhile/utility/StringTools.java:78-83 | a name containing a character beyond U+FFFF is rejected, as Java rejects its surrogate code units |
| `StringTools.RejectsTestWrong` | src/test/java/OperationPanelTest.java:38-44 | "TestWrong-.-" is rejected as an operation name |
| `StringTools.ValidNameIsPure` | src/main/java/no/hvl/dowhile/utility/StringTools.java:74-84 | `purifyString` leaves a name the validator accepts unchanged, because every letter is alphabetic |
| `StringTools.OperationNameLengthIsValid` | src/main/java/no/hvl/dowhile/utility/StringTools.java:92-94 | true exactly when the name has between 2 and 50 characters, both included |
| `StringTools.OperationNameRule` | src/main/java/no/hvl/dowhile/utility/StringTools.java:74-94 | a name passes both `isValidOperationName` and `operationNameLengthIsValid` exactly when it has 2 to 50 characters, all letters, digits or spaces |
| `StringTools.Insert` | src/main/java/no/hvl/dowhile/utility/StringTools.java:114 | `StringBuilder.insert` keeps the text before the offset, places the inserted text at the offset and shifts the remainder after it |
| `StringTools.RenameRawWaypointName` | src/main/java/no/hvl/dowhile/utility/StringTools.java:113-115 | the result's length is the name's length plus one plus the index's digit count; the result keeps the name's prefix, has `_` and the decimal index where the last four characters began, and ends with the name's last four characters |
| `StringTools.RenameRoundTrip` | src/main/java/no/hvl/dowhile/utility/StringTools.java:113-115 | deleting the inserted part gives back the original name, and the index is read back from the inserted digits |
| `StringTools.RenameInjective` | src/main/java/no/hvl/dowhile/utility/StringTools.java:113-115 | two different indices never give the same new name |
| `StringTools.RenameTrackExample` | src/main/java/no/hvl/dowhile/utility/StringTools.java:106-115 | ("track.gpx", 3) gives "track_3.gpx" |
| `JavaLang.NatDecimal` | src/main/java/no/hvl/dowhile/utility/StringTools.java:114 | the decimal form of a natural number is non-empty, made of ASCII digits and has no leading zero |
| `JavaLang.Decimal` | src/main/java/no/hvl/dowhile/utility/StringTools.java:114 | the text of `"" + index` is non-empty and starts with `-` exactly when the index is negative |
| `JavaLang.DecimalRoundTrip` | src/main/java/no/hvl/dowhile/utility/StringTools.java:114 | parsing the decimal form of any `int` gives the `int` back |
| `JavaLang.DecimalInjective` | src/main/java/no/hvl/dowhile/utility/StringTools.java:114 | different `int`s have different decimal forms |
| `JavaLang.DecimalLength` | src/main/java/no/hvl/dowhile/utility/StringTools.java:114 | the decimal form of an `int` has 1 to 11 characters |
| `JavaLang.AsciiWellFormed` | src/main/java/no/hvl/dowhile/utility/StringTools.java:21 | the ASCII classifiers meet everything the model assumes of Java's character tables |
| `LegacyStringTools.IsValidOperationName` | src/no/hvl/dowhile/utility/StringTools.java:35-48 | false for null or empty; otherwise, after scanning every character, true exactly when every character is a letter or a digit; once cleared, the flag stays cleared |
| `LegacyStringTools.LegacyAcceptedByCurrent` | src/no/hvl/dowhile/utility/StringTools.java:41-47 | every name the legacy validator accepts, the current one accepts too |
| `LegacyStringTools.LegacyRejectsSpace` | src/no/hvl/dowhile/utility/StringTools.java:41-47 | any name containing a space is rejected by the legacy validator |
| `LegacyStringTools.CurrentAcceptsMore` | src/no/hvl/dowhile/utility/StringTools.java:41-47 | "a b" is accepted by the current validator and rejected by the legacy one |
| `LegacyStringTools.LegacyRejectsTestWrong` | src/no/hvl/dowhile/utility/StringTools.java:42 | "TestWrong-.-" is rejected by the legacy validator |
| `Core.TrackInfo.constructor` | src/no/hvl/dowhile/core/TrackInfo.java:15-20 | crew type and searched area start as "", crew count and crew number as 0 |
| `Core.TrackInfo.WithInfo` | src/no/hvl/dowhile/core/TrackInfo.java:30-35 | each argument is stored unchanged, without validation, in its field of the same name |
| `Core.TrackInfo.GetCrewType` | src/no/hvl/dowhile/core/TrackInfo.java:42-44 | returns the crew type and changes nothing |
| `Core.TrackInfo.SetCrewType` | src/no/hvl/dowhile/core/TrackInfo.java:51-53 | the crew type becomes the argument; the other three fields are unchanged |
| `Core.TrackInfo.GetCrewCount` | src/no/hvl/dowhile/core/TrackInfo.java:59-61 | returns the crew count and changes nothing |
| `Core.TrackInfo.SetCrewCount` | src/no/hvl/dowhile/core/TrackInfo.java:67-69 | the crew count becomes the argument; the other three fields are unchanged |
| `Core.TrackInfo.GetCrewNumber` | src/no/hvl/dowhile/core/TrackInfo.java:75-77 | returns the crew number and changes nothing |
| `Core.TrackInfo.SetCrewNumber` | src/no/hvl/dowhile/core/TrackInfo.java:83-85 | the crew number becomes the argument; the other three fields are unchanged |
| `Core.TrackInfo.GetAreaSearched` | src/no/hvl/dowhile/core/TrackInfo.java:91-93 | returns the searched area and changes nothing |
| `Core.TrackInfo.SetAreaSearched` | src/no/hvl/dowhile/core/TrackInfo.java:99-101 | the searched area becomes the argument; the other three fields are unchanged |
| `Core.GpxFile.constructor` | src/main/java/no/hvl/dowhile/core/GpxFile.java:24-29 | the file, raw file name, hash and parsed track are the four arguments; the first three are constants and never change afterwards |
| `Core.GpxFile.GetFile` | src/main/java/no/hvl/dowhile/core/GpxFile.java:36-38 | returns the file given to the constructor |
| `Core.GpxFile.GetRawFileName` | src/main/java/no/hvl/dowhile/core/GpxFile.java:45-47 | returns the raw file name given to the constructor |
| `Core.GpxFile.GetRawfileHash` | src/main/java/no/hvl/dowhile/core/GpxFile.java:54-56 | returns the hash given to the constructor |
| `Core.GpxFile.GetGpx` | src/main/java/no/hvl/dowhile/core/GpxFile.java:63-65 | returns the current parsed track |
| `Core.GpxFile.SetGpx` | src/main/java/no/hvl/dowhile/core/GpxFile.java:72-74 | the parsed track becomes the argument; the method may change that field only, so the file, name and hash stay as constructed |

## Left out

- StringTools.PurifyString: takes a non-null string. On `null` the Java method throws a `NullPointerException`, which is not modelled.
- StringTools.OperationNameLengthIsValid: takes a non-null string. On `null` the Java method throws a `NullPointerException`, which is not modelled.
- StringTools.RenameRawWaypointName: requires a non-null name of at least four characters. On a shorter name Java's `StringBuilder.insert` throws `StringIndexOutOfBoundsException`, and on `null` the constructor throws `NullPointerException`. The model treats both as precondition violations, not as error results.
- Java's Unicode tables for `isLetter`, `isAlphabetic` and `isDigit` are not encoded. The model relies only on `WellFormed`: every letter is alphabetic, and the ASCII range is classified as Java classifies it.
- A Java `char` is a UTF-16 code unit, and a Dafny `char` is a Unicode scalar value. A character beyond U+FFFF is one Dafny `char` but two Java `char`s (a surrogate pair), and an unpaired surrogate cannot be written in Dafny at all. `WellFormed` makes such a character none of letter, alphabetic or digit, as both of its surrogates are in Java, so `purifyString` and both validators agree with Java on it. Lengths and offsets are counted in characters, not UTF-16 units:
- StringTools.OperationNameLengthIsValid: counts a character beyond U+FFFF once where Java counts it twice, so on such text it can accept a name Java finds too long (26 emoji: 26 here, 52 in Java).
- StringTools.RenameRawWaypointName: takes "the last four characters" in characters, not UTF-16 units, so on a name whose last four UTF-16 units include a surrogate pair it inserts at a different offset than Java ("abc😀" gives "_3abc😀" here, "a_3bc😀" in Java), and it excludes names such as "a😀b" that are four units but three characters long.
- `formatDate`, `formatDateForFile`, `formatDateForOrganizing` and `formatDateForFileProcessing` (both versions of `StringTools`) are left out. They delegate to `java.text.SimpleDateFormat`, whose output depends on the default time zone and locale.
- `startTimeAndEndTimeToString` is left out. It depends on `Messages` and `TrackTools`, and neither is part of this model.
- The Swing panels (`OperationPanel`, `Window`) are left out. They are layout and event wiring.
- Operation folders, descriptor files, content-based import deduplication and the processing queue are left out. Their classes (`FileManager`, `OperationManager`, `TrackTools`, the GPX parser) are not part of this model, and they are built on disk I/O.
- The contents of `java.io.File` and of the parsed GPX document are left out. Both are opaque types, compared only for identity.

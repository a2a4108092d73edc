# jigsaw-cli option engine, modelled in Dafny

jigsaw-cli binds command-line options and positional parameters to the
fields of a user class. Declarations on the class (`@Params`) and on its
fields (`@ShortName`, `@LongName`, `@Args`, `@Required`, `@Param`,
`@Description`) describe the options. The library then:

- reads them into an option catalogue (`OptionMap`);
- checks the catalogue's consistency (`sanityChecks`);
- matches an argument vector against it (`CliArgsParser`), converting each
  option's tokens to a typed value (`EFieldType`);
- prints a usage summary (`OptionUsagePrinter`).

This project models that engine and proves what it promises. Every module
lives in its own file:

| file | module | models |
|---|---|---|
| results.dfy | `Results` | `Option`, `Result`, `Outcome`; the error kinds (definition, usage with its reason, illegal argument, index out of bounds) |
| decimal.dfy | `Decimal` | ASCII character classes, `Integer.parseInt`/`Long.parseLong`, `Integer.toString`, 32-bit wrap-around |
| multiplicity.dfy | `Multiplicities` | `Multiplicity`: its constructors, the `"min..max"` parser (with Java's `String.split` semantics), `equals`/`hashCode`, `toString`, `toHumanReadableString` |
| field_types.dfy | `FieldTypes` | the `EFieldType` table, `forClass`, `computeValue`, the value converters, and the boolean spellings as a `BooleanConstants` object |
| registry.dfy | `Registries` | the catalogue as a value: every setter, getter and lookup, `fieldToString` and `sanityChecks` |
| option_map.dfy | `OptionMaps` | class `OptionMap`: its setters update fields in place and are proved equal to the `Registries` functions |
| annotations.dfy | `Annotations` | `EFieldAnnotation` and `EClassAnnotation`: kinds, `forClass`, `hasForClass`, `apply` (on values and on an `OptionMap`) |
| class_parser.dfy | `ClassParsing` | `ClassParser`: a fold of the declarations over a fresh catalogue, then `sanityChecks` |
| matching.dfy | `Matching` | the matcher of `CliArgsParser` as functions over a state (target values, positional list, seen fields) |
| args_parser.dfy | `ArgsParsing` | class `CliArgsParser`: its loops update the parser's fields and the target, and are proved equal to `Matching` |
| usage_printer.dfy | `UsagePrinting` | `OptionUsagePrinter`: the sort, the word matrix, the three layouts; its loops are proved equal to the text functions |

Reflection is replaced by declarations given as data. A field is an opaque
`FieldRef` with its declared Java type and its list of declarations; the
target object is a map from `FieldRef` to a `Value`. The `PrintWriter` is
replaced by the string it would receive. The positional list that
`getParameters` returns (`CliArgsParser.GetParameters`) is the parser's
`parameters` field, whose final value the contract of
`ArgsParsing.CliArgsParser.Parse` states.

The shown `OptionMap.java`, `ClassParser.java` and `Multiplicity.java` are an
older revision than the API that `CliArgsParser.java` calls and the tests
exercise. Where the two differ, the model follows the newer API: short names
are strings, validated by the same rule as long names; a field takes at most
one short and one long name; fields carry descriptions; the catalogue has
`hasShortName`, `getFieldByShortName` and `getFieldByLongName`; there is a
short-name merging flag, and `sanityChecks` refuses unnamed descriptions and,
when merging is on, ambiguous short names; `Multiplicity` has
`toHumanReadableString`. Rows for these rules cite the tests or the calls
that rely on them.

## Model

Source paths are relative to the repository root.

| member | source | states |
|---|---|---|
| Decimal.Add32 | src/main/java/fr.cril.cli/fr/cril/cli/utils/OptionMap.java:311-319 | `paramIndex + 1` in Java `int` arithmetic: the mathematical sum when it fits, the sum minus 2^32 above the range and the sum plus 2^32 below it |
| Decimal.LowerCase | src/main/java/fr.cril.cli/fr/cril/cli/utils/OptionUsagePrinter.java:60-67 | `toLowerCase` keeps the length and lowers each character (ASCII) |
| Decimal.ParseInt32Spec | src/main/java/fr.cril.cli/fr/cril/cli/utils/EFieldType.java:152-160 | `Integer.parseInt`: succeeds exactly on a decimal text with an optional '+' or '-' (leading zeros allowed) whose value lies in the 32-bit range, and gives that value |
| Decimal.ParseInt64Spec | src/main/java/fr.cril.cli/fr/cril/cli/utils/EFieldType.java:162-170 | `Long.parseLong`: succeeds exactly on an optionally signed decimal text whose value lies in the 64-bit range, and gives that value |
| Decimal.IntToStringRoundTrip | src/main/java/fr.cril.cli/fr/cril/cli/utils/Multiplicity.java:136-138 | reading back `Integer.toString(n)` gives `n` in any range holding `n` |
| Decimal.LenientTexts | src/main/java/fr.cril.cli/fr/cril/cli/utils/EFieldType.java:152-170 | `parseInt` and `parseLong` read "+7" and "007" as 7 and "-0" as 0 |
| Decimal.ParseSignedRange | src/main/java/fr.cril.cli/fr/cril/cli/utils/EFieldType.java:152-170 | the int and long readings agree: a text read in one range is read in another exactly when its value lies in both |
| Multiplicities.Of | src/main/java/fr.cril.cli/fr/cril/cli/utils/Multiplicity.java:51-55 | `(min, max)` is accepted exactly when `max >= min` and `max >= 0`; otherwise an illegal argument |
| Multiplicities.Exactly | src/main/java/fr.cril.cli/fr/cril/cli/utils/Multiplicity.java:87-89 | `Multiplicity(n)` is `Multiplicity(n, n)`; it is accepted exactly when `n >= 0` |
| Multiplicities.Parse | src/main/java/fr.cril.cli/fr/cril/cli/utils/Multiplicity.java:71-80 | a parsed pattern has at least two `..`-pieces and its minimum is the first piece read as an int; every refusal is an illegal argument |
| Multiplicities.ToString | src/main/java/fr.cril.cli/fr/cril/cli/utils/Multiplicity.java:136-138 | `toString` is the pattern between `[` and `]` |
| Multiplicities.Wrap32 | src/main/java/fr.cril.cli/fr/cril/cli/utils/Multiplicity.java:116-118 | `hashCode` arithmetic wraps: the result equals its input modulo 2^32 |
| Multiplicities.PatternRoundTrip | src/test/java/fr.cril.cli/fr/cril/cli/utils/MultiplicityTest.java:74-81 | parsing the pattern, or `toString` with its brackets stripped, gives back an equal multiplicity |
| Multiplicities.StarIffMaxValue | src/main/java/fr.cril.cli/fr/cril/cli/utils/Multiplicity.java:136-138 | `toString` holds `*` exactly when the maximum is `Integer.MAX_VALUE` |
| Multiplicities.StarIsMaxValue | src/main/java/fr.cril.cli/fr/cril/cli/utils/Multiplicity.java:71-80 | `"x..*"` reads as `(x, Integer.MAX_VALUE)` |
| Multiplicities.EqualsIsValueEquality | src/main/java/fr.cril.cli/fr/cril/cli/utils/Multiplicity.java:116-133 | `Multiplicities.Equals` holds exactly for equal `(min, max)`, and equal values have equal `Multiplicities.HashCode` |
| Multiplicities.ParseTwo | src/main/java/fr.cril.cli/fr/cril/cli/utils/Multiplicity.java:71-80 | `"a..b"` with two int bounds is `Multiplicity(a, b)`, with its bound checks |
| Multiplicities.ParseTwoBad | src/main/java/fr.cril.cli/fr/cril/cli/utils/Multiplicity.java:71-80 | `"a..b"` is refused when either bound is not an int |
| Multiplicities.ParseOnePiece | src/main/java/fr.cril.cli/fr/cril/cli/utils/Multiplicity.java:71-80 | a text without `..` is refused |
| Multiplicities.ParseIgnoresThirdPiece | src/main/java/fr.cril.cli/fr/cril/cli/utils/Multiplicity.java:71-80 | only the first two pieces are read: `"0..1..junk"` is `[0..1]` |
| Multiplicities.ParseAcceptsSigns | src/main/java/fr.cril.cli/fr/cril/cli/utils/Multiplicity.java:71-80 | signed bounds read as `Integer.parseInt` reads them: `"-1..0"` and `"+1..2"` |
| Multiplicities.ParseRejectsOnePiece | src/test/java/fr.cril.cli/fr/cril/cli/utils/MultiplicityTest.java:61-66 | `""`, `"0"`, `"0."`, `"1."`, `"0.1"`, `"0. .1"` and `"0.."` are refused |
| Multiplicities.ParseRejectsBadBounds | src/test/java/fr.cril.cli/fr/cril/cli/utils/MultiplicityTest.java:61-66 | the inverted `"1..0"` and the negative-maximum `"-2..-1"` are refused |
| Multiplicities.ParseRejectsLetters | src/test/java/fr.cril.cli/fr/cril/cli/utils/MultiplicityTest.java:61-66 | `"..1"`, `"0..a"` and `"a..1"` are refused |
| Multiplicities.ParseRejectsOuterBlanks | src/test/java/fr.cril.cli/fr/cril/cli/utils/MultiplicityTest.java:61-66 | blanks before or after the pattern are refused |
| Multiplicities.ParseRejectsInnerBlanks | src/test/java/fr.cril.cli/fr/cril/cli/utils/MultiplicityTest.java:61-66 | blanks around `..` are refused |
| Multiplicities.HumanReadableExamples | src/test/java/fr.cril.cli/fr/cril/cli/utils/MultiplicityTest.java:83-93 | `Multiplicities.ToHumanReadable` gives `exactly 2`, `between 1 and 3`, `at most 2`, `at least 1` and `any` for the five tested intervals |
| Multiplicities.HumanReadableInjective | src/test/java/fr.cril.cli/fr/cril/cli/utils/MultiplicityTest.java:83-93 | distinct multiplicities have distinct `Multiplicities.ToHumanReadable` texts |
| Multiplicities.HumanKindPrefix | src/test/java/fr.cril.cli/fr/cril/cli/utils/MultiplicityTest.java:83-93 | the five cases are checked in order (exactly, any, at least, at most, between), and each text's opening words tell which case applied |
| Multiplicities.BetweenParts | src/test/java/fr.cril.cli/fr/cril/cli/utils/MultiplicityTest.java:83-93 | `between MIN and MAX` names the minimum and then the maximum |
| FieldTypes.FindFrom | src/main/java/fr.cril.cli/fr/cril/cli/utils/EFieldType.java:98-105 | the table search finds an entry of the wanted class and count exactly when one exists from that position on |
| FieldTypes.ForClass | src/main/java/fr.cril.cli/fr/cril/cli/utils/EFieldType.java:98-105 | `forClass` returns an entry of the wanted class and argument count, or an illegal argument |
| FieldTypes.ForClassIff | src/main/java/fr.cril.cli/fr/cril/cli/utils/EFieldType.java:43-67 | `forClass` succeeds exactly on the nine table pairs: Boolean/boolean with 0 or 1 argument; String, Integer, int, Long, long with 1 |
| FieldTypes.TablePairsDistinct | src/main/java/fr.cril.cli/fr/cril/cli/utils/EFieldType.java:43-67 | no two table entries share a class and a count, so `forClass` is unambiguous |
| FieldTypes.CopyOf | src/main/java/fr.cril.cli/fr/cril/cli/utils/EFieldType.java:212-213 | `Arrays.copyOf(a, n)`: length `n`, `a`'s entries first, nulls after |
| FieldTypes.SetLiterals | src/main/java/fr.cril.cli/fr/cril/cli/utils/EFieldType.java:203-214 | accepted exactly when both arrays are present and non-empty, hold no null or empty string, and share no string; the true set is copied with the false set's length |
| FieldTypes.BooleanConstants.constructor | src/main/java/fr.cril.cli/fr/cril/cli/utils/EFieldType.java:75-81 | the spellings start as `{"false"}` and `{"true"}` |
| FieldTypes.BooleanConstants.SetBooleanConstants | src/main/java/fr.cril.cli/fr/cril/cli/utils/EFieldType.java:203-214 | installs `SetLiterals`'s result; on a refusal the spellings stay as they were |
| FieldTypes.BooleanConstants.ResetBooleanConstants | src/main/java/fr.cril.cli/fr/cril/cli/utils/EFieldType.java:221-224 | restores `{"false"}` and `{"true"}` |
| FieldTypes.ComputeValue | src/main/java/fr.cril.cli/fr/cril/cli/utils/EFieldType.java:172-177 | the token list passes through exactly when it is present and its length lies in the expected interval; otherwise an illegal argument |
| FieldTypes.Apply | src/main/java/fr.cril.cli/fr/cril/cli/utils/EFieldType.java:132-177 | a missing list or a wrong count is an illegal argument, any other failure is a usage error; a zero-argument boolean is `true`; a string copies its token |
| FieldTypes.BoolArgReading | src/main/java/fr.cril.cli/fr/cril/cli/utils/EFieldType.java:136-146 | a boolean argument is `false` if its token is a false spelling (checked first), `true` if it is only a true spelling, and otherwise a usage error naming the token |
| FieldTypes.IntReading | src/main/java/fr.cril.cli/fr/cril/cli/utils/EFieldType.java:152-160 | an int converts from its decimal text; a text `parseInt` refuses is a usage error naming it |
| FieldTypes.LongReading | src/main/java/fr.cril.cli/fr/cril/cli/utils/EFieldType.java:162-170 | the same for long within the 64-bit range |
| FieldTypes.IntRangeIsNarrower | src/test/java/fr.cril.cli/fr/cril/cli/utils/EFieldTypeTest.java:186-212 | a long outside the int range is refused as an int and accepted as a long |
| FieldTypes.DefaultReading | src/main/java/fr.cril.cli/fr/cril/cli/utils/EFieldType.java:136-146 | with the default spellings only `"false"` and `"true"` are booleans |
| FieldTypes.SetLiteralsCopiesWithFalseLength | src/main/java/fr.cril.cli/fr/cril/cli/utils/EFieldType.java:212-213 | the true set is truncated or null-padded to the false set's length: `["yes", "ok"]` with one false spelling loses `"ok"` |
| FieldTypes.SetLiteralsRejects | src/test/java/fr.cril.cli/fr/cril/cli/utils/EFieldTypeTest.java:221-268 | absent, empty, null-holding, empty-string-holding and overlapping arrays are refused |
| FieldTypes.CustomLiterals | src/test/java/fr.cril.cli/fr/cril/cli/utils/EFieldTypeTest.java:221-268 | after setting `{"no"}`/`{"yes"}`, `"yes"` reads as true and `"no"` as false |
| Registries.GetFieldByShortName | src/main/java/fr.cril.cli/fr/cril/cli/CliArgsParser.java:129-132 | a short-name lookup succeeds exactly for a bound name and returns its field; an unknown name is a usage error |
| Registries.GetFieldByLongName | src/main/java/fr.cril.cli/fr/cril/cli/CliArgsParser.java:147-151 | the same for long names |
| Registries.NameOf | src/main/java/fr.cril.cli/fr/cril/cli/utils/OptionMap.java:279-294 | a field's name is found exactly when some name is bound to it, and that name maps back to it |
| Registries.NamedFields | src/main/java/fr.cril.cli/fr/cril/cli/utils/OptionUsagePrinter.java:60 | the named fields are exactly those with a short or a long name |
| Registries.FieldToString | src/main/java/fr.cril.cli/fr/cril/cli/utils/OptionMap.java:279-294 | rendering succeeds exactly for a named field; otherwise an illegal argument |
| Registries.ArgNames | src/main/java/fr.cril.cli/fr/cril/cli/utils/OptionUsagePrinter.java:85-88 | one placeholder per argument, `arg0`, `arg1`, … |
| Registries.Padded | src/main/java/fr.cril.cli/fr/cril/cli/utils/OptionMap.java:312-316 | the padding loop: the slot list grows to the wanted length with empty slots and keeps its prefix |
| Registries.GetParamField | src/main/java/fr.cril.cli/fr/cril/cli/utils/OptionMap.java:338-340 | `getParamField(i)` succeeds exactly for `0 <= i < nParams`; otherwise an index error |
| Registries.SanityChecks | src/main/java/fr.cril.cli/fr/cril/cli/utils/OptionMap.java:243-261 | every refusal is a definition error |
| Registries.SetShortNameSpec | src/test/java/fr.cril.cli/fr/cril/cli/utils/OptionMapTest.java:71-96 | `Registries.SetShortName` binds a short name exactly when it is a valid name, not yet bound (`Registries.HasShortName` is false), and the field has none yet; it then maps to the field, other names are unchanged and the field is named |
| Registries.SetLongNameSpec | src/test/java/fr.cril.cli/fr/cril/cli/utils/OptionMapTest.java:97-120 | `Registries.SetLongName`: the same rule and frame for long names |
| Registries.NameRuleExamples | src/test/java/fr.cril.cli/fr/cril/cli/utils/OptionMapTest.java:74-119 | empty, blank, `???`, `-abc` and `abc?` are not names; `a`, `a-b` and `aaa` are |
| Registries.NamesBindOnce | src/test/java/fr.cril.cli/fr/cril/cli/utils/OptionMapTest.java:371-380 | a bound name cannot be bound again, even to another field, and a field cannot take a second name of the same kind |
| Registries.SetMultiplicitySpec | src/main/java/fr.cril.cli/fr/cril/cli/utils/OptionMap.java:172-193 | the argument count defaults to 0; it is set once, to a non-negative value, and no other field changes |
| Registries.SetRequiredSpec | src/main/java/fr.cril.cli/fr/cril/cli/utils/OptionMap.java:206-233 | required defaults to false; it is set once, and the required set (`getRequiredFields`) gains the field even when set to false |
| Registries.SetDescriptionSpec | src/test/java/fr.cril.cli/fr/cril/cli/utils/OptionMapTest.java:336-368 | `Registries.SetDescription`: the description defaults to `""`; it is set once, to a non-empty text, and no other field changes |
| Registries.SetParamSpec | src/main/java/fr.cril.cli/fr/cril/cli/utils/OptionMap.java:311-328 | `Registries.SetParam(f, i)` succeeds exactly for an index in `[0, MAX_VALUE)` whose slot is empty or beyond the list; the list grows to `i+1`, slot `i` holds `f`, other slots are kept; a negative index or `MAX_VALUE` (where `i+1` wraps) is an index error |
| Registries.SetParamMultiplicitySpec | src/main/java/fr.cril.cli/fr/cril/cli/utils/OptionMap.java:352-368 | the parameter multiplicity defaults to exactly 0; it is set once; a malformed pattern is the parser's illegal argument |
| Registries.FieldToStringSpec | src/main/java/fr.cril.cli/fr/cril/cli/utils/OptionMap.java:279-294 | in any valid catalogue, a field renders as `--long (-short)` when it has both names, as `-short` or `--long` when it has only one |
| Registries.SanityRendersRequired | src/main/java/fr.cril.cli/fr/cril/cli/utils/OptionMap.java:243-261 | once the checks pass, every required field has a rendering for the missing-option message |
| Registries.SanityChecksIff | src/main/java/fr.cril.cli/fr/cril/cli/utils/OptionMap.java:243-261 | the checks pass exactly when: every field with a count, required flag or description is named; no parameter slot's field is named; there are no more slots than the maximum; and, with merging, no multi-character short name is made only of one-character short names. The description rule is the tested one of OptionMapTest.java:365-369 and the merge rule that of OptionMapTest.java:572-588 |
| Registries.MergeAmbiguityExamples | src/test/java/fr.cril.cli/fr/cril/cli/utils/OptionMapTest.java:572-587 | `-a`, `-b`, `-ab` is ambiguous; `-a`, `-b`, `-abc` is not |
| Registries.SanityChecksRefusals | src/main/java/fr.cril.cli/fr/cril/cli/utils/OptionMap.java:243-261 | a named parameter field, an unnamed field with a count or required flag, and too many slots are each refused, as these lines check; so is an unnamed field with a description, as OptionMapTest.java:365-369 tests |
| Registries.EmptyIsValid | src/main/java/fr.cril.cli/fr/cril/cli/utils/OptionMap.java:56-70 | a fresh catalogue is consistent, passes the checks, has no named field and no slot, and wants exactly 0 parameters |
| OptionMaps.OptionMap.constructor | src/main/java/fr.cril.cli/fr/cril/cli/utils/OptionMap.java:56-70 | a new map is the empty catalogue |
| OptionMaps.OptionMap.SetShortName | src/test/java/fr.cril.cli/fr/cril/cli/utils/OptionMapTest.java:71-96 | updates the map in place exactly as `Registries.SetShortName`, unchanged on refusal, and keeps the map consistent |
| OptionMaps.OptionMap.SetLongName | src/test/java/fr.cril.cli/fr/cril/cli/utils/OptionMapTest.java:97-120 | in place, as `Registries.SetLongName` |
| OptionMaps.OptionMap.SetMultiplicity | src/main/java/fr.cril.cli/fr/cril/cli/utils/OptionMap.java:172-180 | in place, as `Registries.SetMultiplicity` |
| OptionMaps.OptionMap.SetRequired | src/main/java/fr.cril.cli/fr/cril/cli/utils/OptionMap.java:206-211 | in place, as `Registries.SetRequired` |
| OptionMaps.OptionMap.SetDescription | src/test/java/fr.cril.cli/fr/cril/cli/utils/OptionMapTest.java:336-368 | in place, as `Registries.SetDescription` |
| OptionMaps.OptionMap.SetParam | src/main/java/fr.cril.cli/fr/cril/cli/utils/OptionMap.java:311-319 | the padding loop and the slot write, as `Registries.SetParam` |
| OptionMaps.OptionMap.SetParamMultiplicity | src/main/java/fr.cril.cli/fr/cril/cli/utils/OptionMap.java:352-357 | in place, as `Registries.SetParamMultiplicity` |
| OptionMaps.OptionMap.AllowShortNamesMerging | src/test/java/fr.cril.cli/fr/cril/cli/utils/OptionMapTest.java:606-612 | sets the merging flag and nothing else |
| Annotations.FieldForClass | src/main/java/fr.cril.cli/fr/cril/cli/utils/EFieldAnnotation.java:89-96 | `forClass` returns the kind serving that annotation type, or an illegal argument |
| Annotations.ClassForClass | src/main/java/fr.cril.cli/fr/cril/cli/utils/EClassAnnotation.java:68-75 | the same for class kinds |
| Annotations.ApplyField | src/main/java/fr.cril.cli/fr/cril/cli/utils/EFieldAnnotation.java:124-126 | `apply` fails only with the setters' definition or index errors |
| Annotations.ApplyClass | src/main/java/fr.cril.cli/fr/cril/cli/utils/EClassAnnotation.java:97-99 | `apply` fails only with a definition error or the pattern parser's illegal argument |
| Annotations.ApplyFieldTo | src/main/java/fr.cril.cli/fr/cril/cli/utils/EFieldAnnotation.java:124-126 | applied to an `OptionMap`, it does in place what `ApplyField` does |
| Annotations.ApplyClassTo | src/main/java/fr.cril.cli/fr/cril/cli/utils/EClassAnnotation.java:97-99 | applied to an `OptionMap`, it does in place what `ApplyClass` does |
| Annotations.FieldForClassIff | src/main/java/fr.cril.cli/fr/cril/cli/utils/EFieldAnnotation.java:89-106 | `forClass` succeeds exactly for the six field annotation types and `hasForClass` agrees; `@Params` is not a field kind |
| Annotations.ClassForClassIff | src/main/java/fr.cril.cli/fr/cril/cli/utils/EClassAnnotation.java:68-85 | `forClass` yields PARAMS for `@Params` alone, any other type is an illegal argument, and `hasForClass` agrees |
| Annotations.FieldDispatch | src/main/java/fr.cril.cli/fr/cril/cli/utils/EFieldAnnotation.java:54-69 | each kind forwards its payload to its one setter: short name, long name, multiplicity, required, param, description |
| Annotations.ApplyFieldFrame | src/main/java/fr.cril.cli/fr/cril/cli/utils/EFieldAnnotation.java:54-69 | a successful `apply` changes only the part its setter owns and keeps the catalogue consistent |
| Annotations.BareFieldDeclarations | src/main/java/fr.cril.cli/fr/cril/cli/annotations/LongName.java:52 | bare defaults: `@LongName` (name `""`) is refused, `@Required` requires, `@Param` claims slot 0 |
| Annotations.ParamsDeclaration | src/main/java/fr.cril.cli/fr/cril/cli/annotations/Params.java:53 | `@Params` twice is a definition error, a malformed pattern an illegal argument, and a bare `@Params` means exactly 0 |
| Annotations.SampleField | src/test/java/fr.cril.cli/fr/cril/cli/utils/EFieldAnnotationTest.java:77-131 | the five declarations of a sample field bind both names, one argument, the description and the required flag, and pass the checks |
| ClassParsing.ClassDecls | src/main/java/fr.cril.cli/fr/cril/cli/ClassParser.java:66-71 | the class declarations keep the catalogue consistent and the merging flag unchanged |
| ClassParsing.FieldDecls | src/main/java/fr.cril.cli/fr/cril/cli/ClassParser.java:80-88 | a field's declarations keep the catalogue consistent and the merging flag unchanged |
| ClassParsing.Fields | src/main/java/fr.cril.cli/fr/cril/cli/ClassParser.java:72-75 | all fields in turn keep the catalogue consistent |
| ClassParsing.Build | src/main/java/fr.cril.cli/fr/cril/cli/ClassParser.java:64-78 | a catalogue is returned only when it is consistent and `sanityChecks` passes, with the requested merging flag |
| ClassParsing.ClassParser.constructor | src/test/java/fr.cril.cli/fr/cril/cli/ClassParserTest.java:85-98 | keeps the class; merging is allowed by default |
| ClassParsing.ClassParser.AllowShortNamesMerging | src/main/java/fr.cril.cli/fr/cril/cli/CliArgsParser.java:196-199 | sets the merging flag for the next build |
| ClassParsing.ClassParser.ParseField | src/main/java/fr.cril.cli/fr/cril/cli/ClassParser.java:80-88 | the loop over a field's declarations updates the `OptionMap` as `FieldDecls` |
| ClassParsing.ClassParser.ParseClassDecls | src/main/java/fr.cril.cli/fr/cril/cli/ClassParser.java:66-71 | the loop over the class declarations updates the map as `ClassDecls` |
| ClassParsing.ClassParser.ParseFields | src/main/java/fr.cril.cli/fr/cril/cli/ClassParser.java:72-75 | the loop over the fields updates the map as `Fields` |
| ClassParsing.ClassParser.Parse | src/main/java/fr.cril.cli/fr/cril/cli/ClassParser.java:64-78 | a fresh `OptionMap` whose content is `Build`'s catalogue, or `Build`'s error |
| ClassParsing.FirstErrorAbortsField | src/main/java/fr.cril.cli/fr/cril/cli/ClassParser.java:86 | after a failing declaration, later declarations of the field change nothing |
| ClassParsing.FirstErrorAbortsClass | src/main/java/fr.cril.cli/fr/cril/cli/ClassParser.java:71 | after a failing class declaration, later ones change nothing |
| ClassParsing.FirstErrorAbortsFields | src/main/java/fr.cril.cli/fr/cril/cli/ClassParser.java:72-75 | after a failing field, later fields change nothing |
| ClassParsing.LibraryFieldDecls | src/main/java/fr.cril.cli/fr/cril/cli/ClassParser.java:83-85 | keeps only the declarations `hasForClass` accepts |
| ClassParsing.ForeignFieldDeclsSkipped | src/main/java/fr.cril.cli/fr/cril/cli/ClassParser.java:83-85 | field declarations of foreign kinds are skipped: dropping them gives the same result |
| ClassParsing.ForeignClassDeclSkipped | src/main/java/fr.cril.cli/fr/cril/cli/ClassParser.java:68-70 | a foreign class declaration is skipped |
| ClassParsing.ShortNameField | src/main/java/fr.cril.cli/fr/cril/cli/ClassParser.java:80-88 | a field declaring one fresh short name adds exactly that binding |
| ClassParsing.ThreeShortNameFields | src/test/java/fr.cril.cli/fr/cril/cli/ClassParserTest.java:85-89 | three fields with distinct short names build exactly those three bindings |
| ClassParsing.AmbiguousBuild | src/test/java/fr.cril.cli/fr/cril/cli/ClassParserTest.java:85-97 | the `-a`/`-b`/`-ab` class reaches `sanityChecks` with those three bindings, which alone decide the result |
| ClassParsing.AmbiguousClass | src/test/java/fr.cril.cli/fr/cril/cli/ClassParserTest.java:85-97 | that class is refused with merging on and accepted with merging off |
| ClassParsing.ParamsClass | src/main/java/fr.cril.cli/fr/cril/cli/ClassParser.java:65-71 | on a fresh catalogue, `@Params` with a well-formed pattern sets the parameter multiplicity and nothing else |
| ClassParsing.NegativeArgsField | src/main/java/fr.cril.cli/fr/cril/cli/ClassParser.java:86 | `@Args(-1)`, after only foreign declarations, aborts the field with a definition error whatever follows |
| ClassParsing.NegativeArgsRefused | src/test/java/fr.cril.cli/fr/cril/cli/ClassParserTest.java:67-71 | a class whose field carries `@Args(-1)` is refused with a definition error |
| ClassParsing.SampleClassOk | src/test/java/fr.cril.cli/fr/cril/cli/ClassParserTest.java:52-64 | the sample class builds with exactly one wanted parameter, one slot holding `param`, and `-f`/`--field` bound to `field` with one argument |
| Matching.ReadFieldParams | src/main/java/fr.cril.cli/fr/cril/cli/CliArgsParser.java:134-145 | reading arguments never touches the positional list, and either changes nothing or adds the field to the seen list |
| Matching.ReadFieldParamsSpec | src/main/java/fr.cril.cli/fr/cril/cli/CliArgsParser.java:134-145 | for `Matching.ReadFieldParams`: with fewer than n tokens left it is a usage error naming the option and n, with nothing written or consumed; otherwise exactly the next n tokens are consumed, and either their conversion error is returned with the state unchanged, or their converted value is stored for the field and the field is marked seen |
| Matching.ShortAux | src/main/java/fr.cril.cli/fr/cril/cli/CliArgsParser.java:129-132 | leaves the positional list alone and only extends the seen list |
| Matching.CheckRequired | src/main/java/fr.cril.cli/fr/cril/cli/CliArgsParser.java:153-158 | passes exactly when every required field was seen |
| Matching.PositionalsCollected | src/main/java/fr.cril.cli/fr/cril/cli/CliArgsParser.java:83-96 | non-option tokens are collected in order, and everything after `--` follows them unread |
| Matching.LongOptionConsumes | src/main/java/fr.cril.cli/fr/cril/cli/CliArgsParser.java:147-151 | `--name` with n arguments consumes exactly the next n tokens, whatever they look like, converts them, records the field as seen, and goes on with the rest |
| Matching.LongOptionStarved | src/main/java/fr.cril.cli/fr/cril/cli/CliArgsParser.java:134-142 | fewer than n remaining tokens is a usage error naming the option and n |
| Matching.BadOptionTokens | src/main/java/fr.cril.cli/fr/cril/cli/CliArgsParser.java:101-105 | an unknown long name, a bare `-`, and an unknown one-character short name are usage errors |
| Matching.FlagToken | src/main/java/fr.cril.cli/fr/cril/cli/CliArgsParser.java:101-127 | `-c` for a zero-argument flag sets it and goes on |
| Matching.MergePasses | src/main/java/fr.cril.cli/fr/cril/cli/CliArgsParser.java:113-124 | a group made only of zero-argument flags merges without error |
| Matching.MergeLikeSeparate | src/main/java/fr.cril.cli/fr/cril/cli/CliArgsParser.java:113-124 | merging such a group has the same effect as giving its flags as separate tokens |
| Matching.MergedGroup | src/main/java/fr.cril.cli/fr/cril/cli/CliArgsParser.java:106-126 | an exact multi-character short name wins; otherwise merging off is a usage error; merging on with a flag group equals the separate flags; merging on with any other group stops the scan with the merge loop's failure and its state |
| Matching.NonFlagFails | src/main/java/fr.cril.cli/fr/cril/cli/CliArgsParser.java:113-121 | for `Matching.IsFlag`: a one-character name that is not a flag fails when read with no tokens, as an unknown short name when unbound and as too few arguments when it takes some |
| Matching.MergePassesIff | src/main/java/fr.cril.cli/fr/cril/cli/CliArgsParser.java:113-124 | the merge loop succeeds if and only if every character of the group is a flag: bound, taking no arguments and convertible from none |
| Matching.MergeFailsAt | src/main/java/fr.cril.cli/fr/cril/cli/CliArgsParser.java:113-121 | after flags only, the first character that is unbound or takes arguments makes the merge fail with `MergeFailed` naming the whole group and wrapping that character's usage error |
| Matching.MergedWithArg | src/test/java/fr.cril.cli/fr/cril/cli/CliArgsParserTest.java:156-162 | `-mfb` with `m` taking one argument fails as a merge naming `mfb` and wrapping too few arguments for `m`, whatever tokens follow |
| Matching.ScanExtends | src/main/java/fr.cril.cli/fr/cril/cli/CliArgsParser.java:83-96 | the positional and seen lists are only ever appended to |
| Matching.RequiredReportedTogether | src/main/java/fr.cril.cli/fr/cril/cli/CliArgsParser.java:153-158 | when required fields are missing, one usage error carries exactly the `fieldToString` renderings of the missing fields, no more and no fewer |
| Matching.CheckOrder | src/main/java/fr.cril.cli/fr/cril/cli/CliArgsParser.java:97-98 | the required check runs before the positional-count check, which yields a usage error naming the wanted count |
| Matching.BindFrame | src/main/java/fr.cril.cli/fr/cril/cli/CliArgsParser.java:166-173 | the binding loop `Matching.BindFrom` leaves the positional and seen lists unchanged and leaves every field that owns none of the visited slots as it was, present or absent |
| Matching.SlotGetsItsToken | src/main/java/fr.cril.cli/fr/cril/cli/CliArgsParser.java:166-173 | after a successful `Matching.BindFrom`, the field of slot k holds the conversion of token k |
| Matching.BindKeeps | src/main/java/fr.cril.cli/fr/cril/cli/CliArgsParser.java:166-173 | a field that owns none of the slots from the current one up to the bound keeps its value |
| Matching.ParseArgsOver | src/main/java/fr.cril.cli/fr/cril/cli/CliArgsParser.java:79-81 | the outcome, the positional list and the seen list do not depend on the state before the parse; earlier values survive only where the parse writes nothing |
| Matching.ParseTwice | src/main/java/fr.cril.cli/fr/cril/cli/CliArgsParser.java:79-81 | parsing the same tokens again, on the state the first parse left, gives the same outcome, bindings and positional list, whether or not the first parse failed |
| ArgsParsing.CliArgsParser.constructor | src/main/java/fr.cril.cli/fr/cril/cli/CliArgsParser.java:60-62 | empty lists; merging allowed |
| ArgsParsing.CliArgsParser.AllowShortNamesMerging | src/main/java/fr.cril.cli/fr/cril/cli/CliArgsParser.java:196-199 | sets the flag on the parser and on its class parser |
| ArgsParsing.CliArgsParser.ReadFieldParams | src/main/java/fr.cril.cli/fr/cril/cli/CliArgsParser.java:134-145 | the popping loop does exactly what `Matching.ReadFieldParams` describes, on the target and the seen list |
| ArgsParsing.CliArgsParser.ShortAux | src/main/java/fr.cril.cli/fr/cril/cli/CliArgsParser.java:129-132 | as `Matching.ShortAux` |
| ArgsParsing.CliArgsParser.Merge | src/main/java/fr.cril.cli/fr/cril/cli/CliArgsParser.java:113-124 | the loop over the group's characters, each with an empty queue, as `Matching.MergeFrom` |
| ArgsParsing.CliArgsParser.ShortOpt | src/main/java/fr.cril.cli/fr/cril/cli/CliArgsParser.java:101-127 | as `Matching.ShortOpt` |
| ArgsParsing.CliArgsParser.LongOpt | src/main/java/fr.cril.cli/fr/cril/cli/CliArgsParser.java:147-151 | as `Matching.LongOpt` |
| ArgsParsing.CliArgsParser.ParseParams | src/main/java/fr.cril.cli/fr/cril/cli/CliArgsParser.java:160-173 | the count check and the binding loop, as `Matching.ParseParams` with its loop `Matching.BindFrom` |
| ArgsParsing.CliArgsParser.ScanTokens | src/main/java/fr.cril.cli/fr/cril/cli/CliArgsParser.java:82-96 | the queue loop and the trailing `addAll`, as `Matching.Scan` |
| ArgsParsing.CliArgsParser.Parse | src/main/java/fr.cril.cli/fr/cril/cli/CliArgsParser.java:78-99 | builds the catalogue (its error passes through, nothing else changes), then leaves the target, the positional list and the seen list, and returns the outcome, as `Matching.ParseArgs` on the state before the call |
| UsagePrinting.SortFields | src/main/java/fr.cril.cli/fr/cril/cli/utils/OptionUsagePrinter.java:60-67 | the named fields, each once, strictly ordered by the comparator |
| UsagePrinting.BeforeIsStrictTotal | src/main/java/fr.cril.cli/fr/cril/cli/utils/OptionUsagePrinter.java:60-67 | the comparator (short name, else long name; case-insensitive, then case-sensitive) is a strict total order |
| UsagePrinting.CaseOrder | src/test/java/fr.cril.cli/fr/cril/cli/utils/OptionUsagePrinterTest.java:161-166 | `-A` comes before `-a`, which comes before `-B` |
| UsagePrinting.Rows | src/main/java/fr.cril.cli/fr/cril/cli/utils/OptionUsagePrinter.java:73-96 | one matrix row per field, in order |
| UsagePrinting.MaxLen | src/main/java/fr.cril.cli/fr/cril/cli/utils/OptionUsagePrinter.java:98-112 | a column's width bounds every cell and, when positive, is some cell's length |
| UsagePrinting.Spaces | src/main/java/fr.cril.cli/fr/cril/cli/utils/OptionUsagePrinter.java:123-133 | n blanks |
| UsagePrinting.OneLinePerRow | src/main/java/fr.cril.cli/fr/cril/cli/utils/OptionUsagePrinter.java:114-167 | every layout prints one line per row |
| UsagePrinting.LinePerNamedField | src/main/java/fr.cril.cli/fr/cril/cli/utils/OptionUsagePrinter.java:59-71 | the usage text has one line per named field, and is empty exactly when no field is named |
| UsagePrinting.BothNamesColumns | src/main/java/fr.cril.cli/fr/cril/cli/utils/OptionUsagePrinter.java:152-167 | short names right-aligned to the widest, long names left-aligned to the widest, a `,` exactly when the row has both, blanks for a missing name |
| UsagePrinting.WidthsFit | src/main/java/fr.cril.cli/fr/cril/cli/utils/OptionUsagePrinter.java:98-112 | every cell fits its column's width |
| UsagePrinting.ArgsColumnIff | src/main/java/fr.cril.cli/fr/cril/cli/utils/OptionUsagePrinter.java:85-88 | the argument column is present exactly when some field takes arguments |
| UsagePrinting.ArgsTextShape | src/main/java/fr.cril.cli/fr/cril/cli/utils/OptionUsagePrinter.java:123-133 | no column prints nothing; a row without arguments prints `1+width` blanks; a row with arguments prints a blank then its `<arg0> …` text |
| UsagePrinting.RequiredTag | src/main/java/fr.cril.cli/fr/cril/cli/utils/OptionUsagePrinter.java:89-93 | a required field's description gets ` [required]`, or is `[required]` when empty |
| UsagePrinting.OneFieldSummary | src/test/java/fr.cril.cli/fr/cril/cli/ClassParserTest.java:74-82 | the sample catalogue prints ` -f,--field <arg0>\n` |
| UsagePrinting.OptionUsagePrinter.constructor | src/main/java/fr.cril.cli/fr/cril/cli/utils/OptionUsagePrinter.java:50-52 | keeps the option map |
| UsagePrinting.OptionUsagePrinter.BuildWordMatrix | src/main/java/fr.cril.cli/fr/cril/cli/utils/OptionUsagePrinter.java:73-96 | the loop fills a fresh array with `Rows` |
| UsagePrinting.OptionUsagePrinter.PrintMatrixShortOptsOnly | src/main/java/fr.cril.cli/fr/cril/cli/utils/OptionUsagePrinter.java:114-121 | the loop prints the short-name layout's lines |
| UsagePrinting.OptionUsagePrinter.PrintMatrixLongOptsOnly | src/main/java/fr.cril.cli/fr/cril/cli/utils/OptionUsagePrinter.java:143-150 | the loop prints the long-name layout's lines |
| UsagePrinting.OptionUsagePrinter.PrintMatrixBothShortAndLongOpts | src/main/java/fr.cril.cli/fr/cril/cli/utils/OptionUsagePrinter.java:152-167 | the loop prints the two-name layout's lines |
| UsagePrinting.OptionUsagePrinter.PrintMatrix | src/main/java/fr.cril.cli/fr/cril/cli/utils/OptionUsagePrinter.java:98-112 | chooses the layout from the column widths and prints the matrix |
| UsagePrinting.OptionUsagePrinter.Print | src/main/java/fr.cril.cli/fr/cril/cli/utils/OptionUsagePrinter.java:59-71 | prints exactly the usage text of the map's catalogue |

## Left out

- The older `OptionMap` API of the shown file is not modelled: its `char` short names, `getField(char)` and `getField(String)`, and the absence of descriptions. The newer API that the parser calls and the tests exercise is modelled instead. Its `sanityChecks` keeps the shown file's four checks and adds two, for descriptions and for merge ambiguity.
- Reflection (`Field.set`, `getAnnotations`, `getDeclaredFields`, class-object matching) is replaced by `FieldRef` ids, declared types, declaration lists and a target map. The wrong-field-type error that only reflection raises is not modelled.
- The `PrintWriter` and `flush` in `OptionUsagePrinter`: the model returns the text. `printOptionUsage` on `OptionMap` and `ClassParser` only forwards to the printer and is not modelled.
- Null arguments: they are excluded by the types (`Option` is used where the source tests for null, as in the boolean spellings).
- Unicode: letters, digits, case folding and integer parsing are ASCII only.
- Exception messages: only the error kinds and their payloads are modelled.
- Matching.CheckRequired: the missing-option error carries the set of rendered names, not their `", "`-joined text, because the join follows `HashMap` order.
- UsagePrinting.SortFields: two fields with equal sort keys (one's short name equal to another's long name) are ordered by their `FieldRef` id; the source leaves that order to the `HashSet`.
- UsagePrinting.LinePerNamedField: assumes descriptions hold no line break, since a break inside a description would add lines.
- `CliArgsParser.setBooleanConstants` and `resetBooleanConstants` only forward to the static spellings. They are modelled once, on `FieldTypes.BooleanConstants`, which the parser receives as a parameter.
- A field that the class does not declare has no serving converter in the model (its type reads as an unknown class).
- The annotation interfaces and `CliOptionDefinitionException` carry only default values and an error kind. They appear as payload defaults and as the definition-error kind.
- Matching.ParseArgsOver: the catalogue is rebuilt by each `parse`. The model takes the built catalogue as given, so the claim that repeating a parse gives the same result rests on `ClassParsing.Build` being a function of the class.

# interface-maven-plugin: the interface check, in Dafny

The plugin looks for "interface leakage". A compiled Java class leaks an
interface when a public or protected member exposes a type that the build
has not allowed. The member's type appears in its descriptor. Exclusions are
globs over dotted class names: `*` stays within one name segment and `**`
crosses segments.

This project models the check and proves what it promises.

- `Utils.GlobToPattern` translates a glob into an anchored
  `java.util.regex` pattern. Its loop mirrors the `StringBuilder`, and it is
  proved to produce `Globs.PatternOf`.
- `Globs` reads a glob as tokens (`Lit(c) | Star | DoubleStar`) and gives
  the glob semantics.
- `Regex` holds the fragment of `java.util.regex` that the translated
  patterns use. It gives `Matcher.matches()` semantics: the whole name must
  be consumed.
- `GlobPatterns` proves the pattern text means exactly what the glob means,
  for globs without regex metacharacters. It also proves the raw copy of `$`
  breaks that meaning.
- `Descriptors` covers field and method descriptors and internal names, as
  in sections 4.2.1, 4.3.2 and 4.3.3 of the Java Virtual Machine
  Specification. It stands in for the bytecode library's `Type` class, and
  proves round trips and dotted names.
- `InterfaceCheck` contains:
  - the specification `Scan`;
  - the classes `InterfaceClassVisitor` (mutable `publicClass`, `packageName`
    and `occurrences`) and `Interface` (its exclusion set, and `Check`);
  - the properties of the report.
- `InterfaceTest` covers the plugin's own test class, `ArrayListTestClass`,
  in compiled form. It proves both tests' outcomes: 4 occurrences without
  exclusions, and 0 with `java.**`.

The class file is given as an already decoded `ClassFile` record: access
flags, name, fields and methods, each member with its access flags, name and
descriptor. `Interface.Check` visits the header first, then calls `AcceptMembers`,
which hands the members to the visitor in file order: the fields, then the
methods. This is the order in which the class reader visits a class.

In Java, a descriptor the scan cannot read throws an exception and yields no
partial report. The model turns this into the error value
`MalformedDescriptor`.

## Model

| member | source | states |
|---|---|---|
| Utils.CheckNotNull | src/main/java/org/gaul/interface_maven_plugin/Utils.java:37-42 | a non-null reference is returned unchanged; null gives a NullPointerException, and only null does |
| Utils.CheckArgument | src/main/java/org/gaul/interface_maven_plugin/Utils.java:44-48 | fails, with IllegalArgumentException, exactly when the expression is false |
| Utils.CreateImmutableSet | src/main/java/org/gaul/interface_maven_plugin/Utils.java:50-53 | the set holds exactly the elements of the collection; a null collection is a NullPointerException |
| Utils.CreateImmutableSetIgnoresOrder | src/main/java/org/gaul/interface_maven_plugin/Utils.java:50-53 | two collections with the same elements give the same set, whatever their order or repetitions |
| Utils.GlobToPattern | src/main/java/org/gaul/interface_maven_plugin/Utils.java:96-123 | for every glob the loop terminates, and its result is the rewrite of the glob's token reading; it always starts with `^` and ends with `$` |
| Utils.PlainGlobCopied | src/main/java/org/gaul/interface_maven_plugin/Utils.java:101-121 | a glob without `*`, `.` and `\` is copied unchanged between the anchors |
| Globs.UntokenizeTokenize | src/main/java/org/gaul/interface_maven_plugin/Utils.java:99-120 | reading a glob into tokens loses nothing: writing the tokens back gives the glob |
| Globs.TokenizeUntokenize | src/main/java/org/gaul/interface_maven_plugin/Utils.java:108-114 | every canonical token list is the reading of its own text, so the reading is a bijection onto canonical lists |
| Globs.AsteriskRunPairsFromLeft | src/main/java/org/gaul/interface_maven_plugin/Utils.java:108-114 | a run of n asterisks reads as n/2 `**` tokens followed by one `*` when n is odd: pairs are taken greedily from the left |
| Globs.TokenizeLiteral | src/main/java/org/gaul/interface_maven_plugin/Utils.java:102-107 | a glob without `*` reads as one literal token per character |
| Globs.LiteralGlobMatchesOnlyItself | src/main/java/org/gaul/interface_maven_plugin/Utils.java:89-95 | a glob without `*` matches a name if and only if the name equals the glob |
| Globs.StarMatchesOneSegment | src/main/java/org/gaul/interface_maven_plugin/Utils.java:112-113 | `*` matches a name if and only if the name contains no `.` |
| Globs.DoubleStarMatchesEverything | src/main/java/org/gaul/interface_maven_plugin/Utils.java:109-111 | `**` matches every name, dots included |
| Globs.PackageStarMatchesOneLevel | src/main/java/org/gaul/interface_maven_plugin/Utils.java:89-95 | for every P without `*` and every single segment X, `P.*` matches `P.X` and never `P.X.Y` |
| Globs.PackageDoubleStarMatchesAllLevels | src/main/java/org/gaul/interface_maven_plugin/Utils.java:89-95 | for every P without `*`, `P.**` matches `P.X` at every depth |
| GlobPatterns.ParsePatternOf | src/main/java/org/gaul/interface_maven_plugin/Utils.java:96-123 | for a glob without metacharacters, the regex engine reads the pattern as `^`, the glob's tokens and `$`, and nothing else |
| GlobPatterns.PatternMatchesIffGlobMatches | src/main/java/org/gaul/interface_maven_plugin/Interface.java:126-130 | for such a glob, the full match of the pattern accepts a name exactly when the glob matches it (for `**`, on names without line terminators) |
| GlobPatterns.LiteralPatternMatchesOnlyItself | src/main/java/org/gaul/interface_maven_plugin/Utils.java:89-95 | a metacharacter-free glob without `*` compiles to a pattern that fully matches exactly the glob itself: no prefix, no extension |
| GlobPatterns.DocumentedLiteralTranslation | src/main/java/org/gaul/interface_maven_plugin/Utils.java:92-121 | `java.util.Collection` becomes `^java\.util\.Collection$`: the code appends the closing `$` that the doc comment's example leaves out |
| GlobPatterns.DocumentedStarTranslation | src/main/java/org/gaul/interface_maven_plugin/Utils.java:93 | `java.util.*` becomes `^java\.util\.[^.]*$` |
| GlobPatterns.DocumentedDoubleStarTranslation | src/main/java/org/gaul/interface_maven_plugin/Utils.java:94 | `java.util.**` becomes `^java\.util\..*$` |
| GlobPatterns.DocumentedStarMatchesClass | src/main/java/org/gaul/interface_maven_plugin/Utils.java:93 | the pattern of `java.util.*` matches `java.util.List` |
| GlobPatterns.DocumentedStarRejectsSubpackage | src/main/java/org/gaul/interface_maven_plugin/Utils.java:93 | the pattern of `java.util.*` does not match `java.util.concurrent.Future` |
| GlobPatterns.StarPatternOneLevel | src/main/java/org/gaul/interface_maven_plugin/Utils.java:112-113 | the pattern of `P.*` matches `P.X` and rejects `P.X.Y`, for every P without metacharacters and without `*`, and every single segment X |
| GlobPatterns.DocumentedDoubleStarMatchesClass | src/main/java/org/gaul/interface_maven_plugin/Utils.java:94 | the pattern of `java.util.**` matches `java.util.List` |
| GlobPatterns.DocumentedDoubleStarMatchesSubpackage | src/main/java/org/gaul/interface_maven_plugin/Utils.java:94 | the pattern of `java.util.**` matches `java.util.concurrent.Future` |
| GlobPatterns.DoubleStarPatternAllLevels | src/main/java/org/gaul/interface_maven_plugin/Utils.java:109-111 | for every P without metacharacters and without `*`, the pattern of `P.**` matches `P.X` at every depth, for P and X without line terminators |
| GlobPatterns.DollarGlobMatchesNothing | src/main/java/org/gaul/interface_maven_plugin/Utils.java:116-117 | a `$` copied raw into a glob is an end anchor: for `P$Q` with P and Q free of metacharacters and of `*`, and Q non-empty and not starting with a line terminator, the pattern fully matches no name at all |
| GlobPatterns.NestedClassGlobMatchesNothing | src/main/java/org/gaul/interface_maven_plugin/Utils.java:116-121 | the glob `Outer$Inner` matches its own name as a glob, yet its pattern matches nothing |
| Descriptors.FieldDescriptorRoundTrip | src/main/java/org/gaul/interface_maven_plugin/Interface.java:95-96 | decoding a field descriptor inverts its encoding, in both directions |
| Descriptors.MethodDescriptorRoundTrip | src/main/java/org/gaul/interface_maven_plugin/Interface.java:108-111 | decoding a method descriptor into return and parameter types inverts its encoding, in both directions |
| Descriptors.ParseMethodDescriptorSound | src/main/java/org/gaul/interface_maven_plugin/Interface.java:108-111 | a decoded method descriptor has field types as parameters and a field type or void as result |
| Descriptors.ClassName | src/main/java/org/gaul/interface_maven_plugin/Interface.java:125 | the dotted name has the internal name's length, with each `/` replaced by `.` and every other character kept |
| Descriptors.ClassNameInverse | src/main/java/org/gaul/interface_maven_plugin/Interface.java:125 | for an internal name without `.`, the dotted name contains no `/`, and turning the dots back into slashes gives the internal name |
| Descriptors.PackageNameOf | src/main/java/org/gaul/interface_maven_plugin/Interface.java:78-83 | the package of `p/Simple` is `p` with `/` replaced by `.` |
| Descriptors.PackageNameUnnamed | src/main/java/org/gaul/interface_maven_plugin/Interface.java:78-83 | a class name without `/` is in the unnamed package `""` |
| InterfaceCheck.InterfaceClassVisitor.constructor | src/main/java/org/gaul/interface_maven_plugin/Interface.java:61-70 | a new visitor has the given exclusions, no occurrences, `publicClass` true and no package |
| InterfaceCheck.InterfaceClassVisitor.Visit | src/main/java/org/gaul/interface_maven_plugin/Interface.java:73-89 | `publicClass` is cleared unless the class is public or protected; the package name is recorded; the occurrences are unchanged |
| InterfaceCheck.InterfaceClassVisitor.VisitField | src/main/java/org/gaul/interface_maven_plugin/Interface.java:92-99 | the field's occurrences per `MemberOccurrences` are appended, or nothing changes when the descriptor is malformed; the flag and the package are unchanged |
| InterfaceCheck.InterfaceClassVisitor.VisitMethod | src/main/java/org/gaul/interface_maven_plugin/Interface.java:104-117 | the return type's occurrence and then each parameter's, left to right, are appended, or nothing changes when the descriptor is malformed |
| InterfaceCheck.InterfaceClassVisitor.CheckTokens | src/main/java/org/gaul/interface_maven_plugin/Interface.java:110-113 | the loop over parameter types appends their occurrences in order |
| InterfaceCheck.InterfaceClassVisitor.CheckToken | src/main/java/org/gaul/interface_maven_plugin/Interface.java:119-133 | the loop over the exclusions, with its early return, appends one occurrence for an object type no exclusion fully matches, and nothing otherwise |
| InterfaceCheck.InterfaceClassVisitor.GetOccurrences | src/main/java/org/gaul/interface_maven_plugin/Interface.java:135-137 | returns the occurrences collected so far |
| InterfaceCheck.Interface.constructor | src/main/java/org/gaul/interface_maven_plugin/Interface.java:36-42 | the exclusion set is exactly the set of translated patterns of the configured globs |
| InterfaceCheck.Interface.Check | src/main/java/org/gaul/interface_maven_plugin/Interface.java:44-50 | a fresh visitor over header, fields and methods reports exactly `Scan` of the class |
| InterfaceCheck.CheckTwice | src/main/java/org/gaul/interface_maven_plugin/Interface.java:44-50 | two checks of the same class with the same exclusions give identical results |
| InterfaceCheck.AcceptMembers | src/main/java/org/gaul/interface_maven_plugin/Interface.java:92-117 | visiting members in file order appends exactly their `MembersOccurrences`; the first malformed descriptor ends the visit with that error; the visitor's flag and package name stay unchanged |
| InterfaceCheck.NonPublicClassScansEmpty | src/main/java/org/gaul/interface_maven_plugin/Interface.java:75-77 | a class that is neither public nor protected yields no occurrences, whatever its members' flags |
| InterfaceCheck.HiddenMemberContributesNothing | src/main/java/org/gaul/interface_maven_plugin/Interface.java:94 | removing a field or method that is neither public nor protected leaves the report unchanged |
| InterfaceCheck.MemberWithoutObjectTypes | src/main/java/org/gaul/interface_maven_plugin/Interface.java:120-124 | a member whose descriptor names only primitive, void and array types reports nothing |
| InterfaceCheck.MethodOccurrencesBound | src/main/java/org/gaul/interface_maven_plugin/Interface.java:108-113 | a checked method reports at most 1 + (number of parameters) occurrences, and a reported return type comes first |
| InterfaceCheck.ScanOccurrencesShape | src/main/java/org/gaul/interface_maven_plugin/Interface.java:125-132 | every reported occurrence has member name `""`, line `-1`, and a token no exclusion pattern matches |
| InterfaceCheck.ObjectReportedIffNoGlobMatches | src/main/java/org/gaul/interface_maven_plugin/Interface.java:125-132 | an object type is reported once, under its dotted name, if and only if no configured glob matches that name |
| InterfaceCheck.ExcludedIffSomeGlob | src/main/java/org/gaul/interface_maven_plugin/Interface.java:126-130 | a token is excluded exactly when the pattern of some configured glob fully matches it |
| InterfaceCheck.ExclusionsIgnoreOrder | src/main/java/org/gaul/interface_maven_plugin/Interface.java:36-42 | globs with the same elements, in any order and with any repetition, give the same exclusions and the same report |
| InterfaceCheck.ExcludedIffSomeGlobMatches | src/main/java/org/gaul/interface_maven_plugin/Interface.java:126-130 | for metacharacter-free globs, exclusion is glob matching |
| InterfaceTest.ArrayListWithoutExclusion | src/test/java/org/gaul/interface_maven_plugin/InterfaceTest.java:35-41 | with no exclusions, the test class reports `java.util.ArrayList` exactly four times |
| InterfaceTest.ArrayListWithExclusion | src/test/java/org/gaul/interface_maven_plugin/InterfaceTest.java:43-49 | with `java.**` excluded, the test class reports nothing |
| InterfaceTest.TestArrayListWithoutExclusion | src/test/java/org/gaul/interface_maven_plugin/InterfaceTest.java:35-41 | through `Interface` and `Check`: a report of size 4, each occurrence naming `java.util.ArrayList` |
| InterfaceTest.TestArrayListWithExclusion | src/test/java/org/gaul/interface_maven_plugin/InterfaceTest.java:43-49 | through `Interface` and `Check`: a report of size 0 |

## Left out

- Class-file decoding is not modelled: `ClassReader` parsing, `check(InputStream)` (Interface.java:52-54) and the reader's dispatch. The bytecode library does this work, so a class arrives as a decoded `ClassFile`. `AcceptMembers` stands in for the reader's visit order.
- Descriptor decoding follows section 4.3 of the Java Virtual Machine Specification; this is the assumed behaviour of the bytecode library's `Type`. The model rejects malformed descriptors with `MalformedDescriptor`, which the library does not always do. It does not enforce the 255-dimension array limit.
- The general regular-expression engine is not modelled. `Regex` covers the constructs translated globs produce. Any other metacharacter makes the pattern unreadable in the model, and such a pattern matches nothing. Proved glob semantics are limited to globs without the characters `^ $ + ? ( ) { [ |`. `Pattern.compile` can throw for some globs (for example an unbalanced `(`); that exception is not modelled.
- The `$` of a nested-class glob such as `Outer$Inner` is copied raw and read as an end anchor, so that glob excludes nothing. The model keeps this behaviour and proves it (`GlobPatterns.NestedClassGlobMatchesNothing`).
- A `**` does not match across line terminators, because `.` does not, while the glob reading lets it. The class-file format does not forbid line terminators in names. So the lemmas that relate patterns of `**` globs to glob matching (`PatternMatchesIffGlobMatches`, `DoubleStarPatternAllLevels`, `ExcludedIffSomeGlobMatches`, `ObjectReportedIffNoGlobMatches`) are stated for names without line terminators only. `Scan` and `Check` themselves use the pattern semantics and so cover such names as Java does.
- The exclusion set holds pattern texts, so equal globs collapse into one. The Java set holds compiled `Pattern` objects compared by identity, so it keeps duplicates. Duplicates cannot change a match, and `ExclusionsIgnoreOrder` shows that the report depends only on which globs are present.
- `Utils.readAllLines`, `Utils.closeQuietly` and the `UTF_8` constant are stream plumbing (Utils.java:35, 60-83). `createImmutableMap` (Utils.java:55-58) is an unused copy wrapper.
- The interface and checked-exception checks in `visit` are commented out in the source (Interface.java:84-88). The `interfaces`, `signature`, `superName`, `exceptions` and `value` arguments are therefore not modelled.
- The values returned by `super.visitField` and `super.visitMethod` (Interface.java:98, 115-116) only chain visitors, and are not modelled.
- Null globs are not modelled. In Java, a null glob collection fails with a NullPointerException in the loop at Interface.java:38, and a null glob inside it fails in `globToPattern` at `glob.length()` (Utils.java:99). Two null guards then always pass in the model: `createImmutableSet` checks the pattern list (Interface.java:41, modelled as `CreateImmutableSet(Some(patterns))`), and the visitor's constructor checks its exclusions (Interface.java:69).
- `InterfaceClassVisitor.GetOccurrences` returns the list's value. The Java method returns the list object itself, so a caller could alias it; aliasing is not modelled.
- `packageName` is computed and recorded, as in the source, but nothing reads it.
- The source's doc comment writes its first example translation (Utils.java:92) without the closing `$`, but the code always appends it. The model follows the code.
- The translation is total in the model, as in the code: every glob yields a pattern text. Whether that text compiles is the `Pattern.compile` point above.

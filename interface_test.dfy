/**
 * The class the plugin's own test inspects, InterfaceTest.ArrayListTestClass,
 * in its compiled form, and what the check reports for it with and without
 * an exclusion of the java packages.
 *
 * Names and descriptors are spelled out segment by segment
 * ("java" + "/" + "util" + ...), which is the same text as the joined
 * literal.
 */
module InterfaceTest {
  import opened Results
  import opened Globs
  import opened Regex
  import opened GlobPatterns
  import opened Descriptors
  import opened InterfaceCheck

  /** The internal and the dotted name of java.util.ArrayList. */
  const ARRAY_LIST: string := "java" + "/" + "util" + "/" + "ArrayList"
  const ARRAY_LIST_NAME: string := "java" + "." + "util" + "." + "ArrayList"


  /** The exclusions of the two tests: `java.**`, and none. */
  const EXCLUDE_JAVA: seq<string> := ["java" + ".**"]
  const EXCLUDE_NOTHING: seq<string> := []

  /** One report of java.util.ArrayList, as the check makes it. */
  const ARRAY_LIST_OCCURRENCE: ViolationOccurrence := ViolationOccurrence("", UNKNOWN_LINE, ARRAY_LIST_NAME)

  /** The class as javac writes it: public final (with ACC_SUPER); a public
      static final field; two public static methods; a public constructor;
      the static initialiser that sets the field. */
  function ArrayListTestClass(): ClassFile
  {
    TestClassOf(ARRAY_LIST)
  }

  /** The same class with its four mentions of ArrayList replaced by the
      class of internal name n. */
  function TestClassOf(n: string): ClassFile
  {
    var desc := "L" + n + ";";
    ClassFile(0x0031, "org/gaul/interface_maven_plugin/InterfaceTest$ArrayListTestClass",
              [Member(0x0019, "field", desc)],
              [Member(0x0009, "methodReturn", "()" + desc),
               Member(0x0009, "methodArgument", "(" + desc + ")V"),
               Member(0x0001, "<init>", "(" + desc + ")V"),
               Member(0x0008, "<clinit>", "()V")])
  }

  // ---------------------------------------------------------------------
  // The two tests.

  /** Without exclusions, java.util.ArrayList is reported four times: for
      the field, the return type, the parameter and the constructor
      parameter. */
  lemma ArrayListWithoutExclusion()
    ensures Scan(ExclusionSet(EXCLUDE_NOTHING), ArrayListTestClass())
         == Ok([ARRAY_LIST_OCCURRENCE, ARRAY_LIST_OCCURRENCE, ARRAY_LIST_OCCURRENCE, ARRAY_LIST_OCCURRENCE])
  {
    var exclusions := ExclusionSet(EXCLUDE_NOTHING);
    assert exclusions == {};
    ArrayListName();
    TestClassScan(exclusions, ARRAY_LIST);
    var x := TokenOccurrence(exclusions, Object(ARRAY_LIST), "", UNKNOWN_LINE);
    assert x == [ARRAY_LIST_OCCURRENCE];
    assert x + x + x + x == [ARRAY_LIST_OCCURRENCE, ARRAY_LIST_OCCURRENCE, ARRAY_LIST_OCCURRENCE, ARRAY_LIST_OCCURRENCE];
  }

  /** With `java.**` excluded, nothing is reported. */
  lemma ArrayListWithExclusion()
    ensures Scan(ExclusionSet(EXCLUDE_JAVA), ArrayListTestClass()) == Ok([])
  {
    var exclusions := ExclusionSet(EXCLUDE_JAVA);
    ArrayListName();
    ArrayListExcluded();
    TestClassScan(exclusions, ARRAY_LIST);
    var x := TokenOccurrence(exclusions, Object(ARRAY_LIST), "", UNKNOWN_LINE);
    assert x == [];
    assert x + x + x + x == [];
  }

  lemma ArrayListExcluded()
    ensures Excluded(ExclusionSet(EXCLUDE_JAVA), ARRAY_LIST_NAME)
  {
    var glob := EXCLUDE_JAVA[0];
    assert PatternOf(glob) in ExclusionSet(EXCLUDE_JAVA);
    assert NoLineTerminator("util" + "." + "ArrayList");
    assert ARRAY_LIST_NAME == "java" + "." + ("util" + "." + "ArrayList");
    DoubleStarPatternAllLevels("java", "util" + "." + "ArrayList", glob, ARRAY_LIST_NAME);
  }

  /** The first test, through the objects: a check built from no globs. */
  method TestArrayListWithoutExclusion() returns (r: Result<Occurrences, CheckError>)
    ensures r.Ok? && |r.value| == 4
    ensures forall k :: 0 <= k < |r.value| ==> r.value[k].token == ARRAY_LIST_NAME
  {
    var check := new Interface(EXCLUDE_NOTHING);
    r := check.Check(ArrayListTestClass());
    ArrayListWithoutExclusion();
  }

  /** The second test, through the objects: a check built from `java.**`. */
  method TestArrayListWithExclusion() returns (r: Result<Occurrences, CheckError>)
    ensures r.Ok? && |r.value| == 0
  {
    var check := new Interface(EXCLUDE_JAVA);
    r := check.Check(ArrayListTestClass());
    ArrayListWithExclusion();
  }

  // ---------------------------------------------------------------------
  // Reading the class.

  lemma ClassNameOfSegments(a: string, b: string, c: string)
    requires '/' !in a && '/' !in b && '/' !in c
    ensures ClassName(a + "/" + b + "/" + c) == a + "." + b + "." + c
  {
    var internal := a + "/" + b + "/" + c;
    var dotted := a + "." + b + "." + c;
    var r := ClassName(internal);
    assert |r| == |dotted|;
    forall k | 0 <= k < |r|
      ensures r[k] == dotted[k]
    {
      if k < |a| {
        assert internal[k] == a[k] && dotted[k] == a[k];
      } else if k == |a| {
      } else if k < |a| + 1 + |b| {
        assert internal[k] == b[k - |a| - 1] && dotted[k] == b[k - |a| - 1];
      } else if k == |a| + 1 + |b| {
      } else {
        assert internal[k] == c[k - |a| - |b| - 2] && dotted[k] == c[k - |a| - |b| - 2];
      }
    }
  }

  lemma ArrayListName()
    ensures ClassName(ARRAY_LIST) == ARRAY_LIST_NAME
    ensures ';' !in ARRAY_LIST
  {
    ClassNameOfSegments("java", "util", "ArrayList");
  }

  /** The descriptors of the test class read back as the types javac
      meant, for any internal name without `;`. */
  lemma TestClassDescriptors(n: string)
    requires ';' !in n
    ensures ParseFieldDescriptor("L" + n + ";") == Some(Object(n))
    ensures ParseMethodDescriptor("()" + ("L" + n + ";")) == Some(MethodDescriptor([], Object(n)))
    ensures ParseMethodDescriptor("(" + ("L" + n + ";") + ")V") == Some(MethodDescriptor([Object(n)], Void))
    ensures ParseMethodDescriptor("()V") == Some(MethodDescriptor([], Void))
  {
    var t := Object(n);
    var desc := "L" + n + ";";
    assert Encode(t) == desc;
    FieldDescriptorRoundTrip(t, []);
    assert EncodeParams([t]) == desc by {
      assert [t][1..] == [];
    }
    var returning := MethodDescriptor([], t);
    var taking := MethodDescriptor([t], Void);
    var nothing := MethodDescriptor([], Void);
    assert EncodeMethod(returning) == "()" + desc;
    assert EncodeMethod(taking) == "(" + desc + ")V";
    assert EncodeMethod(nothing) == "()V";
    ParseEncodedMethod(returning);
    ParseEncodedMethod(taking);
    ParseEncodedMethod(nothing);
  }

  /** Whatever the exclusions, each of the four public members reports the
      same occurrence of the class, or all four report nothing. */
  lemma TestClassScan(exclusions: set<string>, n: string)
    requires ';' !in n
    ensures var x := TokenOccurrence(exclusions, Object(n), "", UNKNOWN_LINE);
      Scan(exclusions, TestClassOf(n)) == Ok(x + x + x + x)
  {
    var x := TokenOccurrence(exclusions, Object(n), "", UNKNOWN_LINE);
    var cls := TestClassOf(n);
    assert IsPublicOrProtected(cls.access);
    TestClassFields(exclusions, n);
    TestClassMethods(exclusions, n);
    assert x + (x + x + x) == x + x + x + x;
  }

  lemma TestClassFields(exclusions: set<string>, n: string)
    requires ';' !in n
    ensures MembersOccurrences(exclusions, true, FieldKind, TestClassOf(n).fields)
         == Ok(TokenOccurrence(exclusions, Object(n), "", UNKNOWN_LINE))
  {
    var f := TestClassOf(n).fields[0];
    TestClassDescriptors(n);
    ObjectTypeReported(exclusions, FieldKind, f, n, [Object(n)]);
    OneMember(exclusions, true, FieldKind, f);
    assert TestClassOf(n).fields == [f];
  }

  lemma TestClassMethods(exclusions: set<string>, n: string)
    requires ';' !in n
    ensures var x := TokenOccurrence(exclusions, Object(n), "", UNKNOWN_LINE);
      MembersOccurrences(exclusions, true, MethodKind, TestClassOf(n).methods) == Ok(x + x + x)
  {
    var x := TokenOccurrence(exclusions, Object(n), "", UNKNOWN_LINE);
    var ms := TestClassOf(n).methods;
    TestClassDescriptors(n);
    ObjectTypeReported(exclusions, MethodKind, ms[0], n, [Object(n)] + []);
    ObjectTypeReported(exclusions, MethodKind, ms[1], n, [Void] + [Object(n)]);
    ObjectTypeReported(exclusions, MethodKind, ms[2], n, [Void] + [Object(n)]);
    assert !IsPublicOrProtected(ms[3].access);
    FourMembers(exclusions, true, MethodKind, ms, x, x, x, []);
    var none: Occurrences := [];
    assert x + x + x + none == x + x + x;
  }

  /** A checked member whose types are the class n, preceded by at most a
      void return type. */
  lemma ObjectTypeReported(exclusions: set<string>, kind: MemberKind, m: Member, n: string, ts: seq<JType>)
    requires IsPublicOrProtected(m.access)
    requires CheckedTypes(kind, m.desc) == Some(ts)
    requires ts == [Object(n)] || ts == [Void] + [Object(n)]
    ensures MemberOccurrences(exclusions, true, kind, m) == Ok(TokenOccurrence(exclusions, Object(n), "", UNKNOWN_LINE))
  {
    var t := Object(n);
    TypesOccurrencesCons(exclusions, t, []);
    TypesOccurrencesCons(exclusions, Void, [t]);
    assert [t] + [] == [t];
    var x := TokenOccurrence(exclusions, t, "", UNKNOWN_LINE);
    var none: Occurrences := [];
    assert x + none == x && none + x == x;
  }

  lemma OneMember(exclusions: set<string>, publicClass: bool, kind: MemberKind, m: Member)
    ensures MembersOccurrences(exclusions, publicClass, kind, [m]) == MemberOccurrences(exclusions, publicClass, kind, m)
  {
    assert [m][..0] == [] && [m][0] == m;
    var r := MemberOccurrences(exclusions, publicClass, kind, m);
    if r.Ok? {
      assert [] + r.value == r.value;
    }
  }

  lemma FourMembers(exclusions: set<string>, publicClass: bool, kind: MemberKind, ms: seq<Member>,
                    a: Occurrences, b: Occurrences, c: Occurrences, d: Occurrences)
    requires |ms| == 4
    requires MemberOccurrences(exclusions, publicClass, kind, ms[0]) == Ok(a)
    requires MemberOccurrences(exclusions, publicClass, kind, ms[1]) == Ok(b)
    requires MemberOccurrences(exclusions, publicClass, kind, ms[2]) == Ok(c)
    requires MemberOccurrences(exclusions, publicClass, kind, ms[3]) == Ok(d)
    ensures MembersOccurrences(exclusions, publicClass, kind, ms) == Ok(a + b + c + d)
  {
    OneMember(exclusions, publicClass, kind, ms[0]);
    assert ms[..1] == [ms[0]];
    assert MembersOccurrences(exclusions, publicClass, kind, ms[..1]) == Ok(a);
    assert ms[..2][..1] == ms[..1] && ms[..2][1] == ms[1];
    assert MembersOccurrences(exclusions, publicClass, kind, ms[..2]) == Ok(a + b);
    assert ms[..3][..2] == ms[..2] && ms[..3][2] == ms[2];
    assert MembersOccurrences(exclusions, publicClass, kind, ms[..3]) == Ok(a + b + c);
    assert ms[..3] == ms[..|ms| - 1];
  }
}

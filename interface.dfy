/**
 * The interface check: the types a compiled class exposes through the
 * descriptors of its public and protected fields and methods, less those
 * that an exclusion pattern matches.
 *
 * Scan is the specification: the occurrences the check reports for a class,
 * visiting the class header, then its fields, then its methods, in file
 * order. InterfaceClassVisitor and Interface are the objects that compute
 * it step by step.
 */
module InterfaceCheck {
  import opened Results
  import opened Globs
  import opened Regex
  import opened GlobPatterns
  import opened Descriptors
  import opened Utils

  /** Access flags of Table 4.1-B of the Java Virtual Machine Specification
      (the same bits mark fields and methods). */
  const ACC_PUBLIC: bv32 := 0x0001
  const ACC_PROTECTED: bv32 := 0x0004
  const ACC_PUBLIC_OR_PROTECTED: bv32 := ACC_PUBLIC | ACC_PROTECTED

  /** The line number recorded when it is not known. */
  const UNKNOWN_LINE: int := -1

  predicate IsPublicOrProtected(access: bv32)
  {
    access & ACC_PUBLIC_OR_PROTECTED != 0
  }

  /** A type the checked class exposes: the member name (empty when the
      token is reported without one), the line, and the dotted type name. */
  datatype ViolationOccurrence = ViolationOccurrence(name: string, lineNumber: int, token: string)

  /** A field or method as the class file declares it. */
  datatype Member = Member(access: bv32, name: string, desc: string)

  /** The parts of a decoded class file the check visits, in file order. */
  datatype ClassFile = ClassFile(access: bv32, name: string, fields: seq<Member>, methods: seq<Member>)

  datatype CheckError = MalformedDescriptor(desc: string)

  datatype MemberKind = FieldKind | MethodKind

  type Occurrences = seq<ViolationOccurrence>

  // ---------------------------------------------------------------------
  // Exclusions.

  /** The exclusion patterns built from the configured globs. */
  function ExclusionSet(globs: seq<string>): set<string>
  {
    set g | g in globs :: PatternOf(g)
  }

  /** Some exclusion pattern matches the whole token. */
  predicate Excluded(exclusions: set<string>, token: string)
  {
    exists p :: p in exclusions && PatternMatches(p, token)
  }

  // ---------------------------------------------------------------------
  // What the check reports.

  /** The occurrence one decoded type gives rise to: one for an object type
      whose dotted name no exclusion matches, none otherwise (primitive,
      void and array types are never reported). */
  function TokenOccurrence(exclusions: set<string>, t: JType, name: string, lineNumber: int): Occurrences
  {
    if t.Object? && !Excluded(exclusions, ClassName(t.internalName))
    then [ViolationOccurrence(name, lineNumber, ClassName(t.internalName))]
    else []
  }

  /** The occurrences of a list of types, left to right. */
  function TypesOccurrences(exclusions: set<string>, ts: seq<JType>): Occurrences
  {
    if ts == [] then []
    else TokenOccurrence(exclusions, ts[0], "", UNKNOWN_LINE) + TypesOccurrences(exclusions, ts[1..])
  }

  /** The first error of two steps, or their occurrences one after the
      other. */
  function Then(a: Result<Occurrences, CheckError>, b: Result<Occurrences, CheckError>): Result<Occurrences, CheckError>
  {
    match a
    case Err(e) => Err(e)
    case Ok(x) =>
      match b
      case Err(e) => Err(e)
      case Ok(y) => Ok(x + y)
  }

  /** The types a member's descriptor makes the check look at, in the
      order it looks at them: a field's type; a method's return type, then
      its parameter types. None when the descriptor is malformed. */
  function CheckedTypes(kind: MemberKind, desc: string): Option<seq<JType>>
  {
    match kind
    case FieldKind =>
      (match ParseFieldDescriptor(desc)
       case None => None
       case Some(t) => Some([t]))
    case MethodKind =>
      (match ParseMethodDescriptor(desc)
       case None => None
       case Some(md) => Some([md.ret] + md.params))
  }

  /** One member: nothing when the class or the member is neither public nor
      protected; otherwise the occurrences of the types it exposes. */
  function MemberOccurrences(exclusions: set<string>, publicClass: bool, kind: MemberKind, m: Member)
    : Result<Occurrences, CheckError>
  {
    if !(publicClass && IsPublicOrProtected(m.access)) then Ok([])
    else
      match CheckedTypes(kind, m.desc)
      case None => Err(MalformedDescriptor(m.desc))
      case Some(ts) => Ok(TypesOccurrences(exclusions, ts))
  }

  /** The members of one kind, in file order. */
  function MembersOccurrences(exclusions: set<string>, publicClass: bool, kind: MemberKind, ms: seq<Member>)
    : Result<Occurrences, CheckError>
    decreases |ms|
  {
    if ms == [] then Ok([])
    else Then(MembersOccurrences(exclusions, publicClass, kind, ms[..|ms| - 1]),
              MemberOccurrences(exclusions, publicClass, kind, ms[|ms| - 1]))
  }

  /** The check of a whole class: the header decides whether the class is
      public, then the fields and then the methods are visited. */
  function Scan(exclusions: set<string>, cls: ClassFile): Result<Occurrences, CheckError>
  {
    var publicClass := IsPublicOrProtected(cls.access);
    Then(MembersOccurrences(exclusions, publicClass, FieldKind, cls.fields),
         MembersOccurrences(exclusions, publicClass, MethodKind, cls.methods))
  }

  // ---------------------------------------------------------------------
  // The visitor.

  class InterfaceClassVisitor {
    const exclusions: set<string>
    var occurrences: Occurrences
    var publicClass: bool
    /** None until the header has been visited. */
    var packageName: Option<string>

    constructor(exclusions: set<string>)
      ensures this.exclusions == exclusions
      ensures occurrences == [] && publicClass && packageName == None
    {
      this.exclusions := exclusions;
      occurrences := [];
      publicClass := true;
      packageName := None;
    }

    /** The class header: a class that is neither public nor protected turns
        the rest of the check off. */
    method Visit(access: bv32, name: string)
      modifies this
      ensures publicClass == (old(publicClass) && IsPublicOrProtected(access))
      ensures packageName == Some(PackageName(name))
      ensures occurrences == old(occurrences)
    {
      if access & ACC_PUBLIC_OR_PROTECTED == 0 {
        publicClass := false;
      }
      if '/' in name {
        var i := LastIndexOf(name, '/').value;
        packageName := Some(ClassName(name[..i]));
      } else {
        packageName := Some([]);
      }
    }

    /** A field: its type is checked when the class and the field are public
        or protected. False when the descriptor is malformed. */
    method VisitField(access: bv32, name: string, desc: string) returns (decoded: bool)
      modifies this
      ensures publicClass == old(publicClass) && packageName == old(packageName)
      ensures decoded <==> MemberOccurrences(exclusions, publicClass, FieldKind, Member(access, name, desc)).Ok?
      ensures decoded ==>
        occurrences == old(occurrences) + MemberOccurrences(exclusions, publicClass, FieldKind, Member(access, name, desc)).value
      ensures !decoded ==> occurrences == old(occurrences)
    {
      decoded := true;
      if publicClass && access & ACC_PUBLIC_OR_PROTECTED != 0 {
        var t := ParseFieldDescriptor(desc);
        if t.None? {
          return false;
        }
        CheckToken(t.value, "", UNKNOWN_LINE);
        TypesOccurrencesCons(exclusions, t.value, []);
        assert [t.value] + [] == [t.value];
      }
    }

    /** A method: its return type and then each parameter type, left to
        right, are checked when the class and the method are public or
        protected. False when the descriptor is malformed. */
    method VisitMethod(access: bv32, name: string, desc: string) returns (decoded: bool)
      modifies this
      ensures publicClass == old(publicClass) && packageName == old(packageName)
      ensures decoded <==> MemberOccurrences(exclusions, publicClass, MethodKind, Member(access, name, desc)).Ok?
      ensures decoded ==>
        occurrences == old(occurrences) + MemberOccurrences(exclusions, publicClass, MethodKind, Member(access, name, desc)).value
      ensures !decoded ==> occurrences == old(occurrences)
    {
      decoded := true;
      if publicClass && access & ACC_PUBLIC_OR_PROTECTED != 0 {
        var md := ParseMethodDescriptor(desc);
        if md.None? {
          return false;
        }
        CheckToken(md.value.ret, "", UNKNOWN_LINE);
        CheckTokens(md.value.params);
        TypesOccurrencesCons(exclusions, md.value.ret, md.value.params);
      }
    }

    /** The parameter types of a checked method, left to right. */
    method CheckTokens(types: seq<JType>)
      modifies this
      ensures publicClass == old(publicClass) && packageName == old(packageName)
      ensures occurrences == old(occurrences) + TypesOccurrences(exclusions, types)
    {
      var k := 0;
      while k < |types|
        invariant 0 <= k <= |types|
        invariant publicClass == old(publicClass) && packageName == old(packageName)
        invariant occurrences == old(occurrences) + TypesOccurrences(exclusions, types[..k])
      {
        CheckToken(types[k], "", UNKNOWN_LINE);
        TypesOccurrencesSnoc(exclusions, types, k);
        k := k + 1;
      }
      assert types[..|types|] == types;
    }

    /** A field or a method, by its kind. */
    method VisitMember(kind: MemberKind, m: Member) returns (decoded: bool)
      modifies this
      ensures publicClass == old(publicClass) && packageName == old(packageName)
      ensures decoded <==> MemberOccurrences(exclusions, publicClass, kind, m).Ok?
      ensures decoded ==> occurrences == old(occurrences) + MemberOccurrences(exclusions, publicClass, kind, m).value
      ensures !decoded ==> occurrences == old(occurrences)
    {
      if kind == FieldKind {
        decoded := VisitField(m.access, m.name, m.desc);
      } else {
        decoded := VisitMethod(m.access, m.name, m.desc);
      }
    }

    /** One decoded type: an object type is reported unless some exclusion
        pattern matches its dotted name; the patterns are tried in no
        particular order and the first match ends the search. */
    method CheckToken(t: JType, name: string, lineNumber: int)
      modifies this
      ensures publicClass == old(publicClass) && packageName == old(packageName)
      ensures occurrences == old(occurrences) + TokenOccurrence(exclusions, t, name, lineNumber)
    {
      if !t.Object? {
        return;
      }
      var token := ClassName(t.internalName);
      var remaining := exclusions;
      while remaining != {}
        invariant remaining <= exclusions
        invariant forall p :: p in exclusions && p !in remaining ==> !PatternMatches(p, token)
        invariant occurrences == old(occurrences)
        invariant publicClass == old(publicClass) && packageName == old(packageName)
        decreases remaining
      {
        var pattern :| pattern in remaining;
        if PatternMatches(pattern, token) {
          return;
        }
        remaining := remaining - {pattern};
      }
      occurrences := occurrences + [ViolationOccurrence(name, lineNumber, token)];
    }

    method GetOccurrences() returns (r: Occurrences)
      ensures r == occurrences
    {
      r := occurrences;
    }
  }

  // ---------------------------------------------------------------------
  // The check.

  class Interface {
    const exclusions: set<string>

    /** Every configured glob is translated to a pattern; the patterns are
        kept as a set. */
    constructor(globs: seq<string>)
      ensures exclusions == ExclusionSet(globs)
    {
      var patterns: seq<string> := [];
      var i := 0;
      while i < |globs|
        invariant 0 <= i <= |globs|
        invariant |patterns| == i
        invariant forall k :: 0 <= k < i ==> patterns[k] == PatternOf(globs[k])
      {
        var pattern := GlobToPattern(globs[i]);
        patterns := patterns + [pattern];
        i := i + 1;
      }
      var created := CreateImmutableSet(Some(patterns));
      PatternsOfGlobs(globs, patterns);
      exclusions := created.value;
    }

    /** One class, visited by a fresh visitor: the header, every field and
        every method in file order. A malformed descriptor ends the check. */
    method Check(cls: ClassFile) returns (r: Result<Occurrences, CheckError>)
      ensures r == Scan(exclusions, cls)
    {
      var publicClass := IsPublicOrProtected(cls.access);
      var visitor := new InterfaceClassVisitor(exclusions);
      visitor.Visit(cls.access, cls.name);
      assert visitor.exclusions == exclusions && visitor.publicClass == publicClass;
      var fields := AcceptMembers(visitor, FieldKind, cls.fields);
      assert fields == MembersOccurrences(exclusions, publicClass, FieldKind, cls.fields);
      if fields.Err? {
        return fields;
      }
      var afterFields := visitor.occurrences;
      var methods := AcceptMembers(visitor, MethodKind, cls.methods);
      assert methods == MembersOccurrences(exclusions, publicClass, MethodKind, cls.methods);
      if methods.Err? {
        return methods;
      }
      assert afterFields == fields.value;
      var occurrences := visitor.GetOccurrences();
      assert occurrences == fields.value + methods.value;
      r := Ok(occurrences);
    }
  }

  /** Each check builds a fresh visitor, so checking the same class twice
      with the same exclusions yields the same occurrences. */
  method CheckTwice(globs: seq<string>, cls: ClassFile)
    returns (first: Result<Occurrences, CheckError>, second: Result<Occurrences, CheckError>)
    ensures first == second
    ensures first == Scan(ExclusionSet(globs), cls)
  {
    var checker := new Interface(globs);
    first := checker.Check(cls);
    second := checker.Check(cls);
  }

  /** The members of one kind handed to the visitor in file order, as the
      class reader does; the first malformed descriptor ends the visit. */
  method AcceptMembers(visitor: InterfaceClassVisitor, kind: MemberKind, ms: seq<Member>)
    returns (r: Result<Occurrences, CheckError>)
    modifies visitor
    ensures visitor.publicClass == old(visitor.publicClass) && visitor.packageName == old(visitor.packageName)
    ensures r == MembersOccurrences(visitor.exclusions, visitor.publicClass, kind, ms)
    ensures r.Ok? ==> visitor.occurrences == old(visitor.occurrences) + r.value
  {
    var exclusions := visitor.exclusions;
    var publicClass := visitor.publicClass;
    var packageName := visitor.packageName;
    var start := visitor.occurrences;
    var i := 0;
    var found: Occurrences := [];
    while i < |ms|
      invariant 0 <= i <= |ms|
      invariant visitor.exclusions == exclusions && visitor.publicClass == publicClass
      invariant visitor.packageName == packageName
      invariant MembersOccurrences(exclusions, publicClass, kind, ms[..i]) == Ok(found)
      invariant visitor.occurrences == start + found
    {
      var decoded;
      decoded, found := AcceptMember(visitor, exclusions, publicClass, kind, ms, i, start, found);
      if !decoded {
        FirstErrorStands(exclusions, publicClass, kind, ms, i + 1);
        return Err(MalformedDescriptor(ms[i].desc));
      }
      i := i + 1;
    }
    assert ms[..|ms|] == ms;
    r := Ok(found);
  }

  /** The i-th member handed to the visitor. */
  method AcceptMember(visitor: InterfaceClassVisitor, exclusions: set<string>, publicClass: bool, kind: MemberKind,
                      ms: seq<Member>, i: nat, start: Occurrences, found: Occurrences)
    returns (decoded: bool, found': Occurrences)
    requires i < |ms|
    requires visitor.exclusions == exclusions && visitor.publicClass == publicClass
    requires MembersOccurrences(exclusions, publicClass, kind, ms[..i]) == Ok(found)
    requires visitor.occurrences == start + found
    modifies visitor
    ensures visitor.publicClass == publicClass && visitor.packageName == old(visitor.packageName)
    ensures MembersOccurrences(exclusions, publicClass, kind, ms[..i + 1])
         == if decoded then Ok(found') else Err(MalformedDescriptor(ms[i].desc))
    ensures decoded ==> visitor.occurrences == start + found'
  {
    var m := ms[i];
    decoded := visitor.VisitMember(kind, m);
    AcceptStep(exclusions, publicClass, kind, ms, i, found);
    found' := found;
    if decoded {
      var added := MemberOccurrences(exclusions, publicClass, kind, m).value;
      assert start + (found + added) == (start + found) + added;
      found' := found + added;
    }
  }

  /** One more member: its occurrences follow the earlier ones, or its
      malformed descriptor is the error of the whole list. */
  lemma AcceptStep(exclusions: set<string>, publicClass: bool, kind: MemberKind, ms: seq<Member>, i: nat,
                   found: Occurrences)
    requires i < |ms|
    requires MembersOccurrences(exclusions, publicClass, kind, ms[..i]) == Ok(found)
    ensures var step := MemberOccurrences(exclusions, publicClass, kind, ms[i]);
      MembersOccurrences(exclusions, publicClass, kind, ms[..i + 1])
      == if step.Ok? then Ok(found + step.value) else Err(MalformedDescriptor(ms[i].desc))
  {
    assert ms[..i + 1][..i] == ms[..i];
  }

  lemma PatternsOfGlobs(globs: seq<string>, patterns: seq<string>)
    requires |patterns| == |globs|
    requires forall k :: 0 <= k < |globs| ==> patterns[k] == PatternOf(globs[k])
    ensures (set x | x in patterns) == ExclusionSet(globs)
  {
    forall x | x in patterns
      ensures x in ExclusionSet(globs)
    {
      var k :| 0 <= k < |patterns| && patterns[k] == x;
      assert globs[k] in globs;
    }
    forall x | x in ExclusionSet(globs)
      ensures x in patterns
    {
      var g :| g in globs && PatternOf(g) == x;
      var k :| 0 <= k < |globs| && globs[k] == g;
      assert patterns[k] == x;
    }
  }

  /** Once a prefix of the members ends in an error, so does the whole
      list, with the same error. */
  lemma {:induction false} FirstErrorStands(exclusions: set<string>, publicClass: bool, kind: MemberKind,
                                            ms: seq<Member>, i: nat)
    requires i <= |ms|
    requires MembersOccurrences(exclusions, publicClass, kind, ms[..i]).Err?
    ensures MembersOccurrences(exclusions, publicClass, kind, ms)
         == MembersOccurrences(exclusions, publicClass, kind, ms[..i])
    decreases |ms| - i
  {
    if i < |ms| {
      var next := ms[..i + 1];
      assert next[..|next| - 1] == ms[..i];
      FirstErrorStands(exclusions, publicClass, kind, ms, i + 1);
    } else {
      assert ms[..i] == ms;
    }
  }

  // ---------------------------------------------------------------------
  // Properties of the check.

  lemma {:induction false} TypesOccurrencesConcat(exclusions: set<string>, a: seq<JType>, b: seq<JType>)
    ensures TypesOccurrences(exclusions, a + b) == TypesOccurrences(exclusions, a) + TypesOccurrences(exclusions, b)
    decreases |a|
  {
    if a == [] {
      assert a + b == b;
    } else {
      assert (a + b)[0] == a[0] && (a + b)[1..] == a[1..] + b;
      TypesOccurrencesConcat(exclusions, a[1..], b);
    }
  }

  lemma TypesOccurrencesCons(exclusions: set<string>, t: JType, ts: seq<JType>)
    ensures TypesOccurrences(exclusions, [t] + ts) == TokenOccurrence(exclusions, t, "", UNKNOWN_LINE) + TypesOccurrences(exclusions, ts)
  {
    assert ([t] + ts)[0] == t && ([t] + ts)[1..] == ts;
  }

  lemma TypesOccurrencesSnoc(exclusions: set<string>, ts: seq<JType>, k: nat)
    requires k < |ts|
    ensures TypesOccurrences(exclusions, ts[..k + 1])
         == TypesOccurrences(exclusions, ts[..k]) + TokenOccurrence(exclusions, ts[k], "", UNKNOWN_LINE)
  {
    assert ts[..k + 1] == ts[..k] + [ts[k]];
    TypesOccurrencesConcat(exclusions, ts[..k], [ts[k]]);
    assert [ts[k]][1..] == [];
  }

  /** Each type gives at most one occurrence, in the order of the types. */
  lemma {:induction false} TypesOccurrencesBound(exclusions: set<string>, ts: seq<JType>)
    ensures |TypesOccurrences(exclusions, ts)| <= |ts|
  {
    if ts != [] {
      TypesOccurrencesBound(exclusions, ts[1..]);
    }
  }

  /** A checked method reports at most one occurrence for its return type
      and one per parameter; the return type, when reported, comes first. */
  lemma MethodOccurrencesBound(exclusions: set<string>, publicClass: bool, m: Member, md: MethodDescriptor)
    requires publicClass && IsPublicOrProtected(m.access)
    requires ParseMethodDescriptor(m.desc) == Some(md)
    ensures MemberOccurrences(exclusions, publicClass, MethodKind, m).Ok?
    ensures var r := MemberOccurrences(exclusions, publicClass, MethodKind, m).value;
      && |r| <= 1 + |md.params|
      && (md.ret.Object? && !Excluded(exclusions, ClassName(md.ret.internalName)) ==>
            |r| > 0 && r[0].token == ClassName(md.ret.internalName))
  {
    TypesOccurrencesBound(exclusions, [md.ret] + md.params);
    TypesOccurrencesCons(exclusions, md.ret, md.params);
  }

  lemma {:induction false} NoObjectTypesNoOccurrences(exclusions: set<string>, ts: seq<JType>)
    requires forall k :: 0 <= k < |ts| ==> !ts[k].Object?
    ensures TypesOccurrences(exclusions, ts) == []
  {
    if ts != [] {
      NoObjectTypesNoOccurrences(exclusions, ts[1..]);
    }
  }

  /** A member whose descriptor names no object type (only primitive, void
      and array types) reports nothing. */
  lemma MemberWithoutObjectTypes(exclusions: set<string>, publicClass: bool, kind: MemberKind, m: Member)
    requires forall ts: seq<JType> :: CheckedTypes(kind, m.desc) == Some(ts) ==>
      forall k :: 0 <= k < |ts| ==> !ts[k].Object?
    ensures MemberOccurrences(exclusions, publicClass, kind, m).Ok? ==>
      MemberOccurrences(exclusions, publicClass, kind, m).value == []
  {
    match CheckedTypes(kind, m.desc)
    case None =>
    case Some(ts) =>
      NoObjectTypesNoOccurrences(exclusions, ts);
  }

  lemma {:induction false} MembersOfClosedClass(exclusions: set<string>, kind: MemberKind, ms: seq<Member>)
    ensures MembersOccurrences(exclusions, false, kind, ms) == Ok([])
    decreases |ms|
  {
    if ms != [] {
      MembersOfClosedClass(exclusions, kind, ms[..|ms| - 1]);
      assert MemberOccurrences(exclusions, false, kind, ms[|ms| - 1]) == Ok([]);
      var none: Occurrences := [];
      assert none + none == none;
    }
  }

  /** A class that is neither public nor protected reports nothing, and its
      descriptors are not even read, whatever its members' own flags. */
  lemma NonPublicClassScansEmpty(exclusions: set<string>, cls: ClassFile)
    requires !IsPublicOrProtected(cls.access)
    ensures Scan(exclusions, cls) == Ok([])
  {
    MembersOfClosedClass(exclusions, FieldKind, cls.fields);
    MembersOfClosedClass(exclusions, MethodKind, cls.methods);
    var none: Occurrences := [];
    assert none + none == none;
  }

  lemma ThenAssociative(a: Result<Occurrences, CheckError>, b: Result<Occurrences, CheckError>,
                        c: Result<Occurrences, CheckError>)
    ensures Then(Then(a, b), c) == Then(a, Then(b, c))
  {
    if a.Ok? && b.Ok? && c.Ok? {
      assert (a.value + b.value) + c.value == a.value + (b.value + c.value);
    }
  }

  /** The members of a concatenated list report the first list's
      occurrences, then the second's. */
  lemma {:induction false} MembersOccurrencesConcat(exclusions: set<string>, publicClass: bool, kind: MemberKind,
                                                    a: seq<Member>, b: seq<Member>)
    ensures MembersOccurrences(exclusions, publicClass, kind, a + b)
         == Then(MembersOccurrences(exclusions, publicClass, kind, a),
                 MembersOccurrences(exclusions, publicClass, kind, b))
    decreases |b|
  {
    var A := MembersOccurrences(exclusions, publicClass, kind, a);
    if b == [] {
      assert a + b == a;
      if A.Ok? {
        assert A.value + [] == A.value;
      }
    } else {
      var ab := a + b;
      var b' := b[..|b| - 1];
      assert ab[..|ab| - 1] == a + b' && ab[|ab| - 1] == b[|b| - 1];
      MembersOccurrencesConcat(exclusions, publicClass, kind, a, b');
      ThenAssociative(A, MembersOccurrences(exclusions, publicClass, kind, b'),
                      MemberOccurrences(exclusions, publicClass, kind, b[|b| - 1]));
    }
  }

  /** A field or method that is neither public nor protected contributes
      nothing: removing it leaves the report unchanged. */
  lemma HiddenMemberContributesNothing(exclusions: set<string>, publicClass: bool, kind: MemberKind,
                                       before: seq<Member>, m: Member, after: seq<Member>)
    requires !IsPublicOrProtected(m.access)
    ensures MembersOccurrences(exclusions, publicClass, kind, before + [m] + after)
         == MembersOccurrences(exclusions, publicClass, kind, before + after)
  {
    var B := MembersOccurrences(exclusions, publicClass, kind, before);
    var A := MembersOccurrences(exclusions, publicClass, kind, after);
    MembersOccurrencesConcat(exclusions, publicClass, kind, before + [m], after);
    MembersOccurrencesConcat(exclusions, publicClass, kind, before, [m]);
    MembersOccurrencesConcat(exclusions, publicClass, kind, before, after);
    assert [m][..0] == [] && [m][0] == m;
    assert MemberOccurrences(exclusions, publicClass, kind, m) == Ok([]);
    var none: Occurrences := [];
    assert none + none == none;
    assert MembersOccurrences(exclusions, publicClass, kind, [m]) == Ok([]);
    if B.Ok? {
      assert B.value + [] == B.value;
    }
  }

  predicate WellFormedOccurrences(exclusions: set<string>, os: Occurrences)
  {
    forall k :: 0 <= k < |os| ==>
      os[k].name == "" && os[k].lineNumber == UNKNOWN_LINE && !Excluded(exclusions, os[k].token)
  }

  lemma WellFormedThen(exclusions: set<string>, a: Result<Occurrences, CheckError>, b: Result<Occurrences, CheckError>)
    requires a.Ok? ==> WellFormedOccurrences(exclusions, a.value)
    requires b.Ok? ==> WellFormedOccurrences(exclusions, b.value)
    ensures Then(a, b).Ok? ==> WellFormedOccurrences(exclusions, Then(a, b).value)
  {
    if a.Ok? && b.Ok? {
      var ab := a.value + b.value;
      assert forall k :: 0 <= k < |ab| ==> ab[k] == if k < |a.value| then a.value[k] else b.value[k - |a.value|];
    }
  }

  lemma {:induction false} TypesOccurrencesShape(exclusions: set<string>, ts: seq<JType>)
    ensures WellFormedOccurrences(exclusions, TypesOccurrences(exclusions, ts))
  {
    if ts != [] {
      TypesOccurrencesShape(exclusions, ts[1..]);
      WellFormedThen(exclusions, Ok(TokenOccurrence(exclusions, ts[0], "", UNKNOWN_LINE)),
                     Ok(TypesOccurrences(exclusions, ts[1..])));
    }
  }

  lemma MemberOccurrencesShape(exclusions: set<string>, publicClass: bool, kind: MemberKind, m: Member)
    ensures var r := MemberOccurrences(exclusions, publicClass, kind, m);
      r.Ok? ==> WellFormedOccurrences(exclusions, r.value)
  {
    match CheckedTypes(kind, m.desc)
    case None =>
    case Some(ts) =>
      TypesOccurrencesShape(exclusions, ts);
  }

  lemma {:induction false} MembersOccurrencesShape(exclusions: set<string>, publicClass: bool, kind: MemberKind,
                                                   ms: seq<Member>)
    ensures var r := MembersOccurrences(exclusions, publicClass, kind, ms);
      r.Ok? ==> WellFormedOccurrences(exclusions, r.value)
    decreases |ms|
  {
    if ms != [] {
      MembersOccurrencesShape(exclusions, publicClass, kind, ms[..|ms| - 1]);
      MemberOccurrencesShape(exclusions, publicClass, kind, ms[|ms| - 1]);
      WellFormedThen(exclusions, MembersOccurrences(exclusions, publicClass, kind, ms[..|ms| - 1]),
                     MemberOccurrences(exclusions, publicClass, kind, ms[|ms| - 1]));
    }
  }

  /** Every reported occurrence carries no member name, the unknown line
      number, and a token that no exclusion pattern matches. */
  lemma ScanOccurrencesShape(exclusions: set<string>, cls: ClassFile)
    requires Scan(exclusions, cls).Ok?
    ensures WellFormedOccurrences(exclusions, Scan(exclusions, cls).value)
  {
    var publicClass := IsPublicOrProtected(cls.access);
    MembersOccurrencesShape(exclusions, publicClass, FieldKind, cls.fields);
    MembersOccurrencesShape(exclusions, publicClass, MethodKind, cls.methods);
    WellFormedThen(exclusions, MembersOccurrences(exclusions, publicClass, FieldKind, cls.fields),
                   MembersOccurrences(exclusions, publicClass, MethodKind, cls.methods));
  }

  /** A token is excluded exactly when the pattern of one of the configured
      globs matches it; the order of the globs and repetitions among them
      make no difference. */
  lemma ExcludedIffSomeGlob(globs: seq<string>, token: string)
    ensures Excluded(ExclusionSet(globs), token)
        <==> exists g :: g in globs && PatternMatches(PatternOf(g), token)
  {
    if Excluded(ExclusionSet(globs), token) {
      var p :| p in ExclusionSet(globs) && PatternMatches(p, token);
      var g :| g in globs && PatternOf(g) == p;
    }
  }

  lemma ExclusionsIgnoreOrder(globs1: seq<string>, globs2: seq<string>, cls: ClassFile)
    requires forall g :: g in globs1 <==> g in globs2
    ensures ExclusionSet(globs1) == ExclusionSet(globs2)
    ensures Scan(ExclusionSet(globs1), cls) == Scan(ExclusionSet(globs2), cls)
  {
    assert forall p :: p in ExclusionSet(globs1) ==> p in ExclusionSet(globs2) by {
      forall p | p in ExclusionSet(globs1)
        ensures p in ExclusionSet(globs2)
      {
        var g :| g in globs1 && PatternOf(g) == p;
        assert g in globs2;
      }
    }
    assert forall p :: p in ExclusionSet(globs2) ==> p in ExclusionSet(globs1) by {
      forall p | p in ExclusionSet(globs2)
        ensures p in ExclusionSet(globs1)
      {
        var g :| g in globs2 && PatternOf(g) == p;
        assert g in globs1;
      }
    }
  }

  /** For globs without regular-expression metacharacters and a token
      without line terminators, exclusion is glob matching. */
  lemma ExcludedIffSomeGlobMatches(globs: seq<string>, token: string)
    requires forall g :: g in globs ==> MetaFree(g)
    requires NoLineTerminator(token)
    ensures Excluded(ExclusionSet(globs), token)
        <==> exists g :: g in globs && GlobMatch(Tokenize(g), token)
  {
    ExcludedIffSomeGlob(globs, token);
    forall g | g in globs
      ensures PatternMatches(PatternOf(g), token) <==> GlobMatch(Tokenize(g), token)
    {
      PatternMatchesIffGlobMatches(g, token);
    }
  }

  /** An object type is reported, once and under its dotted name, exactly
      when no configured glob matches that name; otherwise it adds nothing. */
  lemma ObjectReportedIffNoGlobMatches(globs: seq<string>, n: string)
    requires forall g :: g in globs ==> MetaFree(g)
    requires NoLineTerminator(ClassName(n))
    ensures TokenOccurrence(ExclusionSet(globs), Object(n), "", UNKNOWN_LINE)
            == [ViolationOccurrence("", UNKNOWN_LINE, ClassName(n))]
        <==> forall g :: g in globs ==> !GlobMatch(Tokenize(g), ClassName(n))
    ensures TokenOccurrence(ExclusionSet(globs), Object(n), "", UNKNOWN_LINE) == []
        <==> exists g :: g in globs && GlobMatch(Tokenize(g), ClassName(n))
  {
    ExcludedIffSomeGlobMatches(globs, ClassName(n));
  }
}

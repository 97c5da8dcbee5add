/**
 * Type descriptors of compiled classes, after sections 4.2.1, 4.3.2 and
 * 4.3.3 of the Java Virtual Machine Specification: their structure, their
 * text, the reading of that text back, and the dotted class name a
 * reference type is reported under.
 *
 * The scan decodes descriptors with the bytecode library's Type class; this
 * module stands in for it and reads well-formed descriptors only.
 */
module Descriptors {
  import opened Results

  /** The primitive field types, each written as one letter. */
  datatype BaseType = Byte | Char | Double | Float | Int | Long | Short | Boolean

  /** A type as a descriptor denotes it. An object type carries its internal
      name, the binary name with `/` between the package segments. */
  datatype JType =
    | Base(base: BaseType)
    | Void
    | Object(internalName: string)
    | Array(component: JType)

  datatype MethodDescriptor = MethodDescriptor(params: seq<JType>, ret: JType)

  function BaseLetter(b: BaseType): char
  {
    match b
    case Byte => 'B'
    case Char => 'C'
    case Double => 'D'
    case Float => 'F'
    case Int => 'I'
    case Long => 'J'
    case Short => 'S'
    case Boolean => 'Z'
  }

  /** The primitive type a descriptor letter stands for, if any. */
  function BaseOfLetter(c: char): (r: Option<BaseType>)
    ensures r.Some? ==> BaseLetter(r.value) == c
    ensures forall b :: BaseLetter(b) == c ==> r == Some(b)
  {
    if c == 'B' then Some(Byte)
    else if c == 'C' then Some(Char)
    else if c == 'D' then Some(Double)
    else if c == 'F' then Some(Float)
    else if c == 'I' then Some(Int)
    else if c == 'J' then Some(Long)
    else if c == 'S' then Some(Short)
    else if c == 'Z' then Some(Boolean)
    else None
  }

  /** A type a field or a parameter can have: not void, and an internal name
      that the terminating `;` cannot be confused with. */
  predicate IsFieldType(t: JType)
  {
    match t
    case Base(_) => true
    case Void => false
    case Object(n) => ';' !in n
    case Array(c) => IsFieldType(c)
  }

  predicate IsReturnType(t: JType)
  {
    t == Void || IsFieldType(t)
  }

  predicate IsMethodDescriptor(m: MethodDescriptor)
  {
    (forall k :: 0 <= k < |m.params| ==> IsFieldType(m.params[k])) && IsReturnType(m.ret)
  }

  // ---------------------------------------------------------------------
  // Descriptor text.

  function Encode(t: JType): string
  {
    match t
    case Base(b) => [BaseLetter(b)]
    case Void => ['V']
    case Object(n) => ['L'] + n + [';']
    case Array(c) => ['['] + Encode(c)
  }

  function EncodeParams(ps: seq<JType>): string
  {
    if ps == [] then [] else Encode(ps[0]) + EncodeParams(ps[1..])
  }

  function EncodeMethod(m: MethodDescriptor): string
  {
    ['('] + EncodeParams(m.params) + [')'] + Encode(m.ret)
  }

  // ---------------------------------------------------------------------
  // Reading descriptor text.

  /** The text before the first `c` in s and the text after it; None when
      s holds no `c`. */
  function SplitAtFirst(s: string, c: char): (r: Option<(string, string)>)
    ensures r.Some? ==> c !in r.value.0 && |r.value.0| + |r.value.1| < |s|
    ensures r.None? ==> c !in s
  {
    if s == [] then None
    else if s[0] == c then Some(([], s[1..]))
    else
      match SplitAtFirst(s[1..], c)
      case None => None
      case Some((a, b)) => Some(([s[0]] + a, b))
  }

  /** One field type read from the front of s, with the text after it. */
  function ParseFieldType(s: string): (r: Option<(JType, string)>)
    ensures r.Some? ==> IsFieldType(r.value.0) && |r.value.1| < |s|
    decreases |s|
  {
    if s == [] then None
    else
      match BaseOfLetter(s[0])
      case Some(b) => Some((Base(b), s[1..]))
      case None =>
        if s[0] == '[' then
          match ParseFieldType(s[1..])
          case None => None
          case Some((t, rest)) => Some((Array(t), rest))
        else if s[0] == 'L' then
          match SplitAtFirst(s[1..], ';')
          case None => None
          case Some((name, rest)) => Some((Object(name), rest))
        else None
  }

  /** Parameter types read up to and including the closing `)`. */
  function ParseParams(s: string): (r: Option<(seq<JType>, string)>)
    ensures r.Some? ==> |r.value.1| < |s|
    decreases |s|
  {
    if s == [] then None
    else if s[0] == ')' then Some(([], s[1..]))
    else
      match ParseFieldType(s)
      case None => None
      case Some((t, rest)) =>
        match ParseParams(rest)
        case None => None
        case Some((ts, after)) => Some(([t] + ts, after))
  }

  /** A whole field descriptor, as read for a field's type. */
  function ParseFieldDescriptor(s: string): (r: Option<JType>)
    ensures r.Some? ==> IsFieldType(r.value)
  {
    match ParseFieldType(s)
    case Some((t, rest)) => if rest == [] then Some(t) else None
    case None => None
  }

  /** A whole method descriptor: `(`, the parameter types, `)`, then the
      return type or `V`. */
  function ParseMethodDescriptor(s: string): Option<MethodDescriptor>
  {
    if s == [] || s[0] != '(' then None
    else
      match ParseParams(s[1..])
      case None => None
      case Some((ps, rest)) =>
        if rest == ['V'] then Some(MethodDescriptor(ps, Void))
        else
          match ParseFieldDescriptor(rest)
          case None => None
          case Some(t) => Some(MethodDescriptor(ps, t))
  }

  // ---------------------------------------------------------------------
  // Reading is the inverse of writing, in both directions.

  lemma {:induction false} SplitAtFirstSound(s: string, c: char)
    requires SplitAtFirst(s, c).Some?
    ensures var (a, b) := SplitAtFirst(s, c).value; s == a + [c] + b
    decreases |s|
  {
    if s[0] != c {
      SplitAtFirstSound(s[1..], c);
      var (a, b) := SplitAtFirst(s[1..], c).value;
      assert s == [s[0]] + s[1..];
      assert [s[0]] + (a + [c] + b) == [s[0]] + a + [c] + b;
    }
  }

  lemma {:induction false} SplitAtFirstOf(a: string, c: char, b: string)
    requires c !in a
    ensures SplitAtFirst(a + [c] + b, c) == Some((a, b))
    decreases |a|
  {
    var s := a + [c] + b;
    if a == [] {
      assert s == [c] + b;
    } else {
      assert s[0] == a[0] && s[1..] == a[1..] + [c] + b;
      SplitAtFirstOf(a[1..], c, b);
      assert [a[0]] + a[1..] == a;
    }
  }

  lemma {:induction false} ParseFieldTypeSound(s: string)
    requires ParseFieldType(s).Some?
    ensures var (t, rest) := ParseFieldType(s).value; s == Encode(t) + rest
    decreases |s|
  {
    var (t, rest) := ParseFieldType(s).value;
    assert s == [s[0]] + s[1..];
    match t
    case Base(b) =>
    case Void =>
    case Array(c) =>
      ParseFieldTypeSound(s[1..]);
      assert s[1..] == Encode(c) + rest;
    case Object(n) =>
      SplitAtFirstSound(s[1..], ';');
      assert s[1..] == n + [';'] + rest;
  }

  lemma {:induction false} ParseFieldTypeEncode(t: JType, rest: string)
    requires IsFieldType(t)
    ensures ParseFieldType(Encode(t) + rest) == Some((t, rest))
  {
    var s := Encode(t) + rest;
    match t
    case Base(b) =>
      assert s[0] == BaseLetter(b) && s[1..] == rest;
    case Void =>
    case Array(c) =>
      assert s[0] == '[' && s[1..] == Encode(c) + rest;
      ParseFieldTypeEncode(c, rest);
    case Object(n) =>
      assert s[0] == 'L' && s[1..] == n + [';'] + rest;
      SplitAtFirstOf(n, ';', rest);
  }

  /** Every parameter read is a field type. */
  lemma {:induction false} ParseParamsFieldTypes(s: string)
    requires ParseParams(s).Some?
    ensures forall k :: 0 <= k < |ParseParams(s).value.0| ==> IsFieldType(ParseParams(s).value.0[k])
    decreases |s|
  {
    if s[0] != ')' {
      var (t, rest) := ParseFieldType(s).value;
      ParseParamsFieldTypes(rest);
      var ts := ParseParams(rest).value.0;
      assert ParseParams(s).value.0 == [t] + ts;
    }
  }

  /** Whatever reads as a method descriptor is well formed. */
  lemma ParseMethodDescriptorSound(s: string)
    requires ParseMethodDescriptor(s).Some?
    ensures IsMethodDescriptor(ParseMethodDescriptor(s).value)
  {
    ParseParamsFieldTypes(s[1..]);
  }

  lemma {:induction false} ParseParamsSound(s: string)
    requires ParseParams(s).Some?
    ensures var (ps, rest) := ParseParams(s).value; s == EncodeParams(ps) + [')'] + rest
    decreases |s|
  {
    var (ps, rest) := ParseParams(s).value;
    if s[0] == ')' {
      assert EncodeParams([]) == [];
      assert s == [')'] + s[1..];
    } else {
      var (t, r1) := ParseFieldType(s).value;
      ParseFieldTypeSound(s);
      ParseParamsSound(r1);
      var (ts, after) := ParseParams(r1).value;
      assert ps == [t] + ts && after == rest;
      assert EncodeParams(ps) == Encode(t) + EncodeParams(ts) by {
        assert ps[0] == t && ps[1..] == ts;
      }
      assert s == Encode(t) + (EncodeParams(ts) + [')'] + rest);
    }
  }

  lemma {:induction false} ParseParamsEncode(ps: seq<JType>, rest: string)
    requires forall k :: 0 <= k < |ps| ==> IsFieldType(ps[k])
    ensures ParseParams(EncodeParams(ps) + [')'] + rest) == Some((ps, rest))
    decreases |ps|
  {
    var s := EncodeParams(ps) + [')'] + rest;
    if ps == [] {
      assert s == [')'] + rest;
    } else {
      var tail := EncodeParams(ps[1..]) + [')'] + rest;
      assert s == Encode(ps[0]) + tail;
      ParseFieldTypeEncode(ps[0], tail);
      assert Encode(ps[0]) != [];
      assert s[0] != ')' by {
        match ps[0]
        case Base(b) =>
        case Void =>
        case Array(c) =>
        case Object(n) =>
      }
      ParseParamsEncode(ps[1..], rest);
      assert [ps[0]] + ps[1..] == ps;
    }
  }

  /** A well-formed field descriptor reads back as its type, and every text
      that reads as a type is that type's descriptor. */
  lemma FieldDescriptorRoundTrip(t: JType, s: string)
    ensures IsFieldType(t) ==> ParseFieldDescriptor(Encode(t)) == Some(t)
    ensures ParseFieldDescriptor(s) == Some(t) ==> Encode(t) == s
  {
    if IsFieldType(t) {
      ParseFieldTypeEncode(t, []);
      assert Encode(t) + [] == Encode(t);
    }
    if ParseFieldDescriptor(s) == Some(t) {
      ParseFieldTypeSound(s);
      assert s == Encode(t) + [];
    }
  }

  /** A well-formed method descriptor reads back as itself, and every text
      that reads as a method descriptor is that descriptor's text. */
  lemma MethodDescriptorRoundTrip(m: MethodDescriptor, s: string)
    ensures IsMethodDescriptor(m) ==> ParseMethodDescriptor(EncodeMethod(m)) == Some(m)
    ensures ParseMethodDescriptor(s) == Some(m) ==> EncodeMethod(m) == s
  {
    if IsMethodDescriptor(m) {
      ParseEncodedMethod(m);
    }
    if ParseMethodDescriptor(s) == Some(m) {
      EncodeParsedMethod(m, s);
    }
  }

  lemma ParseEncodedMethod(m: MethodDescriptor)
    requires IsMethodDescriptor(m)
    ensures ParseMethodDescriptor(EncodeMethod(m)) == Some(m)
  {
    var e := EncodeMethod(m);
    assert e[0] == '(' && e[1..] == EncodeParams(m.params) + [')'] + Encode(m.ret);
    ParseParamsEncode(m.params, Encode(m.ret));
    if m.ret != Void {
      FieldDescriptorRoundTrip(m.ret, Encode(m.ret));
      assert Encode(m.ret) != ['V'] by {
        match m.ret
        case Base(b) =>
        case Void =>
        case Array(c) =>
        case Object(n) =>
      }
    }
  }

  lemma EncodeParsedMethod(m: MethodDescriptor, s: string)
    requires ParseMethodDescriptor(s) == Some(m)
    ensures EncodeMethod(m) == s
  {
    ParseParamsSound(s[1..]);
    var (ps, rest) := ParseParams(s[1..]).value;
    if rest != ['V'] {
      FieldDescriptorRoundTrip(m.ret, rest);
    }
    assert s == ['('] + s[1..];
  }

  // ---------------------------------------------------------------------
  // Names.

  /** The dotted class name of an internal name: every `/` becomes `.`. */
  function ClassName(internal: string): (r: string)
    ensures |r| == |internal|
    ensures forall k :: 0 <= k < |r| ==> r[k] == if internal[k] == '/' then '.' else internal[k]
  {
    if internal == [] then []
    else [if internal[0] == '/' then '.' else internal[0]] + ClassName(internal[1..])
  }

  /** The internal name of a dotted class name: every `.` becomes `/`. */
  function InternalName(dotted: string): (r: string)
    ensures |r| == |dotted|
    ensures forall k :: 0 <= k < |r| ==> r[k] == if dotted[k] == '.' then '/' else dotted[k]
  {
    if dotted == [] then []
    else [if dotted[0] == '.' then '/' else dotted[0]] + InternalName(dotted[1..])
  }

  /** Internal names hold no `.`, so the dotted name loses nothing. */
  lemma ClassNameInverse(internal: string)
    requires '.' !in internal
    ensures InternalName(ClassName(internal)) == internal
    ensures '/' !in ClassName(internal)
  {
    var d := ClassName(internal);
    assert forall k :: 0 <= k < |internal| ==> internal[k] != '.';
    assert forall k :: 0 <= k < |d| ==> d[k] != '/';
  }

  /** The index of the last `c` in s, if any. */
  function LastIndexOf(s: string, c: char): (r: Option<nat>)
    ensures r.Some? ==>
      r.value < |s| && s[r.value] == c && (forall k :: r.value < k < |s| ==> s[k] != c)
    ensures r.None? ==> c !in s
    decreases |s|
  {
    if s == [] then None
    else if s[|s| - 1] == c then Some(|s| - 1)
    else LastIndexOf(s[..|s| - 1], c)
  }

  /** The dotted package of a class given by its internal name; the empty
      string for a class in the unnamed package. */
  function PackageName(internal: string): string
  {
    match LastIndexOf(internal, '/')
    case None => []
    case Some(i) => ClassName(internal[..i])
  }

  /** The package of `p/Simple` is p in dotted form, whatever p holds. */
  lemma PackageNameOf(p: string, simple: string)
    requires '/' !in simple
    ensures PackageName(p + ['/'] + simple) == ClassName(p)
  {
    var s := p + ['/'] + simple;
    var r := LastIndexOf(s, '/');
    assert s[|p|] == '/';
    assert r.Some?;
    assert forall k :: |p| < k < |s| ==> s[k] == simple[k - |p| - 1];
    assert r.value == |p|;
    assert s[..|p|] == p;
  }

  /** A class in the unnamed package has the empty package name. */
  lemma PackageNameUnnamed(simple: string)
    requires '/' !in simple
    ensures PackageName(simple) == []
  {
  }
}

/**
 * What the translated pattern text means: for a glob whose characters are
 * not regular-expression syntax, java.util.regex reads the text back as
 * exactly the tokens of the glob, so a pattern matches a name just when
 * the glob does. Outside that class of globs the raw copy of a
 * metacharacter changes the meaning, shown here for `$`.
 */
module GlobPatterns {
  import opened Results
  import opened Globs
  import opened Regex

  /** Characters the translation copies raw although java.util.regex reads
      them as syntax. */
  predicate IsRegexMeta(c: char)
  {
    || c == '^' || c == '$' || c == '+' || c == '?' || c == '('
    || c == ')' || c == '{' || c == '[' || c == '|'
  }

  predicate MetaFree(g: string)
  {
    forall k :: 0 <= k < |g| ==> !IsRegexMeta(g[k])
  }

  /** The regex item a glob token is meant to become. */
  function Compile(t: GlobToken): Item
  {
    match t
    case Lit(c) => Item(Char(c), false)
    case Star => Item(NotDot, true)
    case DoubleStar => Item(AnyChar, true)
  }

  function Compiled(toks: seq<GlobToken>): (items: seq<Item>)
    ensures |items| == |toks|
  {
    if toks == [] then [] else [Compile(toks[0])] + Compiled(toks[1..])
  }

  const Begin := Item(LineBegin, false)
  const End := Item(InputEnd, false)

  predicate PlainLits(toks: seq<GlobToken>)
  {
    forall k :: 0 <= k < |toks| && toks[k].Lit? ==> !IsRegexMeta(toks[k].c) && toks[k].c != '*'
  }

  lemma ParsePlain(p: string, a: Atom, n: nat, items: seq<Item>)
    requires p != [] && ParseAtom(p) == Some((a, n))
    requires n == |p| || p[n] != '*'
    requires ParseRegex(p[n..]) == Some(items)
    ensures ParseRegex(p) == Some([Item(a, false)] + items)
  {
  }

  lemma ParseStarred(p: string, a: Atom, n: nat, items: seq<Item>)
    requires p != [] && ParseAtom(p) == Some((a, n)) && !IsAnchor(a)
    requires n < |p| && p[n] == '*'
    requires ParseRegex(p[n + 1..]) == Some(items)
    ensures ParseRegex(p) == Some([Item(a, true)] + items)
  {
  }

  /** One token's text, followed by text that does not start with `*`,
      reads back as that token's item. */
  lemma ParseRenderToken(t: GlobToken, rest: string, items: seq<Item>)
    requires t.Lit? ==> !IsRegexMeta(t.c) && t.c != '*'
    requires rest == [] || rest[0] != '*'
    requires ParseRegex(rest) == Some(items)
    ensures (RenderToken(t) + rest)[0] != '*'
    ensures ParseRegex(RenderToken(t) + rest) == Some([Compile(t)] + items)
  {
    var p := RenderToken(t) + rest;
    match t
    case Lit(c) =>
      if c == '\\' || c == '.' {
        assert p[0] == '\\' && p[1] == c && p[2..] == rest;
        assert ParseAtom(p) == Some((Char(c), 2));
        ParsePlain(p, Char(c), 2, items);
      } else {
        assert p[0] == c && p[1..] == rest;
        assert ParseAtom(p) == Some((Char(c), 1));
        ParsePlain(p, Char(c), 1, items);
      }
    case Star =>
      assert p[..4] == "[^.]" && p[4] == '*' && p[5..] == rest;
      assert ParseAtom(p) == Some((NotDot, 4));
      ParseStarred(p, NotDot, 4, items);
    case DoubleStar =>
      assert p[0] == '.' && p[1] == '*' && p[2..] == rest;
      assert ParseAtom(p) == Some((AnyChar, 1));
      ParseStarred(p, AnyChar, 1, items);
  }

  lemma {:induction false} ParseRender(toks: seq<GlobToken>, tail: string, items: seq<Item>)
    requires PlainLits(toks)
    requires tail == [] || tail[0] != '*'
    requires ParseRegex(tail) == Some(items)
    ensures Render(toks) + tail == [] || (Render(toks) + tail)[0] != '*'
    ensures ParseRegex(Render(toks) + tail) == Some(Compiled(toks) + items)
  {
    if toks == [] {
      assert Render(toks) + tail == tail;
      assert Compiled(toks) + items == items;
    } else {
      assert PlainLits(toks[1..]);
      ParseRender(toks[1..], tail, items);
      ParseRenderStep(toks, tail, items);
    }
  }

  lemma ParseRenderStep(toks: seq<GlobToken>, tail: string, items: seq<Item>)
    requires toks != [] && PlainLits(toks)
    requires var rest := Render(toks[1..]) + tail;
      (rest == [] || rest[0] != '*') && ParseRegex(rest) == Some(Compiled(toks[1..]) + items)
    ensures (Render(toks) + tail)[0] != '*'
    ensures ParseRegex(Render(toks) + tail) == Some(Compiled(toks) + items)
  {
    var rest := Render(toks[1..]) + tail;
    assert Render(toks) + tail == RenderToken(toks[0]) + rest;
    CompiledConsTail(toks, items);
    ParseRenderToken(toks[0], rest, Compiled(toks[1..]) + items);
  }

  lemma CompiledConsTail(toks: seq<GlobToken>, items: seq<Item>)
    requires toks != []
    ensures Compiled(toks) + items == [Compile(toks[0])] + (Compiled(toks[1..]) + items)
  {
  }

  /** The pattern text of a metacharacter-free glob reads back as the glob's
      tokens between the two anchors. */
  lemma ParsePatternOf(g: string)
    requires MetaFree(g)
    ensures ParseRegex(PatternOf(g)) == Some([Begin] + Compiled(Tokenize(g)) + [End])
  {
    var toks := Tokenize(g);
    PlainLitsOfMetaFree(g);
    ParseEndAnchor();
    ParseRender(toks, "$", [End]);
    ParseBeginAnchor(Render(toks) + "$", Compiled(toks) + [End]);
    assert PatternOf(g) == "^" + (Render(toks) + "$");
    assert [Begin] + (Compiled(toks) + [End]) == [Begin] + Compiled(toks) + [End];
  }

  lemma PlainLitsOfMetaFree(g: string)
    requires MetaFree(g)
    ensures PlainLits(Tokenize(g))
  {
    var toks := Tokenize(g);
    TokenizeShape(g);
    forall k | 0 <= k < |toks| && toks[k].Lit?
      ensures !IsRegexMeta(toks[k].c) && toks[k].c != '*'
    {
      var c := toks[k].c;
      assert c in g;
      var j :| 0 <= j < |g| && g[j] == c;
    }
  }

  lemma ParseEndAnchor()
    ensures ParseRegex("$") == Some([End])
  {
    assert ParseAtom("$") == Some((InputEnd, 1));
    assert ParseRegex("$"[1..]) == Some([]);
    ParsePlain("$", InputEnd, 1, []);
    assert [Item(InputEnd, false)] + [] == [End];
  }

  lemma ParseBeginAnchor(rest: string, items: seq<Item>)
    requires rest == [] || rest[0] != '*'
    requires ParseRegex(rest) == Some(items)
    ensures ParseRegex("^" + rest) == Some([Begin] + items)
  {
    var p := "^" + rest;
    assert p[0] == '^' && p[1..] == rest;
    assert ParseAtom(p) == Some((LineBegin, 1));
    ParsePlain(p, LineBegin, 1, items);
  }

  lemma {:induction false} MatchCorresponds(toks: seq<GlobToken>, s: string, i: nat)
    requires i <= |s|
    requires DoubleStar !in toks || NoLineTerminator(s)
    ensures MatchFrom(Compiled(toks) + [End], s, i) <==> GlobMatch(toks, s[i..])
    decreases |toks|, |s| - i
  {
    var items := Compiled(toks) + [End];
    if toks == [] {
      assert items == [End];
      assert MatchFrom(items, s, i) <==> AtInputEnd(s, i) && i == |s|;
    } else {
      assert items[0] == Compile(toks[0]) && items[1..] == Compiled(toks[1..]) + [End];
      assert DoubleStar !in toks[1..] || NoLineTerminator(s);
      MatchCorresponds(toks[1..], s, i);
      if i < |s| {
        assert s[i..][0] == s[i] && s[i..][1..] == s[i + 1..];
        match toks[0]
        case Lit(c) =>
          MatchCorresponds(toks[1..], s, i + 1);
        case Star =>
          MatchCorresponds(toks, s, i + 1);
        case DoubleStar =>
          MatchCorresponds(toks, s, i + 1);
          assert !IsLineTerminator(s[i]);
      } else {
        assert s[i..] == [];
      }
    }
  }

  /** The translated pattern of a metacharacter-free glob matches a name just
      when the glob does; where the glob has `**`, for names without line
      terminators (java.util.regex's `.` does not cross one). */
  lemma PatternMatchesIffGlobMatches(g: string, s: string)
    requires MetaFree(g)
    requires DoubleStar !in Tokenize(g) || NoLineTerminator(s)
    ensures PatternMatches(PatternOf(g), s) <==> GlobMatch(Tokenize(g), s)
  {
    ParsePatternOf(g);
    var toks := Tokenize(g);
    var items := [Begin] + Compiled(toks) + [End];
    assert items[0] == Begin && items[1..] == Compiled(toks) + [End];
    MatchCorresponds(toks, s, 0);
    assert s[0..] == s;
  }

  /** A metacharacter-free glob with no asterisk excludes exactly the one
      name equal to itself. */
  lemma LiteralPatternMatchesOnlyItself(g: string, s: string)
    requires MetaFree(g) && '*' !in g
    ensures PatternMatches(PatternOf(g), s) <==> s == g
  {
    TokenizeLiteral(g);
    LitsAt(g);
    assert DoubleStar !in Tokenize(g);
    PatternMatchesIffGlobMatches(g, s);
    LiteralGlobMatchesOnlyItself(g, s);
  }

  /** Escaping of one package segment `a.` in front of further tokens. */
  lemma RenderSegment(a: string, tail: seq<GlobToken>)
    requires '.' !in a && '\\' !in a
    ensures Render(Lits(a + ".") + tail) == a + "\\." + Render(tail)
  {
    var A, D := Lits(a), Lits(".");
    LitsConcat(a, ".");
    assert Lits(a + ".") + tail == A + (D + tail);
    RenderConcat(A, D + tail);
    RenderPlainLits(a);
    assert D + tail == [Lit('.')] + tail;
    assert Render(D + tail) == "\\." + Render(tail);
  }

  /** Escaping of a two-segment package prefix `a.b.`. */
  lemma RenderPackagePrefix(a: string, b: string, tail: seq<GlobToken>)
    requires '.' !in a && '\\' !in a && '.' !in b && '\\' !in b
    ensures Render(Lits(a + "." + b + ".") + tail) == a + "\\." + b + "\\." + Render(tail)
  {
    assert a + "." + b + "." == (a + ".") + (b + ".");
    LitsConcat(a + ".", b + ".");
    assert Lits(a + "." + b + ".") + tail == Lits(a + ".") + (Lits(b + ".") + tail);
    RenderSegment(b, tail);
    RenderSegment(a, Lits(b + ".") + tail);
  }

  /** The three translations listed in the documentation of the
      translation, with the closing `$` that the code appends (the
      documentation omits it for the first one). Names are written as their
      dotted segments so that each instance reads off the general lemma. */
  lemma DocumentedLiteralTranslation()
    ensures PatternOf("java" + "." + "util" + "." + "Collection")
         == "^" + "java" + "\\." + "util" + "\\." + "Collection" + "$"
  {
    TranslatePackageLiteral("java", "util", "Collection", "java" + "." + "util" + "." + "Collection");
  }

  /** A three-segment name without wildcards is translated to its segments
      joined by escaped dots, between the anchors. */
  lemma TranslatePackageLiteral(a: string, b: string, c: string, g: string)
    requires '.' !in a && '\\' !in a && '*' !in a && '.' !in b && '\\' !in b && '*' !in b
    requires '.' !in c && '\\' !in c && '*' !in c
    requires g == a + "." + b + "." + c
    ensures PatternOf(g) == "^" + a + "\\." + b + "\\." + c + "$"
  {
    TokenizeLiteral(c);
    RenderPlainLits(c);
    TranslatePackageGlob(a, b, g, c, Lits(c), c);
  }

  lemma DocumentedStarTranslation()
    ensures PatternOf("java" + "." + "util" + "." + "*")
         == "^" + "java" + "\\." + "util" + "\\." + "[^.]*" + "$"
  {
    assert Tokenize("*") == [Star] + Tokenize([]);
    TranslatePackageGlob("java", "util", "java" + "." + "util" + "." + "*", "*", [Star], "[^.]*");
  }

  lemma DocumentedDoubleStarTranslation()
    ensures PatternOf("java" + "." + "util" + "." + "**")
         == "^" + "java" + "\\." + "util" + "\\." + ".*" + "$"
  {
    assert Tokenize("**") == [DoubleStar] + Tokenize([]);
    TranslatePackageGlob("java", "util", "java" + "." + "util" + "." + "**", "**", [DoubleStar], ".*");
  }

  /** A glob `a.b.<last>` is translated to `^a\.b\.` followed by the
      translation of `<last>` and `$`. */
  lemma TranslatePackageGlob(a: string, b: string, g: string, last: string,
                             lastToks: seq<GlobToken>, lastText: string)
    requires '.' !in a && '\\' !in a && '*' !in a && '.' !in b && '\\' !in b && '*' !in b
    requires g == a + "." + b + "." + last
    requires Tokenize(last) == lastToks && Render(lastToks) == lastText
    ensures PatternOf(g) == "^" + a + "\\." + b + "\\." + lastText + "$"
  {
    var pkg := a + "." + b + ".";
    assert '*' !in pkg;
    assert g == pkg + last;
    TokenizeAfterLiteral(pkg, last);
    RenderPackagePrefix(a, b, lastToks);
  }

  lemma NoLineTerminatorJoin(a: string, b: string)
    requires NoLineTerminator(a) && NoLineTerminator(b)
    ensures NoLineTerminator(a + "." + b)
  {
    var s := a + "." + b;
    forall k | 0 <= k < |s|
      ensures !IsLineTerminator(s[k])
    {
      if k < |a| {
        assert s[k] == a[k];
      } else if k > |a| {
        assert s[k] == b[k - |a| - 1];
      }
    }
  }

  lemma MetaFreeStarGlob(p: string, suffix: string)
    requires MetaFree(p) && (suffix == ".*" || suffix == ".**")
    ensures MetaFree(p + suffix)
  {
    var g := p + suffix;
    forall k | 0 <= k < |g|
      ensures !IsRegexMeta(g[k])
    {
      if k < |p| {
        assert g[k] == p[k];
      } else {
        assert g[k] == suffix[k - |p|];
      }
    }
  }

  /** `java.util.*` excludes java.util.List ... */
  lemma DocumentedStarMatchesClass()
    ensures PatternMatches(PatternOf("java.util" + ".*"), "java.util" + "." + "List")
  {
    StarPatternOneLevel("java.util", "List", "", "java.util" + ".*", "java.util" + "." + "List");
  }

  /** ... but not java.util.concurrent.Future. */
  lemma DocumentedStarRejectsSubpackage()
    ensures !PatternMatches(PatternOf("java.util" + ".*"), "java.util" + "." + "concurrent" + "." + "Future")
  {
    StarPatternOneLevel("java.util", "concurrent", "Future", "java.util" + ".*",
                        "java.util" + "." + "concurrent" + "." + "Future");
  }

  /** The pattern of `P.*` matches `P.X` for a single segment X, and never
      `P.X.Y`. */
  lemma StarPatternOneLevel(p: string, x: string, y: string, g: string, s: string)
    requires MetaFree(p) && '*' !in p && '.' !in x
    requires g == p + ".*"
    requires s == p + "." + x || s == p + "." + x + "." + y
    ensures PatternMatches(PatternOf(g), s) <==> s == p + "." + x
  {
    PackageStarMatchesOneLevel(p, x, y);
    MetaFreeStarGlob(p, ".*");
    TokenizeAfterLiteral(p + ".", "*");
    assert Tokenize("*") == [Star] + Tokenize([]);
    LitsAt(p + ".");
    assert g == (p + ".") + "*";
    assert Tokenize(g) == Lits(p + ".") + [Star];
    assert DoubleStar !in Tokenize(g);
    PatternMatchesIffGlobMatches(g, s);
    if s == p + "." + x + "." + y {
      assert |s| > |p + "." + x|;
    }
  }

  /** `java.util.**` excludes java.util.List ... */
  lemma DocumentedDoubleStarMatchesClass()
    ensures PatternMatches(PatternOf("java.util" + ".**"), "java.util" + "." + "List")
  {
    DoubleStarPatternAllLevels("java.util", "List", "java.util" + ".**", "java.util" + "." + "List");
  }

  /** ... and java.util.concurrent.Future as well. */
  lemma DocumentedDoubleStarMatchesSubpackage()
    ensures PatternMatches(PatternOf("java.util" + ".**"), "java.util" + "." + "concurrent.Future")
  {
    DoubleStarPatternAllLevels("java.util", "concurrent.Future", "java.util" + ".**",
                               "java.util" + "." + "concurrent.Future");
  }

  /** The pattern of `P.**` matches `P.X` whatever the depth of X. */
  lemma DoubleStarPatternAllLevels(p: string, x: string, g: string, s: string)
    requires MetaFree(p) && '*' !in p && NoLineTerminator(p) && NoLineTerminator(x)
    requires g == p + ".**" && s == p + "." + x
    ensures PatternMatches(PatternOf(g), s)
  {
    PackageDoubleStarMatchesAllLevels(p, x);
    MetaFreeStarGlob(p, ".**");
    NoLineTerminatorJoin(p, x);
    PatternMatchesIffGlobMatches(g, s);
  }

  // ---------------------------------------------------------------------
  // Outside the metacharacter-free globs: `$` is copied raw and read as
  // the end-of-input anchor, so a glob naming a nested class (`Outer$Inner`)
  // matches no name at all, not even its own text.

  /** Unstarred character items consume one character each. */
  lemma {:induction false} CharItemsConsume(toks: seq<GlobToken>, tail: seq<Item>, s: string, i: nat)
    requires i <= |s|
    requires forall k :: 0 <= k < |toks| ==> toks[k].Lit?
    requires MatchFrom(Compiled(toks) + tail, s, i)
    ensures i + |toks| <= |s| && MatchFrom(tail, s, i + |toks|)
    decreases |toks|
  {
    if toks == [] {
      assert Compiled(toks) + tail == tail;
    } else {
      var c := toks[0].c;
      var rest := Compiled(toks[1..]) + tail;
      CompiledConsTail(toks, tail);
      assert Compile(toks[0]) == Item(Char(c), false);
      CharItemStep(c, rest, s, i);
      assert forall k :: 0 <= k < |toks[1..]| ==> toks[1..][k] == toks[k + 1];
      CharItemsConsume(toks[1..], tail, s, i + 1);
    }
  }

  lemma CharItemStep(c: char, rest: seq<Item>, s: string, i: nat)
    requires i <= |s|
    ensures MatchFrom([Item(Char(c), false)] + rest, s, i)
        <==> i < |s| && s[i] == c && MatchFrom(rest, s, i + 1)
  {
    var items := [Item(Char(c), false)] + rest;
    assert items[0] == Item(Char(c), false) && items[1..] == rest;
  }

  /** Once `$` has held, a literal character that is not a line terminator
      can no longer be matched. */
  lemma EndThenCharFails(c: char, rest: seq<Item>, s: string, j: nat)
    requires j <= |s| && !IsLineTerminator(c)
    ensures !MatchFrom([Item(InputEnd, false), Item(Char(c), false)] + rest, s, j)
  {
    var items := [Item(InputEnd, false), Item(Char(c), false)] + rest;
    assert items[0] == Item(InputEnd, false);
    assert items[1..] == [Item(Char(c), false)] + rest;
    assert ([Item(Char(c), false)] + rest)[0] == Item(Char(c), false);
  }

  lemma DollarPatternText(p: string, q: string)
    requires '*' !in p && '*' !in q
    ensures PatternOf(p + "$" + q) == "^" + (Render(Lits(p)) + ("$" + (Render(Lits(q)) + "$")))
  {
    var g := p + "$" + q;
    assert g == p + ("$" + q);
    assert '*' !in g;
    TokenizeLiteral(g);
    LitsConcat(p, "$" + q);
    LitsConcat("$", q);
    RenderConcat(Lits(p), Lits("$" + q));
    RenderConcat(Lits("$"), Lits(q));
    assert Render(Lits("$")) == "$";
  }

  lemma DollarTailParse(q: string)
    requires MetaFree(q) && '*' !in q && q != []
    ensures ParseRegex("$" + (Render(Lits(q)) + "$")) == Some([End] + (Compiled(Lits(q)) + [End]))
  {
    PlainLitsOfMetaFree(q);
    TokenizeLiteral(q);
    ParseEndAnchor();
    ParseRender(Lits(q), "$", [End]);
    var text := "$" + (Render(Lits(q)) + "$");
    assert text[0] == '$' && text[1..] == Render(Lits(q)) + "$";
    assert ParseAtom(text) == Some((InputEnd, 1));
    ParsePlain(text, InputEnd, 1, Compiled(Lits(q)) + [End]);
  }

  lemma DollarPatternParse(p: string, q: string)
    requires MetaFree(p) && MetaFree(q) && '*' !in p && '*' !in q && q != []
    ensures ParseRegex(PatternOf(p + "$" + q))
         == Some([Begin] + (Compiled(Lits(p)) + ([End] + (Compiled(Lits(q)) + [End]))))
  {
    var tailText := "$" + (Render(Lits(q)) + "$");
    var tail := [End] + (Compiled(Lits(q)) + [End]);
    DollarPatternText(p, q);
    DollarTailParse(q);
    PlainLitsOfMetaFree(p);
    TokenizeLiteral(p);
    ParseRender(Lits(p), tailText, tail);
    ParseBeginAnchor(Render(Lits(p)) + tailText, Compiled(Lits(p)) + tail);
  }

  /** A glob `P$Q` (Q non-empty, no asterisk and no other metacharacter)
      matches no name: the `$` anchor holds only at the end of the input,
      where the first character of Q cannot follow. */
  lemma DollarGlobMatchesNothing(p: string, q: string, s: string)
    requires MetaFree(p) && MetaFree(q) && '*' !in p && '*' !in q
    requires q != [] && !IsLineTerminator(q[0])
    ensures !PatternMatches(PatternOf(p + "$" + q), s)
  {
    DollarPatternParse(p, q);
    var tail := [End] + (Compiled(Lits(q)) + [End]);
    var items := [Begin] + (Compiled(Lits(p)) + tail);
    assert items[0] == Begin && items[1..] == Compiled(Lits(p)) + tail;
    if MatchFrom(items, s, 0) {
      LitsAt(p);
      CharItemsConsume(Lits(p), tail, s, 0);
      LitsAt(q);
      CompiledConsTail(Lits(q), [End]);
      assert tail == [Item(InputEnd, false), Item(Char(q[0]), false)]
                     + (Compiled(Lits(q)[1..]) + [End]);
      EndThenCharFails(q[0], Compiled(Lits(q)[1..]) + [End], s, |p|);
    }
  }

  /** The glob `Outer$Inner` excludes nothing, though as a glob without
      wildcards it is meant to exclude exactly the name `Outer$Inner`. */
  lemma NestedClassGlobMatchesNothing(g: string, s: string)
    requires g == "Outer" + "$" + "Inner"
    ensures GlobMatch(Tokenize(g), g)
    ensures !PatternMatches(PatternOf(g), s)
  {
    LiteralGlobMatchesOnlyItself(g, g);
    DollarGlobMatchesNothing("Outer", "Inner", s);
  }
}

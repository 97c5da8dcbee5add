/**
 * Exclusion globs: their greedy reading into tokens, the regular-expression
 * text each token is rewritten to, and the glob semantics users are promised
 * (a `*` stays within one dotted name segment, a `**` crosses segments, the
 * whole name must match).
 */
module Globs {

  /** One unit of a glob as the translation reads it, left to right. */
  datatype GlobToken = Lit(c: char) | Star | DoubleStar

  /** No literal asterisk, and no single `*` directly before another wildcard:
      the shape a greedy left-to-right reading of asterisk runs produces. */
  predicate Canonical(toks: seq<GlobToken>)
  {
    && (forall k :: 0 <= k < |toks| ==> toks[k] != Lit('*'))
    && (forall k :: 0 <= k < |toks| - 1 ==> toks[k] == Star ==> toks[k + 1].Lit?)
  }

  /** The glob read left to right; `**` is taken as a pair before a lone `*`. */
  function Tokenize(g: string): seq<GlobToken>
    decreases |g|
  {
    if g == [] then []
    else if g[0] == '*' then
      if |g| > 1 && g[1] == '*' then [DoubleStar] + Tokenize(g[2..])
      else [Star] + Tokenize(g[1..])
    else [Lit(g[0])] + Tokenize(g[1..])
  }

  /** The reading is canonical, takes no more tokens than characters, and
      every literal token is a character of the glob other than `*`. */
  lemma TokenizeShape(g: string)
    ensures |Tokenize(g)| <= |g|
    ensures Canonical(Tokenize(g))
    ensures forall k :: 0 <= k < |Tokenize(g)| && Tokenize(g)[k].Lit? ==> Tokenize(g)[k].c in g
  {
    TokenizeCanonical(g);
    TokenizeLitsFromGlob(g);
  }

  lemma {:induction false} TokenizeCanonical(g: string)
    ensures |Tokenize(g)| <= |g|
    ensures Canonical(Tokenize(g))
    decreases |g|
  {
    if g == [] {
    } else if g[0] == '*' && |g| > 1 && g[1] == '*' {
      var t := g[2..];
      TokenizeCanonical(t);
      assert Tokenize(g) == [DoubleStar] + Tokenize(t);
      CanonicalCons(DoubleStar, Tokenize(t));
    } else if g[0] == '*' {
      var t := g[1..];
      TokenizeCanonical(t);
      assert Tokenize(g) == [Star] + Tokenize(t);
      if t != [] {
        assert t[0] != '*';
        assert Tokenize(t) == [Lit(t[0])] + Tokenize(t[1..]);
      }
      CanonicalCons(Star, Tokenize(t));
    } else {
      var t := g[1..];
      TokenizeCanonical(t);
      assert Tokenize(g) == [Lit(g[0])] + Tokenize(t);
      CanonicalCons(Lit(g[0]), Tokenize(t));
    }
  }

  lemma CanonicalCons(x: GlobToken, toks: seq<GlobToken>)
    requires Canonical(toks) && x != Lit('*')
    requires x == Star && toks != [] ==> toks[0].Lit?
    ensures Canonical([x] + toks)
  {
    var s := [x] + toks;
    forall k | 0 <= k < |s| - 1 && s[k] == Star
      ensures s[k + 1].Lit?
    {
      if k > 0 {
        assert s[k] == toks[k - 1] && s[k + 1] == toks[k];
      }
    }
  }

  lemma {:induction false} TokenizeLitsFromGlob(g: string)
    ensures forall k :: 0 <= k < |Tokenize(g)| && Tokenize(g)[k].Lit? ==> Tokenize(g)[k].c in g
    decreases |g|
  {
    if g != [] {
      var n := if |g| > 1 && g[0] == '*' && g[1] == '*' then 2 else 1;
      var t := g[n..];
      TokenizeLitsFromGlob(t);
      var toks := Tokenize(g);
      assert toks[1..] == Tokenize(t);
      forall k | 0 <= k < |toks| && toks[k].Lit?
        ensures toks[k].c in g
      {
        if k == 0 {
          assert toks[0] == Lit(g[0]);
        } else {
          assert toks[k] == Tokenize(t)[k - 1];
          assert toks[k].c in t;
          var j :| 0 <= j < |t| && t[j] == toks[k].c;
          assert g[j + n] == t[j];
        }
      }
    }
  }

  /** The glob text a token sequence was read from. */
  function Untokenize(toks: seq<GlobToken>): string
  {
    if toks == [] then []
    else
      match toks[0]
      case Lit(c) => [c] + Untokenize(toks[1..])
      case Star => "*" + Untokenize(toks[1..])
      case DoubleStar => "**" + Untokenize(toks[1..])
  }

  /** The regular-expression text that stands for one token. */
  function RenderToken(t: GlobToken): (r: string)
  {
    match t
    case Lit(c) => if c == '\\' then "\\\\" else if c == '.' then "\\." else [c]
    case Star => "[^.]*"
    case DoubleStar => ".*"
  }

  function Render(toks: seq<GlobToken>): string
  {
    if toks == [] then [] else RenderToken(toks[0]) + Render(toks[1..])
  }

  /** The anchored regular-expression text a glob is translated to. */
  function PatternOf(glob: string): string
  {
    "^" + Render(Tokenize(glob)) + "$"
  }

  /** What a glob promises: literals match themselves, `*` matches a run of
      non-dot characters, `**` any run of characters, and the glob must
      account for the whole name. */
  function GlobMatch(toks: seq<GlobToken>, s: string): bool
    decreases |toks|, |s|
  {
    if toks == [] then s == []
    else
      match toks[0]
      case Lit(c) => s != [] && s[0] == c && GlobMatch(toks[1..], s[1..])
      case Star => GlobMatch(toks[1..], s) || (s != [] && s[0] != '.' && GlobMatch(toks, s[1..]))
      case DoubleStar => GlobMatch(toks[1..], s) || (s != [] && GlobMatch(toks, s[1..]))
  }

  function Lits(s: string): seq<GlobToken>
  {
    if s == [] then [] else [Lit(s[0])] + Lits(s[1..])
  }

  lemma {:induction false} LitsAt(s: string)
    ensures |Lits(s)| == |s|
    ensures forall k :: 0 <= k < |s| ==> Lits(s)[k] == Lit(s[k])
  {
    if s != [] {
      LitsAt(s[1..]);
    }
  }

  function Asterisks(n: nat): (s: string)
    ensures |s| == n
  {
    if n == 0 then [] else ['*'] + Asterisks(n - 1)
  }

  function DoubleStars(n: nat): (toks: seq<GlobToken>)
    ensures |toks| == n
  {
    if n == 0 then [] else [DoubleStar] + DoubleStars(n - 1)
  }

  // ---------------------------------------------------------------------
  // One step of the reading.

  lemma TokenizePair(t: string)
    ensures Tokenize("**" + t) == [DoubleStar] + Tokenize(t)
  {
    var g := "**" + t;
    assert g[0] == '*' && g[1] == '*' && g[2..] == t;
  }

  lemma TokenizeLone(t: string)
    requires t == [] || t[0] != '*'
    ensures Tokenize("*" + t) == [Star] + Tokenize(t)
  {
    var g := "*" + t;
    assert g[0] == '*' && g[1..] == t;
    assert |g| > 1 ==> g[1] == t[0];
  }

  lemma TokenizeLitCons(c: char, t: string)
    requires c != '*'
    ensures Tokenize([c] + t) == [Lit(c)] + Tokenize(t)
  {
    var g := [c] + t;
    assert g[0] == c && g[1..] == t;
  }

  // ---------------------------------------------------------------------
  // The reading loses nothing: glob text and canonical tokens correspond
  // one to one.

  lemma {:induction false} UntokenizeTokenize(g: string)
    ensures Untokenize(Tokenize(g)) == g
    decreases |g|
  {
    if g == [] {
    } else if g[0] == '*' && |g| > 1 && g[1] == '*' {
      var t := g[2..];
      assert g == "**" + t;
      TokenizePair(t);
      UntokenizeTokenize(t);
      assert ([DoubleStar] + Tokenize(t))[1..] == Tokenize(t);
    } else if g[0] == '*' {
      var t := g[1..];
      assert g == "*" + t;
      TokenizeLone(t);
      UntokenizeTokenize(t);
      assert ([Star] + Tokenize(t))[1..] == Tokenize(t);
    } else {
      var t := g[1..];
      assert g == [g[0]] + t;
      TokenizeLitCons(g[0], t);
      UntokenizeTokenize(t);
      assert ([Lit(g[0])] + Tokenize(t))[1..] == Tokenize(t);
    }
  }

  lemma {:induction false} TokenizeUntokenize(toks: seq<GlobToken>)
    requires Canonical(toks)
    ensures Tokenize(Untokenize(toks)) == toks
  {
    if toks != [] {
      var rest := toks[1..];
      assert Canonical(rest);
      TokenizeUntokenize(rest);
      var u := Untokenize(rest);
      assert toks == [toks[0]] + rest;
      match toks[0]
      case Lit(c) =>
        assert Untokenize(toks) == [c] + u;
        TokenizeLitCons(c, u);
      case Star =>
        assert Untokenize(toks) == "*" + u;
        if rest != [] {
          assert rest[0].Lit? && rest[0].c != '*';
          assert u == [rest[0].c] + Untokenize(rest[1..]);
        }
        TokenizeLone(u);
      case DoubleStar =>
        assert Untokenize(toks) == "**" + u;
        TokenizePair(u);
    }
  }

  /** What a run of n asterisks is read as: n / 2 pairs, then a lone `*`
      when n is odd. */
  function RunTokens(n: nat): seq<GlobToken>
  {
    DoubleStars(n / 2) + (if n % 2 == 1 then [Star] else [])
  }
  lemma RunTokensStep(n: nat, tail: seq<GlobToken>)
    requires n >= 2
    ensures RunTokens(n) + tail == [DoubleStar] + (RunTokens(n - 2) + tail)
  {
    assert (n - 2) / 2 == n / 2 - 1 && (n - 2) % 2 == n % 2;
    assert DoubleStars(n / 2) == [DoubleStar] + DoubleStars(n / 2 - 1);
  }
  /** Asterisks are paired greedily from the left. */
  lemma {:induction false} AsteriskRunPairsFromLeft(n: nat, rest: string)
    requires rest == [] || rest[0] != '*'
    ensures Tokenize(Asterisks(n) + rest) == RunTokens(n) + Tokenize(rest)
    decreases n
  {
    if n < 2 {
      AsteriskRunRemainder(n, rest);
    } else {
      AsteriskRunPairsFromLeft(n - 2, rest);
      AsteriskRunStep(n, rest);
    }
  }
  lemma AsteriskRunStep(n: nat, rest: string)
    requires n >= 2
    requires Tokenize(Asterisks(n - 2) + rest) == RunTokens(n - 2) + Tokenize(rest)
    ensures Tokenize(Asterisks(n) + rest) == RunTokens(n) + Tokenize(rest)
  {
    AsteriskPair(n, rest);
    RunTokensStep(n, Tokenize(rest));
  }
  lemma AsteriskRunRemainder(r: nat, rest: string)
    requires r <= 1
    requires rest == [] || rest[0] != '*'
    ensures Tokenize(Asterisks(r) + rest) == RunTokens(r) + Tokenize(rest)
  {
    if r == 0 {
      assert Asterisks(0) + rest == rest;
    } else {
      assert Asterisks(1) + rest == "*" + rest;
      TokenizeLone(rest);
    }
  }
  lemma AsteriskPair(n: nat, rest: string)
    requires n >= 2
    ensures Tokenize(Asterisks(n) + rest) == [DoubleStar] + Tokenize(Asterisks(n - 2) + rest)
  {
    var a := Asterisks(n);
    var b := Asterisks(n - 1);
    assert a == ['*'] + b;
    assert b == ['*'] + Asterisks(n - 2);
    var g := a + rest;
    assert g[0] == '*' && g[1] == '*';
    assert g[2..] == Asterisks(n - 2) + rest;
  }



  /** A glob without asterisks is read character by character. */
  lemma {:induction false} TokenizeLiteral(g: string)
    requires '*' !in g
    ensures Tokenize(g) == Lits(g)
    decreases |g|
  {
    if g != [] {
      TokenizeLiteral(g[1..]);
    }
  }

  /** Reading distributes over a literal prefix. */
  lemma {:induction false} TokenizeAfterLiteral(p: string, q: string)
    requires '*' !in p
    ensures Tokenize(p + q) == Lits(p) + Tokenize(q)
    decreases |p|
  {
    if p == [] {
      assert p + q == q;
    } else {
      var t := p[1..] + q;
      assert p[0] != '*' && '*' !in p[1..];
      calc {
        Tokenize(p + q);
        { assert p + q == [p[0]] + t; }
        Tokenize([p[0]] + t);
        { TokenizeLitCons(p[0], t); }
        [Lit(p[0])] + Tokenize(t);
        { TokenizeAfterLiteral(p[1..], q); }
        [Lit(p[0])] + (Lits(p[1..]) + Tokenize(q));
        { assert Lits(p) == [Lit(p[0])] + Lits(p[1..]); }
        Lits(p) + Tokenize(q);
      }
    }
  }

  lemma {:induction false} RenderConcat(a: seq<GlobToken>, b: seq<GlobToken>)
    ensures Render(a + b) == Render(a) + Render(b)
  {
    if a == [] {
      assert a + b == b;
    } else {
      assert (a + b)[0] == a[0] && (a + b)[1..] == a[1..] + b;
      RenderConcat(a[1..], b);
    }
  }

  lemma {:induction false} LitsConcat(a: string, b: string)
    ensures Lits(a + b) == Lits(a) + Lits(b)
  {
    if a == [] {
      assert a + b == b;
    } else {
      assert (a + b)[0] == a[0] && (a + b)[1..] == a[1..] + b;
      LitsConcat(a[1..], b);
    }
  }

  /** Rendering a list that starts with one token renders that token first. */
  lemma RenderConsTail(head: seq<GlobToken>, rest: seq<GlobToken>)
    requires |head| == 1
    ensures Render(head + rest) == RenderToken(head[0]) + Render(rest)
  {
    assert (head + rest)[0] == head[0] && (head + rest)[1..] == rest;
  }

  /** Characters other than `.`, `\` and `*` are copied unchanged. */
  lemma {:induction false} RenderPlainLits(p: string)
    requires '.' !in p && '\\' !in p
    ensures Render(Lits(p)) == p
  {
    if p != [] {
      RenderPlainLits(p[1..]);
      assert p == [p[0]] + p[1..];
    }
  }

  // ---------------------------------------------------------------------
  // Glob semantics.

  /** A glob without wildcards matches exactly the name equal to itself:
      not a proper prefix of it, and not an extension of it. */
  lemma {:induction false} LiteralGlobMatchesOnlyItself(g: string, s: string)
    requires '*' !in g
    ensures GlobMatch(Tokenize(g), s) <==> s == g
    decreases |g|
  {
    TokenizeLiteral(g);
    LitsMatch(g, [], s);
    assert Lits(g) + [] == Lits(g);
    assert |g| <= |s| ==> (s[|g|..] == [] <==> s == s[..|g|]);
  }

  lemma {:induction false} LitsMatch(p: string, rest: seq<GlobToken>, s: string)
    ensures GlobMatch(Lits(p) + rest, s)
        <==> |p| <= |s| && s[..|p|] == p && GlobMatch(rest, s[|p|..])
    decreases |p|
  {
    if p == [] {
      assert Lits(p) + rest == rest;
      assert s[..0] == p && s[0..] == s;
    } else {
      ConsConcat(Lit(p[0]), Lits(p[1..]), rest);
      LitMatchCons(p[0], Lits(p[1..]) + rest, s);
      if s != [] {
        LitsMatch(p[1..], rest, s[1..]);
        PrefixCons(p, s);
      }
    }
  }

  lemma ConsConcat(x: GlobToken, a: seq<GlobToken>, b: seq<GlobToken>)
    ensures ([x] + a) + b == [x] + (a + b)
  {
  }

  /** A literal token consumes exactly its own character. */
  lemma LitMatchCons(c: char, toks: seq<GlobToken>, s: string)
    ensures GlobMatch([Lit(c)] + toks, s) <==> s != [] && s[0] == c && GlobMatch(toks, s[1..])
  {
    assert ([Lit(c)] + toks)[0] == Lit(c) && ([Lit(c)] + toks)[1..] == toks;
  }

  /** `p` is a prefix of `s` exactly when their first characters agree and
      the rest of `p` is a prefix of the rest of `s`. */
  lemma PrefixCons(p: string, s: string)
    requires p != [] && s != []
    ensures (|p| <= |s| && s[..|p|] == p)
        <==> (s[0] == p[0] && |p| - 1 <= |s| - 1 && s[1..][..|p| - 1] == p[1..])
    ensures |p| <= |s| ==> s[|p|..] == s[1..][|p| - 1..]
  {
    if |p| <= |s| {
      assert s[..|p|] == [s[0]] + s[1..][..|p| - 1];
      assert p == [p[0]] + p[1..];
    }
  }

  /** A lone `*` matches exactly the runs that contain no dot. */
  lemma {:induction false} StarMatchesOneSegment(s: string)
    ensures GlobMatch([Star], s) <==> '.' !in s
    decreases |s|
  {
    assert [Star][1..] == [];
    if s != [] {
      StarMatchesOneSegment(s[1..]);
      assert s == [s[0]] + s[1..];
    }
  }

  /** `**` matches every run of characters, dots included. */
  lemma {:induction false} DoubleStarMatchesEverything(s: string)
    ensures GlobMatch([DoubleStar], s)
    decreases |s|
  {
    assert [DoubleStar][1..] == [];
    if s != [] {
      DoubleStarMatchesEverything(s[1..]);
    }
  }

  /** `P.*` matches `P.X` when X is a single name segment, and never `P.X.Y`. */
  lemma PackageStarMatchesOneLevel(p: string, x: string, y: string)
    requires '*' !in p && '.' !in x
    ensures GlobMatch(Tokenize(p + ".*"), p + "." + x)
    ensures !GlobMatch(Tokenize(p + ".*"), p + "." + x + "." + y)
  {
    TokenizeAfterLiteral(p + ".", "*");
    assert Tokenize("*") == [Star] + Tokenize([]);
    assert Tokenize(p + ".*") == Lits(p + ".") + [Star] by {
      assert p + ".*" == (p + ".") + "*";
    }
    var s1 := p + "." + x;
    var s2 := p + "." + x + "." + y;
    LitsMatch(p + ".", [Star], s1);
    LitsMatch(p + ".", [Star], s2);
    assert s1[..|p| + 1] == p + "." && s1[|p| + 1..] == x;
    assert s2[..|p| + 1] == p + "." && s2[|p| + 1..] == x + "." + y;
    StarMatchesOneSegment(x);
    StarMatchesOneSegment(x + "." + y);
    assert (x + "." + y)[|x|] == '.';
  }

  /** `P.**` matches `P.X` for every X, whatever its depth. */
  lemma PackageDoubleStarMatchesAllLevels(p: string, x: string)
    requires '*' !in p
    ensures GlobMatch(Tokenize(p + ".**"), p + "." + x)
  {
    TokenizeAfterLiteral(p + ".", "**");
    assert Tokenize("**") == [DoubleStar] + Tokenize([]);
    assert Tokenize(p + ".**") == Lits(p + ".") + [DoubleStar] by {
      assert p + ".**" == (p + ".") + "**";
    }
    var s := p + "." + x;
    LitsMatch(p + ".", [DoubleStar], s);
    assert s[..|p| + 1] == p + "." && s[|p| + 1..] == x;
    DoubleStarMatchesEverything(x);
  }
}

/**
 * The helpers of the plugin's Utils class that the check uses: the guards,
 * the set copy and the glob-to-pattern translation.
 *
 * A Java reference that may be null is an Option (None is null); a thrown
 * NullPointerException or IllegalArgumentException is an error value.
 */
module Utils {
  import opened Results
  import opened Globs

  datatype Failure = NullPointer | IllegalArgument

  /** The reference itself when it is not null; a NullPointerException
      otherwise. */
  function CheckNotNull<T>(reference: Option<T>): (r: Result<T, Failure>)
    ensures r.Ok? <==> reference.Some?
    ensures r.Ok? ==> r.value == reference.value
    ensures r.Err? ==> r.error == NullPointer
  {
    match reference
    case None => Err(NullPointer)
    case Some(v) => Ok(v)
  }

  /** An IllegalArgumentException exactly when the expression is false. */
  function CheckArgument(expression: bool): (r: Outcome<Failure>)
    ensures r.Pass? <==> expression
    ensures r.Fail? ==> r.error == IllegalArgument
  {
    if expression then Pass else Fail(IllegalArgument)
  }

  /** An unmodifiable set holding exactly the elements of the collection,
      duplicates collapsed; a NullPointerException for a null collection. */
  function CreateImmutableSet<T(!new)>(collection: Option<seq<T>>): (r: Result<set<T>, Failure>)
    ensures r.Ok? <==> collection.Some?
    ensures r.Ok? ==> forall x :: x in r.value <==> x in collection.value
    ensures r.Err? ==> r.error == NullPointer
  {
    match CheckNotNull(collection)
    case Err(e) => Err(e)
    case Ok(c) => Ok(set x | x in c)
  }

  /** The set does not depend on the order of the collection or on
      repetitions in it. */
  lemma CreateImmutableSetIgnoresOrder<T(!new)>(a: seq<T>, b: seq<T>)
    requires forall x :: x in a <==> x in b
    ensures CreateImmutableSet(Some(a)) == CreateImmutableSet(Some(b))
  {
    var sa := CreateImmutableSet(Some(a)).value;
    var sb := CreateImmutableSet(Some(b)).value;
    assert forall x :: x in sa <==> x in sb;
    assert sa == sb;
  }

  // ---------------------------------------------------------------------
  // Glob translation.

  /** The glob rewritten character by character into an anchored regular
      expression: `\` to `\\`, `.` to `\.`, `**` to `.*`, a lone `*` to
      `[^.]*`, every other character copied. Defined for every glob. */
  method GlobToPattern(glob: string) returns (pattern: string)
    ensures pattern == PatternOf(glob)
    ensures |pattern| >= 2 && pattern[0] == '^' && pattern[|pattern| - 1] == '$'
  {
    var builder := "^";
    var i := 0;
    while i < |glob|
      invariant 0 <= i <= |glob|
      invariant builder + Render(Tokenize(glob[i..])) == "^" + Render(Tokenize(glob))
      decreases |glob| - i
    {
      var ch := glob[i];
      if ch == '\\' {
        RenderLiteralHead(glob, i);
        Append(builder, "\\\\", Render(Tokenize(glob[i + 1..])));
        builder := builder + "\\\\";
      } else if ch == '.' {
        RenderLiteralHead(glob, i);
        Append(builder, "\\.", Render(Tokenize(glob[i + 1..])));
        builder := builder + "\\.";
      } else if ch == '*' {
        if i + 1 < |glob| && glob[i + 1] == '*' {
          RenderDoubleStarHead(glob, i);
          Append(builder, ".*", Render(Tokenize(glob[i + 2..])));
          builder := builder + ".*";
          i := i + 1;
        } else {
          RenderStarHead(glob, i);
          Append(builder, "[^.]*", Render(Tokenize(glob[i + 1..])));
          builder := builder + "[^.]*";
        }
      } else {
        RenderLiteralHead(glob, i);
        Append(builder, [ch], Render(Tokenize(glob[i + 1..])));
        builder := builder + [ch];
      }
      i := i + 1;
    }
    assert glob[|glob|..] == [];
    builder := builder + "$";
    pattern := builder;
  }

  lemma Append(a: string, b: string, c: string)
    ensures (a + b) + c == a + (b + c)
  {
  }

  /** What the reading of the glob from position i is rewritten to, by the
      character found there. */
  lemma RenderLiteralHead(g: string, i: nat)
    requires i < |g| && g[i] != '*'
    ensures Render(Tokenize(g[i..])) == RenderToken(Lit(g[i])) + Render(Tokenize(g[i + 1..]))
  {
    var t := g[i..];
    assert t[0] == g[i] && t[1..] == g[i + 1..];
    RenderConsTail([Lit(g[i])], Tokenize(t[1..]));
  }

  lemma RenderDoubleStarHead(g: string, i: nat)
    requires i + 1 < |g| && g[i] == '*' && g[i + 1] == '*'
    ensures Render(Tokenize(g[i..])) == ".*" + Render(Tokenize(g[i + 2..]))
  {
    var t := g[i..];
    assert t[0] == '*' && t[1] == '*' && t[2..] == g[i + 2..];
    RenderConsTail([DoubleStar], Tokenize(t[2..]));
  }

  lemma RenderStarHead(g: string, i: nat)
    requires i < |g| && g[i] == '*' && !(i + 1 < |g| && g[i + 1] == '*')
    ensures Render(Tokenize(g[i..])) == "[^.]*" + Render(Tokenize(g[i + 1..]))
  {
    var t := g[i..];
    assert t[0] == '*' && t[1..] == g[i + 1..];
    assert |t| > 1 ==> t[1] == g[i + 1];
    RenderConsTail([Star], Tokenize(t[1..]));
  }

  /** A glob of plain characters (no `*`, `.`, `\`) is copied between the
      anchors unchanged. */
  lemma PlainGlobCopied(g: string)
    requires '*' !in g && '.' !in g && '\\' !in g
    ensures PatternOf(g) == "^" + g + "$"
  {
    TokenizeLiteral(g);
    RenderPlainLits(g);
  }
}

/**
 * The part of java.util.regex that the exclusion patterns use: the anchors
 * `^` and `$`, the wildcard `.`, the class `[^.]`, backslash escapes of
 * non-alphanumeric characters, literal characters and the greedy `*`
 * quantifier, with the default flags (no MULTILINE, DOTALL or UNIX_LINES).
 * A pattern is said to match a name when Matcher.matches() would return
 * true: the whole name is consumed.
 */
module Regex {
  import opened Results

  datatype Atom =
    | Char(c: char)   // a literal or escaped character
    | AnyChar         // `.`: every character but a line terminator
    | NotDot          // `[^.]`: every character but '.'
    | LineBegin       // `^`: the start of the input
    | InputEnd        // `$`: the end of the input, or just before a final line terminator
                      // (never between the `\r` and the `\n` of a final "\r\n")

  datatype Item = Item(atom: Atom, starred: bool)

  predicate IsLineTerminator(c: char)
  {
    c == '\n' || c == '\r' || c == '\U{85}' || c == '\U{2028}' || c == '\U{2029}'
  }

  predicate NoLineTerminator(s: string)
  {
    forall k :: 0 <= k < |s| ==> !IsLineTerminator(s[k])
  }

  predicate IsAsciiAlphanumeric(c: char)
  {
    ('a' <= c <= 'z') || ('A' <= c <= 'Z') || ('0' <= c <= '9')
  }

  predicate IsAnchor(a: Atom)
  {
    a == LineBegin || a == InputEnd
  }

  /** The metacharacters that begin a construct outside this fragment. */
  predicate IsUnmodelledMeta(c: char)
  {
    c in "*+?(){|"
  }

  /** The atom at the head of a non-empty pattern text and how many
      characters it spans; None when the text starts with a construct
      outside the fragment. */
  function ParseAtom(p: string): (r: Option<(Atom, nat)>)
    requires p != []
    ensures r.Some? ==> 1 <= r.value.1 <= |p|
  {
    var c := p[0];
    if c == '\\' then
      if |p| >= 2 && !IsAsciiAlphanumeric(p[1]) then Some((Char(p[1]), 2)) else None
    else if c == '.' then Some((AnyChar, 1))
    else if c == '^' then Some((LineBegin, 1))
    else if c == '$' then Some((InputEnd, 1))
    else if c == '[' then
      if |p| >= 4 && p[..4] == "[^.]" then Some((NotDot, 4)) else None
    else if IsUnmodelledMeta(c) then None
    else Some((Char(c), 1))
  }

  /** The items of a pattern text, each atom with the `*` that follows it. */
  function ParseRegex(p: string): (r: Option<seq<Item>>)
    decreases |p|
  {
    if p == [] then Some([])
    else
      match ParseAtom(p)
      case None => None
      case Some((a, n)) =>
        var starred := n < |p| && p[n] == '*';
        if starred && IsAnchor(a) then None
        else
          match ParseRegex(p[if starred then n + 1 else n..])
          case None => None
          case Some(rest) => Some([Item(a, starred)] + rest)
  }

  predicate AtomAccepts(a: Atom, c: char)
  {
    match a
    case Char(d) => c == d
    case AnyChar => !IsLineTerminator(c)
    case NotDot => c != '.'
    case LineBegin => false
    case InputEnd => false
  }

  /** Whether `$` holds at position i of s. */
  predicate AtInputEnd(s: string, i: nat)
    requires i <= |s|
  {
    || i == |s|
    || (i == |s| - 1 && IsLineTerminator(s[i]) && !(s[i] == '\n' && i > 0 && s[i - 1] == '\r'))
    || (i == |s| - 2 && s[i] == '\r' && s[i + 1] == '\n')
  }

  /** Whether the items match s from position i to the very end. */
  predicate MatchFrom(items: seq<Item>, s: string, i: nat)
    requires i <= |s|
    decreases |items|, |s| - i
  {
    if items == [] then i == |s|
    else
      var it := items[0];
      match it.atom
      case LineBegin => (it.starred || i == 0) && MatchFrom(items[1..], s, i)
      case InputEnd => (it.starred || AtInputEnd(s, i)) && MatchFrom(items[1..], s, i)
      case _ =>
        if it.starred then
          MatchFrom(items[1..], s, i)
          || (i < |s| && AtomAccepts(it.atom, s[i]) && MatchFrom(items, s, i + 1))
        else
          i < |s| && AtomAccepts(it.atom, s[i]) && MatchFrom(items[1..], s, i + 1)
  }

  /** Matcher.matches() of pattern text p on s, for patterns in the fragment;
      a pattern outside it is taken to match nothing. */
  predicate PatternMatches(p: string, s: string)
  {
    match ParseRegex(p)
    case None => false
    case Some(items) => MatchFrom(items, s, 0)
  }
}

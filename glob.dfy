/** The glob matcher of GlobPatternMatcher.cs.

    The source escapes the glob with Regex.Escape, rewrites the escaped
    wildcards with four ordered String.Replace passes, anchors the result
    with `^...$` and runs a case-insensitive regex test.  Here the escaped
    glob is a sequence of tokens (an escaped `*`, an escaped `?`, or any
    other character, which after escaping stands only for itself); the
    four passes are one generic leftmost, non-overlapping replacement
    applied in the code's order; and the regex test is an anchored match
    relation over the five constructs the rewrites can leave behind. */
module GlobPatternMatcher {
  import opened Common

  datatype Token =
    | Star          // `\*` in the escaped text
    | Quest         // `\?` in the escaped text
    | Lit(c: char)  // any other character, escaped or not: matches itself
    | AnyDirs       // `(.*/)?`
    | AnyAll        // `.*`
    | AnySeg        // `[^/]*`
    | AnyChar       // `.`

  /** Backslash folded to slash. */
  function SlashFor(c: char): char
  {
    if c == '\\' then '/' else c
  }

  /** `s.Replace('\\', '/')`. */
  function Normalize(s: string): (r: string)
    ensures |r| == |s|
    ensures forall i :: 0 <= i < |s| ==> r[i] == SlashFor(s[i])
    ensures '\\' !in r
  {
    if s == [] then [] else [SlashFor(s[0])] + Normalize(s[1..])
  }

  function AtomOf(c: char): Token
  {
    if c == '*' then Star else if c == '?' then Quest else Lit(c)
  }

  /** The token view of `Regex.Escape(glob)`: every escape sequence stands for
      exactly one glob character, so the escaped text splits into one token
      per character. */
  function Atoms(glob: string): (r: seq<Token>)
    ensures |r| == |glob|
    ensures forall i :: 0 <= i < |glob| ==> r[i] == AtomOf(glob[i])
  {
    if glob == [] then [] else [AtomOf(glob[0])] + Atoms(glob[1..])
  }

  /** `target` occurs in `ts` starting at index `i`. */
  predicate OccursAt(ts: seq<Token>, target: seq<Token>, i: nat)
  {
    i + |target| <= |ts| && ts[i..i + |target|] == target
  }

  /** String.Replace on the token view: scan from the left, replace every
      occurrence of `target` by `by` and resume after it. */
  function Replace(ts: seq<Token>, target: seq<Token>, repl: Token): seq<Token>
    requires |target| > 0
    decreases |ts|
  {
    if ts == [] then []
    else if |target| <= |ts| && ts[..|target|] == target then [repl] + Replace(ts[|target|..], target, repl)
    else [ts[0]] + Replace(ts[1..], target, repl)
  }

  /** ConvertGlobToRegex (GlobPatternMatcher.cs:46-58): the four rewrites in
      the code's order; no escaped wildcard survives them. */
  function ConvertGlobToRegex(glob: string): (r: seq<Token>)
    ensures forall i :: 0 <= i < |r| ==> r[i] != Star && r[i] != Quest
  {
    var escaped := Atoms(glob);
    var t1 := Replace(escaped, [Star, Star, Lit('/')], AnyDirs);
    var t2 := Replace(t1, [Star, Star], AnyAll);
    var t3 := Replace(t2, [Star], AnySeg);
    var t4 := Replace(t3, [Quest], AnyChar);
    ReplaceUnit(t2, Star, AnySeg);
    ReplaceUnit(t3, Quest, AnyChar);
    t4
  }

  /** The regex text `Regex.Escape` writes for one literal character. */
  function EscapeChar(c: char): string
  {
    if c == '\n' then "\\n"
    else if c == '\r' then "\\r"
    else if c == '\t' then "\\t"
    else if c == '\U{000C}' then "\\f"
    else if c in "\\*+?|{[()^$.# " then ['\\', c]
    else [c]
  }

  function Render(t: Token): string
  {
    match t
    case Star => "\\*"
    case Quest => "\\?"
    case Lit(c) => EscapeChar(c)
    case AnyDirs => "(.*/)?"
    case AnyAll => ".*"
    case AnySeg => "[^/]*"
    case AnyChar => "."
  }

  function RenderAll(ts: seq<Token>): string
  {
    if ts == [] then "" else Render(ts[0]) + RenderAll(ts[1..])
  }

  /** The anchored regex text the source hands to Regex.IsMatch. */
  function RegexText(ts: seq<Token>): string
  {
    "^" + RenderAll(ts) + "$"
  }

  /** The whole of `s` is matched by the token sequence `ts`.  `.` never
      matches a newline, `[^/]` matches everything but `/`, and literals
      compare up to ASCII case (RegexOptions.IgnoreCase).  A starred
      construct either stops here or consumes one more admissible
      character, the way a backtracking matcher explores it.  Escaped
      wildcards never reach this relation (ConvertGlobToRegex removes them
      all). */
  predicate Matches(ts: seq<Token>, s: string)
    decreases |ts|, |s|, 1
  {
    if ts == [] then s == []
    else match ts[0]
      case Lit(c) => |s| > 0 && SameLetter(s[0], c) && Matches(ts[1..], s[1..])
      case AnyChar => |s| > 0 && s[0] != '\n' && Matches(ts[1..], s[1..])
      case AnySeg => Matches(ts[1..], s) || (|s| > 0 && s[0] != '/' && Matches(ts, s[1..]))
      case AnyAll => Matches(ts[1..], s) || (|s| > 0 && s[0] != '\n' && Matches(ts, s[1..]))
      case AnyDirs => Matches(ts[1..], s) || DirsThen(ts[1..], s)
      case Star => false
      case Quest => false
  }

  // `.*/` followed by `rest` matches the whole of `s`.
  predicate DirsThen(rest: seq<Token>, s: string)
    decreases |rest| + 1, |s|, 0
  {
    && |s| > 0
    && ((s[0] == '/' && Matches(rest, s[1..])) || (s[0] != '\n' && DirsThen(rest, s[1..])))
  }

  /** IsMatch (GlobPatternMatcher.cs:16-26). */
  predicate IsMatch(pattern: string, filePath: string)
  {
    Matches(ConvertGlobToRegex(Normalize(pattern)), Normalize(filePath))
  }

  /** IsMatchAny (GlobPatternMatcher.cs:34-44): the first pattern that
      matches ends the scan; an empty list matches nothing. */
  predicate IsMatchAny(patterns: seq<string>, filePath: string)
    ensures IsMatchAny(patterns, filePath) <==> exists i :: 0 <= i < |patterns| && IsMatch(patterns[i], filePath)
  {
    if patterns == [] then false
    else IsMatch(patterns[0], filePath) || IsMatchAny(patterns[1..], filePath)
  }

  // ---------------------------------------------------------------------
  // Properties of the rewrite passes

  /** Replacing a single token is a pointwise substitution. */
  lemma {:induction false} ReplaceUnit(ts: seq<Token>, t: Token, repl: Token)
    ensures |Replace(ts, [t], repl)| == |ts|
    ensures forall i :: 0 <= i < |ts| ==> Replace(ts, [t], repl)[i] == if ts[i] == t then repl else ts[i]
    decreases |ts|
  {
    if ts != [] {
      ReplaceUnit(ts[1..], t, repl);
      assert ts[..1] == [ts[0]];
    }
  }

  /** A pass whose target never occurs leaves the tokens unchanged. */
  lemma {:induction false} ReplaceNoOccurrence(ts: seq<Token>, target: seq<Token>, repl: Token)
    requires |target| > 0
    requires forall i: nat :: !OccursAt(ts, target, i)
    ensures Replace(ts, target, repl) == ts
    decreases |ts|
  {
    if ts != [] {
      assert !OccursAt(ts, target, 0);
      assert |target| <= |ts| ==> ts[0..0 + |target|] == ts[..|target|];
      NoOccurrenceInTail(ts, target);
      ReplaceNoOccurrence(ts[1..], target, repl);
      assert ts == [ts[0]] + ts[1..];
    }
  }

  /** What does not occur in `ts` does not occur in its tail either. */
  lemma NoOccurrenceInTail(ts: seq<Token>, target: seq<Token>)
    requires ts != [] && forall i: nat :: !OccursAt(ts, target, i)
    ensures forall i: nat :: !OccursAt(ts[1..], target, i)
  {
    forall i: nat ensures !OccursAt(ts[1..], target, i) {
      assert !OccursAt(ts, target, i + 1);
      if i + |target| <= |ts| - 1 {
        assert ts[1..][i..i + |target|] == ts[i + 1..i + 1 + |target|];
      }
    }
  }

  /** A token that cannot start the target is copied and the scan moves on. */
  lemma ReplaceKeepsHead(x: Token, rest: seq<Token>, target: seq<Token>, repl: Token)
    requires |target| > 0 && target[0] != x
    ensures Replace([x] + rest, target, repl) == [x] + Replace(rest, target, repl)
  {
    var ts := [x] + rest;
    assert ts[1..] == rest;
    if |target| <= |ts| { assert ts[..|target|][0] == x; }
  }

  /** Two adjacent `*` at index i of a glob. */
  predicate StarPairAt(p: string, i: nat)
  {
    i + 1 < |p| && p[i] == '*' && p[i + 1] == '*'
  }

  /** The token a glob character becomes when the glob has no `**`. */
  function SimpleToken(c: char): Token
  {
    if c == '*' then AnySeg else if c == '?' then AnyChar else Lit(c)
  }

  /** A glob without `**`: only the last two passes change anything, so each
      `*` becomes `[^/]*`, each `?` becomes `.`, and everything else stays
      a literal. */
  lemma ConvertWithoutDoubleStar(p: string)
    requires forall i: nat :: !StarPairAt(p, i)
    ensures |ConvertGlobToRegex(p)| == |p|
    ensures forall i :: 0 <= i < |p| ==> ConvertGlobToRegex(p)[i] == SimpleToken(p[i])
  {
    var ts := Atoms(p);
    forall target: seq<Token>, i: nat | |target| >= 2 && target[0] == Star && target[1] == Star
      ensures !OccursAt(ts, target, i)
    {
      if i + 1 < |p| { assert !StarPairAt(p, i); }
    }
    ReplaceNoOccurrence(ts, [Star, Star, Lit('/')], AnyDirs);
    ReplaceNoOccurrence(ts, [Star, Star], AnyAll);
    ReplaceUnit(ts, Star, AnySeg);
    ReplaceUnit(Replace(ts, [Star], AnySeg), Quest, AnyChar);
  }

  // A leading `**` followed by `/` becomes `(.*/)?` whatever follows it.
  lemma ConvertDirsPrefix(q: string)
    ensures ConvertGlobToRegex("**/" + q) == [AnyDirs] + ConvertGlobToRegex(q)
  {
    var a := Atoms(q);
    var full := Atoms("**/" + q);
    assert full == [Star, Star, Lit('/')] + a;
    assert full[..3] == [Star, Star, Lit('/')];
    assert full[3..] == a;
    var t1 := Replace(a, [Star, Star, Lit('/')], AnyDirs);
    assert Replace(full, [Star, Star, Lit('/')], AnyDirs) == [AnyDirs] + t1;
    var t2 := Replace(t1, [Star, Star], AnyAll);
    ReplaceKeepsHead(AnyDirs, t1, [Star, Star], AnyAll);
    var t3 := Replace(t2, [Star], AnySeg);
    ReplaceKeepsHead(AnyDirs, t2, [Star], AnySeg);
    ReplaceKeepsHead(AnyDirs, t3, [Quest], AnyChar);
  }

  // The passes are sequential, not a single tokenizer: in `***/` the first
  // pass finds `**/` starting at the second star, and the lone first star
  // is rewritten only by the third pass.
  lemma ConvertThreeStarsSlash()
    ensures ConvertGlobToRegex("***/") == [AnySeg, AnyDirs]
    ensures RegexText(ConvertGlobToRegex("***/")) == "^[^/]*(.*/)?$"
  {
    var a := Atoms("***/");
    assert a == [Star, Star, Star, Lit('/')];
    assert a[..3] != [Star, Star, Lit('/')];
    assert a[1..][..3] == [Star, Star, Lit('/')];
    assert a[1..][3..] == [];
    assert Replace(a, [Star, Star, Lit('/')], AnyDirs) == [Star, AnyDirs];
    assert [Star, AnyDirs][..2] != [Star, Star];
    assert Replace([Star, AnyDirs], [Star, Star], AnyAll) == [Star, AnyDirs];
    assert [Star, AnyDirs][..1] == [Star];
    assert Replace([Star, AnyDirs], [Star], AnySeg) == [AnySeg, AnyDirs];
    assert Replace([AnySeg, AnyDirs], [Quest], AnyChar) == [AnySeg, AnyDirs];
  }

  // ---------------------------------------------------------------------
  // Properties of the match relation

  /** Equal length and the same letters up to case. */
  predicate SameText(a: string, b: string)
  {
    |a| == |b| && forall i :: 0 <= i < |a| ==> SameLetter(a[i], b[i])
  }

  /** No `*` and no `?`. */
  predicate Literal(w: string)
  {
    forall i :: 0 <= i < |w| ==> w[i] != '*' && w[i] != '?'
  }

  /** Literal characters match exactly themselves, up to case, one for one. */
  lemma {:induction false} LiteralsMatch(w: string, rest: seq<Token>, s: string)
    requires Literal(w)
    ensures Matches(Atoms(w) + rest, s)
        <==> |s| >= |w| && SameText(s[..|w|], w) && Matches(rest, s[|w|..])
    decreases |w|
  {
    if w == [] {
      assert Atoms(w) + rest == rest;
      assert s[..0] == [] && s[0..] == s;
    } else {
      var tail := Atoms(w[1..]) + rest;
      assert Atoms(w) + rest == [Lit(w[0])] + tail;
      assert ([Lit(w[0])] + tail)[1..] == tail;
      if |s| > 0 { LiteralsMatch(w[1..], rest, s[1..]); }
      if |s| >= |w| {
        assert s[1..][..|w| - 1] == s[1..|w|];
        assert s[1..][|w| - 1..] == s[|w|..];
        assert SameText(s[..|w|], w) <==> SameLetter(s[0], w[0]) && SameText(s[1..|w|], w[1..]) by {
          if SameLetter(s[0], w[0]) && SameText(s[1..|w|], w[1..]) {
            forall i | 0 <= i < |w| ensures SameLetter(s[..|w|][i], w[i]) {
              if i > 0 { assert s[1..|w|][i - 1] == s[i]; }
            }
          }
          if SameText(s[..|w|], w) {
            assert SameLetter(s[..|w|][0], w[0]);
            forall i | 0 <= i < |w| - 1 ensures SameLetter(s[1..|w|][i], w[1..][i]) {
              assert SameLetter(s[..|w|][i + 1], w[i + 1]);
            }
          }
        }
      }
    }
  }

  /** `[^/]*` alone accepts exactly the strings without a slash. */
  lemma {:induction false} SegmentRunMatch(s: string)
    ensures Matches([AnySeg], s) <==> '/' !in s
    decreases |s|
  {
    assert [AnySeg][1..] == [];
    if s != [] {
      SegmentRunMatch(s[1..]);
      assert s == [s[0]] + s[1..];
    }
  }

  /** `.*` alone accepts exactly the strings without a newline. */
  lemma {:induction false} AnyRunMatch(s: string)
    ensures Matches([AnyAll], s) <==> '\n' !in s
    decreases |s|
  {
    assert [AnyAll][1..] == [];
    if s != [] {
      AnyRunMatch(s[1..]);
      assert s == [s[0]] + s[1..];
    }
  }

  /** The reading of a slash-free stem followed by the literal `w`. */
  predicate StemThenText(s: string, w: string)
  {
    |s| >= |w| && '/' !in s[..|s| - |w|] && SameText(s[|s| - |w|..], w)
  }

  /** `[^/]*` followed by literals: a slash-free stem, then the literal
      suffix up to case. */
  /** A stem-then-text split either has an empty stem or starts with one
      non-slash stem character. */
  lemma StemThenTextStep(s: string, w: string)
    ensures StemThenText(s, w) <==>
      (|s| == |w| && SameText(s, w)) || (|s| > 0 && s[0] != '/' && StemThenText(s[1..], w))
  {
    if |s| == |w| {
      assert s[..0] == [] && s[0..] == s;
    } else if |s| > |w| {
      var k := |s| - |w|;
      assert s[1..][..k - 1] == s[1..k];
      assert s[1..][k - 1..] == s[k..];
      assert s[..k] == [s[0]] + s[1..k];
    }
  }

  lemma {:induction false} SegmentThenLiterals(w: string, s: string)
    requires Literal(w)
    ensures Matches([AnySeg] + Atoms(w), s) <==> StemThenText(s, w)
    decreases |s|
  {
    var ts := [AnySeg] + Atoms(w);
    assert ts[1..] == Atoms(w);
    assert Atoms(w) + [] == Atoms(w);
    LiteralsMatch(w, [], s);
    if |s| > 0 {
      SegmentThenLiterals(w, s[1..]);
    }
    if |s| >= |w| {
      assert s[|w|..] == [] <==> |s| == |w|;
    }
    if |s| == |w| {
      assert s[..|w|] == s;
    }
    StemThenTextStep(s, w);
  }


  /** A newline-free prefix ending in a slash, then a match of `rest`. */
  lemma {:induction false} DirsThenPrefix(rest: seq<Token>, d: string, x: string)
    requires |d| > 0 && d[|d| - 1] == '/' && '\n' !in d
    requires Matches(rest, x)
    ensures DirsThen(rest, d + x)
    decreases |d|
  {
    if |d| == 1 {
      assert (d + x)[1..] == x;
    } else {
      DirsThenPrefix(rest, d[1..], x);
      assert (d + x)[1..] == d[1..] + x;
    }
  }

  // `(.*/)?` accepts no directory prefix, or any newline-free prefix that
  // ends with a slash.
  lemma DirsPrefix(rest: seq<Token>, d: string, x: string)
    requires d == [] || (d[|d| - 1] == '/' && '\n' !in d)
    requires Matches(rest, x)
    ensures Matches([AnyDirs] + rest, d + x)
  {
    assert ([AnyDirs] + rest)[1..] == rest;
    if d == [] {
      assert d + x == x;
    } else {
      DirsThenPrefix(rest, d, x);
    }
  }

  /** `s` splits after index `k` into a newline-free prefix ending in a slash
      and a suffix that `rest` matches. */
  predicate DirsSplitAt(rest: seq<Token>, s: string, k: nat)
  {
    && 0 < k <= |s| && s[k - 1] == '/'
    && (forall i :: 0 <= i < k ==> s[i] != '\n')
    && Matches(rest, s[k..])
  }

  // Every text that `.*/` then `rest` accepts splits that way.
  lemma {:induction false} DirsThenSplits(rest: seq<Token>, s: string)
    requires DirsThen(rest, s)
    ensures exists k: nat :: DirsSplitAt(rest, s, k)
    decreases |s|
  {
    if s[0] == '/' && Matches(rest, s[1..]) {
      assert DirsSplitAt(rest, s, 1);
    } else {
      DirsThenSplits(rest, s[1..]);
      var k: nat :| DirsSplitAt(rest, s[1..], k);
      assert s[k + 1..] == s[1..][k..];
      assert DirsSplitAt(rest, s, k + 1);
    }
  }

  // ---------------------------------------------------------------------
  // Properties of IsMatch

  lemma NormalizeWithoutBackslash(s: string)
    requires '\\' !in s
    ensures Normalize(s) == s
  {
    assert forall i :: 0 <= i < |s| ==> s[i] != '\\';
  }

  /** Replacing every `\` by `/` in the path or in the pattern never changes
      the answer (GlobPatternMatcher.cs:19-20). */
  lemma IsMatchSeparatorInvariant(pattern: string, filePath: string)
    ensures IsMatch(Normalize(pattern), filePath) == IsMatch(pattern, filePath)
    ensures IsMatch(pattern, Normalize(filePath)) == IsMatch(pattern, filePath)
  {
    NormalizeWithoutBackslash(Normalize(pattern));
    NormalizeWithoutBackslash(Normalize(filePath));
  }

  /** A pattern with no wildcard matches exactly the paths equal to it up to
      case: matching is anchored at both ends and regex metacharacters in
      the pattern are literals (GlobPatternMatcher.cs:25, 49, 57). */
  lemma LiteralPattern(w: string, x: string)
    requires Literal(w) && '\\' !in w
    ensures IsMatch(w, x) <==> SameText(Normalize(x), w)
  {
    NormalizeWithoutBackslash(w);
    forall i: nat ensures !StarPairAt(w, i) {}
    ConvertWithoutDoubleStar(w);
    assert ConvertGlobToRegex(w) == Atoms(w) + [];
    var s := Normalize(x);
    LiteralsMatch(w, [], s);
    if |s| >= |w| { assert s[|w|..] == [] <==> |s| == |w|; }
    if |s| == |w| { assert s[..|w|] == s; }
  }

  /** A lone `*` accepts exactly the paths with no separator. */
  lemma StarAlone(x: string)
    ensures IsMatch("*", x) <==> '/' !in x && '\\' !in x
  {
    NormalizeWithoutBackslash("*");
    forall i: nat ensures !StarPairAt("*", i) {}
    ConvertWithoutDoubleStar("*");
    assert ConvertGlobToRegex("*") == [AnySeg];
    SegmentRunMatch(Normalize(x));
    if '/' in Normalize(x) {
      var i :| 0 <= i < |x| && Normalize(x)[i] == '/';
      assert x[i] == '/' || x[i] == '\\';
    }
    if '/' in x || '\\' in x {
      var i :| 0 <= i < |x| && (x[i] == '/' || x[i] == '\\');
      assert Normalize(x)[i] == '/';
    }
  }

  /** A bare `**` accepts any run at all, slashes included, as long as it has
      no newline (GlobPatternMatcher.cs:53). */
  lemma DoubleStarAlone(x: string)
    ensures IsMatch("**", x) <==> '\n' !in x
  {
    NormalizeWithoutBackslash("**");
    var a := Atoms("**");
    assert a == [Star, Star];
    assert a[..2] == [Star, Star] && a[2..] == [];
    assert a[..1] != [Star, Star, Lit('/')] && |a| < 3;
    assert Replace(a[1..], [Star, Star, Lit('/')], AnyDirs) == [Star];
    assert Replace(a, [Star, Star, Lit('/')], AnyDirs) == a;
    assert Replace(a, [Star, Star], AnyAll) == [AnyAll];
    assert ConvertGlobToRegex("**") == [AnyAll];
    AnyRunMatch(Normalize(x));
    if '\n' in x {
      var i :| 0 <= i < |x| && x[i] == '\n';
      assert Normalize(x)[i] == '\n';
    }
    if '\n' in Normalize(x) {
      var i :| 0 <= i < |x| && Normalize(x)[i] == '\n';
      assert x[i] == '\n';
    }
  }

  /** `?` consumes exactly one character other than a newline; a slash is
      accepted too, although the source's comment says otherwise
      (GlobPatternMatcher.cs:55). */
  lemma QuestAlone(x: string)
    ensures IsMatch("?", x) <==> |x| == 1 && x[0] != '\n'
  {
    NormalizeWithoutBackslash("?");
    forall i: nat ensures !StarPairAt("?", i) {}
    ConvertWithoutDoubleStar("?");
    assert ConvertGlobToRegex("?") == [AnyChar];
    assert [AnyChar][1..] == [];
    var s := Normalize(x);
    assert Matches([AnyChar], s) <==> |s| == 1 && s[0] != '\n';
    if |x| == 1 { assert s[0] == SlashFor(x[0]); }
  }

  /** `.` alone accepts exactly one character other than a newline. */
  lemma OneCharMatch(t: string)
    ensures Matches([AnyChar], t) <==> |t| == 1 && t[0] != '\n'
  {
    assert [AnyChar][1..] == [];
  }

  /** A literal followed by one wildcard converts to the literal's tokens and
      that wildcard's construct. */
  lemma ConvertLiteralThenWildcard(w: string, c: char)
    requires Literal(w) && (c == '*' || c == '?')
    ensures ConvertGlobToRegex(w + [c]) == Atoms(w) + [SimpleToken(c)]
  {
    var p := w + [c];
    forall i: nat ensures !StarPairAt(p, i) {
      if i + 1 < |p| { assert p[i] == w[i]; }
    }
    ConvertWithoutDoubleStar(p);
    var r := ConvertGlobToRegex(p);
    forall i | 0 <= i < |p| ensures r[i] == (Atoms(w) + [SimpleToken(c)])[i] {
      if i < |w| { assert p[i] == w[i]; }
    }
  }

  /** A literal followed by one wildcard in a glob without backslashes. */
  lemma LiteralThenWildcardShape(w: string, c: char)
    requires Literal(w) && '\\' !in w && (c == '*' || c == '?')
    ensures Normalize(w + [c]) == w + [c]
    ensures ConvertGlobToRegex(Normalize(w + [c])) == Atoms(w) + [SimpleToken(c)]
  {
    var p := w + [c];
    assert '\\' !in p by { assert forall i :: 0 <= i < |p| ==> p[i] == if i < |w| then w[i] else c; }
    NormalizeWithoutBackslash(p);
    ConvertLiteralThenWildcard(w, c);
  }

  /** `w*`: the literal prefix up to case, then a slash-free rest. */
  lemma PrefixThenStar(w: string, x: string)
    requires Literal(w) && '\\' !in w
    ensures IsMatch(w + "*", x)
        <==> |x| >= |w| && SameText(Normalize(x)[..|w|], w) && '/' !in Normalize(x)[|w|..]
  {
    LiteralThenWildcardShape(w, '*');
    var s := Normalize(x);
    LiteralsMatch(w, [AnySeg], s);
    if |s| >= |w| { SegmentRunMatch(s[|w|..]); }
  }

  /** `w?`: the literal prefix up to case, then exactly one more character
      that is not a newline. */
  lemma PrefixThenQuest(w: string, x: string)
    requires Literal(w) && '\\' !in w
    ensures IsMatch(w + "?", x)
        <==> |x| == |w| + 1 && SameText(Normalize(x)[..|w|], w) && x[|w|] != '\n'
  {
    LiteralThenWildcardShape(w, '?');
    var s := Normalize(x);
    LiteralsMatch(w, [AnyChar], s);
    if |s| >= |w| {
      OneCharMatch(s[|w|..]);
      if |s| == |w| + 1 {
        assert s[|w|..][0] == s[|w|] == SlashFor(x[|w|]);
      }
    }
  }

  /** `*w`: a slash-free stem, then the literal suffix up to case; a single
      star never crosses a separator (GlobPatternMatcher.cs:54). */
  /** `*` then a literal converts to `[^/]*` then the literal's atoms. */
  lemma ConvertStarThenLiteral(w: string)
    requires Literal(w) && '\\' !in w
    ensures Normalize("*" + w) == "*" + w
    ensures ConvertGlobToRegex("*" + w) == [AnySeg] + Atoms(w)
  {
    var p := "*" + w;
    assert '\\' !in p by { assert forall i :: 0 <= i < |p| ==> p[i] == if i == 0 then '*' else w[i - 1]; }
    NormalizeWithoutBackslash(p);
    forall i: nat ensures !StarPairAt(p, i) {
      if i + 1 < |p| { assert p[i + 1] == w[i]; }
    }
    ConvertWithoutDoubleStar(p);
    var r := ConvertGlobToRegex(p);
    forall i | 0 <= i < |r| ensures r[i] == ([AnySeg] + Atoms(w))[i] {
      if i > 0 { assert p[i] == w[i - 1]; }
    }
  }

  lemma StarThenSuffix(w: string, x: string)
    requires Literal(w) && '\\' !in w
    ensures IsMatch("*" + w, x) <==> StemThenText(Normalize(x), w)
  {
    ConvertStarThenLiteral(w);
    SegmentThenLiterals(w, Normalize(x));
  }

  // `**/` in front of a pattern admits zero or more directory levels: the
  // path the rest matches may be prefixed by nothing, or by any
  // newline-free directory prefix ending in a separator
  // (GlobPatternMatcher.cs:52).
  lemma AnyDirsPrefix(q: string, d: string, x: string)
    requires d == [] || (d[|d| - 1] == '/' && '\n' !in d && '\\' !in d)
    requires IsMatch(q, x)
    ensures IsMatch("**/" + q, d + x)
  {
    assert Normalize("**/" + q) == "**/" + Normalize(q);
    ConvertDirsPrefix(Normalize(q));
    NormalizeWithoutBackslash(d);
    assert Normalize(d + x) == d + Normalize(x);
    DirsPrefix(ConvertGlobToRegex(Normalize(q)), d, Normalize(x));
  }

  /** The first `k` characters of `p` are a directory prefix: none at all, or
      newline-free text ending in a separator (`/` or `\`). */
  predicate DirectoryPrefix(p: string, k: nat)
  {
    && k <= |p|
    && (k == 0 || (SlashFor(p[k - 1]) == '/' && forall i :: 0 <= i < k ==> p[i] != '\n'))
  }

  // Conversely, every path `**/q` matches is such a directory prefix
  // followed by a path that q matches.
  lemma AnyDirsPrefixOnly(q: string, p: string)
    requires IsMatch("**/" + q, p)
    ensures exists k: nat :: DirectoryPrefix(p, k) && IsMatch(q, p[k..])
  {
    var r := ConvertGlobToRegex(Normalize(q));
    var np := Normalize(p);
    assert Normalize("**/" + q) == "**/" + Normalize(q);
    ConvertDirsPrefix(Normalize(q));
    assert ([AnyDirs] + r)[1..] == r;
    if Matches(r, np) {
      assert p[0..] == p;
      assert DirectoryPrefix(p, 0) && IsMatch(q, p[0..]);
    } else {
      DirsThenSplits(r, np);
      var k: nat :| DirsSplitAt(r, np, k);
      assert Normalize(p[k..]) == np[k..];
      assert DirectoryPrefix(p, k);
      assert IsMatch(q, p[k..]);
    }
  }

  // The concrete behaviour the repository's matcher tests assert, derived
  // from the general lemmas above.

  /** StarThenSuffix for a path that already uses `/`. */
  lemma StarThenSuffixPlain(w: string, x: string)
    requires Literal(w) && '\\' !in w && '\\' !in x
    ensures IsMatch("*" + w, x) <==> StemThenText(x, w)
  {
    StarThenSuffix(w, x);
    NormalizeWithoutBackslash(x);
  }

  lemma ExtensionTexts()
    ensures StemThenText("file.txt", ".txt") && StemThenText("code.cs", ".cs")
    ensures !StemThenText("file.cs", ".txt") && !StemThenText("dir/file.txt", ".txt")
    ensures !StemThenText("image.png", ".txt") && !StemThenText("image.png", ".cs")
    ensures !StemThenText("image.png", ".js")
  {
    assert "file.txt"[..4] == "file" && "file.txt"[4..] == ".txt";
    assert "code.cs"[..4] == "code" && "code.cs"[4..] == ".cs";
    assert "file.cs"[3..][0] == 'e';
    assert "dir/file.txt"[..8][3] == '/';
    assert "image.png"[5..][1] == 'p';
    assert "image.png"[6..][1] == 'n';
  }

  /** `*.txt` accepts a file name with that extension. */
  lemma StarExtensionAccepts()
    ensures IsMatch("*.txt", "file.txt")
  {
    ExtensionTexts();
    assert "*.txt" == "*" + ".txt";
    StarThenSuffixPlain(".txt", "file.txt");
  }

  /** `*.txt` rejects another extension. */
  lemma StarExtensionRejectsOther()
    ensures !IsMatch("*.txt", "file.cs")
  {
    ExtensionTexts();
    assert "*.txt" == "*" + ".txt";
    StarThenSuffixPlain(".txt", "file.cs");
  }

  /** `*.txt` never crosses a separator. */
  lemma StarExtensionStaysInSegment()
    ensures !IsMatch("*.txt", "dir/file.txt")
  {
    ExtensionTexts();
    assert "*.txt" == "*" + ".txt";
    StarThenSuffixPlain(".txt", "dir/file.txt");
  }

  /** PrefixThenStar for a path that already uses `/`. */
  lemma PrefixThenStarPlain(w: string, x: string)
    requires Literal(w) && '\\' !in w && '\\' !in x
    ensures IsMatch(w + "*", x) <==> |x| >= |w| && SameText(x[..|w|], w) && '/' !in x[|w|..]
  {
    PrefixThenStar(w, x);
    NormalizeWithoutBackslash(x);
  }

  /** PrefixThenQuest for a path that already uses `/`. */
  lemma PrefixThenQuestPlain(w: string, x: string)
    requires Literal(w) && '\\' !in w && '\\' !in x
    ensures IsMatch(w + "?", x) <==> |x| == |w| + 1 && SameText(x[..|w|], w) && x[|w|] != '\n'
  {
    PrefixThenQuest(w, x);
    NormalizeWithoutBackslash(x);
  }

  /** `test*` accepts the prefix followed by anything slash-free. */
  lemma PrefixStarAccepts()
    ensures IsMatch("test*", "test123") && IsMatch("test*", "test")
  {
    assert "test*" == "test" + "*";
    PrefixThenStarPlain("test", "test123");
    assert "test123"[..4] == "test" && "test123"[4..] == "123";
    PrefixThenStarPlain("test", "test");
    assert "test"[..4] == "test" && "test"[4..] == "";
  }

  /** `test*` does not accept text that only contains the prefix later on. */
  lemma PrefixStarRejectsLaterPrefix()
    ensures !IsMatch("test*", "pretest")
  {
    assert "test*" == "test" + "*";
    PrefixThenStarPlain("test", "pretest");
    assert "pretest"[..4][1] == 'r';
  }

  /** `test?` accepts exactly one character after the prefix. */
  lemma PrefixQuestAccepts()
    ensures IsMatch("test?", "test1") && IsMatch("test?", "testa")
  {
    assert "test?" == "test" + "?";
    PrefixThenQuestPlain("test", "test1");
    assert "test1"[..4] == "test";
    PrefixThenQuestPlain("test", "testa");
    assert "testa"[..4] == "test";
  }

  /** `test?` rejects zero or two characters after the prefix. */
  lemma PrefixQuestRejectsOtherLengths()
    ensures !IsMatch("test?", "test12") && !IsMatch("test?", "test")
  {
    assert "test?" == "test" + "?";
    PrefixThenQuestPlain("test", "test12");
    PrefixThenQuestPlain("test", "test");
  }

  // `**/*.txt` accepts `file.txt` under any directory prefix.
  lemma DirsExtensionUnder(d: string)
    requires d == [] || (d[|d| - 1] == '/' && '\n' !in d && '\\' !in d)
    ensures IsMatch("**/*.txt", d + "file.txt")
  {
    StarExtensionAccepts();
    assert "**/" + "*.txt" == "**/*.txt";
    AnyDirsPrefix("*.txt", d, "file.txt");
  }

  /** IsMatchAny finds `*.cs` for a C# file. */
  lemma AnyPatternFinds()
    ensures IsMatchAny(["*.txt", "*.cs", "*.js"], "code.cs")
  {
    var ps := ["*.txt", "*.cs", "*.js"];
    assert ps[1] == "*" + ".cs";
    ExtensionTexts();
    StarThenSuffixPlain(".cs", "code.cs");
  }
}

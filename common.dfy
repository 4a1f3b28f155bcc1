/** Small helpers shared by the daemon variants: an option type, ASCII case
    folding, and the outcome of a glob test that runs against the live
    directory. */
module Common {

  datatype Option<+T> = None | Some(value: T)

  /** Outcome of asking a disk-backed glob library whether a pattern matches
      a path: it may also throw, which every caller catches. */
  datatype MatchOutcome = Matched | NotMatched | MatchFailed

  /** ASCII lower-casing of one character (culture-specific folding is not
      modelled). */
  function LowerChar(c: char): char
  {
    if 'A' <= c <= 'Z' then (c as int + 32) as char else c
  }

  /** Path.Combine of a directory and a relative file name, with `/` as the
      separator: no separator is added after an empty directory or one that
      already ends with `/`. */
  function Combine(directory: string, name: string): string
  {
    if directory == [] then name
    else if directory[|directory| - 1] == '/' then directory + name
    else directory + "/" + name
  }

  /** A combined path ends with the name and starts with the directory,
      with exactly one separator between them when the directory is not
      empty. */
  lemma CombineJoins(directory: string, name: string)
    ensures |Combine(directory, name)| >= |name|
    ensures Combine(directory, name)[|Combine(directory, name)| - |name|..] == name
    ensures |Combine(directory, name)| >= |directory|
    ensures Combine(directory, name)[..|directory|] == directory
    ensures directory != [] ==> Combine(directory, name)[|Combine(directory, name)| - |name| - 1] == '/'
  {
    var r := Combine(directory, name);
    if directory != [] && directory[|directory| - 1] != '/' {
      assert r == directory + "/" + name;
    }
  }

  /** Path.GetRelativePath for a path under the root: the text after the
      root and its separator; any other path is kept whole (the watchers
      only report paths under the root). */
  function RelativePath(root: string, fullPath: string): string
  {
    var prefix := if root != [] && root[|root| - 1] == '/' then root else root + "/";
    if |prefix| <= |fullPath| && fullPath[..|prefix|] == prefix then fullPath[|prefix|..] else fullPath
  }

  /** A file name: the path's text after its last `/` (Path.GetFileName and
      os.path.basename on a Unix path). */
  function FileName(path: string): (r: string)
    ensures '/' !in r
  {
    if path == [] then []
    else if path[|path| - 1] == '/' then []
    else FileName(path[..|path| - 1]) + [path[|path| - 1]]
  }

  /** The file name is the whole path after its last `/`: a suffix of the
      path that is either all of it or follows a `/`. */
  lemma {:induction false} FileNameIsLastSegment(path: string)
    ensures |FileName(path)| <= |path| && path[|path| - |FileName(path)|..] == FileName(path)
    ensures |FileName(path)| < |path| ==> path[|path| - |FileName(path)| - 1] == '/'
    decreases |path|
  {
    if path != [] && path[|path| - 1] != '/' {
      var init := path[..|path| - 1];
      FileNameIsLastSegment(init);
      assert path[|path| - |FileName(path)|..] == init[|init| - |FileName(init)|..] + [path[|path| - 1]];
    }
  }

  /** The file name of a path made of a directory and a slash-free name. */
  lemma {:induction false} FileNameOfJoin(dir: string, name: string)
    requires '/' !in name
    ensures FileName(dir + "/" + name) == name
    decreases |name|
  {
    if name == [] {
      assert dir + "/" + name == dir + "/";
    } else {
      var last := name[|name| - 1];
      var init := name[..|name| - 1];
      assert (dir + "/" + name)[..|dir + "/" + name| - 1] == dir + "/" + init;
      FileNameOfJoin(dir, init);
      assert init + [last] == name;
    }
  }

  /** Sequence concatenation regrouped, for the console-log proofs. */
  lemma AppendAssociates<T>(a: seq<T>, b: seq<T>, c: seq<T>)
    ensures a + b + c == a + (b + c)
  {
  }

  /** Lower-case every character of a string. */
  function Lower(s: string): (r: string)
    ensures |r| == |s|
    ensures forall i :: 0 <= i < |s| ==> r[i] == LowerChar(s[i])
  {
    if s == [] then [] else [LowerChar(s[0])] + Lower(s[1..])
  }

  /** Two characters that are equal up to ASCII case. */
  predicate SameLetter(a: char, b: char)
  {
    LowerChar(a) == LowerChar(b)
  }

  /** Ordinal, case-insensitive string equality (StringComparison.OrdinalIgnoreCase). */
  predicate EqualsIgnoreCase(a: string, b: string)
  {
    Lower(a) == Lower(b)
  }

  /** Pointwise reading of EqualsIgnoreCase: same length and every position
      holds the same letter up to case. */
  lemma {:induction false} EqualsIgnoreCaseIsPointwise(a: string, b: string)
    ensures EqualsIgnoreCase(a, b) <==> |a| == |b| && forall i :: 0 <= i < |a| ==> SameLetter(a[i], b[i])
  {
    if |a| == |b| && forall i :: 0 <= i < |a| ==> SameLetter(a[i], b[i]) {
      assert forall i :: 0 <= i < |a| ==> Lower(a)[i] == Lower(b)[i];
    }
    if EqualsIgnoreCase(a, b) {
      forall i | 0 <= i < |a| ensures SameLetter(a[i], b[i]) {
        assert Lower(a)[i] == Lower(b)[i];
      }
    }
  }

  /** A string without upper-case ASCII letters is its own lower-case form. */
  lemma LowerOfLowerCase(s: string)
    requires forall i :: 0 <= i < |s| ==> !('A' <= s[i] <= 'Z')
    ensures Lower(s) == s
  {
  }
}

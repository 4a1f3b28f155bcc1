/** The Python prototype, permission_daemon/daemon.py.  Rules are
    `pattern perms` lines of permissions.conf; a file whose name matches a
    pattern is chmod-ed to the mode the letters `r`, `w`, `x` of `perms`
    stand for.  The daemon polls the directory: new files and files whose
    modification time grew get the rules applied, and the times are kept in
    a map.  The directory walk with the times it reads, the configuration
    file's lines, `fnmatch` and chmod failures are inputs. */
module PollingDaemon {
  import opened Common

  /** A rule: a file-name pattern and its permission letters. */
  type Rule = (string, string)

  /** The characters `str.strip` and `str.split` treat as white space
      (ASCII only). */
  predicate IsSpace(c: char)
  {
    c == ' ' || 9 <= c as int <= 13 || 28 <= c as int <= 31
  }

  /** `s` without its leading white space. */
  function TrimStart(s: string): (r: string)
    ensures |r| <= |s| && r == s[|s| - |r|..]
    ensures forall i :: 0 <= i < |s| - |r| ==> IsSpace(s[i])
    ensures r != [] ==> !IsSpace(r[0])
  {
    if s != [] && IsSpace(s[0]) then TrimStart(s[1..]) else s
  }

  /** `s` without its trailing white space. */
  function TrimEnd(s: string): (r: string)
    ensures |r| <= |s| && r == s[..|r|]
    ensures forall i :: |r| <= i < |s| ==> IsSpace(s[i])
    ensures r != [] ==> !IsSpace(r[|r| - 1])
    ensures s != [] && !IsSpace(s[0]) ==> r != []
  {
    if s != [] && IsSpace(s[|s| - 1]) then TrimEnd(s[..|s| - 1]) else s
  }

  /** `r` is the part of `s` starting at `a`, and everything of `s` before
      and after it is white space. */
  predicate SurroundedBySpace(s: string, r: string, a: nat)
  {
    && a + |r| <= |s| && r == s[a..a + |r|]
    && (forall i :: 0 <= i < a ==> IsSpace(s[i]))
    && (forall i :: a + |r| <= i < |s| ==> IsSpace(s[i]))
  }

  /** `line.strip()`. */
  function Strip(s: string): (r: string)
    ensures r != [] ==> !IsSpace(r[0]) && !IsSpace(r[|r| - 1])
  {
    var t := TrimStart(s);
    var r := TrimEnd(t);
    assert r != [] ==> r[0] == t[0];
    r
  }

  /** Removing leading white space, then trailing white space, leaves a
      part of `s` surrounded by white space. */
  lemma TrimmedPartSurrounded(s: string, t: string, r: string)
    requires |t| <= |s| && t == s[|s| - |t|..] && forall i :: 0 <= i < |s| - |t| ==> IsSpace(s[i])
    requires |r| <= |t| && r == t[..|r|] && forall i :: |r| <= i < |t| ==> IsSpace(t[i])
    ensures SurroundedBySpace(s, r, |s| - |t|)
  {
    var a := |s| - |t|;
    assert s[a..][..|r|] == s[a..a + |r|];
    forall i | a + |r| <= i < |s| ensures IsSpace(s[i]) {
      assert s[i] == t[i - a];
    }
  }

  /** Strip removes white space around the text and nothing else. */
  lemma StripRemovesOnlySurroundingSpace(s: string)
    ensures exists a :: SurroundedBySpace(s, Strip(s), a)
  {
    var t := TrimStart(s);
    assert Strip(s) == TrimEnd(t);
    TrimmedPartSurrounded(s, t, TrimEnd(t));
  }


  /** The length of the run of non-space characters `s` starts with. */
  function RunLength(s: string): (n: nat)
    ensures n <= |s|
    ensures forall i :: 0 <= i < n ==> !IsSpace(s[i])
    ensures n < |s| ==> IsSpace(s[n])
  {
    if s == [] || IsSpace(s[0]) then 0 else 1 + RunLength(s[1..])
  }

  /** `s.split()`: the maximal runs of non-space characters, in order. */
  function Words(s: string): (r: seq<string>)
    ensures forall i :: 0 <= i < |r| ==> r[i] != [] && forall j :: 0 <= j < |r[i]| ==> !IsSpace(r[i][j])
    decreases |s|
  {
    if s == [] then []
    else if IsSpace(s[0]) then Words(s[1..])
    else
      var n := RunLength(s);
      [s[..n]] + Words(s[n..])
  }

  /** Only text made of white space alone has no words. */
  lemma {:induction false} WordsOfBlank(s: string)
    ensures Words(s) == [] <==> forall i :: 0 <= i < |s| ==> IsSpace(s[i])
    decreases |s|
  {
    if s != [] && IsSpace(s[0]) {
      WordsOfBlank(s[1..]);
      assert forall i :: 1 <= i < |s| ==> s[i] == s[1..][i - 1];
    }
  }

  /** A space ends the run of the text in front of it. */
  lemma RunLengthBeforeSpace(a: string, c: char, b: string)
    requires IsSpace(c)
    ensures RunLength(a + [c] + b) == RunLength(a)
    ensures (a + [c] + b)[..RunLength(a)] == a[..RunLength(a)]
  {
    var s := a + [c] + b;
    var m := RunLength(a);
    assert forall i :: 0 <= i < |a| ==> s[i] == a[i];
    assert s[m] == if m < |a| then a[m] else c;
    RunLengthIsUnique(s, m);
  }

  /** The run length is the one position before which no character is a
      space and at which, if anywhere, a space stands. */
  lemma {:induction false} RunLengthIsUnique(s: string, m: nat)
    requires m <= |s| && forall i :: 0 <= i < m ==> !IsSpace(s[i])
    requires m < |s| ==> IsSpace(s[m])
    ensures RunLength(s) == m
    decreases m
  {
    if m > 0 {
      assert forall i :: 0 <= i < m - 1 ==> s[1..][i] == s[i + 1];
      RunLengthIsUnique(s[1..], m - 1);
    }
  }

  /** `split` cuts at every white-space character: the words of `a`, a
      space, then `b` are the words of `a` followed by those of `b`.  With
      WordsOfField and the all-space case of Words this fixes the words of
      every string as its maximal non-space runs, in order. */
  lemma {:induction false} WordsSplitAtSpace(a: string, c: char, b: string)
    requires IsSpace(c)
    ensures Words(a + [c] + b) == Words(a) + Words(b)
    decreases |a|
  {
    var s := a + [c] + b;
    if a == [] {
      assert s[1..] == b;
    } else if IsSpace(a[0]) {
      assert s[1..] == a[1..] + [c] + b;
      WordsSplitAtSpace(a[1..], c, b);
    } else {
      var m := RunLength(a);
      RunLengthBeforeSpace(a, c, b);
      if m < |a| {
        assert s[m..] == a[m..] + [c] + b;
        WordsSplitAtSpace(a[m..], c, b);
      } else {
        assert s[m..] == [c] + b && ([c] + b)[1..] == b;
        assert a[m..] == [];
      }
    }
  }

  /** A line load_rules keeps: once stripped it is not empty, is not a
      comment, and splits into exactly two fields. */
  predicate IsRuleLine(line: string)
  {
    var t := Strip(line);
    t != [] && t[0] != '#' && |Words(t)| == 2
  }

  /** The rules of a configuration file, in file order. */
  function RulesOf(lines: seq<string>): (r: seq<Rule>)
    ensures |r| <= |lines|
    decreases |lines|
  {
    if lines == [] then []
    else
      var init := RulesOf(lines[..|lines| - 1]);
      var line := lines[|lines| - 1];
      if IsRuleLine(line) then init + [(Words(Strip(line))[0], Words(Strip(line))[1])] else init
  }

  /** The rules of consecutive parts of a file are the rules of each part,
      in order: every line is judged on its own. */
  lemma {:induction false} RulesOfAppend(a: seq<string>, b: seq<string>)
    ensures RulesOf(a + b) == RulesOf(a) + RulesOf(b)
    decreases |b|
  {
    if b == [] {
      assert a + b == a;
    } else {
      var b' := b[..|b| - 1];
      assert (a + b)[..|a + b| - 1] == a + b';
      RulesOfAppend(a, b');
    }
  }

  /** A line that neither starts nor ends with white space is its own
      strip. */
  lemma StripKeepsTrimmed(line: string)
    requires line != [] && !IsSpace(line[0]) && !IsSpace(line[|line| - 1])
    ensures Strip(line) == line
  {
    assert TrimStart(line) == line;
    assert TrimEnd(line) == line;
  }

  /** A space-free field splits into itself. */
  lemma WordsOfField(w: string)
    requires w != [] && forall i :: 0 <= i < |w| ==> !IsSpace(w[i])
    ensures Words(w) == [w]
  {
    assert RunLength(w) == |w|;
    assert w[..|w|] == w && w[|w|..] == [];
  }

  /** Two space-free fields joined by a space split back into the two. */
  lemma WordsOfTwoFields(pattern: string, perms: string)
    requires pattern != [] && perms != []
    requires forall i :: 0 <= i < |pattern| ==> !IsSpace(pattern[i])
    requires forall i :: 0 <= i < |perms| ==> !IsSpace(perms[i])
    ensures Words(pattern + " " + perms) == [pattern, perms]
  {
    var line := pattern + " " + perms;
    assert line[|pattern|] == ' ';
    assert forall i :: 0 <= i < |pattern| ==> line[i] == pattern[i];
    assert RunLength(line) == |pattern|;
    assert line[..|pattern|] == pattern;
    var rest := line[|pattern|..];
    assert rest[0] == ' ' && rest[1..] == perms;
    WordsOfField(perms);
    assert Words(rest) == [perms];
  }

  /** A line of two space-free fields, separated by a space, whose pattern
      does not start with `#`, gives exactly that rule. */
  lemma TwoFieldLine(pattern: string, perms: string)
    requires pattern != [] && perms != [] && pattern[0] != '#'
    requires forall i :: 0 <= i < |pattern| ==> !IsSpace(pattern[i])
    requires forall i :: 0 <= i < |perms| ==> !IsSpace(perms[i])
    ensures RulesOf([pattern + " " + perms]) == [(pattern, perms)]
  {
    var line := pattern + " " + perms;
    assert line[0] == pattern[0] && line[|line| - 1] == perms[|perms| - 1];
    StripKeepsTrimmed(line);
    WordsOfTwoFields(pattern, perms);
    var file: seq<string> := [line];
    assert file[..0] == [];
  }

  /** A line starting with `#` is a comment, not a rule. */
  lemma CommentLineDropped(line: string)
    requires line != [] && line[0] == '#'
    ensures !IsRuleLine(line)
  {
    assert TrimStart(line) == line;
    assert Strip(line)[0] == '#';
  }

  /** Lines that are not rule lines give no rules. */
  lemma {:induction false} NoRuleLines(lines: seq<string>)
    requires forall i :: 0 <= i < |lines| ==> !IsRuleLine(lines[i])
    ensures RulesOf(lines) == []
    decreases |lines|
  {
    if lines != [] {
      NoRuleLines(lines[..|lines| - 1]);
    }
  }

  /** Comment lines followed by one two-field line give that one rule. */
  lemma OneRuleAfterComments(comments: seq<string>, pattern: string, perms: string)
    requires forall i :: 0 <= i < |comments| ==> comments[i] != [] && comments[i][0] == '#'
    requires pattern != [] && perms != [] && pattern[0] != '#'
    requires forall i :: 0 <= i < |pattern| ==> !IsSpace(pattern[i])
    requires forall i :: 0 <= i < |perms| ==> !IsSpace(perms[i])
    ensures RulesOf(comments + [pattern + " " + perms]) == [(pattern, perms)]
  {
    forall i | 0 <= i < |comments| ensures !IsRuleLine(comments[i]) {
      CommentLineDropped(comments[i]);
    }
    NoRuleLines(comments);
    RulesOfAppend(comments, [pattern + " " + perms]);
    TwoFieldLine(pattern, perms);
  }

  /** The configuration file main writes when none exists holds comments
      and the single rule `*.py r`, which makes Python files read-only for
      everyone (0o444). */
  lemma DefaultConfigMakesPythonReadOnly()
    ensures RulesOf(DefaultConfigLines()) == [("*.py", "r")]
    ensures ParsePerms("r") == 0x124
  {
    var d := DefaultConfigLines();
    var comments := d[..4];
    assert forall i :: 0 <= i < 4 ==> comments[i] != [] && comments[i][0] == '#';
    assert "*.py" + " " + "r" == "*.py r";
    assert d == comments + [d[4]];
    OneRuleAfterComments(comments, "*.py", "r");
  }

  /** load_rules: the file's lines are read in order and the rule lines
      kept. */
  method LoadRules(lines: seq<string>) returns (rules: seq<Rule>)
    ensures rules == RulesOf(lines)
  {
    rules := [];
    var i := 0;
    while i < |lines|
      invariant 0 <= i <= |lines|
      invariant rules == RulesOf(lines[..i])
    {
      assert lines[..i + 1][..i] == lines[..i];
      var line := Strip(lines[i]);
      if line != [] && line[0] != '#' {
        var parts := Words(line);
        if |parts| == 2 {
          rules := rules + [(parts[0], parts[1])];
        }
      }
      i := i + 1;
    }
    assert lines[..i] == lines;
  }

  /** parse_perms: read, write and execute bits for the letters `r`, `w`,
      `x` found anywhere in the string.  Write is granted to owner and group
      only, so the mode never exceeds 0o775. */
  function ParsePerms(perms: string): (mode: bv16)
    ensures mode & 0x124 == (if 'r' in perms then 0x124 else 0)   // 0o444
    ensures mode & 0x90 == (if 'w' in perms then 0x90 else 0)     // 0o220
    ensures mode & 0x49 == (if 'x' in perms then 0x49 else 0)     // 0o111
    ensures mode & 0x1FD == mode                                  // within 0o775
  {
    (if 'r' in perms then 0x124 else 0)
    | (if 'w' in perms then 0x90 else 0)
    | (if 'x' in perms then 0x49 else 0)
  }

  /** Only which of the three letters occur matters: order, repetition and
      any other character are ignored. */
  lemma ParsePermsReadsLettersOnly(a: string, b: string)
    requires ('r' in a <==> 'r' in b) && ('w' in a <==> 'w' in b) && ('x' in a <==> 'x' in b)
    ensures ParsePerms(a) == ParsePerms(b)
  {
    var x, y := ParsePerms(a), ParsePerms(b);
    assert x == (x & 0x124) | (x & 0x90) | (x & 0x49) by { assert x & 0x1FD == x; }
    assert y == (y & 0x124) | (y & 0x90) | (y & 0x49) by { assert y & 0x1FD == y; }
  }

  /** What the console shows, without the exception texts. */
  datatype Report =
    | RulesLoaded(count: nat)
    | NewFile(path: string)
    | AppliedPerms(perms: string, path: string)
    | ApplyFailed(path: string)
    | Modified(path: string)
    | Removed(path: string)

  /** Rule `k` is applied to `path`, whose file name is `name`: its
      pattern matches the name and the chmod succeeds. */
  predicate AppliesAt(rules: seq<Rule>, k: nat, path: string, name: string, fnmatch: (string, string) -> bool, chmodOk: (string, nat) -> bool)
    requires k < |rules|
  {
    fnmatch(name, rules[k].0) && chmodOk(path, k)
  }

  /** apply_permissions from rule `k` on: the console lines, and the
      permission letters of the last chmod that succeeded, if any. */
  datatype Applied = Applied(reports: seq<Report>, lastPerms: Option<string>)

  function ApplyFrom(rules: seq<Rule>, k: nat, path: string, name: string, fnmatch: (string, string) -> bool, chmodOk: (string, nat) -> bool): (r: Applied)
    requires k <= |rules|
    ensures |r.reports| <= |rules| - k
    ensures forall i :: 0 <= i < |r.reports| ==> (r.reports[i].AppliedPerms? || r.reports[i].ApplyFailed?) && r.reports[i].path == path
    ensures r.lastPerms.Some? ==> AppliedPerms(r.lastPerms.value, path) in r.reports
    decreases |rules| - k
  {
    if k == |rules| then Applied([], None)
    else
      var rest := ApplyFrom(rules, k + 1, path, name, fnmatch, chmodOk);
      if !fnmatch(name, rules[k].0) then rest
      else if chmodOk(path, k) then
        Applied([AppliedPerms(rules[k].1, path)] + rest.reports,
                if rest.lastPerms.Some? then rest.lastPerms else Some(rules[k].1))
      else Applied([ApplyFailed(path)] + rest.reports, rest.lastPerms)
  }

  /** Every matching rule is applied in turn, so the last one whose chmod
      succeeds decides the file's mode; with none, the mode is untouched. */
  lemma {:induction false} LastMatchWins(rules: seq<Rule>, k: nat, path: string, name: string, fnmatch: (string, string) -> bool,
                                         chmodOk: (string, nat) -> bool, j: nat)
    requires k <= |rules|
    ensures
      && k <= j < |rules| && AppliesAt(rules, j, path, name, fnmatch, chmodOk)
      && (forall l :: j < l < |rules| ==> !AppliesAt(rules, l, path, name, fnmatch, chmodOk))
      ==> ApplyFrom(rules, k, path, name, fnmatch, chmodOk).lastPerms == Some(rules[j].1)
    ensures ApplyFrom(rules, k, path, name, fnmatch, chmodOk).lastPerms == None <==>
      forall l :: k <= l < |rules| ==> !AppliesAt(rules, l, path, name, fnmatch, chmodOk)
    decreases |rules| - k
  {
    if k < |rules| {
      LastMatchWins(rules, k + 1, path, name, fnmatch, chmodOk, j);
      var here := ApplyFrom(rules, k, path, name, fnmatch, chmodOk);
      var rest := ApplyFrom(rules, k + 1, path, name, fnmatch, chmodOk);
      if AppliesAt(rules, k, path, name, fnmatch, chmodOk) {
        assert here.lastPerms == if rest.lastPerms.Some? then rest.lastPerms else Some(rules[k].1);
      } else {
        assert here.lastPerms == rest.lastPerms;
      }
    }
  }

  /** The file modes after the chmod, if any, that leaves `path` with the
      mode of `perms`. */
  function ModesAfter(modes: map<string, bv16>, path: string, perms: Option<string>): map<string, bv16>
  {
    if perms.Some? then modes[path := ParsePerms(perms.value)] else modes
  }

  /** A chmod followed by later ones on the same file: the later ones win. */
  lemma ModesAfterChmod(modes: map<string, bv16>, path: string, perms: string, later: Option<string>)
    ensures ModesAfter(modes[path := ParsePerms(perms)], path, later)
         == ModesAfter(modes, path, if later.Some? then later else Some(perms))
  {
    if later.Some? {
      assert modes[path := ParsePerms(perms)][path := ParsePerms(later.value)] == modes[path := ParsePerms(later.value)];
    }
  }

  /** One file os.walk yields: the directory it was found in, its name, and
      the modification time os.path.getmtime reads for it (none when the
      file has gone and the call raises). */
  datatype WalkEntry = WalkEntry(root: string, name: string, mtime: Option<int>)

  /** `os.path.join(root, name)`. */
  function PathOf(e: WalkEntry): string
  {
    Combine(e.root, e.name)
  }

  /** The configuration file's name, as main compares walked paths with it. */
  const ConfigPath: string := "permissions.conf"

  /** Everything the polling loop keeps between files. */
  datatype State = State(rules: seq<Rule>, watched: map<string, int>, modes: map<string, bv16>, console: seq<Report>)

  /** apply_permissions on `path` from state `s`. */
  function ApplyTo(s: State, path: string, fnmatch: (string, string) -> bool, chmodOk: (string, nat) -> bool): State
  {
    var a := ApplyFrom(s.rules, 0, path, FileName(path), fnmatch, chmodOk);
    s.(modes := ModesAfter(s.modes, path, a.lastPerms), console := s.console + a.reports)
  }

  /** The reload check for the configuration file; none when a
      getmtime outside any handler raises and main ends. */
  function Reload(s: State, e: WalkEntry, configLines: seq<string>): (r: Option<State>)
    ensures PathOf(e) != ConfigPath ==> r == Some(s)
    ensures r.None? <==> PathOf(e) == ConfigPath && e.mtime.None?
    ensures r.Some? ==> r.value.modes == s.modes
    ensures r.Some? && r.value != s ==>
      && r.value.rules == RulesOf(configLines)
      && r.value.watched == s.watched[ConfigPath := e.mtime.value]
      && r.value.console == s.console + [RulesLoaded(|RulesOf(configLines)|)]
  {
    var path := PathOf(e);
    if path != ConfigPath then Some(s)
    else if path in s.watched && e.mtime.Some? && e.mtime.value <= s.watched[path] then Some(s)
    else if e.mtime.None? then None
    else
      var rules := RulesOf(configLines);
      Some(s.(rules := rules, watched := s.watched[path := e.mtime.value], console := s.console + [RulesLoaded(|rules|)]))
  }

  /** The body of the polling loop for one walked file; none when main ends
      with an uncaught OSError. */
  function Visit(s: State, e: WalkEntry, configLines: seq<string>,
                 fnmatch: (string, string) -> bool, chmodOk: (string, nat) -> bool): (r: Option<State>)
    ensures r.None? ==> e.mtime.None?
    ensures r.Some? ==> |s.console| <= |r.value.console| && r.value.console[..|s.console|] == s.console
    ensures r.Some? && PathOf(e) != ConfigPath ==> r.value.rules == s.rules
  {
    var path := PathOf(e);
    match Reload(s, e, configLines)
    case None => None
    case Some(s1) =>
      if path !in s1.watched then
        if e.mtime.None? then None
        else
          var s2 := ApplyTo(s1.(console := s1.console + [NewFile(path)]), path, fnmatch, chmodOk);
          Some(s2.(watched := s2.watched[path := e.mtime.value]))
      else if e.mtime.None? then
        Some(s1.(watched := s1.watched - {path}, console := s1.console + [Removed(path)]))
      else if e.mtime.value > s1.watched[path] then
        var s2 := ApplyTo(s1.(console := s1.console + [Modified(path)]), path, fnmatch, chmodOk);
        Some(s2.(watched := s2.watched[path := e.mtime.value]))
      else Some(s1)
  }

  /** One pass over the walk, file by file. */
  function PollAll(s: State, walk: seq<WalkEntry>, configLines: seq<string>,
                   fnmatch: (string, string) -> bool, chmodOk: (string, nat) -> bool): (r: Option<State>)
    ensures r.None? ==> exists i :: 0 <= i < |walk| && walk[i].mtime.None?
    ensures r.Some? ==> |s.console| <= |r.value.console| && r.value.console[..|s.console|] == s.console
    ensures r.Some? && (forall i :: 0 <= i < |walk| ==> PathOf(walk[i]) != ConfigPath) ==> r.value.rules == s.rules
    decreases |walk|
  {
    if walk == [] then Some(s)
    else match Visit(s, walk[0], configLines, fnmatch, chmodOk)
      case None => None
      case Some(s1) => PollAll(s1, walk[1..], configLines, fnmatch, chmodOk)
  }

  /** Paths os.walk yields from `.` start with `./`, so none of them is
      `permissions.conf`: the reload never fires and the rules read at
      startup stay in force. */
  lemma ConfigReloadNeverFires(s: State, e: WalkEntry, configLines: seq<string>,
                               fnmatch: (string, string) -> bool, chmodOk: (string, nat) -> bool)
    requires e.root != [] && e.root[0] == '.'
    ensures PathOf(e) != ConfigPath
    ensures Reload(s, e, configLines) == Some(s)
    ensures Visit(s, e, configLines, fnmatch, chmodOk).Some? ==> Visit(s, e, configLines, fnmatch, chmodOk).value.rules == s.rules
  {
    assert PathOf(e)[0] == '.';
  }

  /** The bookkeeping of one poll for a file other than the configuration
      file: a new file is chmod-ed and its time recorded; a known file is
      chmod-ed again and its time updated only when its time strictly grew;
      a known file that has gone is forgotten and keeps its mode. */
  lemma VisitBookkeeping(s: State, e: WalkEntry, configLines: seq<string>,
                         fnmatch: (string, string) -> bool, chmodOk: (string, nat) -> bool)
    requires PathOf(e) != ConfigPath
    ensures var v := Visit(s, e, configLines, fnmatch, chmodOk);
      var path := PathOf(e);
      var applied := ApplyFrom(s.rules, 0, path, FileName(path), fnmatch, chmodOk).lastPerms;
      && (v.None? <==> path !in s.watched && e.mtime.None?)
      && (path !in s.watched && e.mtime.Some? ==>
            v.value.watched == s.watched[path := e.mtime.value] && v.value.modes == ModesAfter(s.modes, path, applied))
      && (path in s.watched && e.mtime.Some? && e.mtime.value > s.watched[path] ==>
            v.value.watched == s.watched[path := e.mtime.value] && v.value.modes == ModesAfter(s.modes, path, applied))
      && (path in s.watched && e.mtime.Some? && e.mtime.value <= s.watched[path] ==> v == Some(s))
      && (path in s.watched && e.mtime.None? ==>
            v.value.watched == s.watched - {path} && v.value.modes == s.modes)
      && (v.Some? ==> v.value.rules == s.rules)
  {
  }

  /** Walk entry `e` is for path `p` and its time could be read. */
  predicate Readable(e: WalkEntry, p: string)
  {
    e.mtime.Some? && PathOf(e) == p
  }

  /** Entry `j` is the last entry of the walk whose time was read for `p`. */
  predicate LastReadable(walk: seq<WalkEntry>, p: string, j: nat)
  {
    && j < |walk| && Readable(walk[j], p)
    && forall l :: j < l < |walk| ==> !Readable(walk[l], p)
  }

  /** The times recorded at startup: every walked file whose time could be
      read, later entries for the same path winning. */
  function Recorded(walk: seq<WalkEntry>): (m: map<string, int>)
    ensures forall p :: p in m <==> exists i :: 0 <= i < |walk| && Readable(walk[i], p)
    ensures forall p, j: nat :: LastReadable(walk, p, j) ==> p in m && m[p] == walk[j].mtime.value
    decreases |walk|
  {
    if walk == [] then map[]
    else
      var init := walk[..|walk| - 1];
      var last := walk[|walk| - 1];
      var m := Recorded(init);
      var r := if last.mtime.Some? then m[PathOf(last) := last.mtime.value] else m;
      assert forall p :: p in r <==> exists i :: 0 <= i < |walk| && Readable(walk[i], p) by {
        forall p ensures p in r <==> exists i :: 0 <= i < |walk| && Readable(walk[i], p) {
          if p in r {
            if Readable(last, p) {
              assert Readable(walk[|walk| - 1], p);
            } else {
              var i :| 0 <= i < |init| && Readable(init[i], p);
              assert walk[i] == init[i];
            }
          }
          if exists i :: 0 <= i < |walk| && Readable(walk[i], p) {
            var i :| 0 <= i < |walk| && Readable(walk[i], p);
            if i < |walk| - 1 {
              assert init[i] == walk[i];
            }
          }
        }
      }
      forall p, j: nat | LastReadable(walk, p, j) ensures p in r && r[p] == walk[j].mtime.value {
        if j < |walk| - 1 {
          assert !Readable(last, p);
          assert LastReadable(init, p, j) by {
            assert init[j] == walk[j];
            forall l | j < l < |init| ensures !Readable(init[l], p) {
              assert init[l] == walk[l];
            }
          }
        }
      }
      r
  }

  /** The text main writes to a missing configuration file. */
  function DefaultConfigLines(): seq<string>
  {
    ["# Add your permission rules here.", "# For example:", "# *.log r", "# *.tmp rw", "*.py r"]
  }

  /** The state main keeps: the rules, the modification-time map, the file
      modes the daemon set and the console. */
  class Daemon {
    var rules: seq<Rule>
    var watchedFiles: map<string, int>
    var modes: map<string, bv16>
    var console: seq<Report>

    function Current(): State
      reads this
    {
      State(rules, watchedFiles, modes, console)
    }

    /** The start of main: write the default configuration when none
        exists, load the rules and record the time of every file walked,
        chmod-ing nothing. */
    constructor (configExists: bool, configLines: seq<string>, walk: seq<WalkEntry>, modes: map<string, bv16>)
      ensures rules == RulesOf(if configExists then configLines else DefaultConfigLines())
      ensures watchedFiles == Recorded(walk)
      ensures this.modes == modes
      ensures console == [RulesLoaded(|rules|)]
    {
      var lines := if configExists then configLines else DefaultConfigLines();
      var loaded := LoadRules(lines);
      var watched := map[];
      var i := 0;
      while i < |walk|
        invariant 0 <= i <= |walk|
        invariant watched == Recorded(walk[..i])
      {
        assert walk[..i + 1][..i] == walk[..i];
        var e := walk[i];
        if e.mtime.Some? {
          watched := watched[PathOf(e) := e.mtime.value];
        }
        i := i + 1;
      }
      assert walk[..i] == walk;
      rules := loaded;
      watchedFiles := watched;
      this.modes := modes;
      console := [RulesLoaded(|loaded|)];
    }

    /** apply_permissions: every rule whose pattern matches the file name
        is applied in order; a failing chmod is reported and the rest still
        run. */
    method ApplyPermissions(path: string, fnmatch: (string, string) -> bool, chmodOk: (string, nat) -> bool)
      modifies this`modes, this`console
      ensures modes == ModesAfter(old(modes), path, ApplyFrom(rules, 0, path, FileName(path), fnmatch, chmodOk).lastPerms)
      ensures console == old(console) + ApplyFrom(rules, 0, path, FileName(path), fnmatch, chmodOk).reports
    {
      ghost var whole := ApplyFrom(rules, 0, path, FileName(path), fnmatch, chmodOk);
      var i := 0;
      while i < |rules|
        invariant 0 <= i <= |rules|
        invariant old(console) + whole.reports == console + ApplyFrom(rules, i, path, FileName(path), fnmatch, chmodOk).reports
        invariant ModesAfter(old(modes), path, whole.lastPerms) == ModesAfter(modes, path, ApplyFrom(rules, i, path, FileName(path), fnmatch, chmodOk).lastPerms)
        decreases |rules| - i
      {
        ghost var rest := ApplyFrom(rules, i + 1, path, FileName(path), fnmatch, chmodOk);
        var (pattern, perms) := rules[i];
        if fnmatch(FileName(path), pattern) {
          if chmodOk(path, i) {
            ModesAfterChmod(modes, path, perms, rest.lastPerms);
            modes := modes[path := ParsePerms(perms)];
            AppendAssociates(console, [AppliedPerms(perms, path)], rest.reports);
            console := console + [AppliedPerms(perms, path)];
          } else {
            AppendAssociates(console, [ApplyFailed(path)], rest.reports);
            console := console + [ApplyFailed(path)];
          }
        }
        i := i + 1;
      }
    }

    /** The polling loop's body for one walked file. */
    method VisitEntry(e: WalkEntry, configLines: seq<string>, fnmatch: (string, string) -> bool, chmodOk: (string, nat) -> bool)
      returns (crashed: bool)
      modifies this
      ensures crashed <==> Visit(old(Current()), e, configLines, fnmatch, chmodOk).None?
      ensures !crashed ==> Current() == Visit(old(Current()), e, configLines, fnmatch, chmodOk).value
    {
      var path := PathOf(e);
      if path == ConfigPath {
        if path !in watchedFiles || e.mtime.None? || e.mtime.value > watchedFiles[path] {
          if e.mtime.None? {
            return true;
          }
          rules := LoadRules(configLines);
          console := console + [RulesLoaded(|rules|)];
          watchedFiles := watchedFiles[path := e.mtime.value];
        }
      }
      if path !in watchedFiles {
        if e.mtime.None? {
          return true;
        }
        console := console + [NewFile(path)];
        ApplyPermissions(path, fnmatch, chmodOk);
        watchedFiles := watchedFiles[path := e.mtime.value];
      } else if e.mtime.None? {
        watchedFiles := watchedFiles - {path};
        console := console + [Removed(path)];
      } else if e.mtime.value > watchedFiles[path] {
        console := console + [Modified(path)];
        ApplyPermissions(path, fnmatch, chmodOk);
        watchedFiles := watchedFiles[path := e.mtime.value];
      }
      crashed := false;
    }

    /** One iteration of main's polling loop over a walk of the directory. */
    method Poll(walk: seq<WalkEntry>, configLines: seq<string>, fnmatch: (string, string) -> bool, chmodOk: (string, nat) -> bool)
      returns (crashed: bool)
      modifies this
      ensures crashed <==> PollAll(old(Current()), walk, configLines, fnmatch, chmodOk).None?
      ensures !crashed ==> Current() == PollAll(old(Current()), walk, configLines, fnmatch, chmodOk).value
    {
      var i := 0;
      while i < |walk|
        invariant 0 <= i <= |walk|
        invariant PollAll(old(Current()), walk, configLines, fnmatch, chmodOk) == PollAll(Current(), walk[i..], configLines, fnmatch, chmodOk)
        decreases |walk| - i
      {
        assert walk[i..][0] == walk[i] && walk[i..][1..] == walk[i + 1..];
        crashed := VisitEntry(walk[i], configLines, fnmatch, chmodOk);
        if crashed {
          return;
        }
        i := i + 1;
      }
      crashed := false;
    }
  }
}

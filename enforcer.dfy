/** The permission engine of PermissionEnforcer.cs: first-match rule lookup,
    the agent/"default"/"---" fallback, the rights-to-slot decision, the
    permission chosen for a whole rule, and the rwx-to-octal chmod mode. */
module PermissionEnforcement {
  import opened Common
  import opened GlobPatternMatcher
  import opened Configuration

  // ---------------------------------------------------------------------
  // FileSystemRights, as the bit values of the .NET enumeration

  const ReadData: bv32 := 1
  const ListDirectory: bv32 := 1
  const WriteData: bv32 := 2
  const AppendData: bv32 := 4
  const ReadExtendedAttributes: bv32 := 8
  const WriteExtendedAttributes: bv32 := 16
  const ExecuteFile: bv32 := 32
  const ReadAttributes: bv32 := 128
  const WriteAttributes: bv32 := 256
  const Delete: bv32 := 65536

  /** Enum.HasFlag: every bit of `flag` is set in `action`. */
  predicate HasFlag(action: bv32, flag: bv32)
  {
    action & flag == flag
  }

  predicate IsReadAction(action: bv32)
  {
    || HasFlag(action, ReadData)
    || HasFlag(action, ReadAttributes)
    || HasFlag(action, ReadExtendedAttributes)
    || HasFlag(action, ListDirectory)
  }

  predicate IsWriteAction(action: bv32)
  {
    || HasFlag(action, WriteData)
    || HasFlag(action, AppendData)
    || HasFlag(action, Delete)
    || HasFlag(action, WriteAttributes)
    || HasFlag(action, WriteExtendedAttributes)
  }

  /** The position of an "rwx" string that decides an action: any read flag
      wins, then any write flag, then ExecuteFile, and every other right is
      judged like a write. */
  function SlotFor(action: bv32): (k: nat)
    ensures k < 3
    ensures IsReadAction(action) <==> k == 0
    ensures k == 2 ==> HasFlag(action, ExecuteFile) && !IsWriteAction(action)
    ensures !IsReadAction(action) && !IsWriteAction(action) ==> (k == 2 <==> HasFlag(action, ExecuteFile))
  {
    if IsReadAction(action) then 0
    else if IsWriteAction(action) then 1
    else if HasFlag(action, ExecuteFile) then 2
    else 1
  }

  /** IsActionAllowed (PermissionEnforcer.cs:241-280). */
  function IsActionAllowed(permission: string, action: bv32): (r: bool)
    ensures r ==> |permission| >= 3
    ensures |permission| >= 3 ==> (r <==> permission[SlotFor(action)] == "rwx"[SlotFor(action)])
  {
    if |permission| < 3 then false
    else if IsReadAction(action) then permission[0] == 'r'
    else if IsWriteAction(action) then permission[1] == 'w'
    else if HasFlag(action, ExecuteFile) then permission[2] == 'x'
    else permission[1] == 'w'
  }

  /** Delete is judged by the write letter, not the execute letter. */
  lemma DeleteUsesWriteSlot(permission: string)
    ensures IsActionAllowed(permission, Delete) <==> |permission| >= 3 && permission[1] == 'w'
    ensures IsActionAllowed("rw-", Delete) && !IsActionAllowed("r-x", Delete)
  {
  }

  /** ExecuteFile alone is judged by the execute letter. */
  lemma ExecuteUsesExecuteSlot(permission: string)
    ensures IsActionAllowed(permission, ExecuteFile) <==> |permission| >= 3 && permission[2] == 'x'
    ensures IsActionAllowed("--x", ExecuteFile) && !IsActionAllowed("rw-", ExecuteFile)
  {
  }

  /** "rwx" allows every action, and strings shorter than three characters
      or "---" allow none. */
  lemma FullAndEmptyPermissions(permission: string, action: bv32)
    ensures IsActionAllowed("rwx", action)
    ensures !IsActionAllowed("---", action)
    ensures |permission| < 3 ==> !IsActionAllowed(permission, action)
  {
  }

  /** Only the first three characters of a longer string matter. */
  lemma FirstThreeLettersDecide(permission: string, action: bv32)
    requires |permission| >= 3
    ensures IsActionAllowed(permission, action) == IsActionAllowed(permission[..3], action)
  {
  }

  // ---------------------------------------------------------------------
  // Per-rule choices

  /** GetPermissionForAgent (PermissionEnforcer.cs:222-239): the agent's own
      entry, else the "default" entry, else no permission at all. */
  function GetPermissionForAgent(rule: Rule, agentName: string): (r: string)
    ensures HasKey(rule.permissions, agentName) ==> (agentName, r) in rule.permissions
    ensures !HasKey(rule.permissions, agentName) && HasKey(rule.permissions, "default")
        ==> ("default", r) in rule.permissions
    ensures !HasKey(rule.permissions, agentName) && !HasKey(rule.permissions, "default") ==> r == "---"
  {
    match Find(rule.permissions, agentName)
    case Some(v) => v
    case None =>
      match Find(rule.permissions, "default")
      case Some(v) => v
      case None => "---"
  }

  /** The index of the first value of length three, if any. */
  function FirstOfLengthThree(values: seq<string>): (r: Option<nat>)
    ensures r.Some? ==> r.value < |values| && |values[r.value]| == 3
    ensures r.Some? ==> forall j :: 0 <= j < r.value ==> |values[j]| != 3
    ensures r.None? ==> forall j :: 0 <= j < |values| ==> |values[j]| != 3
  {
    if values == [] then None
    else if |values[0]| == 3 then Some(0)
    else match FirstOfLengthThree(values[1..])
      case None => None
      case Some(k) => Some(k + 1)
  }

  /** GetDefaultPermissionForFile (PermissionEnforcer.cs:104-126): the
      "default" entry whatever its length; otherwise the first value, in
      enumeration order, of exactly three characters; otherwise "---". */
  function GetDefaultPermissionForFile(rule: Rule): (r: string)
    ensures HasKey(rule.permissions, "default") ==> ("default", r) in rule.permissions
    ensures !HasKey(rule.permissions, "default") ==> |r| == 3
    ensures !HasKey(rule.permissions, "default") && r != "---"
        ==> exists i :: 0 <= i < |rule.permissions| && rule.permissions[i].1 == r
              && forall j :: 0 <= j < i ==> |rule.permissions[j].1| != 3
    ensures !HasKey(rule.permissions, "default")
        ==> forall i :: 0 <= i < |rule.permissions| && |rule.permissions[i].1| == 3
              && (forall j :: 0 <= j < i ==> |rule.permissions[j].1| != 3)
              ==> r == rule.permissions[i].1
    ensures !HasKey(rule.permissions, "default")
              && (forall i :: 0 <= i < |rule.permissions| ==> |rule.permissions[i].1| != 3)
        ==> r == "---"
  {
    match Find(rule.permissions, "default")
    case Some(v) => v
    case None =>
      var values := Values(rule.permissions);
      match FirstOfLengthThree(values)
      case Some(i) => values[i]
      case None => "---"
  }

  /** The value grants write in the "rwx" notation. */
  predicate GrantsWrite(value: string)
  {
    |value| > 1 && value[1] == 'w'
  }

  /** ShouldRestrictWrite (PermissionEnforcer.cs:128-140): no entry of the
      rule grants write. */
  function ShouldRestrictWrite(rule: Rule): (r: bool)
    ensures r <==> forall i :: 0 <= i < |rule.permissions| ==> !GrantsWrite(rule.permissions[i].1)
    decreases |rule.permissions|
  {
    if rule.permissions == [] then true
    else if GrantsWrite(rule.permissions[0].1) then false
    else
      var rest := Rule(rule.patterns, rule.permissions[1..]);
      assert forall i :: 0 <= i < |rest.permissions| ==> rest.permissions[i] == rule.permissions[i + 1];
      ShouldRestrictWrite(rest)
  }

  /** A rule that restricts writes denies every agent every write. */
  lemma RestrictedRuleDeniesWrites(rule: Rule, agentName: string, action: bv32)
    requires ShouldRestrictWrite(rule) && IsWriteAction(action) && !IsReadAction(action)
    ensures !IsActionAllowed(GetPermissionForAgent(rule, agentName), action)
  {
    var p := GetPermissionForAgent(rule, agentName);
    if p != "---" {
      var k: string :| (k, p) in rule.permissions;
      var i :| 0 <= i < |rule.permissions| && rule.permissions[i] == (k, p);
      assert !GrantsWrite(rule.permissions[i].1);
    }
  }

  // ---------------------------------------------------------------------
  // Rule lookup

  /** Rule i is the first rule, in list order, with a pattern matching the path. */
  predicate FirstMatchAt(rules: seq<Rule>, path: string, i: nat)
  {
    && i < |rules|
    && IsMatchAny(rules[i].patterns, path)
    && forall j :: 0 <= j < i ==> !IsMatchAny(rules[j].patterns, path)
  }

  /** `Rules.FirstOrDefault(rule => IsMatchAny(rule.Patterns, path))`, as an index. */
  function FirstMatchingRule(rules: seq<Rule>, path: string): (r: Option<nat>)
    ensures r.Some? ==> FirstMatchAt(rules, path, r.value)
    ensures r.None? ==> forall j :: 0 <= j < |rules| ==> !IsMatchAny(rules[j].patterns, path)
  {
    if rules == [] then None
    else if IsMatchAny(rules[0].patterns, path) then Some(0)
    else match FirstMatchingRule(rules[1..], path)
      case None => None
      case Some(k) => Some(k + 1)
  }

  /** Only one index can be the first match. */
  lemma FirstMatchUnique(rules: seq<Rule>, path: string, i: nat, j: nat)
    requires FirstMatchAt(rules, path, i) && FirstMatchAt(rules, path, j)
    ensures i == j
  {
  }

  // ---------------------------------------------------------------------
  // rwx to chmod mode

  /** The octal digit of an "rwx" triple: read 4, write 2, execute 1. */
  function OctalDigit(read: char, write: char, execute: char): (d: nat)
    ensures d < 8
  {
    (if read == 'r' then 4 else 0) + (if write == 'w' then 2 else 0) + (if execute == 'x' then 1 else 0)
  }

  /** ConvertPermissionToOctal (PermissionEnforcer.cs:213-220): the digit
      holds each of the three POSIX bits exactly when its letter is set. */
  method ConvertPermissionToOctal(read: char, write: char, execute: char) returns (result: int)
    ensures result == OctalDigit(read, write, execute)
    ensures 0 <= result < 8
    ensures (result / 4 == 1) == (read == 'r')
    ensures (result / 2 % 2 == 1) == (write == 'w')
    ensures (result % 2 == 1) == (execute == 'x')
  {
    result := 0;
    if read == 'r' { result := result + 4; }
    if write == 'w' { result := result + 2; }
    if execute == 'x' { result := result + 1; }
  }

  function DigitChar(d: nat): char
    requires d < 10
  {
    ('0' as int + d) as char
  }

  /** The mode string chmod receives for a three-character permission: its
      digit written for owner, group and others. */
  function ModeFor(permission: string): (m: string)
    requires |permission| == 3
    ensures |m| == 3
  {
    var c := DigitChar(OctalDigit(permission[0], permission[1], permission[2]));
    [c, c, c]
  }

  /** The numeric value of a string of octal digits. */
  function OctalValue(m: string): int
  {
    if m == [] then 0 else OctalValue(m[..|m| - 1]) * 8 + (m[|m| - 1] as int - '0' as int)
  }

  /** The POSIX mode chmod sets grants every class (owner, group, others) the
      same bits: read (4) iff the first letter is `r`, write (2) iff the
      second is `w`, execute (1) iff the third is `x`. */
  lemma ModeForGrantsEveryClass(permission: string)
    requires |permission| == 3
    ensures var v := OctalValue(ModeFor(permission));
      && var d := OctalDigit(permission[0], permission[1], permission[2]);
      && v == d * 64 + d * 8 + d
      && (v / 64 == v / 8 % 8 == v % 8 == d)
      && (d / 4 == 1 <==> permission[0] == 'r')
      && (d / 2 % 2 == 1 <==> permission[1] == 'w')
      && (d % 2 == 1 <==> permission[2] == 'x')
  {
    var m := ModeFor(permission);
    var d := OctalDigit(permission[0], permission[1], permission[2]);
    assert m[..2][..1] == m[..1];
    assert OctalValue(m[..1]) == d by { assert m[..1][..0] == []; }
    assert OctalValue(m[..2]) == d * 8 + d;
  }

  /** One chmod invocation, path and mode string. */
  datatype Chmod = Chmod(path: string, mode: string)

  /** The chmods EnforcePermissions issues: the first rule whose patterns
      match the file NAME decides; nothing happens when none does, when the
      file does not exist, or when the chosen permission is empty or not
      three characters long. */
  function EnforcementChmods(rules: seq<Rule>, filePath: string, fileExists: bool): (r: seq<Chmod>)
    ensures |r| <= 1
    ensures r != [] ==> fileExists && r[0].path == filePath && FirstMatchingRule(rules, FileName(filePath)).Some?
    ensures r != [] ==> exists i: nat :: && FirstMatchAt(rules, FileName(filePath), i)
                                         && |GetDefaultPermissionForFile(rules[i])| == 3
                                         && r == [Chmod(filePath, ModeFor(GetDefaultPermissionForFile(rules[i])))]
    ensures forall i: nat :: && fileExists && FirstMatchAt(rules, FileName(filePath), i)
                             && |GetDefaultPermissionForFile(rules[i])| == 3
              ==> r == [Chmod(filePath, ModeFor(GetDefaultPermissionForFile(rules[i])))]
  {
    match FirstMatchingRule(rules, FileName(filePath))
    case None =>
      assert forall k: nat :: !FirstMatchAt(rules, FileName(filePath), k);
      []
    case Some(i) =>
      assert forall k: nat :: FirstMatchAt(rules, FileName(filePath), k) ==> k == i;
      var permission := GetDefaultPermissionForFile(rules[i]);
      if fileExists && permission != "" && |permission| == 3 then [Chmod(filePath, ModeFor(permission))]
      else []
  }

  /** Enforcement only looks at the file name: two paths with the same file
      name get the same mode. */
  lemma EnforcementSeesOnlyFileName(rules: seq<Rule>, p1: string, p2: string, fileExists: bool)
    requires FileName(p1) == FileName(p2)
    ensures |EnforcementChmods(rules, p1, fileExists)| == |EnforcementChmods(rules, p2, fileExists)|
    ensures EnforcementChmods(rules, p1, fileExists) != []
        ==> EnforcementChmods(rules, p1, fileExists)[0].mode == EnforcementChmods(rules, p2, fileExists)[0].mode
  {
    var m := FirstMatchingRule(rules, FileName(p1));
    assert FirstMatchingRule(rules, FileName(p2)) == m;
  }

  /** A rule whose permissions name no "default" always yields a chmod for
      an existing file it matches first: the fallback value has three
      characters. */
  lemma MatchedExistingFileWithoutDefaultIsChmodded(rules: seq<Rule>, filePath: string, i: nat)
    requires FirstMatchAt(rules, FileName(filePath), i)
    requires !HasKey(rules[i].permissions, "default")
    ensures |EnforcementChmods(rules, filePath, true)| == 1
  {
    var r := FirstMatchingRule(rules, FileName(filePath));
    FirstMatchUnique(rules, FileName(filePath), r.value, i);
  }

  // ---------------------------------------------------------------------
  // The enforcer object

  class PermissionEnforcer {
    var config: DaemonConfig
    const agentName: string
    /** The chmod commands run so far, oldest first. */
    var chmods: seq<Chmod>

    constructor (config: DaemonConfig, agentName: string)
      ensures this.config == config && this.agentName == agentName && chmods == []
    {
      this.config := config;
      this.agentName := agentName;
      chmods := [];
    }

    /** UpdateConfig (PermissionEnforcer.cs:22-25): later decisions use only
        the new configuration. */
    method UpdateConfig(newConfig: DaemonConfig)
      modifies this`config
      ensures config == newConfig
    {
      config := newConfig;
    }

    /** HasPermission (PermissionEnforcer.cs:33-50): the first rule whose
        patterns match the full path decides with the agent's permission;
        with no matching rule every action is allowed. */
    function HasPermission(filePath: string, action: bv32): (r: bool)
      reads this`config
      ensures (forall j :: 0 <= j < |config.rules| ==> !IsMatchAny(config.rules[j].patterns, filePath)) ==> r
      ensures forall i: nat :: FirstMatchAt(config.rules, filePath, i)
                ==> r == IsActionAllowed(GetPermissionForAgent(config.rules[i], agentName), action)
    {
      match FirstMatchingRule(config.rules, filePath)
      case None =>
        assert forall k: nat :: !FirstMatchAt(config.rules, filePath, k);
        true
      case Some(i) =>
        assert forall k: nat :: FirstMatchAt(config.rules, filePath, k) ==> k == i;
        IsActionAllowed(GetPermissionForAgent(config.rules[i], agentName), action)
    }

    /** SetUnixPermissions (PermissionEnforcer.cs:185-211): a permission of
        exactly three characters becomes one chmod with its digit repeated
        for owner, group and others; any other length runs nothing. */
    method SetUnixPermissions(filePath: string, permissionString: string)
      modifies this`chmods
      ensures |permissionString| == 3 ==> chmods == old(chmods) + [Chmod(filePath, ModeFor(permissionString))]
      ensures |permissionString| != 3 ==> chmods == old(chmods)
    {
      if |permissionString| != 3 {
        return;
      }
      var ownerPerm := ConvertPermissionToOctal(permissionString[0], permissionString[1], permissionString[2]);
      var octalPerm := [DigitChar(ownerPerm), DigitChar(ownerPerm), DigitChar(ownerPerm)];
      chmods := chmods + [Chmod(filePath, octalPerm)];
    }

    /** EnforcePermissions (PermissionEnforcer.cs:56-102); whether the file
        exists on disk is the parameter `fileExists`. */
    method EnforcePermissions(filePath: string, fileExists: bool)
      modifies this`chmods
      ensures chmods == old(chmods) + EnforcementChmods(config.rules, filePath, fileExists)
    {
      var fileName := FileName(filePath);
      var matching := FirstMatchingRule(config.rules, fileName);
      if matching.None? {
        return;
      }
      if fileExists {
        var permissionToApply := GetDefaultPermissionForFile(config.rules[matching.value]);
        if permissionToApply != "" {
          SetUnixPermissions(filePath, permissionToApply);
        }
      }
    }
  }

  /** With an empty rule list every question is answered yes. */
  lemma EmptyConfigAllowsEverything(e: PermissionEnforcer, filePath: string, action: bv32)
    requires e.config.rules == []
    ensures e.HasPermission(filePath, action)
  {
  }
}

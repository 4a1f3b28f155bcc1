/** The configuration types of DaemonConfig.cs used by the root daemon and
    its permission enforcer. */
module Configuration {
  import opened Common

  /** A rule's permission dictionary: agent name to an "rwx"-style string,
      keys compared ordinally (case-sensitively), entries in insertion
      order, which is also the order the dictionary enumerates them in. */
  type Permissions = seq<(string, string)>

  /** Rule (DaemonConfig.cs:12-16). */
  datatype Rule = Rule(patterns: seq<string>, permissions: Permissions)

  /** LoggingConfig (DaemonConfig.cs:18-22). */
  datatype LoggingConfig = LoggingConfig(level: string, audit: bool)

  /** DaemonConfig (DaemonConfig.cs:5-10). */
  datatype DaemonConfig = DaemonConfig(version: string, rules: seq<Rule>, logging: LoggingConfig)

  /** `new DaemonConfig()`: version "1.0", no rules, verbose logging with
      auditing on. */
  function EmptyConfig(): (c: DaemonConfig)
    ensures c.version == "1.0" && c.rules == []
    ensures c.logging.level == "verbose" && c.logging.audit
  {
    DaemonConfig("1.0", [], LoggingConfig("verbose", true))
  }

  /** The dictionary has an entry for `key`. */
  predicate HasKey(perms: Permissions, key: string)
  {
    exists i :: 0 <= i < |perms| && perms[i].0 == key
  }

  /** Dictionary lookup: the value stored under `key`, if any. */
  function Find(perms: Permissions, key: string): (r: Option<string>)
    ensures r.Some? <==> HasKey(perms, key)
    ensures r.Some? ==> exists i :: 0 <= i < |perms| && perms[i] == (key, r.value)
  {
    if perms == [] then None
    else if perms[0].0 == key then Some(perms[0].1)
    else
      var r := Find(perms[1..], key);
      assert forall i :: 0 <= i < |perms| - 1 ==> perms[1..][i] == perms[i + 1];
      r
  }

  /** The values of the dictionary in enumeration order. */
  function Values(perms: Permissions): (r: seq<string>)
    ensures |r| == |perms|
    ensures forall i :: 0 <= i < |perms| ==> r[i] == perms[i].1
  {
    if perms == [] then [] else [perms[0].1] + Values(perms[1..])
  }
}

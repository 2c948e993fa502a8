/**
 * `Config\Loader\LdapLoader`: the cascade of the abstract loader over LDAP
 * nodes. A prefix of environment segments, with its falsy segments dropped and
 * the rest joined by dots, is looked up in a table of base DNs; the node read
 * is `cn=<group>,<base DN>`.
 */
module LdapLoader {
  import opened Php
  import LoaderAbstract
  import LdapConnection

  type LdapError = LdapConnection.LdapError

  /**
   * What `getEntry($dn)->getAttributes()` yields for each DN: the entry's
   * attributes or the exception `getEntry` throws.
   */
  type Directory = string -> Result<Tree, LdapError>

  /** The loader: the environment-to-base-DN table and the directory behind its connection. */
  datatype Loader = Loader(environmentDns: map<string, string>, directory: Directory)

  /** The key `buildDn` looks up: `implode('.', array_filter($dnParts))`. */
  function EnvironmentKey(dnParts: seq<string>): string {
    Join(FilterTruthy(dnParts), ".")
  }

  /**
   * `buildDn`: the node of the group below the base DN of the prefix, when the
   * prefix has one. The ensures is the source's own table lookup; what it means
   * for a load is stated by `PrefixKey`, `MappedPrefixReadsNode` and
   * `UnmappedPrefixReadsNull`.
   */
  function BuildDn(loader: Loader, dnParts: seq<string>, group: string): (dn: Option<string>)
    ensures dn.Some? <==> EnvironmentKey(dnParts) in loader.environmentDns
    ensures dn.Some? ==> dn.value == "cn=" + group + "," + loader.environmentDns[EnvironmentKey(dnParts)]
    ensures dn.Some? ==> TruthyString(dn.value)
  {
    var envDn := EnvironmentKey(dnParts);
    if envDn in loader.environmentDns then
      var dn := "cn=" + group + "," + loader.environmentDns[envDn];
      assert dn[0] == 'c';
      Some(dn)
    else None
  }

  /** `readNodeValues`: a missing node reads as null; every other fault propagates. */
  function ReadNodeValues(loader: Loader, dn: string): (r: Result<Option<Tree>, LdapError>)
    ensures loader.directory(dn).Ok? ==> r == Ok(Some(loader.directory(dn).value))
    ensures loader.directory(dn) == Err(LdapConnection.NodeNotFound) ==> r == Ok(None)
    ensures loader.directory(dn).Err? && loader.directory(dn).error != LdapConnection.NodeNotFound ==>
              r == Err(loader.directory(dn).error)
  {
    match loader.directory(dn)
    case Ok(attributes) => Ok(Some(attributes))
    case Err(e) => if e == LdapConnection.NodeNotFound then Ok(None) else Err(e)
  }

  /** `readConfig`: `$dn ? readNodeValues($dn) : null`. */
  function ReadConfig(loader: Loader, pathParts: seq<string>, group: string): Result<Option<Tree>, LdapError> {
    var dn := BuildDn(loader, pathParts, group);
    if dn.Some? && TruthyString(dn.value) then ReadNodeValues(loader, dn.value) else Ok(None)
  }

  function Read(loader: Loader): LoaderAbstract.Reader<LdapError> {
    (pathParts: seq<string>, group: string) => ReadConfig(loader, pathParts, group)
  }

  /** The inherited `load`; a directory fault other than a missing node ends it with that fault. */
  function Load(loader: Loader, environment: Option<string>, group: string): Result<Option<Tree>, LdapError> {
    LoaderAbstract.Cascade(Read(loader), environment, group)
  }

  /**
   * The directory seen through a real `Connection`: `answers` is what the
   * native base-scope read answers for each DN (absent: no such object), and
   * `bound` the connection's bound flag.
   */
  function ConnectionDirectory(bound: bool, answers: map<string, LdapConnection.NativeSearch>): Directory {
    (dn: string) =>
      LdapConnection.EntryOutcome(bound, if dn in answers then answers[dn] else LdapConnection.Failed(LdapConnection.ErrnoNoSuchObject))
  }

  /* ---------------------------------------------------------------- lemmas */

  /** The root prefix looks up the key "" and the prefix ["", "staging"] the key "staging". */
  lemma EnvironmentKeyExamples()
    ensures EnvironmentKey([""]) == ""
    ensures EnvironmentKey(["", "staging"]) == "staging"
    ensures EnvironmentKey(["", "staging", "east"]) == "staging.east"
  {
    assert ["", "staging"][1..] == ["staging"];
    assert ["", "staging", "east"][1..] == ["staging", "east"];
    assert ["staging", "east"][1..] == ["east"];
  }

  /**
   * Along the cascade, the k-th prefix looks up its segments after the root
   * joined by dots.
   */
  lemma PrefixKey(environment: Option<string>, k: nat)
    requires 1 <= k <= |LoaderAbstract.ParseEnvironment(environment)|
    ensures var segments := LoaderAbstract.ParseEnvironment(environment);
            EnvironmentKey(segments[..k]) == Join(segments[1..k], ".")
  {
    var segments := LoaderAbstract.ParseEnvironment(environment);
    assert segments[..k] == [""] + segments[1..k];
    FilterAppend([""], segments[1..k]);
    FilterAllTruthy(segments[1..k]);
  }

  /** An unmapped prefix reads null, whatever the directory holds: the directory is not consulted. */
  lemma UnmappedPrefixReadsNull(dns: map<string, string>, d1: Directory, d2: Directory, pathParts: seq<string>, group: string)
    requires EnvironmentKey(pathParts) !in dns
    ensures ReadConfig(Loader(dns, d1), pathParts, group) == Ok(None)
    ensures ReadConfig(Loader(dns, d1), pathParts, group) == ReadConfig(Loader(dns, d2), pathParts, group)
  {
  }

  /** A mapped prefix reads exactly the node `cn=<group>,<base DN>`. */
  lemma MappedPrefixReadsNode(loader: Loader, pathParts: seq<string>, group: string)
    requires EnvironmentKey(pathParts) in loader.environmentDns
    ensures var dn := "cn=" + group + "," + loader.environmentDns[EnvironmentKey(pathParts)];
            ReadConfig(loader, pathParts, group) == ReadNodeValues(loader, dn)
  {
  }

  /**
   * Through a bound connection, a node the directory does not hold reads as
   * null, and a node it holds reads as that node's first entry.
   */
  lemma BoundConnectionReads(answers: map<string, LdapConnection.NativeSearch>, dns: map<string, string>, dn: string)
    ensures dn !in answers ==> ReadNodeValues(Loader(dns, ConnectionDirectory(true, answers)), dn) == Ok(None)
    ensures dn in answers && answers[dn] == LdapConnection.Answered([]) ==>
              ReadNodeValues(Loader(dns, ConnectionDirectory(true, answers)), dn) == Ok(None)
    ensures dn in answers && answers[dn].Answered? && answers[dn].entries != [] ==>
              ReadNodeValues(Loader(dns, ConnectionDirectory(true, answers)), dn) == Ok(Some(answers[dn].entries[0]))
  {
  }

  /** Through a connection nobody bound, a load whose root prefix is mapped fails with "not bound". */
  lemma UnboundConnectionFails(answers: map<string, LdapConnection.NativeSearch>, dns: map<string, string>,
                               environment: Option<string>, group: string)
    requires "" in dns
    ensures Load(Loader(dns, ConnectionDirectory(false, answers)), environment, group) == Err(LdapConnection.NotBound)
  {
    var loader := Loader(dns, ConnectionDirectory(false, answers));
    var segments := LoaderAbstract.ParseEnvironment(environment);
    PrefixKey(environment, 1);
    assert segments[1..1] == [];
    assert Read(loader)(segments[..1], group) == Err(LdapConnection.NotBound);
    LoaderAbstract.AccumulateFaultPersists(Read(loader), segments, group, 1, |segments|);
  }

  /** The table of base DNs the repository tests configure. */
  function TestDns(): map<string, string> {
    map["" := "ou=Master,dc=example,dc=com", "staging" := "ou=Staging,dc=example,dc=com"]
  }

  /**
   * Without an environment the loader reads one node, `cn=<group>` below the
   * root's base DN, and returns its attributes (null when the node is missing
   * or empty); any other fault ends the load.
   */
  lemma RootOnlyLoad(loader: Loader, group: string)
    requires "" in loader.environmentDns
    ensures match ReadNodeValues(loader, "cn=" + group + "," + loader.environmentDns[""])
            case Err(e) => Load(loader, None, group) == Err(e)
            case Ok(None) => Load(loader, None, group) == Ok(None)
            case Ok(Some(t)) => Load(loader, None, group) == Ok(if t == map[] then None else Some(t))
  {
    EnvironmentKeyExamples();
    LoaderAbstract.CascadeRootOnly(Read(loader), None, group);
  }

  /**
   * With the tests' table and no environment, a group loads the attributes of
   * its node below the master DN, whatever the directory holds elsewhere.
   */
  lemma LoadTestGroup(directory: Directory, group: string, attributes: Tree)
    requires directory("cn=" + group + ",ou=Master,dc=example,dc=com") == Ok(attributes)
    requires attributes != map[]
    ensures Load(Loader(TestDns(), directory), None, group) == Ok(Some(attributes))
  {
    assert "cn=" + group + "," + TestDns()[""] == "cn=" + group + ",ou=Master,dc=example,dc=com";
    RootOnlyLoad(Loader(TestDns(), directory), group);
  }

  /** With the tests' table and no environment, a group whose node is not found loads as null. */
  lemma LoadMissingGroup(directory: Directory, group: string)
    requires directory("cn=" + group + ",ou=Master,dc=example,dc=com") == Err(LdapConnection.NodeNotFound)
    ensures Load(Loader(TestDns(), directory), None, group) == Ok(None)
  {
    assert "cn=" + group + "," + TestDns()[""] == "cn=" + group + ",ou=Master,dc=example,dc=com";
    RootOnlyLoad(Loader(TestDns(), directory), group);
  }
}

/**
 The environment of a deployed container, built by two routes: zip and GitHub
 deployments go through a record, the Dockerfile deployment concatenates lists.
 Both hand Docker a list of `KEY=value` entries, of which the last one of a key
 counts.
 */
module EnvMerge {
  import opened Options
  import opened Text

  const NODE_VERSION := "NIXPACKS_NODE_VERSION"

  type Pairs = seq<(string, string)>

  /** `Object.entries(...).map(([k, v]) => k=v)` */
  function Printed(pairs: Pairs): (entries: seq<string>)
    ensures |entries| == |pairs|
    ensures forall i | 0 <= i < |pairs| :: entries[i] == pairs[i].0 + "=" + pairs[i].1
  {
    if pairs == [] then [] else [pairs[0].0 + "=" + pairs[0].1] + Printed(pairs[1..])
  }

  /** The text before the first `=`. */
  function KeyOf(entry: string): string {
    entry[..IndexOf(entry, '=')]
  }

  /** The text behind the first `=`. */
  function ValueOf(entry: string): string {
    if IndexOf(entry, '=') == |entry| then "" else entry[IndexOf(entry, '=') + 1..]
  }

  function PortEntry(port: nat): string {
    "PORT=" + Show(port)
  }

  // ---------------------------------------------------- zip and GitHub route

  /** `const [k, v] = e.split('='); if (k && v) record[k] = v`: a second `=` ends the value. */
  function Recorded(record: map<string, string>, entry: string): map<string, string> {
    var k, v := KeyOf(entry), KeyOf(ValueOf(entry));
    if k != "" && v != "" then record[k := v] else record
  }

  function RecordOf(record: map<string, string>, entries: seq<string>): map<string, string> {
    if entries == [] then record else Recorded(RecordOf(record, entries[..|entries| - 1]), entries[|entries| - 1])
  }

  function WithNodeVersion(record: map<string, string>): map<string, string> {
    if NODE_VERSION in record && record[NODE_VERSION] != "" then record else record[NODE_VERSION := "22"]
  }

  function RecordRoute(globalVars: Pairs, project: map<string, string>): map<string, string> {
    WithNodeVersion(RecordOf(map[], Printed(globalVars)) + project)
  }

  function MapOf(pairs: Pairs): map<string, string> {
    if pairs == [] then map[] else MapOf(pairs[..|pairs| - 1])[pairs[|pairs| - 1].0 := pairs[|pairs| - 1].1]
  }

  /** The variables of a record as `Object.entries` lists them: every key once, in some order. */
  ghost predicate Lists(pairs: Pairs, m: map<string, string>) {
    m == MapOf(pairs) && forall i, j | 0 <= i < j < |pairs| :: pairs[i].0 != pairs[j].0
  }

  method MergeRecord(globalEnvVars: seq<string>, projectEnv: map<string, string>) returns (record: map<string, string>)
    ensures record == WithNodeVersion(RecordOf(map[], globalEnvVars) + projectEnv)
  {
    record := map[];
    for i := 0 to |globalEnvVars|
      invariant record == RecordOf(map[], globalEnvVars[..i])
    {
      var k, v := KeyOf(globalEnvVars[i]), KeyOf(ValueOf(globalEnvVars[i]));
      assert globalEnvVars[..i + 1][..i] == globalEnvVars[..i];
      if k != "" && v != "" {
        record := record[k := v];
      }
    }
    assert globalEnvVars[..|globalEnvVars|] == globalEnvVars;
    record := record + projectEnv;
    if !(NODE_VERSION in record && record[NODE_VERSION] != "") {
      record := record[NODE_VERSION := "22"];
    }
  }

  /** `entries` is what `Object.entries` makes of the merged record. */
  method RecordEnv(internalPort: nat, entries: Pairs) returns (dockerEnv: seq<string>)
    ensures dockerEnv == [PortEntry(internalPort)] + Printed(entries)
  {
    hide PortEntry, Printed;
    dockerEnv := [PortEntry(internalPort)];
    for i := 0 to |entries|
      invariant dockerEnv == [PortEntry(internalPort)] + Printed(entries)[..i]
    {
      dockerEnv := dockerEnv + [entries[i].0 + "=" + entries[i].1];
    }
  }

  // --------------------------------------------------------- Dockerfile route

  function ListRoute(port: nat, globalVars: Pairs, projectVars: Pairs): seq<string> {
    [PortEntry(port)] + Printed(globalVars) + Printed(projectVars)
  }

  /** What a key means on the list route: the project's variable, or else the global one, or else the port. */
  function ListValue(port: nat, globalVars: Pairs, projectVars: Pairs, key: string): Option<string> {
    if LastOf(Printed(projectVars), key).Some? then LastOf(Printed(projectVars), key)
    else if LastOf(Printed(globalVars), key).Some? then LastOf(Printed(globalVars), key)
    else if key == "PORT" then Some(Show(port)) else None
  }

  method ListEnv(internalPort: nat, globalVars: Pairs, projectVars: Pairs) returns (dockerEnv: seq<string>)
    ensures dockerEnv == ListRoute(internalPort, globalVars, projectVars)
    ensures forall key :: LastOf(dockerEnv, key) == ListValue(internalPort, globalVars, projectVars, key)
  {
    dockerEnv := [PortEntry(internalPort)] + Printed(globalVars);
    dockerEnv := dockerEnv + Printed(projectVars);
    forall key ensures LastOf(dockerEnv, key) == ListValue(internalPort, globalVars, projectVars, key) {
      ListRouteValue(internalPort, globalVars, projectVars, key);
    }
  }

  // ------------------------------------------------------------------ meaning

  /** What the container sees of a list: the last entry of the key. */
  function LastOf(entries: seq<string>, key: string): Option<string> {
    if entries == [] then None
    else if KeyOf(entries[|entries| - 1]) == key then Some(ValueOf(entries[|entries| - 1]))
    else LastOf(entries[..|entries| - 1], key)
  }

  function At(m: map<string, string>, key: string): Option<string> {
    if key in m then Some(m[key]) else None
  }

  predicate NoEquals(s: string) { '=' !in s }

  lemma EntryParts(k: string, v: string)
    requires NoEquals(k)
    ensures KeyOf(k + "=" + v) == k && ValueOf(k + "=" + v) == v
  {
    IndexOfPrefix(k, '=', v);
    assert k + "=" + v == k + ['='] + v;
  }

  /** The last entry of a list in two parts. */
  lemma {:induction false} LastOfConcat(a: seq<string>, b: seq<string>, key: string)
    ensures LastOf(a + b, key) == if LastOf(b, key).Some? then LastOf(b, key) else LastOf(a, key)
  {
    if b == [] {
      assert a + b == a;
    } else {
      LastOfConcat(a, b[..|b| - 1], key);
      assert (a + b)[..|a + b| - 1] == a + b[..|b| - 1];
    }
  }

  /** A list printed from pairs means the map of the pairs. */
  lemma {:induction false} MeaningOfListing(pairs: Pairs, key: string)
    requires forall k | k in MapOf(pairs) :: NoEquals(k)
    ensures LastOf(Printed(pairs), key) == At(MapOf(pairs), key)
  {
    if pairs != [] {
      var n := |pairs| - 1;
      assert pairs[n].0 in MapOf(pairs);
      assert forall k | k in MapOf(pairs[..n]) :: k in MapOf(pairs);
      MeaningOfListing(pairs[..n], key);
      assert Printed(pairs)[..n] == Printed(pairs[..n]);
      EntryParts(pairs[n].0, pairs[n].1);
    }
  }

  /** What the record keeps of the entries: the last one of the key whose first piece is not empty. */
  lemma {:induction false} RecordedKeys(entries: seq<string>)
    ensures var record := RecordOf(map[], entries);
      forall k | k in record :: NoEquals(k) && k != "" && NoEquals(record[k]) && record[k] != ""
  {
    if entries != [] {
      var entry := entries[|entries| - 1];
      RecordedKeys(entries[..|entries| - 1]);
      FirstPiece(entry);
      FirstPiece(ValueOf(entry));
    }
  }

  /** The record agrees with the list on a key exactly when its last entry survives the splitting. */
  lemma {:induction false} RecordAgreesExactlyWhen(entries: seq<string>, key: string)
    ensures At(RecordOf(map[], entries), key) == LastOf(entries, key) <==>
      LastOf(entries, key).None? ||
      (key != "" && LastOf(entries, key).value != "" && NoEquals(LastOf(entries, key).value))
    ensures LastOf(entries, key).None? ==> key !in RecordOf(map[], entries)
  {
    RecordedKeys(entries);
    if entries != [] {
      var front, entry := entries[..|entries| - 1], entries[|entries| - 1];
      RecordAgreesExactlyWhen(front, key);
      if KeyOf(entry) == key {
        FirstPiece(ValueOf(entry));
      }
    }
  }

  lemma FirstPiece(v: string)
    ensures NoEquals(KeyOf(v)) && (NoEquals(v) <==> KeyOf(v) == v)
  {
    var i := IndexOf(v, '=');
    if i < |v| {
      assert v[i] in v;
    } else {
      assert v[..|v|] == v;
    }
  }

  // ------------------------------------------------------------ both routes

  lemma PortMeans(port: nat, key: string)
    ensures LastOf([PortEntry(port)], key) == if key == "PORT" then Some(Show(port)) else None
    ensures Show(port) != "" && NoEquals(Show(port))
  {
    assert PortEntry(port) == "PORT" + "=" + Show(port);
    EntryParts("PORT", Show(port));
    assert [PortEntry(port)][..0] == [];
  }

  /** The value the last global variable of a key has, as printed. */
  function GlobalValue(globalVars: Pairs, key: string): Option<string> {
    LastOf(Printed(globalVars), key)
  }

  /** The splitting of the record route leaves the last global variable of the key as it is. */
  predicate Survives(globalVars: Pairs, key: string) {
    var v := GlobalValue(globalVars, key);
    v.None? || (key != "" && v.value != "" && NoEquals(v.value))
  }

  lemma RecordRouteKeys(globalVars: Pairs, project: map<string, string>)
    requires forall k | k in project :: NoEquals(k)
    ensures forall k | k in RecordRoute(globalVars, project) :: NoEquals(k)
  {
    RecordedKeys(Printed(globalVars));
  }

  lemma RecordRouteAt(globalVars: Pairs, project: map<string, string>, key: string)
    requires key != NODE_VERSION
    ensures At(RecordRoute(globalVars, project), key) ==
      if key in project then Some(project[key]) else At(RecordOf(map[], Printed(globalVars)), key)
  {
  }

  lemma RecordRouteMeans(port: nat, globalVars: Pairs, project: map<string, string>, entries: Pairs, key: string)
    requires Lists(entries, RecordRoute(globalVars, project)) && forall k | k in project :: NoEquals(k)
    ensures LastOf([PortEntry(port)] + Printed(entries), key) ==
      if key in RecordRoute(globalVars, project) then At(RecordRoute(globalVars, project), key)
      else if key == "PORT" then Some(Show(port)) else None
  {
    RecordRouteKeys(globalVars, project);
    MeaningOfListing(entries, key);
    LastOfConcat([PortEntry(port)], Printed(entries), key);
    PortMeans(port, key);
  }

  /** Concatenation is precedence: a later list overrides an earlier one. */
  lemma ListRouteValue(port: nat, globalVars: Pairs, projectVars: Pairs, key: string)
    ensures LastOf(ListRoute(port, globalVars, projectVars), key) == ListValue(port, globalVars, projectVars, key)
  {
    LastOfConcat([PortEntry(port)] + Printed(globalVars), Printed(projectVars), key);
    LastOfConcat([PortEntry(port)], Printed(globalVars), key);
    PortMeans(port, key);
  }

  lemma ListRouteMeans(port: nat, globalVars: Pairs, project: map<string, string>, projectVars: Pairs, key: string)
    requires Lists(projectVars, project) && forall k | k in project :: NoEquals(k)
    ensures LastOf(ListRoute(port, globalVars, projectVars), key) ==
      if key in project then Some(project[key])
      else if GlobalValue(globalVars, key).Some? then GlobalValue(globalVars, key)
      else if key == "PORT" then Some(Show(port)) else None
  {
    hide ListRoute;
    ListRouteValue(port, globalVars, projectVars, key);
    MeaningOfListing(projectVars, key);
  }

  /**
   The two routes give a key (the Node version apart) the same value exactly when
   the project sets it or the global value survives the record route's splitting:
   it is not empty and holds no `=`.
   */
  lemma RoutesAgreeExactlyWhen(
      port: nat, globalVars: Pairs, project: map<string, string>, projectVars: Pairs, entries: Pairs, key: string)
    requires Lists(projectVars, project) && Lists(entries, RecordRoute(globalVars, project))
    requires key != NODE_VERSION && forall k | k in project :: NoEquals(k)
    ensures LastOf([PortEntry(port)] + Printed(entries), key)
      == LastOf(ListRoute(port, globalVars, projectVars), key)
      <==> key in project || Survives(globalVars, key)
  {
    RecordRouteMeans(port, globalVars, project, entries, key);
    RecordRouteAt(globalVars, project, key);
    ListRouteMeans(port, globalVars, project, projectVars, key);
    SameBelowProject(port, Printed(globalVars), key);
  }

  /** Below the project's variables: the port, and the global variables in either form. */
  lemma SameBelowProject(port: nat, entries: seq<string>, key: string)
    ensures var g, r := LastOf(entries, key), At(RecordOf(map[], entries), key);
      var fallback := if key == "PORT" then Some(Show(port)) else None;
      (if r.Some? then r else fallback) == (if g.Some? then g else fallback)
      <==> g.None? || (key != "" && g.value != "" && NoEquals(g.value))
  {
    RecordAgreesExactlyWhen(entries, key);
    PortMeans(port, key);
  }

  /** The record route always sets the Node version; the list route sets it only if a variable does. */
  lemma NodeVersionIsSet(
      port: nat, globalVars: Pairs, project: map<string, string>, projectVars: Pairs, entries: Pairs)
    requires Lists(projectVars, project) && Lists(entries, RecordRoute(globalVars, project))
    requires forall k | k in project :: NoEquals(k)
    ensures var version := LastOf([PortEntry(port)] + Printed(entries), NODE_VERSION);
      version.Some? && version.value != ""
    ensures LastOf(ListRoute(port, globalVars, projectVars), NODE_VERSION).Some?
      <==> NODE_VERSION in project || GlobalValue(globalVars, NODE_VERSION).Some?
  {
    RecordRouteMeans(port, globalVars, project, entries, NODE_VERSION);
    ListRouteMeans(port, globalVars, project, projectVars, NODE_VERSION);
  }

  /**
   The Node version of the record route: the project's, or else the recorded global one, or
   else 22; empty counts as none.
   */
  lemma NodeVersionIs(port: nat, globalVars: Pairs, project: map<string, string>, entries: Pairs)
    requires Lists(entries, RecordRoute(globalVars, project)) && forall k | k in project :: NoEquals(k)
    ensures var recorded := At(RecordOf(map[], Printed(globalVars)), NODE_VERSION);
      LastOf([PortEntry(port)] + Printed(entries), NODE_VERSION) == Some(
        if NODE_VERSION in project then if project[NODE_VERSION] != "" then project[NODE_VERSION] else "22"
        else if recorded.Some? && recorded.value != "" then recorded.value else "22")
  {
    RecordRouteMeans(port, globalVars, project, entries, NODE_VERSION);
  }
}

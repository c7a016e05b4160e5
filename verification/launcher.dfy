/**
 The Compose launcher of `local up` (`upComposeFile`): the resolved secrets
 become `NAME=VALUE` strings, and those strings are the environment of the
 `docker-compose -f <file> up -d` subprocess. Running the subprocess is
 outside the model; the command to run is its result.
 */
module Launcher {
  import opened Strings

  /** One environment entry, as `fmt.Sprintf("%s=%s", name, value)` writes it. */
  function EnvEntry(name: string, value: string): (entry: string)
  {
    name + "=" + value
  }

  /** How a process reads an entry back: the name runs up to the first `=`. */
  function ParseEntry(entry: string): (nameValue: (string, string))
  {
    var i := IndexOf(entry, '=');
    if i == |entry| then (entry, "") else (entry[..i], entry[i + 1..])
  }

  /** Reading an entry back gives the name and value it was written from,
      provided the name contains no `=`. */
  lemma EntryRoundTrip(name: string, value: string)
    requires '=' !in name
    ensures ParseEntry(EnvEntry(name, value)) == (name, value)
  {
    var e := EnvEntry(name, value);
    assert e[|name|] == '=';
    assert IndexOf(e, '=') == |name|;
    assert e[..|name|] == name;
    assert e[|name| + 1..] == value;
  }

  /** The variables an environment list defines; as Go's `os/exec` does,
      a later entry for the same name wins. */
  function EnvToMap(envs: seq<string>): (vars: map<string, string>)
  {
    if |envs| == 0 then map[]
    else
      var entry := ParseEntry(envs[|envs| - 1]);
      EnvToMap(envs[..|envs| - 1])[entry.0 := entry.1]
  }

  /** `envs` lists the entries of `m`, once each, in the visiting order `order`. */
  ghost predicate Enumerates(m: map<string, string>, order: seq<string>, envs: seq<string>)
  {
    && |order| == |envs|
    && (forall i, j :: 0 <= i < j < |order| ==> order[i] != order[j])
    && (forall i :: 0 <= i < |order| ==> order[i] in m && envs[i] == EnvEntry(order[i], m[order[i]]))
    && (forall k :: k in m ==> k in order)
  }

  /** A duplicate-free sequence has as many elements as the set it covers. */
  lemma {:induction false} DistinctCardinality(order: seq<string>, keys: set<string>)
    requires forall i, j :: 0 <= i < j < |order| ==> order[i] != order[j]
    requires forall k :: k in keys <==> k in order
    ensures |order| == |keys|
  {
    if |order| > 0 {
      var last := order[|order| - 1];
      var init := order[..|order| - 1];
      assert forall k :: k in keys - {last} <==> k in init by {
        forall k
          ensures k in keys - {last} <==> k in init
        {
          if k in init {
            var i :| 0 <= i < |init| && init[i] == k;
            assert order[i] == k;
          }
          if k in order && k != last {
            var i :| 0 <= i < |order| && order[i] == k;
            assert init[i] == k;
          }
        }
      }
      DistinctCardinality(init, keys - {last});
    }
  }

  /** Dropping the last entry of an enumeration enumerates the map without
      that entry's name. */
  lemma EnumerationDropLast(m: map<string, string>, order: seq<string>, envs: seq<string>)
    requires Enumerates(m, order, envs) && |envs| > 0
    ensures var n := |envs| - 1;
            Enumerates(m - {order[n]}, order[..n], envs[..n])
  {
    var n := |envs| - 1;
    var m' := m - {order[n]};
    forall key | key in m'
      ensures key in order[..n]
    {
      var i :| 0 <= i < |order| && order[i] == key;
      assert i != n;
    }
  }

  /** The environment list, read back, is the map it was built from, provided
      no name contains `=`. */
  lemma {:induction false} EnumerationDecodes(m: map<string, string>, order: seq<string>, envs: seq<string>)
    requires Enumerates(m, order, envs)
    requires forall k :: k in m ==> '=' !in k
    ensures EnvToMap(envs) == m
    decreases |envs|
  {
    if |envs| == 0 {
      assert m.Keys == {};
    } else {
      var n := |envs| - 1;
      var k := order[n];
      var m' := m - {k};
      EnumerationDropLast(m, order, envs);
      EnumerationDecodes(m', order[..n], envs[..n]);
      EntryRoundTrip(k, m[k]);
      assert EnvToMap(envs) == m'[k := m[k]];
      assert m == m'[k := m[k]];
    }
  }

  /** A one-variable map has a one-entry list. */
  lemma SingleVariableList(k: string, v: string, order: seq<string>, envs: seq<string>)
    requires Enumerates(map[k := v], order, envs)
    ensures envs == [EnvEntry(k, v)]
  {
    DistinctCardinality(order, map[k := v].Keys);
    assert map[k := v].Keys == {k};
  }

  /** The environment list of `upComposeFile`. Go visits a map in an
      unspecified order, so the loop takes the keys in an arbitrary order;
      whatever the order, every entry of the map is listed exactly once. */
  method BuildEnv(envVars: map<string, string>) returns (envs: seq<string>, ghost order: seq<string>)
    ensures |envs| == |envVars|
    ensures Enumerates(envVars, order, envs)
    ensures (forall k :: k in envVars ==> '=' !in k) ==> EnvToMap(envs) == envVars
  {
    envs := [];
    order := [];
    var rest := envVars.Keys;
    while rest != {}
      invariant rest <= envVars.Keys
      invariant |order| == |envs|
      invariant forall i, j :: 0 <= i < j < |order| ==> order[i] != order[j]
      invariant forall i :: 0 <= i < |order| ==> order[i] in envVars && envs[i] == EnvEntry(order[i], envVars[order[i]])
      invariant forall k :: k in envVars ==> (k in rest <==> k !in order)
      decreases |rest|
    {
      var k :| k in rest;
      envs := envs + [EnvEntry(k, envVars[k])];
      order := order + [k];
      rest := rest - {k};
    }
    DistinctCardinality(order, envVars.Keys);
    if forall k :: k in envVars ==> '=' !in k {
      EnumerationDecodes(envVars, order, envs);
    }
  }

  /** A subprocess to start: program, arguments and the `Env` field. */
  datatype Command = Command(program: string, args: seq<string>, env: seq<string>)

  /** The environment the subprocess actually receives. An `Env` that was
      never appended to is nil in Go, and `os/exec` then hands the child the
      parent's environment; otherwise the child gets exactly `Env`. This is
      the behaviour on Unix-like systems: on Windows `os/exec` also adds
      `SYSTEMROOT` when `Env` lacks it. */
  function ChildEnvironment(cmd: Command, parentEnv: seq<string>): (childEnv: seq<string>)
  {
    if |cmd.env| == 0 then parentEnv else cmd.env
  }
}

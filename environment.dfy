/**
 * The environment of a described task, built from the first container
 * override's environment and the first container definition's declared
 * environment by the two nested loops of `DescribeTasks`.
 *
 * As written, the second loop appends a declared variable once for every
 * override name that differs from its own name. This is not "override wins":
 * with no override nothing declared is kept, and with two or more distinct
 * override names every declared variable is kept, once per override name
 * that differs from its own, so a variable whose name no override uses is
 * repeated.
 */
module Environment {
  import opened EcsTypes

  function ToEnvVar(p: KeyValuePair): EnvVar
  {
    EnvVar(p.name, p.value)
  }

  /** The `keys` slice: the override names, in order. */
  function Names(overrides: seq<KeyValuePair>): seq<string>
  {
    seq(|overrides|, k requires 0 <= k < |overrides| => overrides[k].name)
  }

  /** The override variables, in order, converted to `EnvVar`. */
  function OverrideVars(overrides: seq<KeyValuePair>): seq<EnvVar>
  {
    seq(|overrides|, k requires 0 <= k < |overrides| => ToEnvVar(overrides[k]))
  }

  /** What the inner loop over `keys` appends for one declared variable. */
  function Copies(keys: seq<string>, declared: KeyValuePair): seq<EnvVar>
  {
    if keys == [] then []
    else
      Copies(keys[..|keys| - 1], declared)
      + (if keys[|keys| - 1] == declared.name then [] else [ToEnvVar(declared)])
  }

  /** What the outer loop over the declared variables appends. */
  function Replicated(declared: seq<KeyValuePair>, keys: seq<string>): seq<EnvVar>
  {
    if declared == [] then []
    else Replicated(declared[..|declared| - 1], keys) + Copies(keys, declared[|declared| - 1])
  }

  /** The task's `EnvVars`: the overrides, then the replicated declared variables. */
  function MergedEnv(overrides: seq<KeyValuePair>, declared: seq<KeyValuePair>): seq<EnvVar>
  {
    OverrideVars(overrides) + Replicated(declared, Names(overrides))
  }

  /** Number of names in `keys` that differ from `name`. */
  function CountOther(keys: seq<string>, name: string): nat
  {
    if keys == [] then 0
    else CountOther(keys[..|keys| - 1], name) + (if keys[|keys| - 1] == name then 0 else 1)
  }

  /** The declared variables whose name is not `name`, in declared order. */
  function WithoutName(declared: seq<KeyValuePair>, name: string): seq<EnvVar>
  {
    if declared == [] then []
    else
      WithoutName(declared[..|declared| - 1], name)
      + (if declared[|declared| - 1].name == name then [] else [ToEnvVar(declared[|declared| - 1])])
  }

  /**
   * The two loops of the merge. The first copies every override into
   * `envVars` and its name into `keys`; the second appends each declared
   * variable once per key whose name differs from it.
   */
  method MergeEnvironment(overrides: seq<KeyValuePair>, declared: seq<KeyValuePair>)
    returns (envVars: seq<EnvVar>)
    ensures envVars == MergedEnv(overrides, declared)
  {
    var keys: seq<string> := [];
    envVars := [];
    if |overrides| > 0 {
      for i := 0 to |overrides|
        invariant |keys| == i && |envVars| == i
        invariant forall k :: 0 <= k < i ==> keys[k] == overrides[k].name
        invariant forall k :: 0 <= k < i ==> envVars[k] == ToEnvVar(overrides[k])
      {
        keys := keys + [overrides[i].name];
        envVars := envVars + [EnvVar(overrides[i].name, overrides[i].value)];
      }
    }
    assert keys == Names(overrides);
    assert envVars == OverrideVars(overrides);
    for i := 0 to |declared|
      invariant envVars == OverrideVars(overrides) + Replicated(declared[..i], keys)
    {
      envVars := AppendCopies(envVars, keys, declared[i]);
      assert declared[..i + 1][..i] == declared[..i];
    }
    assert declared[..|declared|] == declared;
  }

  /** The inner loop over `keys`: skip a key equal to the declared name, otherwise append the variable. */
  method AppendCopies(envVars: seq<EnvVar>, keys: seq<string>, environment: KeyValuePair)
    returns (envVars': seq<EnvVar>)
    ensures envVars' == envVars + Copies(keys, environment)
  {
    envVars' := envVars;
    for j := 0 to |keys|
      invariant envVars' == envVars + Copies(keys[..j], environment)
    {
      assert keys[..j + 1][..j] == keys[..j];
      if environment.name == keys[j] {
        continue;
      }
      envVars' := envVars' + [EnvVar(environment.name, environment.value)];
    }
    assert keys[..|keys|] == keys;
  }

  /** The overrides come first, in order, with their own values; duplicates stay. */
  lemma OverridesComeFirst(overrides: seq<KeyValuePair>, declared: seq<KeyValuePair>)
    ensures |MergedEnv(overrides, declared)| >= |overrides|
    ensures forall k :: 0 <= k < |overrides| ==>
      MergedEnv(overrides, declared)[k] == EnvVar(overrides[k].name, overrides[k].value)
  {
  }

  /** A declared variable is appended once per override name that differs from its own. */
  lemma {:induction false} CopiesCount(keys: seq<string>, declared: KeyValuePair)
    ensures |Copies(keys, declared)| == CountOther(keys, declared.name)
    ensures forall e :: e in Copies(keys, declared) ==> e == ToEnvVar(declared)
  {
    if keys != [] {
      CopiesCount(keys[..|keys| - 1], declared);
    }
  }

  /** Without overrides, no declared variable reaches the task. */
  lemma {:induction false} NoOverridesDropsDeclared(declared: seq<KeyValuePair>)
    ensures MergedEnv([], declared) == []
  {
    ReplicatedWithoutKeys(declared);
  }

  lemma {:induction false} ReplicatedWithoutKeys(declared: seq<KeyValuePair>)
    ensures Replicated(declared, []) == []
  {
    if declared != [] {
      ReplicatedWithoutKeys(declared[..|declared| - 1]);
    }
  }

  /** A value is among a declared variable's copies when it is that variable and some name differs. */
  lemma CopiesMembership(keys: seq<string>, declared: KeyValuePair, e: EnvVar)
    ensures e in Copies(keys, declared) <==> e == ToEnvVar(declared) && CountOther(keys, declared.name) > 0
  {
    CopiesCount(keys, declared);
    if e == ToEnvVar(declared) && CountOther(keys, declared.name) > 0 {
      assert Copies(keys, declared)[0] in Copies(keys, declared);
    }
  }

  /** Some declared variable carries `e` and has an override name differing from its own. */
  ghost predicate Kept(declared: seq<KeyValuePair>, keys: seq<string>, e: EnvVar)
  {
    exists j :: 0 <= j < |declared| && ToEnvVar(declared[j]) == e && CountOther(keys, declared[j].name) > 0
  }

  lemma KeptStep(declared: seq<KeyValuePair>, keys: seq<string>, e: EnvVar)
    requires declared != []
    ensures Kept(declared, keys, e) <==>
      Kept(declared[..|declared| - 1], keys, e)
      || (ToEnvVar(declared[|declared| - 1]) == e && CountOther(keys, declared[|declared| - 1].name) > 0)
  {
    var init := declared[..|declared| - 1];
    if Kept(declared, keys, e) {
      var j :| 0 <= j < |declared| && ToEnvVar(declared[j]) == e && CountOther(keys, declared[j].name) > 0;
      if j < |init| {
        assert init[j] == declared[j];
      }
    }
    if Kept(init, keys, e) {
      var j :| 0 <= j < |init| && ToEnvVar(init[j]) == e && CountOther(keys, init[j].name) > 0;
      assert declared[j] == init[j];
    }
  }

  /**
   * A value appears among the appended declared variables exactly when some
   * declared variable carries it and some override name differs from that
   * variable's name, whether or not that name is itself overridden.
   */
  lemma {:induction false} ReplicatedMembership(declared: seq<KeyValuePair>, keys: seq<string>, e: EnvVar)
    ensures e in Replicated(declared, keys) <==> Kept(declared, keys, e)
  {
    if declared != [] {
      var init := declared[..|declared| - 1];
      var last := declared[|declared| - 1];
      ReplicatedMembership(init, keys, e);
      CopiesMembership(keys, last, e);
      KeptStep(declared, keys, e);
    }
  }

  /** With exactly one override name, the merge is "override wins". */
  lemma {:induction false} SingleOverrideWins(declared: seq<KeyValuePair>, key: string)
    ensures Replicated(declared, [key]) == WithoutName(declared, key)
  {
    if declared != [] {
      var last := declared[|declared| - 1];
      SingleOverrideWins(declared[..|declared| - 1], key);
      assert [key][..0] == [];
      assert Copies([key], last) == if key == last.name then [] else [ToEnvVar(last)];
    }
  }

  /**
   * Declared `A=1, B=2` with overrides `B=9, C=3` gives `B=9, C=3, A=1, A=1, B=2`:
   * `A` is kept twice and the overridden `B=2` is kept once.
   */
  lemma {:induction false} MergeExample()
    ensures MergedEnv([KeyValuePair("B", "9"), KeyValuePair("C", "3")],
                      [KeyValuePair("A", "1"), KeyValuePair("B", "2")])
         == [EnvVar("B", "9"), EnvVar("C", "3"), EnvVar("A", "1"), EnvVar("A", "1"), EnvVar("B", "2")]
  {
    var o := [KeyValuePair("B", "9"), KeyValuePair("C", "3")];
    var d := [KeyValuePair("A", "1"), KeyValuePair("B", "2")];
    var keys := Names(o);
    assert keys == ["B", "C"];
    assert keys[..1] == ["B"];
    assert ["B"][..0] == [];
    assert Copies(["B"], d[0]) == [EnvVar("A", "1")];
    assert Copies(["B"], d[1]) == [];
    assert Copies(keys, d[0]) == [EnvVar("A", "1"), EnvVar("A", "1")];
    assert Copies(keys, d[1]) == [EnvVar("B", "2")];
    assert d[..1] == [d[0]];
    assert d[..1][..0] == [];
    assert Replicated(d[..1], keys) == Copies(keys, d[0]);
    assert Replicated(d, keys) == Copies(keys, d[0]) + Copies(keys, d[1]);
  }
}

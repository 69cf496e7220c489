/** The check that the environment points at the local installation. */
module ShellVariables {
  import opened Text

  /** The process environment, variable name to value. */
  type Environment = map<string, string>

  /** The three variables the check inspects, each with the directory below the
      installation root that must occur in its value. */
  const Requirements: seq<(string, string)> :=
    [("PATH", "/bin"), ("LD_LIBRARY_PATH", "/lib"), ("PKG_CONFIG_PATH", "/lib/pkgconfig")]

  /** `check_whether_a_path_variable_has_value`: the variable is set and its value
      is some text, then the expected part, then some more text. */
  function HasValue(env: Environment, variable: string, expectedPart: string): (b: bool)
    ensures b <==> variable in env && exists p, q :: env[variable] == p + expectedPart + q
  {
    if variable in env then
      ContainsIsSplit(env[variable], expectedPart);
      Contains(env[variable], expectedPart)
    else false
  }

  /** Requirement `i` holds for the installation root. */
  predicate Satisfied(env: Environment, installationRoot: string, i: nat)
    requires i < |Requirements|
  {
    HasValue(env, Requirements[i].0, installationRoot + Requirements[i].1)
  }

  /** The variables whose requirement fails among the first `i`, in the order
      they are checked, each once. */
  function Failing(env: Environment, installationRoot: string, i: nat): (r: seq<string>)
    requires i <= |Requirements|
  {
    if i == 0 then []
    else
      Failing(env, installationRoot, i - 1)
      + (if Satisfied(env, installationRoot, i - 1) then [] else [Requirements[i - 1].0])
  }

  /** `ShellVariables.check`, up to the question it then asks: whether every
      variable is set, and the variables it reports as missing their part, in the
      order they are checked. The checks are combined with a non-short-circuiting
      `&`, so every variable is checked and every failure is reported once. */
  method Check(env: Environment, installationRoot: string) returns (variablesAreSet: bool, reported: seq<string>)
    ensures variablesAreSet <==> forall i :: 0 <= i < |Requirements| ==> Satisfied(env, installationRoot, i)
    ensures variablesAreSet <==> reported == []
    ensures forall i :: 0 <= i < |Requirements| ==>
              (Requirements[i].0 in reported <==> !Satisfied(env, installationRoot, i))
    ensures reported == Failing(env, installationRoot, |Requirements|)
  {
    variablesAreSet := true;
    reported := [];
    for i := 0 to |Requirements|
      invariant variablesAreSet <==> forall j :: 0 <= j < i ==> Satisfied(env, installationRoot, j)
      invariant variablesAreSet <==> reported == []
      invariant forall j :: 0 <= j < |Requirements| ==>
                  (Requirements[j].0 in reported <==> j < i && !Satisfied(env, installationRoot, j))
      invariant reported == Failing(env, installationRoot, i)
    {
      var (variable, suffix) := Requirements[i];
      var hasValue := HasValue(env, variable, installationRoot + suffix);
      assert hasValue == Satisfied(env, installationRoot, i);
      if !hasValue {
        reported := reported + [variable];
      }
      variablesAreSet := variablesAreSet && hasValue;
    }
  }

  /** Each variable is reported at most once: the names of the requirements
      differ, and `Failing` lists requirements in order. */
  lemma FailingHasNoDuplicates(env: Environment, installationRoot: string)
    ensures var r := Failing(env, installationRoot, |Requirements|);
      forall j, k :: 0 <= j < k < |r| ==> r[j] != r[k]
  {
    var f1 := Failing(env, installationRoot, 1);
    var f2 := Failing(env, installationRoot, 2);
    var f3 := Failing(env, installationRoot, 3);
    assert Failing(env, installationRoot, 0) == [];
    assert f1 == [] || f1 == ["PATH"];
    assert forall x :: x in f2 ==> x == "PATH" || x == "LD_LIBRARY_PATH";
    assert forall j, k :: 0 <= j < k < |f2| ==> f2[j] != f2[k];
    assert forall x :: x in f2 ==> x != "PKG_CONFIG_PATH";
  }
}

/**
 * The closed environment table of the deployer and its constructor, which rejects
 * every environment name outside the table before any state is set.
 */
module Environments {
  import opened Results
  import Substitution

  /** The environment names, in the order the error message lists them. */
  const EnvironmentNames: seq<string> := ["dev", "qa", "prod"]

  /** `DATABASE_MAP`: environment name to target database. */
  const DatabaseMap: map<string, string> :=
    map["dev" := "SAAS_ANALYTICS_DEV", "qa" := "SAAS_ANALYTICS_QA", "prod" := "SAAS_ANALYTICS_PROD"]

  /** The names joined with a separator, as `', '.join(...)` does. */
  function Join(names: seq<string>, sep: string): string {
    if |names| == 0 then ""
    else if |names| == 1 then names[0]
    else names[0] + sep + Join(names[1..], sep)
  }

  /** The state `__init__` sets. */
  datatype Deployer = Deployer(environment: string, databaseName: string)

  datatype ConfigError = InvalidEnvironment(message: string)

  /** A deployer as the constructor leaves it. */
  predicate ValidDeployer(d: Deployer) {
    d.environment in DatabaseMap && d.databaseName == DatabaseMap[d.environment]
  }

  /** `SnowflakeDeployer.__init__`: look the environment up or raise `ValueError`. */
  function NewDeployer(environment: string): (r: Result<Deployer, ConfigError>)
    ensures r.Ok? <==> environment == "dev" || environment == "qa" || environment == "prod"
    ensures r.Ok? ==> r.value.environment == environment && ValidDeployer(r.value)
    ensures environment == "dev" ==> r == Ok(Deployer("dev", "SAAS_ANALYTICS_DEV"))
    ensures environment == "qa" ==> r == Ok(Deployer("qa", "SAAS_ANALYTICS_QA"))
    ensures environment == "prod" ==> r == Ok(Deployer("prod", "SAAS_ANALYTICS_PROD"))
    ensures r.Err? ==> r.error.message == "Invalid environment: " + environment + ". Must be: dev, qa, prod"
  {
    if environment !in DatabaseMap then
      Err(InvalidEnvironment("Invalid environment: " + environment + ". Must be: " + Join(EnvironmentNames, ", ")))
    else
      Ok(Deployer(environment, DatabaseMap[environment]))
  }

  /**
   * The table's keys are exactly the names the error message joins, one entry per
   * name, with no name listed twice.
   */
  lemma DatabaseMapIsClosed()
    ensures DatabaseMap.Keys == set k | 0 <= k < |EnvironmentNames| :: EnvironmentNames[k]
    ensures forall j, k :: 0 <= j < k < |EnvironmentNames| ==> EnvironmentNames[j] != EnvironmentNames[k]
    ensures |DatabaseMap| == |EnvironmentNames| == 3
  {
    assert DatabaseMap.Keys == {"dev", "qa", "prod"};
    assert EnvironmentNames[0] == "dev" && EnvironmentNames[1] == "qa" && EnvironmentNames[2] == "prod";
  }

  /** Distinct environments deploy to distinct databases. */
  lemma DatabaseNamesDistinct(a: string, b: string)
    requires a in DatabaseMap && b in DatabaseMap
    requires a != b
    ensures DatabaseMap[a] != DatabaseMap[b]
  {
  }

  /**
   * Every target database is the placeholder followed by `_` and a suffix of word
   * characters, so it is a word of its own that is not the placeholder.
   */
  lemma DatabaseNameIsSafe(name: string)
    requires name in DatabaseMap
    ensures Substitution.SafeReplacement(DatabaseMap[name])
    ensures DatabaseMap[name][..|Substitution.Placeholder| + 1] == Substitution.Placeholder + "_"
  {
    var db := DatabaseMap[name];
    assert Substitution.AllWordChars(db);
    assert db != Substitution.Placeholder by {
      assert |db| != |Substitution.Placeholder|;
    }
  }
}

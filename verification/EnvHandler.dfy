/** Environment sections (envhandler/handler.go). */
module EnvHandler {
  import opened Values
  import opened Paths
  import opened Merge

  const DEFAULT := "default"

  /** IsEnvironmentAware: the environment is a top-level key, or "default" is a
      map with another map beside it. */
  predicate IsAware(config: Tree, env: string) {
    || (env != "" && env in config)
    || (DEFAULT in config && config[DEFAULT].Map? && exists k :: k in config && k != DEFAULT && config[k].Map?)
  }

  /** Resolve: the default section under the environment's own. */
  function Resolve(config: Tree, env: string): Tree {
    if !IsAware(config, env) then config
    else
      var base := if DEFAULT in config && config[DEFAULT].Map? then config[DEFAULT].entries else map[];
      if env !in config || !config[env].Map? then base else DeepMerge(base, config[env].entries)
  }

  method IsEnvironmentAware(config: Tree, env: string) returns (r: bool)
    ensures r == IsAware(config, env)
  {
    if env != "" && env in config {
      return true;
    }
    if DEFAULT in config && config[DEFAULT].Map? {
      var todo := config.Keys;
      while todo != {}
        invariant todo <= config.Keys
        invariant forall k :: k in config && k !in todo && k != DEFAULT ==> !config[k].Map?
        decreases todo
      {
        var k :| k in todo;
        if k != DEFAULT && config[k].Map? {
          return true;
        }
        todo := todo - {k};
      }
    }
    return false;
  }

  /** A section: the map under a top-level key, empty when there is none. */
  function Section(config: Tree, k: string): Tree {
    if k in config && config[k].Map? then config[k].entries else map[]
  }

  /** Where a resolved value comes from: a setting of the environment hides the
      default's, the default shows through elsewhere, and no other section is
      visible. */
  lemma ResolvedFrom(config: Tree, env: string, p: Path)
    requires (env != "" && env in config) ||
             (DEFAULT in config && config[DEFAULT].Map? && exists k :: k in config && k != DEFAULT && config[k].Map?)
    requires Compatible(Section(config, DEFAULT), Section(config, env))
    ensures var own, default := GetPath(Section(config, env), p), GetPath(Section(config, DEFAULT), p);
            && (own.None? ==> GetPath(Resolve(config, env), p) == default)
            && (own.Some? && !own.value.Map? ==> GetPath(Resolve(config, env), p) == own)
  {
    DeepMergeAt(Section(config, DEFAULT), Section(config, env), p);
  }

  /** A configuration without the environment's key, and without a default section
      beside another map, is taken as it is. */
  lemma ResolvedWhole(config: Tree, env: string)
    requires env == "" || env !in config
    requires DEFAULT in config && config[DEFAULT].Map? ==> forall k :: k in config && config[k].Map? ==> k == DEFAULT
    ensures Resolve(config, env) == config
  {
  }
}

/** The env helpers of vars/vars.go: finding every env key a pipeline refers
    to, split into the keys of the pipeline-level conditions and the rest,
    and merging env maps by priority. Go map iteration order is arbitrary;
    the loops over maps pick the next key in some order. */
module Vars {
  import opened Wrappers
  import opened SchemaTypes
  import SchemaCondition
  import SchemaRunConfig

  type Condition = SchemaCondition.Condition
  type RunConfig = SchemaRunConfig.RunConfig

  /** A pipeline step (schema/types.go), with the fields FindAllEnv reads. */
  datatype Step = Step(config: RunConfig, when: map<string, Condition>)

  /** A pipeline (schema/types.go), with the fields FindAllEnv reads. */
  datatype Pipeline = Pipeline(when: map<string, Condition>, setup: RunConfig, steps: seq<Step>)

  datatype PipelineEnvBundle = PipelineEnvBundle(env: seq<string>, pipelineEnv: seq<string>, remainingEnv: seq<string>)

  predicate Distinct(xs: seq<string>)
  {
    forall i, j :: 0 <= i < j < |xs| ==> xs[i] != xs[j]
  }

  /** The env keys one condition refers to: X for a key "env X", and the
      non-empty keys of its IncludeEnv and ExcludeEnv lists. */
  function ConditionEnvKeys(key: string, c: Condition): set<string>
  {
    (if HasPrefix(key, ENV_PREFIX) && |key| > |ENV_PREFIX| then {key[|ENV_PREFIX|..]} else {}) +
    (set x | x in c.includeEnv && x != "") +
    (set x | x in c.excludeEnv && x != "")
  }

  /** The env keys of the conditions of a `when` map, the key "" skipped. */
  function WhenEnvKeys(when: map<string, Condition>): set<string>
  {
    set k, x | k in when && k != "" && x in ConditionEnvKeys(k, when[k]) :: x
  }

  /** The env keys of the steps: their conditions and their run configs. */
  function StepsEnvKeys(steps: seq<Step>): set<string>
  {
    if steps == [] then {}
    else
      var last := steps[|steps| - 1];
      StepsEnvKeys(steps[..|steps| - 1]) + WhenEnvKeys(last.when) + SchemaRunConfig.ConfigEnvKeys(last.config)
  }

  /** The keys of the pipeline-level conditions. */
  function PipelineKeys(pipeline: Pipeline): set<string>
  {
    WhenEnvKeys(pipeline.when)
  }

  /** The keys of the setup and of the steps, before the pipeline-level keys
      are taken out. */
  function StepKeys(pipeline: Pipeline): set<string>
  {
    SchemaRunConfig.ConfigEnvKeys(pipeline.setup) + StepsEnvKeys(pipeline.steps)
  }

  /** No key FindAllEnv collects is empty. */
  lemma {:induction false} CollectedKeysNonEmpty(pipeline: Pipeline)
    ensures "" !in PipelineKeys(pipeline)
    ensures "" !in StepKeys(pipeline)
  {
    StepsKeysNonEmpty(pipeline.steps);
    ConfigKeysNonEmpty(pipeline.setup);
  }

  lemma ConfigKeysNonEmpty(config: RunConfig)
    ensures "" !in SchemaRunConfig.ConfigEnvKeys(config)
  {
    SchemaRunConfig.KeysOfMembers(SchemaRunConfig.Fields(config));
  }

  lemma {:induction false} StepsKeysNonEmpty(steps: seq<Step>)
    ensures "" !in StepsEnvKeys(steps)
  {
    if steps != [] {
      StepsKeysNonEmpty(steps[..|steps| - 1]);
      ConfigKeysNonEmpty(steps[|steps| - 1].config);
    }
  }

  /** The inner loops over one condition: records the keys it refers to. */
  method AddConditionKeys(key: string, c: Condition, results: set<string>) returns (updated: set<string>)
    ensures updated == results + ConditionEnvKeys(key, c)
  {
    updated := results;
    if HasPrefix(key, ENV_PREFIX) {
      var envKey := key[|ENV_PREFIX|..];
      if envKey != "" {
        updated := updated + {envKey};
      }
    }
    for i := 0 to |c.includeEnv|
      invariant updated <= results + ConditionEnvKeys(key, c)
      invariant HasPrefix(key, ENV_PREFIX) && |key| > |ENV_PREFIX| ==> key[|ENV_PREFIX|..] in updated
      invariant forall x :: x in c.includeEnv[..i] && x != "" ==> x in updated
      invariant results <= updated
    {
      var k := c.includeEnv[i];
      assert c.includeEnv[..i + 1] == c.includeEnv[..i] + [k];
      if k != "" {
        updated := updated + {k};
      }
    }
    assert c.includeEnv[..|c.includeEnv|] == c.includeEnv;
    for i := 0 to |c.excludeEnv|
      invariant updated <= results + ConditionEnvKeys(key, c)
      invariant HasPrefix(key, ENV_PREFIX) && |key| > |ENV_PREFIX| ==> key[|ENV_PREFIX|..] in updated
      invariant forall x :: x in c.includeEnv && x != "" ==> x in updated
      invariant forall x :: x in c.excludeEnv[..i] && x != "" ==> x in updated
      invariant results <= updated
    {
      var k := c.excludeEnv[i];
      assert c.excludeEnv[..i + 1] == c.excludeEnv[..i] + [k];
      if k != "" {
        updated := updated + {k};
      }
    }
    assert c.excludeEnv[..|c.excludeEnv|] == c.excludeEnv;
  }

  /** The loop over a `when` map: records the keys of every condition under
      a non-empty key. */
  method AddWhenKeys(when: map<string, Condition>, results: set<string>) returns (updated: set<string>)
    ensures updated == results + WhenEnvKeys(when)
  {
    updated := results;
    var todo := when.Keys;
    while todo != {}
      invariant todo <= when.Keys
      invariant results <= updated <= results + WhenEnvKeys(when)
      invariant forall k, x :: k in when && k !in todo && k != "" && x in ConditionEnvKeys(k, when[k]) ==> x in updated
      decreases |todo|
    {
      var key :| key in todo;
      if key != "" {
        updated := AddConditionKeys(key, when[key], updated);
      }
      todo := todo - {key};
    }
  }

  /** Records every key of a list. */
  method AddAll(keys: seq<string>, results: set<string>) returns (updated: set<string>)
    ensures updated == results + set k | k in keys
  {
    updated := results;
    for i := 0 to |keys|
      invariant updated == results + set k | k in keys[..i]
    {
      assert keys[..i + 1] == keys[..i] + [keys[i]];
      updated := updated + {keys[i]};
    }
    assert keys[..|keys|] == keys;
  }

  /** The output loop over a set of keys: appends each key, in some order,
      to `env` and to its own list. */
  method ListKeys(results: set<string>, env: seq<string>) returns (envAfter: seq<string>, listed: seq<string>)
    ensures Distinct(listed) && (forall k :: k in listed <==> k in results)
    ensures envAfter == env + listed
  {
    envAfter, listed := env, [];
    var todo := results;
    while todo != {}
      invariant todo <= results
      invariant forall k :: k in results ==> (k in listed <==> k !in todo)
      invariant forall k :: k in listed ==> k in results
      invariant Distinct(listed)
      invariant envAfter == env + listed
      decreases |todo|
    {
      var key :| key in todo;
      envAfter := envAfter + [key];
      listed := listed + [key];
      todo := todo - {key};
    }
  }

  /** The loops over the setup and the steps: records the keys of the setup's
      run config, and of each step's conditions and run config. */
  method CollectStepKeys(pipeline: Pipeline) returns (remainingResults: set<string>)
    ensures remainingResults == StepKeys(pipeline)
  {
    ghost var setupOrder;
    var setupKeys;
    setupKeys, setupOrder := SchemaRunConfig.GetEnv(pipeline.setup);
    remainingResults := AddAll(setupKeys, {});

    for i := 0 to |pipeline.steps|
      invariant remainingResults == SchemaRunConfig.ConfigEnvKeys(pipeline.setup) + StepsEnvKeys(pipeline.steps[..i])
    {
      var step := pipeline.steps[i];
      assert pipeline.steps[..i + 1][..i] == pipeline.steps[..i];
      remainingResults := AddWhenKeys(step.when, remainingResults);
      ghost var stepOrder;
      var stepKeys;
      stepKeys, stepOrder := SchemaRunConfig.GetEnv(step.config);
      remainingResults := AddAll(stepKeys, remainingResults);
    }
    assert pipeline.steps[..|pipeline.steps|] == pipeline.steps;
  }

  /** The loop deleting every key of `keys` from `results`. */
  method DeleteAll(results: set<string>, keys: set<string>) returns (remaining: set<string>)
    ensures remaining == results - keys
  {
    remaining := results;
    var todo := keys;
    while todo != {}
      invariant todo <= keys
      invariant remaining == results - (keys - todo)
      decreases |todo|
    {
      var key :| key in todo;
      remaining := remaining - {key};
      todo := todo - {key};
    }
  }

  /** Two lists without duplicates and without common keys concatenate to a
      list without duplicates. */
  lemma DistinctConcat(xs: seq<string>, ys: seq<string>)
    requires Distinct(xs) && Distinct(ys)
    requires forall k :: k in xs ==> k !in ys
    ensures Distinct(xs + ys)
  {
    forall i, j | 0 <= i < j < |xs + ys|
      ensures (xs + ys)[i] != (xs + ys)[j]
    {
      if i < |xs| && |xs| <= j {
        assert (xs + ys)[i] in xs && (xs + ys)[j] in ys;
      }
    }
  }

  /** FindAllEnv: PipelineEnv lists the keys of the pipeline-level
      conditions, RemainingEnv the other keys of the setup and the steps,
      and Env both, PipelineEnv first; each in some order, without duplicates
      and without "". */
  method FindAllEnv(pipeline: Pipeline) returns (result: PipelineEnvBundle)
    ensures forall k :: k in result.pipelineEnv <==> k in PipelineKeys(pipeline)
    ensures forall k :: k in result.remainingEnv <==> k in StepKeys(pipeline) && k !in PipelineKeys(pipeline)
    ensures Distinct(result.pipelineEnv) && Distinct(result.remainingEnv) && Distinct(result.env)
    ensures result.env == result.pipelineEnv + result.remainingEnv
    ensures "" !in result.env
  {
    var pipelineResults := AddWhenKeys(pipeline.when, {});
    var remainingResults := CollectStepKeys(pipeline);
    remainingResults := DeleteAll(remainingResults, pipelineResults);

    var env, pipelineEnv := ListKeys(pipelineResults, []);
    assert env == pipelineEnv;
    var remainingEnv;
    env, remainingEnv := ListKeys(remainingResults, env);
    DistinctConcat(pipelineEnv, remainingEnv);
    CollectedKeysNonEmpty(pipeline);
    result := PipelineEnvBundle(env, pipelineEnv, remainingEnv);
  }

  // ---------------------------------------------------------------------
  // MergeEnv

  /** One env map's say on a key: it replaces the value so far when it has
      the key and there is none yet or its priority is strictly lower. */
  function Merge(current: Option<Env>, env: map<string, Env>, key: string): Option<Env>
  {
    if key in env && (current.None? || env[key].priority < current.value.priority) then Some(env[key]) else current
  }

  /** The value MergeEnv ends with for a key, the maps taken in order. */
  function Best(key: string, envs: seq<map<string, Env>>): Option<Env>
  {
    if envs == [] then None else Merge(Best(key, envs[..|envs| - 1]), envs[|envs| - 1], key)
  }

  /** A key gets no merged value exactly when no map has it. */
  lemma {:induction false} BestNone(key: string, envs: seq<map<string, Env>>)
    ensures Best(key, envs).None? <==> forall i :: 0 <= i < |envs| ==> key !in envs[i]
  {
    if envs != [] {
      var init := envs[..|envs| - 1];
      BestNone(key, init);
      assert forall j :: 0 <= j < |init| ==> envs[j] == init[j];
    }
  }

  /** Map i holds the key with the lowest priority of all the maps, and
      every earlier map holding the key has a strictly higher one. */
  predicate LowestAt(key: string, envs: seq<map<string, Env>>, i: int)
  {
    && 0 <= i < |envs| && key in envs[i]
    && (forall j :: 0 <= j < |envs| && key in envs[j] ==> envs[i][key].priority <= envs[j][key].priority)
    && (forall j :: 0 <= j < i && key in envs[j] ==> envs[i][key].priority < envs[j][key].priority)
  }

  /** The merged value of a key is the value of the map with the lowest
      priority for it, the earliest such map winning ties; `i` is that map. */
  lemma {:induction false} BestIsLowest(key: string, envs: seq<map<string, Env>>) returns (i: int)
    requires Best(key, envs).Some?
    ensures LowestAt(key, envs, i) && Best(key, envs) == Some(envs[i][key])
  {
    var n := |envs| - 1;
    var init := envs[..n];
    assert forall j :: 0 <= j < n ==> envs[j] == init[j];
    if Best(key, init).Some? {
      var p := BestIsLowest(key, init);
      assert LowestAt(key, init, p);
      if key in envs[n] && envs[n][key].priority < init[p][key].priority {
        i := n;
      } else {
        i := p;
      }
    } else {
      BestNone(key, init);
      i := n;
    }
  }

  /** Merging the same map twice changes nothing the second time. */
  lemma MergeTwice(current: Option<Env>, env: map<string, Env>, key: string)
    ensures Merge(Merge(current, env, key), env, key) == Merge(current, env, key)
  {
  }

  datatype MergeError = MissingEnv(keys: seq<string>)

  /** The keys of `keys` that `merged` lacks, in order. */
  function MissingKeys(keys: seq<string>, merged: map<string, Env>): seq<string>
  {
    if keys == [] then []
    else
      var last := keys[|keys| - 1];
      MissingKeys(keys[..|keys| - 1], merged) + (if last in merged then [] else [last])
  }

  /** The missing keys are the keys the map lacks. */
  lemma {:induction false} MissingKeysMembers(keys: seq<string>, merged: map<string, Env>)
    ensures forall k :: k in MissingKeys(keys, merged) <==> k in keys && k !in merged
  {
    if keys != [] {
      var init := keys[..|keys| - 1];
      MissingKeysMembers(init, merged);
      assert keys == init + [keys[|keys| - 1]];
    }
  }

  /** The merged value of every non-empty key of `keys`. */
  function Merged(keys: seq<string>, envs: seq<map<string, Env>>): map<string, Env>
  {
    map k | k in keys && k != "" && Best(k, envs).Some? :: Best(k, envs).value
  }

  /** The value under a key, if any. */
  function Get(m: map<string, Env>, key: string): Option<Env>
  {
    if key in m then Some(m[key]) else None
  }

  /** A map that agrees with the merged map key by key is the merged map. */
  lemma MergedByEntries(result: map<string, Env>, keys: seq<string>, envs: seq<map<string, Env>>)
    requires forall k :: k in result ==> k in keys && k != ""
    requires forall k :: k in keys && k != "" ==> Get(result, k) == Best(k, envs)
    ensures result == Merged(keys, envs)
  {
    var expected := Merged(keys, envs);
    assert result.Keys == expected.Keys;
  }

  /** The loop over the keys for one non-empty env map. */
  method MergeMap(result: map<string, Env>, keys: seq<string>, env: map<string, Env>, ghost before: seq<map<string, Env>>)
    returns (updated: map<string, Env>)
    requires result == Merged(keys, before)
    ensures updated == Merged(keys, before + [env])
  {
    ghost var after := before + [env];
    assert after[..|before|] == before;
    updated := result;
    for j := 0 to |keys|
      invariant forall k :: k in updated ==> k in keys && k != ""
      invariant forall k :: k in keys && k != "" ==>
        Get(updated, k) == (if k in keys[..j] then Best(k, after) else Best(k, before))
    {
      var key := keys[j];
      assert keys[..j + 1] == keys[..j] + [key];
      if key != "" {
        var existingOk := key in updated;
        var value, ok := if key in env then env[key] else ZeroEnv, key in env;
        if ok && (!existingOk || value.priority < updated[key].priority) {
          updated := updated[key := value];
        }
        MergeTwice(Best(key, before), env, key);
      }
    }
    assert keys[..|keys|] == keys;
    MergedByEntries(updated, keys, after);
  }

  /** The loop collecting the keys without a merged value, in order. */
  method CollectMissing(keys: seq<string>, result: map<string, Env>) returns (missing: seq<string>)
    ensures missing == MissingKeys(keys, result)
  {
    missing := [];
    for j := 0 to |keys|
      invariant missing == MissingKeys(keys[..j], result)
    {
      assert keys[..j + 1][..j] == keys[..j];
      if keys[j] !in result {
        missing := missing + [keys[j]];
      }
    }
    assert keys[..|keys|] == keys;
  }

  /** MergeEnv: every non-empty key of `keys` gets its lowest-priority value
      (earliest map on ties); the keys left without a value, "" always among
      them when present, are reported in `keys` order. The merged map is
      also returned on the error. */
  method MergeEnv(keys: seq<string>, envs: seq<map<string, Env>>) returns (result: map<string, Env>, err: Option<MergeError>)
    ensures result == Merged(keys, envs)
    ensures err == (var missing := MissingKeys(keys, result);
      if missing == [] then None else Some(MissingEnv(missing)))
  {
    result := map[];
    for i := 0 to |envs|
      invariant result == Merged(keys, envs[..i])
    {
      var env := envs[i];
      assert envs[..i + 1] == envs[..i] + [env];
      if |env| > 0 {
        result := MergeMap(result, keys, env, envs[..i]);
      } else {
        MergedByEntries(result, keys, envs[..i + 1]);
      }
    }
    assert envs[..|envs|] == envs;

    var missing := CollectMissing(keys, result);
    if |missing| > 0 {
      err := Some(MissingEnv(missing));
      return;
    }
    err := None;
  }

  /** A key of `keys` is missing exactly when it is "" or no map has it. */
  lemma MissingIsUnfilled(keys: seq<string>, envs: seq<map<string, Env>>, k: string)
    requires k in keys
    ensures k in MissingKeys(keys, Merged(keys, envs)) <==> k == "" || forall i :: 0 <= i < |envs| ==> k !in envs[i]
  {
    BestNone(k, envs);
    MissingKeysMembers(keys, Merged(keys, envs));
  }
}

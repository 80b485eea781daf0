/** The condition rules of schema/condition.go: a condition lists literal,
    env, var and regular-expression values to include or exclude, and is
    checked against the fact stored under its key. */
module SchemaCondition {
  import opened Wrappers
  import opened Regex
  import opened SchemaTypes

  datatype Condition = Condition(
    includeText: seq<string>, excludeText: seq<string>,
    includeEnv: seq<string>, excludeEnv: seq<string>,
    includeVar: seq<string>, excludeVar: seq<string>,
    regexMatch: seq<string>, regexMismatch: seq<string>)
  {
    /** Whether the condition has no rule at all. */
    predicate Empty()
      ensures Empty() <==> this == NoCondition
    {
      |includeText| == 0 && |excludeText| == 0 &&
      |includeEnv| == 0 && |excludeEnv| == 0 &&
      |includeVar| == 0 && |excludeVar| == 0 &&
      |regexMatch| == 0 && |regexMismatch| == 0
    }
  }

  /** Go's zero Condition, what a lookup of a missing key reads. */
  const NoCondition: Condition := Condition([], [], [], [], [], [], [], [])

  /** The errors a condition check reports: a pattern that does not compile. */
  datatype ConditionError =
    | MatchCompileFailed(pattern: string)
    | MismatchCompileFailed(pattern: string)

  /** Some value of `values` is one of the fact's strings. */
  predicate AnyIn(values: seq<string>, fact: Fact)
  {
    exists v :: v in values && v in fact
  }

  /** Some key of `keys` names an env whose value is one of the fact's strings. */
  predicate AnyEnvIn(keys: seq<string>, env: map<string, Env>, fact: Fact)
  {
    exists k :: k in keys && k in env && env[k].value in fact
  }

  /** Some key of `keys` names a var whose value is one of the fact's strings. */
  predicate AnyVarIn(keys: seq<string>, vars: map<string, Var>, fact: Fact)
  {
    exists k :: k in keys && k in vars && vars[k] in fact
  }

  predicate AllCompile(engine: Engine, patterns: seq<string>)
  {
    forall p :: p in patterns ==> engine.compiles(p)
  }

  /** Some pattern matches some string of the fact. */
  predicate AnyMatch(engine: Engine, patterns: seq<string>, fact: Fact)
  {
    exists p, f :: p in patterns && f in fact && engine.matches(p, f)
  }

  /** Scanning the patterns in order: the first one that does not compile
      before one matches is an error (Err with that pattern); otherwise
      whether one matched. */
  function RegexScan(engine: Engine, patterns: seq<string>, fact: Fact): (r: Result<bool, string>)
    ensures r.Err? ==> r.error in patterns && !engine.compiles(r.error)
    ensures r == Ok(true) ==> AnyMatch(engine, patterns, fact)
    ensures r == Ok(false) ==> AllCompile(engine, patterns) && !AnyMatch(engine, patterns, fact)
    ensures AllCompile(engine, patterns) ==> r == Ok(AnyMatch(engine, patterns, fact))
  {
    if patterns == [] then Ok(false)
    else if !engine.compiles(patterns[0]) then Err(patterns[0])
    else if exists f :: f in fact && engine.matches(patterns[0], f) then Ok(true)
    else
      var r := RegexScan(engine, patterns[1..], fact);
      assert forall p :: p in patterns ==> p == patterns[0] || p in patterns[1..];
      r
  }

  /** A pattern that does not compile, reached after patterns that all
      compile and match nothing, is the scan's error. */
  lemma {:induction false} RegexScanFirstFailure(engine: Engine, patterns: seq<string>, fact: Fact, i: nat)
    requires i < |patterns| && !engine.compiles(patterns[i])
    requires forall j :: 0 <= j < i ==> engine.compiles(patterns[j])
    requires forall j, f :: 0 <= j < i && f in fact ==> !engine.matches(patterns[j], f)
    ensures RegexScan(engine, patterns, fact) == Err(patterns[i])
  {
    if i > 0 {
      assert !exists f :: f in fact && engine.matches(patterns[0], f);
      RegexScanFirstFailure(engine, patterns[1..], fact, i - 1);
    }
  }

  /** The condition has a rule of the include kind. */
  predicate HasIncludes(c: Condition)
  {
    |c.includeText| > 0 || |c.includeEnv| > 0 || |c.includeVar| > 0 || |c.regexMatch| > 0
  }

  /** Some include-kind rule holds for the fact. */
  predicate IncludeHit(c: Condition, fact: Fact, env: map<string, Env>, vars: map<string, Var>, engine: Engine)
  {
    AnyIn(c.includeText, fact) || AnyEnvIn(c.includeEnv, env, fact) ||
    AnyVarIn(c.includeVar, vars, fact) || AnyMatch(engine, c.regexMatch, fact)
  }

  /** Some exclude-kind rule holds for the fact. */
  predicate ExcludeHit(c: Condition, fact: Fact, env: map<string, Env>, vars: map<string, Var>, engine: Engine)
  {
    AnyIn(c.excludeText, fact) || AnyEnvIn(c.excludeEnv, env, fact) ||
    AnyVarIn(c.excludeVar, vars, fact) || AnyMatch(engine, c.regexMismatch, fact)
  }

  /** The include half of checkFact: whether an include-kind rule holds, the
      literal lists tried first; the failing pattern if a match pattern that
      is reached does not compile. */
  function IncludeScan(c: Condition, fact: Fact, env: map<string, Env>, vars: map<string, Var>, engine: Engine): Result<bool, string>
  {
    if AnyIn(c.includeText, fact) || AnyEnvIn(c.includeEnv, env, fact) || AnyVarIn(c.includeVar, vars, fact) then Ok(true)
    else RegexScan(engine, c.regexMatch, fact)
  }

  /** The exclude half of checkFact: whether an exclude-kind rule holds, the
      literal lists tried first; the failing pattern if a mismatch pattern
      that is reached does not compile. */
  function ExcludeScan(c: Condition, fact: Fact, env: map<string, Env>, vars: map<string, Var>, engine: Engine): Result<bool, string>
  {
    if AnyIn(c.excludeText, fact) || AnyEnvIn(c.excludeEnv, env, fact) || AnyVarIn(c.excludeVar, vars, fact) then Ok(true)
    else RegexScan(engine, c.regexMismatch, fact)
  }

  /** What checkFact decides for one fact: Ok(pass) or the error of the
      first pattern reached that does not compile. */
  function FactOutcome(c: Condition, fact: Fact, env: map<string, Env>, vars: map<string, Var>, engine: Engine): (r: Result<bool, ConditionError>)
    // an empty fact passes
    ensures fact == [] ==> r == Ok(true)
    // an error names a pattern of the matching list that does not compile
    ensures r.Err? && r.error.MatchCompileFailed? ==> r.error.pattern in c.regexMatch && !engine.compiles(r.error.pattern)
    ensures r.Err? && r.error.MismatchCompileFailed? ==> r.error.pattern in c.regexMismatch && !engine.compiles(r.error.pattern)
    // include rules none of which holds, or an exclude rule that holds, fail the check
    ensures fact != [] && HasIncludes(c) && !IncludeHit(c, fact, env, vars, engine) ==> r != Ok(true)
    ensures fact != [] && ExcludeHit(c, fact, env, vars, engine) ==> r != Ok(true)
    // with every pattern valid: fact is empty OR ((includes are empty OR one holds) AND no exclude holds)
    ensures AllCompile(engine, c.regexMatch) && AllCompile(engine, c.regexMismatch) ==>
      r == Ok(fact == [] || ((!HasIncludes(c) || IncludeHit(c, fact, env, vars, engine)) && !ExcludeHit(c, fact, env, vars, engine)))
  {
    if fact == [] then Ok(true)
    else
      var matched := IncludeScan(c, fact, env, vars, engine);
      if matched.Err? then Err(MatchCompileFailed(matched.error))
      else if HasIncludes(c) && !matched.value then Ok(false)
      else
        var excluded := ExcludeScan(c, fact, env, vars, engine);
        if excluded.Err? then Err(MismatchCompileFailed(excluded.error))
        else Ok(!excluded.value)
  }

  /** A match pattern that does not compile and is reached (no literal
      include holds, earlier patterns match nothing) makes the check fail
      with that pattern's error. */
  lemma MatchErrorReached(c: Condition, fact: Fact, env: map<string, Env>, vars: map<string, Var>, engine: Engine, i: nat)
    requires fact != []
    requires !AnyIn(c.includeText, fact) && !AnyEnvIn(c.includeEnv, env, fact) && !AnyVarIn(c.includeVar, vars, fact)
    requires i < |c.regexMatch| && !engine.compiles(c.regexMatch[i])
    requires forall j :: 0 <= j < i ==> engine.compiles(c.regexMatch[j])
    requires forall j, f :: 0 <= j < i && f in fact ==> !engine.matches(c.regexMatch[j], f)
    ensures FactOutcome(c, fact, env, vars, engine) == Err(MatchCompileFailed(c.regexMatch[i]))
  {
    RegexScanFirstFailure(engine, c.regexMatch, fact, i);
  }

  /** A mismatch pattern that does not compile and is reached (the include
      rules pass, no literal exclude holds, earlier patterns match nothing)
      makes the check fail with that pattern's error. */
  lemma MismatchErrorReached(c: Condition, fact: Fact, env: map<string, Env>, vars: map<string, Var>, engine: Engine, i: nat)
    requires fact != [] && IncludeScan(c, fact, env, vars, engine).Ok?
    requires HasIncludes(c) ==> IncludeScan(c, fact, env, vars, engine) == Ok(true)
    requires !AnyIn(c.excludeText, fact) && !AnyEnvIn(c.excludeEnv, env, fact) && !AnyVarIn(c.excludeVar, vars, fact)
    requires i < |c.regexMismatch| && !engine.compiles(c.regexMismatch[i])
    requires forall j :: 0 <= j < i ==> engine.compiles(c.regexMismatch[j])
    requires forall j, f :: 0 <= j < i && f in fact ==> !engine.matches(c.regexMismatch[j], f)
    ensures FactOutcome(c, fact, env, vars, engine) == Err(MismatchCompileFailed(c.regexMismatch[i]))
  {
    RegexScanFirstFailure(engine, c.regexMismatch, fact, i);
  }

  /** The fact a key is checked against: the value of the env X for a key
      "env X", the value of the var X for "var X" (X non-empty; a missing
      one reads as ""), else the fact stored under the key (none if absent). */
  function FactFor(key: string, facts: map<string, Fact>, env: map<string, Env>, vars: map<string, Var>): Fact
  {
    if HasPrefix(key, ENV_PREFIX) && |key| > |ENV_PREFIX| then [EnvValue(env, key[|ENV_PREFIX|..])]
    else if HasPrefix(key, VAR_PREFIX) && |key| > |VAR_PREFIX| then [VarValue(vars, key[|VAR_PREFIX|..])]
    else if key in facts then facts[key]
    else []
  }

  /** What Condition.Check decides for the condition under `key`. */
  function Outcome(c: Condition, key: string, facts: map<string, Fact>, env: map<string, Env>, vars: map<string, Var>, engine: Engine): (r: Result<bool, ConditionError>)
  {
    if c.Empty() then Ok(true) else FactOutcome(c, FactFor(key, facts, env, vars), env, vars, engine)
  }

  /** The key dispatch of Condition.Check: "env X" and "var X" with X
      non-empty select the one-string fact holding that env's or var's
      value; any other key selects its stored fact, and a key with no
      fact passes every condition. */
  lemma KeyedFacts(c: Condition, x: string, key: string, facts: map<string, Fact>, env: map<string, Env>, vars: map<string, Var>, engine: Engine)
    ensures x != "" ==> FactFor(ENV_PREFIX + x, facts, env, vars) == [EnvValue(env, x)]
    ensures x != "" ==> FactFor(VAR_PREFIX + x, facts, env, vars) == [VarValue(vars, x)]
    ensures !HasPrefix(key, ENV_PREFIX) && !HasPrefix(key, VAR_PREFIX) ==>
      FactFor(key, facts, env, vars) == if key in facts then facts[key] else []
    ensures FactFor(key, facts, env, vars) == [] ==> Outcome(c, key, facts, env, vars, engine) == Ok(true)
  {
    if x != "" {
      assert (ENV_PREFIX + x)[..|ENV_PREFIX|] == ENV_PREFIX && (ENV_PREFIX + x)[|ENV_PREFIX|..] == x;
      assert (VAR_PREFIX + x)[..|VAR_PREFIX|] == VAR_PREFIX && (VAR_PREFIX + x)[|VAR_PREFIX|..] == x;
      assert (VAR_PREFIX + x)[0] != ENV_PREFIX[0];
    }
  }

  /** The Go error value of an outcome. */
  function ErrorOf(r: Result<bool, ConditionError>): Option<ConditionError>
  {
    if r.Err? then Some(r.error) else None
  }

  /** The literal loop: whether some value is in the fact's set of strings. */
  method ContainsAny(values: seq<string>, factMap: set<string>) returns (found: bool)
    ensures found <==> exists v :: v in values && v in factMap
  {
    found := false;
    for i := 0 to |values|
      invariant forall j :: 0 <= j < i ==> values[j] !in factMap
    {
      if values[i] in factMap {
        return true;
      }
    }
  }

  /** The env loop: whether some key names an env whose value is in the set. */
  method ContainsAnyEnv(keys: seq<string>, env: map<string, Env>, factMap: set<string>) returns (found: bool)
    ensures found <==> exists k :: k in keys && k in env && env[k].value in factMap
  {
    found := false;
    for i := 0 to |keys|
      invariant forall j :: 0 <= j < i ==> !(keys[j] in env && env[keys[j]].value in factMap)
    {
      if keys[i] in env && env[keys[i]].value in factMap {
        return true;
      }
    }
  }

  /** The var loop: whether some key names a var whose value is in the set. */
  method ContainsAnyVar(keys: seq<string>, vars: map<string, Var>, factMap: set<string>) returns (found: bool)
    ensures found <==> exists k :: k in keys && k in vars && vars[k] in factMap
  {
    found := false;
    for i := 0 to |keys|
      invariant forall j :: 0 <= j < i ==> !(keys[j] in vars && vars[keys[j]] in factMap)
    {
      if keys[i] in vars && vars[keys[i]] in factMap {
        return true;
      }
    }
  }

  /** The regular-expression loops: compile each pattern in order and try it
      on every string of the fact, stopping at the first match or at the
      first pattern that does not compile. */
  method ScanRegex(engine: Engine, patterns: seq<string>, fact: Fact) returns (found: bool, failed: Option<string>)
    ensures failed.Some? ==> !found && RegexScan(engine, patterns, fact) == Err(failed.value)
    ensures failed.None? ==> RegexScan(engine, patterns, fact) == Ok(found)
  {
    found, failed := false, None;
    var i := 0;
    while i < |patterns|
      invariant 0 <= i <= |patterns|
      invariant RegexScan(engine, patterns, fact) == RegexScan(engine, patterns[i..], fact)
    {
      var pattern := patterns[i];
      if !engine.compiles(pattern) {
        return false, Some(pattern);
      }
      var j := 0;
      while j < |fact|
        invariant 0 <= j <= |fact|
        invariant forall k :: 0 <= k < j ==> !engine.matches(pattern, fact[k])
      {
        if engine.matches(pattern, fact[j]) {
          return true, None;
        }
        j := j + 1;
      }
      assert patterns[i..][1..] == patterns[i + 1..];
      i := i + 1;
    }
  }

  /** The loop filling checkFact's factMap: the set of the fact's strings. */
  method FactMap(fact: Fact) returns (factMap: set<string>)
    ensures forall s :: s in factMap <==> s in fact
  {
    factMap := {};
    for i := 0 to |fact|
      invariant forall s :: s in factMap <==> s in fact[..i]
    {
      assert fact[..i + 1] == fact[..i] + [fact[i]];
      factMap := factMap + {fact[i]};
    }
    assert fact[..|fact|] == fact;
  }

  /** The include loops of checkFact, in the order Go runs them, each run
      only while nothing was found. */
  method CheckIncludes(c: Condition, fact: Fact, factMap: set<string>, env: map<string, Env>, vars: map<string, Var>, engine: Engine)
    returns (hasRules: bool, found: bool, failed: Option<string>)
    requires forall s :: s in factMap <==> s in fact
    ensures hasRules == HasIncludes(c)
    ensures failed.Some? ==> !found && IncludeScan(c, fact, env, vars, engine) == Err(failed.value)
    ensures failed.None? ==> IncludeScan(c, fact, env, vars, engine) == Ok(found)
  {
    hasRules, found, failed := false, false, None;
    if |c.includeText| > 0 && !found {
      hasRules := true;
      found := ContainsAny(c.includeText, factMap);
    }
    if |c.includeEnv| > 0 && !found {
      hasRules := true;
      found := ContainsAnyEnv(c.includeEnv, env, factMap);
    }
    if |c.includeVar| > 0 && !found {
      hasRules := true;
      found := ContainsAnyVar(c.includeVar, vars, factMap);
    }
    assert found <==> AnyIn(c.includeText, fact) || AnyEnvIn(c.includeEnv, env, fact) || AnyVarIn(c.includeVar, vars, fact);
    if |c.regexMatch| > 0 && !found {
      hasRules := true;
      found, failed := ScanRegex(engine, c.regexMatch, fact);
    }
  }

  /** The exclude loops of checkFact, in the order Go runs them, returning
      at the first hit. */
  method CheckExcludes(c: Condition, fact: Fact, factMap: set<string>, env: map<string, Env>, vars: map<string, Var>, engine: Engine)
    returns (hit: bool, failed: Option<string>)
    requires |fact| > 0
    requires forall s :: s in factMap <==> s in fact
    ensures failed.Some? ==> !hit && ExcludeScan(c, fact, env, vars, engine) == Err(failed.value)
    ensures failed.None? ==> ExcludeScan(c, fact, env, vars, engine) == Ok(hit)
  {
    hit, failed := false, None;
    if |c.excludeText| > 0 && |fact| > 0 {
      hit := ContainsAny(c.excludeText, factMap);
      if hit {
        return;
      }
    }
    if |c.excludeEnv| > 0 && |fact| > 0 {
      hit := ContainsAnyEnv(c.excludeEnv, env, factMap);
      if hit {
        return;
      }
    }
    if |c.excludeVar| > 0 && |fact| > 0 {
      hit := ContainsAnyVar(c.excludeVar, vars, factMap);
      if hit {
        return;
      }
    }
    if |c.regexMismatch| > 0 && |fact| > 0 {
      hit, failed := ScanRegex(engine, c.regexMismatch, fact);
    }
  }

  /** checkFact */
  method CheckFact(c: Condition, fact: Fact, env: map<string, Env>, vars: map<string, Var>, engine: Engine)
    returns (ok: bool, err: Option<ConditionError>)
    ensures ok <==> FactOutcome(c, fact, env, vars, engine) == Ok(true)
    ensures err == ErrorOf(FactOutcome(c, fact, env, vars, engine))
  {
    if |fact| == 0 {
      return true, None;
    }
    var factMap := FactMap(fact);

    // check includes
    var hasRules, found, failed := CheckIncludes(c, fact, factMap, env, vars, engine);
    if failed.Some? {
      return false, Some(MatchCompileFailed(failed.value));
    }
    if hasRules && !found {
      return false, None;
    }

    // check excludes
    var hit;
    hit, failed := CheckExcludes(c, fact, factMap, env, vars, engine);
    if failed.Some? {
      return false, Some(MismatchCompileFailed(failed.value));
    }
    if hit {
      return false, None;
    }
    return true, None;
  }

  /** Condition.Check: an empty condition passes; otherwise the fact the key
      selects is checked. */
  method Check(c: Condition, key: string, facts: map<string, Fact>, env: map<string, Env>, vars: map<string, Var>, engine: Engine)
    returns (ok: bool, err: Option<ConditionError>)
    ensures c.Empty() ==> ok && err == None
    ensures ok <==> Outcome(c, key, facts, env, vars, engine) == Ok(true)
    ensures err == ErrorOf(Outcome(c, key, facts, env, vars, engine))
  {
    if c.Empty() {
      return true, None;
    }
    if HasPrefix(key, ENV_PREFIX) {
      var envKey := key[|ENV_PREFIX|..];
      if envKey != "" {
        ok, err := CheckFact(c, [EnvValue(env, envKey)], env, vars, engine);
        return;
      }
    }
    if HasPrefix(key, VAR_PREFIX) {
      var varKey := key[|VAR_PREFIX|..];
      if varKey != "" {
        ok, err := CheckFact(c, [VarValue(vars, varKey)], env, vars, engine);
        return;
      }
    }
    ok, err := CheckFact(c, if key in facts then facts[key] else [], env, vars, engine);
  }
}

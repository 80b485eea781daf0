/** The condition-map helpers of conditions/conditions.go: filling in default
    conditions, and checking that every condition of a map passes. Go map
    iteration order is arbitrary; the loops pick the next key in some order. */
module Conditions {
  import opened Wrappers
  import opened Regex
  import opened SchemaTypes
  import SchemaCondition

  type Condition = SchemaCondition.Condition

  /** The condition under key, Go's zero condition when the key is absent. */
  function Lookup(conditions: map<string, Condition>, key: string): Condition
  {
    if key in conditions then conditions[key] else SchemaCondition.NoCondition
  }

  /** The map after all the defaults were applied: a non-empty default key
      whose condition is absent or empty takes the default. */
  function Defaulted(conditions: map<string, Condition>, defaults: map<string, Condition>): map<string, Condition>
  {
    map k | k in conditions.Keys + (defaults.Keys - {""}) ::
      if k in defaults && k != "" && Lookup(conditions, k).Empty() then defaults[k] else conditions[k]
  }

  /** A map that agrees with the defaulted map key by key is the defaulted map. */
  lemma DefaultedByEntries(updated: map<string, Condition>, conditions: map<string, Condition>, defaults: map<string, Condition>)
    requires forall k :: k in updated <==> k in conditions || (k in defaults && k != "")
    requires forall k :: k in updated ==>
      updated[k] == (if k in defaults && k != "" && Lookup(conditions, k).Empty() then defaults[k] else conditions[k])
    ensures updated == Defaulted(conditions, defaults)
  {
    var expected := Defaulted(conditions, defaults);
    assert updated.Keys == expected.Keys;
  }

  /** The entries of the defaulted map: a non-empty default key whose
      condition is absent or empty takes the default, every other entry
      stays, and no other key appears. */
  lemma DefaultedEntries(conditions: map<string, Condition>, defaults: map<string, Condition>)
    ensures var updated := Defaulted(conditions, defaults);
      && (forall k :: k in updated <==> k in conditions || (k in defaults && k != ""))
      && (forall k :: k in defaults && k != "" && Lookup(conditions, k).Empty() ==> updated[k] == defaults[k])
      && (forall k :: k in conditions && !(k in defaults && k != "" && conditions[k].Empty()) ==> updated[k] == conditions[k])
  {
  }

  /** ApplyDefaults: a nil map (None) becomes an empty one, then every
      non-empty default key whose condition is absent or empty takes the
      default; nothing else changes. */
  method ApplyDefaults(conditions: Option<map<string, Condition>>, defaults: map<string, Condition>)
    returns (updated: map<string, Condition>)
    ensures updated == Defaulted(if conditions.Some? then conditions.value else map[], defaults)
  {
    var base := if conditions.Some? then conditions.value else map[];
    updated := base;
    var todo := defaults.Keys;
    while todo != {}
      invariant todo <= defaults.Keys
      invariant forall k :: k in updated <==> k in base || (k in defaults && k !in todo && k != "")
      invariant forall k :: k in updated ==>
        updated[k] == (if k in defaults && k !in todo && k != "" && Lookup(base, k).Empty() then defaults[k] else base[k])
      decreases |todo|
    {
      var key :| key in todo;
      if key != "" {
        if Lookup(updated, key).Empty() {
          updated := updated[key := defaults[key]];
        }
      }
      todo := todo - {key};
    }
    DefaultedByEntries(updated, base, defaults);
  }

  /** Applying the defaults a second time changes nothing. */
  lemma DefaultedIdempotent(conditions: map<string, Condition>, defaults: map<string, Condition>)
    ensures Defaulted(Defaulted(conditions, defaults), defaults) == Defaulted(conditions, defaults)
  {
    var once := Defaulted(conditions, defaults);
    var twice := Defaulted(once, defaults);
    forall k | k in twice
      ensures k in once && twice[k] == once[k]
    {
      if k in defaults && k != "" && Lookup(conditions, k).Empty() {
        assert once[k] == defaults[k];
      }
    }
  }

  /** Check: every condition under a non-empty key must pass; the first one
      (in some order) that fails or errs decides the result. */
  method Check(facts: map<string, Fact>, conditions: map<string, Condition>, env: map<string, Env>, vars: map<string, Var>, engine: Engine)
    returns (ok: bool, err: Option<SchemaCondition.ConditionError>)
    ensures ok <==> forall k :: k in conditions && k != "" ==>
      SchemaCondition.Outcome(conditions[k], k, facts, env, vars, engine) == Ok(true)
    ensures ok ==> err == None
    ensures !ok ==> exists k :: (k in conditions && k != "" &&
      SchemaCondition.Outcome(conditions[k], k, facts, env, vars, engine) != Ok(true) &&
      err == SchemaCondition.ErrorOf(SchemaCondition.Outcome(conditions[k], k, facts, env, vars, engine)))
  {
    var todo := conditions.Keys;
    while todo != {}
      invariant todo <= conditions.Keys
      invariant forall k :: k in conditions && k !in todo && k != "" ==>
        SchemaCondition.Outcome(conditions[k], k, facts, env, vars, engine) == Ok(true)
      decreases |todo|
    {
      var key :| key in todo;
      if key != "" {
        var passed, failure := SchemaCondition.Check(conditions[key], key, facts, env, vars, engine);
        if !passed || failure != None {
          return false, failure;
        }
      }
      todo := todo - {key};
    }
    return true, None;
  }
}

/** The run configuration of schema/runconfig.go: the env keys a
    configuration refers to, and resolving its raw parameters against the
    known envs and vars into plain strings, collecting the keys that are
    missing. shlex.Split is a function supplied by the caller. */
module SchemaRunConfig {
  import opened Wrappers
  import opened Regex
  import opened SchemaTypes
  import Replacements
  import opened Seqs

  datatype RunConfig = RunConfig(
    task: string,
    command: Value,
    input: Value,
    directory: Value,
    user: Value,
    params: map<string, Value>)

  /** getEnv: the env key a parameter refers to, if it names a non-empty one.
      Only a raw map with a string "env" entry and an EnvParam refer to envs. */
  function EnvKey(param: Value): (key: Option<string>)
    ensures key.Some? ==> key.value != ""
    ensures key.Some? ==>
      (param.Dict? && "env" in param.entries && param.entries["env"] == Str(key.value)) ||
      (param.EnvRef? && param.envParam.env == key.value)
  {
    match param
    case Dict(entries) =>
      if "env" in entries && entries["env"].Str? && entries["env"].s != "" then Some(entries["env"].s) else None
    case EnvRef(p) =>
      if p.env != "" then Some(p.env) else None
    case _ => None
  }

  /** The env key of a parameter as a list of at most one key. */
  function KeyList(param: Value): seq<string>
  {
    if EnvKey(param).Some? then [EnvKey(param).value] else []
  }

  /** The env keys of a list of parameters, in order. */
  function KeysOf(params: seq<Value>): seq<string>
  {
    if params == [] then [] else KeyList(params[0]) + KeysOf(params[1..])
  }

  /** KeysOf lists exactly the env keys of the parameters. */
  lemma {:induction false} KeysOfMembers(params: seq<Value>)
    ensures forall k :: k in KeysOf(params) <==> exists i :: 0 <= i < |params| && EnvKey(params[i]) == Some(k)
  {
    if params != [] {
      KeysOfMembers(params[1..]);
      assert forall i :: 0 < i < |params| ==> params[i] == params[1..][i - 1];
      forall k | k in KeysOf(params)
        ensures exists i :: 0 <= i < |params| && EnvKey(params[i]) == Some(k)
      {
        if k !in KeyList(params[0]) {
          var i :| 0 <= i < |params[1..]| && EnvKey(params[1..][i]) == Some(k);
          assert params[i + 1] == params[1..][i];
        }
      }
    }
  }

  /** The keys of the four fields, one after the other. */
  lemma KeysOfFields(config: RunConfig)
    ensures KeysOf(Fields(config)) ==
      KeyList(config.command) + KeyList(config.input) + KeyList(config.directory) + KeyList(config.user)
  {
    var f := Fields(config);
    assert f[1..] == [config.input, config.directory, config.user];
    assert f[1..][1..] == [config.directory, config.user];
    assert f[1..][1..][1..] == [config.user];
    assert f[1..][1..][1..][1..] == [];
    assert KeysOf([config.user]) == KeyList(config.user);
    assert KeysOf([config.directory, config.user]) == KeyList(config.directory) + KeyList(config.user);
    assert KeysOf([config.input, config.directory, config.user]) ==
      KeyList(config.input) + (KeyList(config.directory) + KeyList(config.user));
  }

  /** The fixed fields of a configuration, in the order GetEnv visits them. */
  function Fields(config: RunConfig): seq<Value>
  {
    [config.command, config.input, config.directory, config.user]
  }

  /** The env keys of the parameters under the keys of `order`, in that order. */
  function KeysIn(params: map<string, Value>, order: seq<string>): seq<string>
    requires forall i :: 0 <= i < |order| ==> order[i] in params
  {
    if order == [] then []
    else KeysIn(params, order[..|order| - 1]) + KeyList(params[order[|order| - 1]])
  }

  /** The env keys a configuration refers to, as a set. */
  function ConfigEnvKeys(config: RunConfig): set<string>
  {
    (set k | k in KeysOf(Fields(config))) +
    (set p | p in config.params && EnvKey(config.params[p]).Some? :: EnvKey(config.params[p]).value)
  }

  /** One more key in `order` appends that parameter's env key. */
  lemma KeysInSnoc(params: map<string, Value>, order: seq<string>, k: string)
    requires forall i :: 0 <= i < |order| ==> order[i] in params
    requires k in params
    ensures KeysIn(params, order + [k]) == KeysIn(params, order) + KeyList(params[k])
  {
    assert (order + [k])[..|order|] == order;
  }

  /** KeysIn lists the env keys of the parameters under the keys of `order`. */
  lemma {:induction false} KeysInMembers(params: map<string, Value>, order: seq<string>)
    requires forall i :: 0 <= i < |order| ==> order[i] in params
    ensures forall k :: k in KeysIn(params, order) <==>
      exists p :: p in order && EnvKey(params[p]) == Some(k)
  {
    if order != [] {
      var init := order[..|order| - 1];
      KeysInMembers(params, init);
      assert forall p :: p in order <==> p in init || p == order[|order| - 1];
    }
  }

  /** RunConfig.GetEnv: the env keys of Command, Input, Directory and User,
      then those of the parameters in some order (`order`, a permutation of
      the parameter keys); every listed key is non-empty. */
  method GetEnv(config: RunConfig) returns (keys: seq<string>, ghost order: seq<string>)
    ensures forall i :: 0 <= i < |order| ==> order[i] in config.params
    ensures forall k :: k in config.params ==> k in order
    ensures forall i, j :: 0 <= i < j < |order| ==> order[i] != order[j]
    ensures keys == KeysOf(Fields(config)) + KeysIn(config.params, order)
    ensures forall k :: k in keys <==> k in ConfigEnvKeys(config)
    ensures forall k :: k in keys ==> k != ""
  {
    keys := FieldEnv(config);
    ghost var fieldKeys := keys;

    order := [];
    var todo := config.params.Keys;
    while todo != {}
      invariant todo <= config.params.Keys
      invariant forall i :: 0 <= i < |order| ==> order[i] in config.params && order[i] !in todo
      invariant forall k :: k in config.params ==> k in order || k in todo
      invariant forall i, j :: 0 <= i < j < |order| ==> order[i] != order[j]
      invariant keys == fieldKeys + KeysIn(config.params, order)
      decreases |todo|
    {
      var k :| k in todo;
      KeysInSnoc(config.params, order, k);
      ghost var before := keys;
      var key := EnvKey(config.params[k]);
      if key.Some? {
        keys := keys + [key.value];
      }
      assert keys == before + KeyList(config.params[k]);
      Assoc(fieldKeys, KeysIn(config.params, order), KeyList(config.params[k]));
      order := order + [k];
      todo := todo - {k};
    }
    ListedEnvKeys(config, order);
  }

  /** The first half of GetEnv: the keys of Command, Input, Directory and User. */
  method FieldEnv(config: RunConfig) returns (keys: seq<string>)
    ensures keys == KeysOf(Fields(config))
  {
    keys := [];
    var key := EnvKey(config.command);
    if key.Some? {
      keys := keys + [key.value];
    }
    assert keys == KeyList(config.command);
    key := EnvKey(config.input);
    if key.Some? {
      keys := keys + [key.value];
    }
    assert keys == KeyList(config.command) + KeyList(config.input);
    key := EnvKey(config.directory);
    if key.Some? {
      keys := keys + [key.value];
    }
    assert keys == KeyList(config.command) + KeyList(config.input) + KeyList(config.directory);
    key := EnvKey(config.user);
    if key.Some? {
      keys := keys + [key.value];
    }
    KeysOfFields(config);
  }

  /** The keys GetEnv lists, over any permutation of the parameter keys, are
      the env keys the configuration refers to, none of them empty. */
  lemma ListedEnvKeys(config: RunConfig, order: seq<string>)
    requires forall i :: 0 <= i < |order| ==> order[i] in config.params
    requires forall k :: k in config.params ==> k in order
    ensures var keys := KeysOf(Fields(config)) + KeysIn(config.params, order);
      && (forall k :: k in keys <==> k in ConfigEnvKeys(config))
      && (forall k :: k in keys ==> k != "")
  {
    var fieldKeys := KeysOf(Fields(config));
    var paramKeys := KeysIn(config.params, order);
    var paramSet := set p | p in config.params && EnvKey(config.params[p]).Some? :: EnvKey(config.params[p]).value;
    KeysOfMembers(Fields(config));
    KeysInMembers(config.params, order);
    forall k | k in paramKeys
      ensures k in paramSet && k != ""
    {
      var p :| p in order && EnvKey(config.params[p]) == Some(k);
    }
    forall k | k in paramSet
      ensures k in paramKeys
    {
      var p :| p in config.params && EnvKey(config.params[p]).Some? && EnvKey(config.params[p]).value == k;
      assert p in order;
    }
    forall k | k in fieldKeys
      ensures k != ""
    {
      var i :| 0 <= i < |Fields(config)| && EnvKey(Fields(config)[i]) == Some(k);
    }
  }

  // ---------------------------------------------------------------------
  // Resolving

  /** The field whose resolution failed. */
  datatype Field = CommandField | InputField | DirectoryField | UserField | ParamField(key: string)

  datatype ResolveError =
    | EnvNotString(rawEnv: Value)                 // "env must be a string"
    | VarNotString(rawVar: Value)                 // "var must be a string"
    | ReplaceNotString(rawReplace: Value)         // "replace may only contain strings"
    | ReplaceFailed(replaceError: Replacements.ReplaceError)
    | UnexpectedMap(entries: map<string, Value>)  // a raw map with neither "env" nor "var"
    | UnexpectedValue(raw: Value)                 // a parameter of another type
    | CommandNotString(rawArg: Value)             // "command may only contain strings"
    | SplitFailed(command: string)                // shlex.Split rejected the command
    | InvalidField(field: Field, cause: ResolveError)

  /** What the resolver reads besides the parameter: the known envs and vars,
      the regular-expression engine of the replacements and shlex.Split. */
  datatype Sources = Sources(
    env: map<string, Env>,
    vars: map<string, Var>,
    engine: Engine,
    split: string -> Option<seq<string>>)

  /** The result of resolving one parameter or command, with the keys the
      resolver appends to its unresolved lists on the way. */
  datatype Resolution<T> = Resolution(
    value: T, found: bool, err: Option<ResolveError>,
    missingEnv: seq<string>, missingVars: seq<string>)

  /** The strings of a []any, or the first element that is not a string. */
  function AllStrings(elements: seq<Value>): (r: Result<seq<string>, Value>)
    ensures r.Ok? ==> |r.value| == |elements| && forall i :: 0 <= i < |elements| ==> elements[i] == Str(r.value[i])
    ensures r.Err? ==> r.error in elements && !r.error.Str?
    ensures r.Err? <==> exists i :: 0 <= i < |elements| && !elements[i].Str?
  {
    if elements == [] then Ok([])
    else if !elements[0].Str? then Err(elements[0])
    else
      match AllStrings(elements[1..])
      case Ok(rest) => Ok([elements[0].s] + rest)
      case Err(bad) => Err(bad)
  }

  /** Elements that are all strings convert to those strings. */
  lemma {:induction false} AllStringsOk(elements: seq<Value>, strings: seq<string>)
    requires |strings| == |elements|
    requires forall j :: 0 <= j < |elements| ==> elements[j] == Str(strings[j])
    ensures AllStrings(elements) == Ok(strings)
  {
    if elements != [] {
      AllStringsOk(elements[1..], strings[1..]);
      assert strings == [strings[0]] + strings[1..];
    }
  }

  /** The first element that is not a string is the error. */
  lemma {:induction false} AllStringsFirstBad(elements: seq<Value>, i: nat)
    requires i < |elements| && !elements[i].Str?
    requires forall j :: 0 <= j < i ==> elements[j].Str?
    ensures AllStrings(elements) == Err(elements[i])
  {
    if i > 0 {
      AllStringsFirstBad(elements[1..], i - 1);
    }
  }

  /** The replacement expressions of a raw map: its "replace" entry if that
      is a []any (absent or of another type, none), which must hold strings. */
  function ReplaceList(entries: map<string, Value>): Result<seq<string>, Value>
  {
    if "replace" in entries && entries["replace"].List? then AllStrings(entries["replace"].elements)
    else Ok([])
  }

  /** A found value passed through the replacement expressions. */
  function Replaced(s: Sources, value: string, expressions: seq<string>): Resolution<string>
  {
    match Replacements.ApplyAll(s.engine, value, expressions)
    case Ok(replaced) => Resolution(replaced, true, None, [], [])
    case Err(e) => Resolution("", true, Some(ReplaceFailed(e)), [], [])
  }

  /** The env entry of a raw map whose "env" entry is not nil. */
  function ResolveEnvEntry(s: Sources, entries: map<string, Value>, rawEnv: Value): Resolution<string>
  {
    if !rawEnv.Str? then Resolution("", false, Some(EnvNotString(rawEnv)), [], [])
    else if rawEnv.s !in s.env then Resolution("", false, None, [rawEnv.s], [])
    else
      match ReplaceList(entries)
      case Err(bad) => Resolution("", true, Some(ReplaceNotString(bad)), [], [])
      case Ok(expressions) => Replaced(s, s.env[rawEnv.s].value, expressions)
  }

  /** The var entry of a raw map whose "var" entry is not nil. */
  function ResolveVarEntry(s: Sources, entries: map<string, Value>, rawVar: Value): Resolution<string>
  {
    if !rawVar.Str? then Resolution("", false, Some(VarNotString(rawVar)), [], [])
    else if rawVar.s !in s.vars then Resolution("", false, None, [], [rawVar.s])
    else
      match ReplaceList(entries)
      case Err(bad) => Resolution("", true, Some(ReplaceNotString(bad)), [], [])
      case Ok(expressions) => Replaced(s, s.vars[rawVar.s], expressions)
  }

  /** resolver.resolve: nil is "", a string or LiteralParam is itself; a raw
      map or an EnvParam/VarParam is looked up and passed through its
      replacements, a missing key being reported (found=false, no error);
      anything else is an error. */
  function ResolveParam(s: Sources, param: Value): (r: Resolution<string>)
    // a missing key, and only that, is "not found" without an error; it is reported once
    ensures (!r.found && r.err.None?) <==> |r.missingEnv| + |r.missingVars| == 1
    ensures forall k :: k in r.missingEnv ==> k !in s.env
    ensures forall k :: k in r.missingVars ==> k !in s.vars
    // the key reported is the one the parameter names
    ensures forall k :: k in r.missingEnv ==>
      (param.EnvRef? && param.envParam.env == k) || (param.Dict? && "env" in param.entries && param.entries["env"] == Str(k))
    ensures forall k :: k in r.missingVars ==>
      (param.VarRef? && param.varParam.variable == k) || (param.Dict? && "var" in param.entries && param.entries["var"] == Str(k))
    ensures r.err.Some? ==> r.value == ""
  {
    match param
    case Nil => Resolution("", true, None, [], [])
    case Str(v) => Resolution(v, true, None, [], [])
    case Literal(v) => Resolution(v, true, None, [], [])
    case Dict(entries) =>
      if "env" in entries && !entries["env"].Nil? then ResolveEnvEntry(s, entries, entries["env"])
      else if "var" in entries && !entries["var"].Nil? then ResolveVarEntry(s, entries, entries["var"])
      else Resolution("", false, Some(UnexpectedMap(entries)), [], [])
    case EnvRef(p) =>
      if p.env !in s.env then Resolution("", false, None, [p.env], [])
      else Replaced(s, s.env[p.env].value, p.replace)
    case VarRef(p) =>
      if p.variable !in s.vars then Resolution("", false, None, [], [p.variable])
      else Replaced(s, s.vars[p.variable], p.replace)
    case _ => Resolution("", false, Some(UnexpectedValue(param)), [], [])
  }

  /** resolver.resolveCommand: a []string or LiteralCommand as it is; a []any
      of strings as those strings; anything else is resolved as a parameter
      and split with shlex. On an error the command is empty. */
  function CommandResolution(s: Sources, command: Value): (r: Resolution<seq<string>>)
    ensures r.err.Some? ==> r.value == []
    ensures (!r.found && r.err.None?) <==> |r.missingEnv| + |r.missingVars| == 1
    ensures forall k :: k in r.missingEnv ==> k !in s.env
    ensures forall k :: k in r.missingVars ==> k !in s.vars
  {
    match command
    case Strings(items) => Resolution(items, true, None, [], [])
    case LiteralCommand(args) => Resolution(args, true, None, [], [])
    case List(elements) =>
      (match AllStrings(elements)
       case Ok(args) => Resolution(args, true, None, [], [])
       case Err(bad) => Resolution([], false, Some(CommandNotString(bad)), [], []))
    case _ =>
      var r := ResolveParam(s, command);
      if !r.found || r.err.Some? then Resolution([], r.found, r.err, r.missingEnv, r.missingVars)
      else
        match s.split(r.value)
        case Some(args) => Resolution(args, true, None, r.missingEnv, r.missingVars)
        case None => Resolution([], true, Some(SplitFailed(r.value)), r.missingEnv, r.missingVars)
  }

  /** The literal and error cases of resolve and resolveCommand: nil is ""
      and found, a string or LiteralParam is itself, a raw map with neither
      key, a non-nil "env" or "var" entry that is not a string, and a value
      of another type are errors; a []string or
      LiteralCommand is returned unchanged and a []any with a non-string
      element is an error. */
  lemma LiteralResolutions(s: Sources, v: string, args: seq<string>, elements: seq<Value>, entries: map<string, Value>)
    ensures ResolveParam(s, Nil) == Resolution("", true, None, [], [])
    ensures ResolveParam(s, Str(v)) == ResolveParam(s, Literal(v)) == Resolution(v, true, None, [], [])
    ensures ("env" !in entries || entries["env"].Nil?) && ("var" !in entries || entries["var"].Nil?) ==>
      ResolveParam(s, Dict(entries)).err == Some(UnexpectedMap(entries))
    ensures ResolveParam(s, Other).err == Some(UnexpectedValue(Other))
    ensures "env" in entries && !entries["env"].Nil? && !entries["env"].Str? ==>
      ResolveParam(s, Dict(entries)).err == Some(EnvNotString(entries["env"]))
    ensures ("env" !in entries || entries["env"].Nil?) && "var" in entries && !entries["var"].Nil? && !entries["var"].Str? ==>
      ResolveParam(s, Dict(entries)).err == Some(VarNotString(entries["var"]))
    ensures CommandResolution(s, Strings(args)) == CommandResolution(s, LiteralCommand(args)) == Resolution(args, true, None, [], [])
    ensures (exists i :: 0 <= i < |elements| && !elements[i].Str?) ==> CommandResolution(s, List(elements)).err.Some?
  {
  }

  /** getEnv lists the non-empty env key a parameter refers to: resolving it
      reports exactly that key when the env is missing, and nothing else. */
  lemma EnvKeyIsResolvedKey(s: Sources, param: Value)
    ensures var r := ResolveParam(s, param);
      EnvKey(param).Some? ==>
        r.missingVars == [] &&
        r.missingEnv == (if EnvKey(param).value in s.env then [] else [EnvKey(param).value])
    ensures var r := ResolveParam(s, param);
      forall k :: k in r.missingEnv && k != "" ==> EnvKey(param) == Some(k)
  {
  }

  /** A var reference, as a VarParam or as the string "var" of a raw map
      without a non-nil "env", reports exactly its own key when that var is
      missing, as not found and without an error, and reports no env key. */
  lemma VarKeyIsResolvedKey(s: Sources, p: VarParam, entries: map<string, Value>, k: string)
    ensures var r := ResolveParam(s, VarRef(p));
      && r.missingEnv == []
      && r.missingVars == (if p.variable in s.vars then [] else [p.variable])
      && (p.variable !in s.vars ==> !r.found && r.err.None?)
    ensures var r := ResolveParam(s, Dict(entries));
      ("env" !in entries || entries["env"].Nil?) && "var" in entries && entries["var"] == Str(k) ==>
        && r.missingEnv == []
        && r.missingVars == (if k in s.vars then [] else [k])
        && (k !in s.vars ==> !r.found && r.err.None?)
  {
  }

  datatype ResolvedRunConfig = ResolvedRunConfig(
    command: seq<string>,
    input: string,
    directory: string,
    user: string,
    params: map<string, string>)

  /** What Resolve returns: the (possibly partial) result, the unresolved
      env and var keys (nil, here empty, on an error) and the error. */
  datatype Outcome = Outcome(
    result: ResolvedRunConfig,
    unresolvedEnv: seq<string>,
    unresolvedVars: seq<string>,
    err: Option<ResolveError>)

  const NoResult: ResolvedRunConfig := ResolvedRunConfig([], "", "", "", map[])

  /** The outcome after Command, Input, Directory and User, stopping at the
      first one that fails with that field's name on the error. */
  function FieldsOutcome(s: Sources, config: RunConfig): Outcome
  {
    var c := CommandResolution(s, config.command);
    if c.err.Some? then Outcome(NoResult.(command := c.value), [], [], Some(InvalidField(CommandField, c.err.value)))
    else
      var withCommand := NoResult.(command := c.value);
      var i := ResolveParam(s, config.input);
      if i.err.Some? then Outcome(withCommand.(input := i.value), [], [], Some(InvalidField(InputField, i.err.value)))
      else
        var withInput := withCommand.(input := i.value);
        var d := ResolveParam(s, config.directory);
        if d.err.Some? then Outcome(withInput.(directory := d.value), [], [], Some(InvalidField(DirectoryField, d.err.value)))
        else
          var withDirectory := withInput.(directory := d.value);
          var u := ResolveParam(s, config.user);
          if u.err.Some? then Outcome(withDirectory.(user := u.value), [], [], Some(InvalidField(UserField, u.err.value)))
          else
            Outcome(withDirectory.(user := u.value),
              c.missingEnv + i.missingEnv + d.missingEnv + u.missingEnv,
              c.missingVars + i.missingVars + d.missingVars + u.missingVars,
              None)
  }

  /** One round of the parameter loop: the key "" is skipped; an error stops
      with the key's name on it; a found value is stored under its key. */
  function ParamStep(s: Sources, params: map<string, Value>, prev: Outcome, k: string): Outcome
    requires k in params
  {
    if k == "" then prev
    else
      var r := ResolveParam(s, params[k]);
      if r.err.Some? then Outcome(prev.result, [], [], Some(InvalidField(ParamField(k), r.err.value)))
      else
        Outcome(
          if r.found then prev.result.(params := prev.result.params[k := r.value]) else prev.result,
          prev.unresolvedEnv + r.missingEnv,
          prev.unresolvedVars + r.missingVars,
          None)
  }

  /** The parameter loop over the keys of `order`, from `start`. */
  function ResolveParams(s: Sources, params: map<string, Value>, order: seq<string>, start: Outcome): Outcome
    requires forall i :: 0 <= i < |order| ==> order[i] in params
  {
    if order == [] then start
    else
      var prev := ResolveParams(s, params, order[..|order| - 1], start);
      if prev.err.Some? then prev else ParamStep(s, params, prev, order[|order| - 1])
  }

  /** One more key in `order` is one more round of the loop, unless an error
      already stopped it. */
  lemma ResolveParamsSnoc(s: Sources, params: map<string, Value>, order: seq<string>, k: string, start: Outcome)
    requires forall i :: 0 <= i < |order| ==> order[i] in params
    requires k in params
    ensures var prev := ResolveParams(s, params, order, start);
      ResolveParams(s, params, order + [k], start) == if prev.err.Some? then prev else ParamStep(s, params, prev, k)
  {
    assert (order + [k])[..|order|] == order;
  }

  /** resolver.Resolve, the parameters visited in the order `order`. */
  function ResolveRun(s: Sources, config: RunConfig, order: seq<string>): Outcome
    requires forall i :: 0 <= i < |order| ==> order[i] in config.params
  {
    var fields := FieldsOutcome(s, config);
    if fields.err.Some? then fields else ResolveParams(s, config.params, order, fields)
  }

  /** The parameter loop keeps "" out, stores exactly the found parameters
      with their values, whatever the order. */
  lemma {:induction false} ResolvedParamsAnyOrder(s: Sources, params: map<string, Value>, order: seq<string>, start: Outcome)
    requires forall i :: 0 <= i < |order| ==> order[i] in params
    requires forall i, j :: 0 <= i < j < |order| ==> order[i] != order[j]
    requires start.err.None? && start.result.params == map[]
    ensures var out := ResolveParams(s, params, order, start);
      out.err.None? ==>
        (forall k :: k in out.result.params <==> k in order && k != "" && ResolveParam(s, params[k]).found) &&
        (forall k :: k in out.result.params ==> out.result.params[k] == ResolveParam(s, params[k]).value)
  {
    if order != [] {
      var init := order[..|order| - 1];
      var last := order[|order| - 1];
      assert forall k :: k in order <==> k in init || k == last;
      assert last !in init;
      ResolvedParamsAnyOrder(s, params, init, start);
    }
  }

  /** An error comes with the name of the field that failed and no
      unresolved keys; otherwise the unresolved keys are all missing. */
  lemma {:induction false} ResolveParamsOutcome(s: Sources, params: map<string, Value>, order: seq<string>, start: Outcome)
    requires forall i :: 0 <= i < |order| ==> order[i] in params
    requires start.err.None?
    requires forall k :: k in start.unresolvedEnv ==> k !in s.env
    requires forall k :: k in start.unresolvedVars ==> k !in s.vars
    ensures var out := ResolveParams(s, params, order, start);
      && (out.err.Some? ==> out.err.value.InvalidField? && out.unresolvedEnv == [] && out.unresolvedVars == [])
      && (out.err.None? ==> (forall k :: k in out.unresolvedEnv ==> k !in s.env) && (forall k :: k in out.unresolvedVars ==> k !in s.vars))
  {
    if order != [] {
      ResolveParamsOutcome(s, params, order[..|order| - 1], start);
    }
  }

  /** A successful Resolve holds exactly the found parameters under non-empty
      keys and lists only keys that are missing; a failed one names the
      field that failed and lists nothing. */
  lemma ResolveRunOutcome(s: Sources, config: RunConfig, order: seq<string>)
    requires forall i :: 0 <= i < |order| ==> order[i] in config.params
    requires forall i, j :: 0 <= i < j < |order| ==> order[i] != order[j]
    requires forall k :: k in config.params ==> k in order
    ensures var out := ResolveRun(s, config, order);
      && (out.err.Some? ==> out.err.value.InvalidField? && out.unresolvedEnv == [] && out.unresolvedVars == [])
      && (out.err.None? ==>
        && (forall k :: k in out.result.params <==> k in config.params && k != "" && ResolveParam(s, config.params[k]).found)
        && (forall k :: k in out.result.params ==> out.result.params[k] == ResolveParam(s, config.params[k]).value)
        && (forall k :: k in out.unresolvedEnv ==> k !in s.env)
        && (forall k :: k in out.unresolvedVars ==> k !in s.vars))
  {
    var fields := FieldsOutcome(s, config);
    if fields.err.None? {
      ResolvedParamsAnyOrder(s, config.params, order, fields);
      ResolveParamsOutcome(s, config.params, order, fields);
    }
  }

  /** The resolver of schema/runconfig.go: the known envs and vars and the
      keys found missing so far. */
  class Resolver {
    const env: map<string, Env>
    const vars: map<string, Var>
    const engine: Engine
    const split: string -> Option<seq<string>>
    var unresolvedEnv: seq<string>
    var unresolvedVars: seq<string>

    function Context(): Sources
    {
      Sources(env, vars, engine, split)
    }

    constructor (env: map<string, Env>, vars: map<string, Var>, engine: Engine, split: string -> Option<seq<string>>)
      ensures Context() == Sources(env, vars, engine, split)
      ensures unresolvedEnv == [] && unresolvedVars == []
    {
      this.env, this.vars, this.engine, this.split := env, vars, engine, split;
      unresolvedEnv, unresolvedVars := [], [];
    }

    /** The loop converting a []any to strings, stopping at the first
        element that is not a string. */
    static method StringsOf(elements: seq<Value>) returns (strings: seq<string>, bad: Option<Value>)
      ensures match AllStrings(elements)
        case Ok(all) => strings == all && bad == None
        case Err(first) => bad == Some(first)
    {
      strings := [];
      for i := 0 to |elements|
        invariant |strings| == i
        invariant forall j :: 0 <= j < i ==> elements[j] == Str(strings[j])
      {
        if !elements[i].Str? {
          AllStringsFirstBad(elements, i);
          return strings, Some(elements[i]);
        }
        strings := strings + [elements[i].s];
      }
      AllStringsOk(elements, strings);
      bad := None;
    }

    /** A found value passed through the replacement expressions. */
    method ReplaceValue(value: string, expressions: seq<string>) returns (result: string, found: bool, err: Option<ResolveError>)
      ensures var r := Replaced(Context(), value, expressions);
        result == r.value && found == r.found && err == r.err
    {
      var e;
      result, e := Replacements.Apply(engine, value, expressions);
      found := true;
      err := if e.Some? then Some(ReplaceFailed(e.value)) else None;
    }

    /** The expressions of a raw map's "replace" entry. */
    static method ReplaceEntry(entries: map<string, Value>) returns (expressions: seq<string>, bad: Option<Value>)
      ensures match ReplaceList(entries)
        case Ok(all) => expressions == all && bad == None
        case Err(first) => bad == Some(first)
    {
      if "replace" in entries && entries["replace"].List? {
        expressions, bad := StringsOf(entries["replace"].elements);
      } else {
        expressions, bad := [], None;
      }
    }

    /** resolve */
    method Resolve(param: Value) returns (result: string, found: bool, err: Option<ResolveError>)
      modifies this
      ensures var r := ResolveParam(Context(), param);
        result == r.value && found == r.found && err == r.err &&
        unresolvedEnv == old(unresolvedEnv) + r.missingEnv &&
        unresolvedVars == old(unresolvedVars) + r.missingVars
    {
      result, found, err := "", false, None;
      match param {
        case Nil =>
          return "", true, None;
        case Str(v) =>
          return v, true, None;
        case Literal(v) =>
          return v, true, None;
        case Dict(entries) =>
          if "env" in entries && !entries["env"].Nil? {
            var rawEnv := entries["env"];
            if !rawEnv.Str? {
              return "", false, Some(EnvNotString(rawEnv));
            }
            found := rawEnv.s in env;
            if !found {
              unresolvedEnv := unresolvedEnv + [rawEnv.s];
              return;
            }
            var expressions, bad := ReplaceEntry(entries);
            if bad.Some? {
              return "", true, Some(ReplaceNotString(bad.value));
            }
            result, found, err := ReplaceValue(env[rawEnv.s].value, expressions);
            return;
          }
          if "var" in entries && !entries["var"].Nil? {
            var rawVar := entries["var"];
            if !rawVar.Str? {
              return "", false, Some(VarNotString(rawVar));
            }
            found := rawVar.s in vars;
            if !found {
              unresolvedVars := unresolvedVars + [rawVar.s];
              return;
            }
            var expressions, bad := ReplaceEntry(entries);
            if bad.Some? {
              return "", true, Some(ReplaceNotString(bad.value));
            }
            result, found, err := ReplaceValue(vars[rawVar.s], expressions);
            return;
          }
          return "", false, Some(UnexpectedMap(entries));
        case EnvRef(p) =>
          found := p.env in env;
          if !found {
            unresolvedEnv := unresolvedEnv + [p.env];
            return;
          }
          result, found, err := ReplaceValue(env[p.env].value, p.replace);
        case VarRef(p) =>
          found := p.variable in vars;
          if !found {
            unresolvedVars := unresolvedVars + [p.variable];
            return;
          }
          result, found, err := ReplaceValue(vars[p.variable], p.replace);
        case _ =>
          return "", false, Some(UnexpectedValue(param));
      }
    }

    /** resolveCommand */
    method ResolveCommand(command: Value) returns (result: seq<string>, found: bool, err: Option<ResolveError>)
      modifies this
      ensures var r := CommandResolution(Context(), command);
        result == r.value && found == r.found && err == r.err &&
        unresolvedEnv == old(unresolvedEnv) + r.missingEnv &&
        unresolvedVars == old(unresolvedVars) + r.missingVars
    {
      if command.Strings? {
        return command.items, true, None;
      } else if command.LiteralCommand? {
        return command.args, true, None;
      } else if command.List? {
        var args, bad := StringsOf(command.elements);
        if bad.Some? {
          return [], false, Some(CommandNotString(bad.value));
        }
        return args, true, None;
      } else {
        var resolvedCommand;
        result := [];
        resolvedCommand, found, err := Resolve(command);
        if !found || err.Some? {
          return;
        }
        var args := split(resolvedCommand);
        if args.None? {
          return [], true, Some(SplitFailed(resolvedCommand));
        }
        return args.value, true, None;
      }
    }

    /** The four fields of resolver.Resolve, each resolved in turn until one
        fails; the keys found missing are appended to the resolver's lists. */
    method ResolveFields(config: RunConfig) returns (fields: Outcome)
      modifies this
      requires unresolvedEnv == [] && unresolvedVars == []
      ensures fields == FieldsOutcome(Context(), config)
      ensures fields.err.None? ==> unresolvedEnv == fields.unresolvedEnv && unresolvedVars == fields.unresolvedVars
    {
      var result := NoResult;
      var command, found, e := ResolveCommand(config.command);
      ghost var c := CommandResolution(Context(), config.command);
      assert unresolvedEnv == c.missingEnv && unresolvedVars == c.missingVars;
      result := result.(command := command);
      if e.Some? {
        return Outcome(result, [], [], Some(InvalidField(CommandField, e.value)));
      }
      var value;
      value, found, e := Resolve(config.input);
      ghost var i := ResolveParam(Context(), config.input);
      result := result.(input := value);
      if e.Some? {
        return Outcome(result, [], [], Some(InvalidField(InputField, e.value)));
      }
      value, found, e := Resolve(config.directory);
      ghost var d := ResolveParam(Context(), config.directory);
      result := result.(directory := value);
      if e.Some? {
        return Outcome(result, [], [], Some(InvalidField(DirectoryField, e.value)));
      }
      value, found, e := Resolve(config.user);
      ghost var u := ResolveParam(Context(), config.user);
      result := result.(user := value);
      if e.Some? {
        return Outcome(result, [], [], Some(InvalidField(UserField, e.value)));
      }
      assert unresolvedEnv == c.missingEnv + i.missingEnv + d.missingEnv + u.missingEnv;
      assert unresolvedVars == c.missingVars + i.missingVars + d.missingVars + u.missingVars;
      return Outcome(result, unresolvedEnv, unresolvedVars, None);
    }

    /** resolver.Resolve: the four fields, then the parameters in some order
        (`order`, the keys visited, all of them unless an error stopped the
        loop). The resolver's own lists are reset first. */
    method ResolveConfig(config: RunConfig)
      returns (result: ResolvedRunConfig, unresolvedEnvKeys: seq<string>, unresolvedVarKeys: seq<string>,
               err: Option<ResolveError>, ghost order: seq<string>)
      modifies this
      ensures forall i :: 0 <= i < |order| ==> order[i] in config.params
      ensures forall i, j :: 0 <= i < j < |order| ==> order[i] != order[j]
      ensures err.None? ==> forall k :: k in config.params ==> k in order
      ensures Outcome(result, unresolvedEnvKeys, unresolvedVarKeys, err) == ResolveRun(Context(), config, order)
    {
      unresolvedEnv, unresolvedVars := [], [];
      order := [];
      var fields := ResolveFields(config);
      if fields.err.Some? {
        return fields.result, [], [], fields.err, order;
      }
      result, unresolvedEnvKeys, unresolvedVarKeys, err, order := ResolveParamsInSomeOrder(config.params, fields);
    }

    /** The parameter loop of resolver.Resolve, after the four fields
        resolved to `fields`. */
    method ResolveParamsInSomeOrder(params: map<string, Value>, fields: Outcome)
      returns (result: ResolvedRunConfig, unresolvedEnvKeys: seq<string>, unresolvedVarKeys: seq<string>,
               err: Option<ResolveError>, ghost order: seq<string>)
      requires fields.err.None? && unresolvedEnv == fields.unresolvedEnv && unresolvedVars == fields.unresolvedVars
      modifies this
      ensures forall i :: 0 <= i < |order| ==> order[i] in params
      ensures forall i, j :: 0 <= i < j < |order| ==> order[i] != order[j]
      ensures err.None? ==> forall k :: k in params ==> k in order
      ensures Outcome(result, unresolvedEnvKeys, unresolvedVarKeys, err) == ResolveParams(Context(), params, order, fields)
    {
      order := [];
      result := fields.result;
      var value, found, e;
      var todo := params.Keys;
      while todo != {}
        invariant todo <= params.Keys
        invariant forall i :: 0 <= i < |order| ==> order[i] in params && order[i] !in todo
        invariant forall k :: k in params ==> k in order || k in todo
        invariant forall i, j :: 0 <= i < j < |order| ==> order[i] != order[j]
        invariant Outcome(result, unresolvedEnv, unresolvedVars, None) == ResolveParams(Context(), params, order, fields)
        decreases |todo|
      {
        var k :| k in todo;
        todo := todo - {k};
        ResolveParamsSnoc(Context(), params, order, k, fields);
        order := order + [k];
        if k == "" {
          continue;
        }
        value, found, e := Resolve(params[k]);
        if e.Some? {
          return result, [], [], Some(InvalidField(ParamField(k), e.value)), order;
        }
        if !found {
          continue;
        }
        result := result.(params := result.params[k := value]);
      }
      return result, unresolvedEnv, unresolvedVars, None, order;
    }
  }

  /** RunConfig.Resolve: a fresh resolver over env and vars. */
  method Resolve(config: RunConfig, env: map<string, Env>, vars: map<string, Var>, engine: Engine, split: string -> Option<seq<string>>)
    returns (result: ResolvedRunConfig, unresolvedEnv: seq<string>, unresolvedVars: seq<string>,
             err: Option<ResolveError>, ghost order: seq<string>)
    ensures forall i :: 0 <= i < |order| ==> order[i] in config.params
    ensures forall i, j :: 0 <= i < j < |order| ==> order[i] != order[j]
    ensures err.None? ==> forall k :: k in config.params ==> k in order
    ensures Outcome(result, unresolvedEnv, unresolvedVars, err) == ResolveRun(Sources(env, vars, engine, split), config, order)
  {
    var resolver := new Resolver(env, vars, engine, split);
    result, unresolvedEnv, unresolvedVars, err, order := resolver.ResolveConfig(config);
  }
}

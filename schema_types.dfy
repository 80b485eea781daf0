/** The data shapes of schema/types.go that the condition engine, the
    run-config resolver and the env helpers share. Strings are sequences of
    runes. */
module SchemaTypes {
  import opened Wrappers

  /** A condition key "env X" tests the value of the env X. */
  const ENV_PREFIX: string := "env "
  /** A condition key "var X" tests the value of the var X. */
  const VAR_PREFIX: string := "var "

  /** One env value with the priority MergeEnv compares (lower wins). */
  datatype Env = Env(value: string, priority: uint32, secret: bool)

  /** Go's zero Env, what a lookup of a missing key reads. */
  const ZeroEnv: Env := Env("", 0, false)

  type Var = string

  type Fact = seq<string>

  /** A parameter taken from an env, passed through replacement expressions. */
  datatype EnvParam = EnvParam(env: string, replace: seq<string>)

  /** A parameter taken from a var, passed through replacement expressions. */
  datatype VarParam = VarParam(variable: string, replace: seq<string>)

  /** The dynamic values a RawParam or RawCommand (both Go `interface{}`) can
      hold, as the resolver's type switches tell them apart. */
  datatype Value =
    | Nil                                  // nil
    | Str(s: string)                       // string
    | Literal(s: string)                   // LiteralParam
    | Dict(entries: map<string, Value>)    // map[string]any
    | EnvRef(envParam: EnvParam)           // EnvParam
    | VarRef(varParam: VarParam)           // VarParam
    | Strings(items: seq<string>)          // []string
    | LiteralCommand(args: seq<string>)    // LiteralCommand
    | List(elements: seq<Value>)           // []any
    | Other                                // any other dynamic type

  /** strings.HasPrefix */
  predicate HasPrefix(s: string, prefix: string)
  {
    |prefix| <= |s| && s[..|prefix|] == prefix
  }

  /** The string value of the env `key`, "" when it is missing. */
  function EnvValue(env: map<string, Env>, key: string): string
  {
    if key in env then env[key].value else ZeroEnv.value
  }

  /** The value of the var `key`, "" when it is missing. */
  function VarValue(vars: map<string, Var>, key: string): string
  {
    if key in vars then vars[key] else ""
  }
}

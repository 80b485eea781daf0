/** The regular-expression engine the helper packages call into (Go's regexp
    package), seen only through what they ask of it. The engine itself is not
    modelled: each operation is a value supplied by the caller. */
module Regex {

  datatype Engine = Engine(
    // whether regexp.Compile accepts the pattern
    compiles: string -> bool,
    // (*Regexp).ReplaceAllString(value, replacement) for a pattern that compiles
    replaceAll: (string, string, string) -> string,
    // (*Regexp).MatchString(value) for a pattern that compiles
    matches: (string, string) -> bool)
}

# reeve-lib helper packages in Dafny

This project models the sequential helper packages of reeve-lib, the shared
library of the Reeve CI system, and proves properties of the model:

- `queue.dfy` (module `QueueModel`): the FIFO queue of `queue/queue.go`. It is a
  singly linked list of heap-allocated `Entry` nodes with `head`, `bottom` and
  `count` fields, kept in step with a ghost `Contents` sequence.
- `filter.dfy` (module `Filter`): the CR/LF line splitter of `filter/filter.go`
  and `LineFilter`. `LineFilter` drives the splitter through a model of
  `bufio.Scanner` and writes `filter(line + "\n")` for each line.
- `replacements.dfy` (module `Replacements`): the escape-aware splitter
  `splitUnescaped` and `countBack`, the `/regex/substitution/` shape check of
  `RegexpReplace`, and the left-to-right fold `Apply`.
- `condition.dfy` and `conditions.dfy` (modules `SchemaCondition` and
  `Conditions`): the include/exclude rule engine of a `Condition`, how a
  condition's key selects its fact, `ApplyDefaults` and the all-must-pass
  `Check` over a condition map.
- `vars.dfy` (module `Vars`): `FindAllEnv`, which collects the env keys a
  pipeline refers to, and `MergeEnv`, which picks the lowest-priority value
  of each key and reports the keys found nowhere.
- `runconfig.dfy` (module `SchemaRunConfig`): `RunConfig.GetEnv` and `getEnv`,
  and the `resolver`. The resolver is a class whose `unresolvedEnv` and
  `unresolvedVars` fields grow while it resolves a command, the fields and
  the params.
- `server.dfy` (module `SchemaServer`): the message-source and pipeline-status
  predicates, `BroadcastMessage` and the string error type.
- `logs.dfy` (module `Logs`): the scope-interleaving log writer. It has the
  `defaultDecorator` with its mutable set of interrupted scopes, the
  `rootLogWriter.WriteScope` line-position state machine, and the subsystem
  writers that forward to the root writer.
- Shared modules:
  - `schema_types.dfy` (module `SchemaTypes`) holds the data shapes of
    `schema/types.go`. Go's dynamically typed `RawParam` and `RawCommand` values
    become one datatype, `Value`, with a case per type the resolvers tell apart.
  - `regex.dfy` (module `Regex`) holds the regular-expression engine. Go's
    `regexp.Compile`, `MatchString` and `ReplaceAllString` become fields of an
    `Engine` value: these are functions the model does not look into.
  - `wrappers.dfy` (module `Wrappers`) holds `Option` and `Result`.
  - `seqs.dfy` (module `Seqs`) holds three facts about sequence concatenation that the proofs cite.

Approach:

- Go's map iteration order is unspecified. Loops over a map pick the next key
  with `:|` ("some key not yet visited"). Where the order shows in the result,
  the method returns the order it used as a ghost out-parameter, and the
  result is stated for that order.
- Every Go error that the model keeps is a datatype value naming the failing
  input. The formatted message text is not modelled.
- Each imperative method is proved against a specification function, for
  example `SplitStep`, `SplitFrom`, `FactOutcome`, `Merged`, `ResolveParam` or
  `WriteTrace`. The lemmas beside the method state what the source promises
  about that function.

## Model

| member | source | states |
|---|---|---|
| QueueModel.Entry.constructor | queue/queue.go:12-15 | a new entry holds its value and has no successor |
| QueueModel.Queue.constructor | queue/queue.go:3-10 | a new queue is empty and valid: head and bottom nil, count 0 |
| QueueModel.Queue.Get | queue/queue.go:17-24 | returns the zero value on an empty queue and the front element otherwise, changing nothing |
| QueueModel.Queue.Pop | queue/queue.go:26-40 | an empty queue returns the zero value and keeps head, bottom and count; otherwise it returns and removes the front element, decrements count, and sets head and bottom to nil when the queue empties |
| QueueModel.Queue.Push | queue/queue.go:42-52 | appends the value at the back, count grows by exactly one, and on an empty queue head becomes the new bottom; the count-equals-length invariant is preserved |
| QueueModel.Queue.Count | queue/queue.go:54-56 | the count field equals the number of linked entries |
| QueueModel.PushAllPopAll | queue/queue.go:26-52 | pushing a sequence and then popping as many times gives back the same sequence (FIFO) |
| QueueModel.PopEach | queue/queue.go:26-40 | n successive pops return the first n elements in order and leave the rest |
| Filter.IndexAny | filter/filter.go:45 | the index of the first CR or LF, with no terminator before it; -1 exactly when there is none |
| Filter.Lines | filter/filter.go:45-63 | the reference splitting of a whole input into lines at LF, CR and CR LF; no line contains a terminator |
| Filter.SplitStep | filter/filter.go:34-66 | advance never exceeds the data; a token is a terminator-free prefix of the data; a step without a token that advances skips exactly the LF after a CR; afterCR is set only by a trailing CR; at EOF with data, there is always progress |
| Filter.LineSplitter.constructor | filter/filter.go:11 | a fresh splitter is not after a CR |
| Filter.LineSplitter.Split | filter/filter.go:34-66 | returns SplitStep of the data with the afterCR flag before the call, and stores the new flag |
| Filter.IndexAnyUnique | filter/filter.go:45 | any index with the first-terminator property is IndexAny |
| Filter.IndexAnyAppend | filter/filter.go:45 | appending data after a terminator does not move the first terminator |
| Filter.SplitStepPending | filter/filter.go:34-66 | a step yields the first pending line and leaves the rest of the input's lines pending |
| Filter.TerminatorPending | filter/filter.go:45-58 | a step on data holding a terminator agrees with the reference lines of the data followed by anything |
| Filter.ScanSeparateEnd | filter/filter.go:14-22 | when EOF is reported by a separate empty read, the scanner yields exactly the reference lines of the remaining input |
| Filter.ReadMoreSeparateEnd | filter/filter.go:14-22 | the same for a scanner that is about to read, which with afterCR set it does only on an empty buffer; reads with no data and no error are skipped |
| Filter.ScanAllIsLines | filter/filter.go:9-27 | with EOF reported by a separate read, LineFilter sees exactly the reference lines of the concatenated input |
| Filter.EmptyReadRetried | filter/filter.go:14-22 | reads "a\r", "\nb\r", one read with no data, then "\nc" with EOF: the empty read does not reach the splitter, and the lines "a", "b", "c" are all emitted |
| Filter.CrLfAcrossFinalReadDropsLine | filter/filter.go:38-44 | reads "a\r" then "\nb" delivered together with EOF: the splitter as written yields ["a"], while the lines are ["a", "b"] |
| Filter.SplitStepFixed | filter/filter.go:34-66 | the corrected step: same bounds, and at EOF without a token it consumes all the data |
| Filter.SplitStepFixedPending | filter/filter.go:34-66 | a corrected step yields the first pending line and leaves the rest pending, also when the skipped LF ends the final read |
| Filter.SkippedLFPending | filter/filter.go:38-44 | skipping the LF after a CR leaves the pending lines unchanged |
| Filter.ScanFixedIsPending | filter/filter.go:14-22 | the scanner with the corrected step yields exactly the pending lines, however EOF is delivered |
| Filter.ReadMoreFixed | filter/filter.go:14-22 | the same for a scanner with the corrected step that is about to read |
| Filter.FixedScanIsLines | filter/filter.go:9-27 | with the corrected step, every reader's lines are the reference lines of its whole input |
| Filter.Scanner.constructor | filter/filter.go:10-12 | a new scanner owns a fresh splitter, has emitted nothing and will emit ScanAll of the reader |
| Filter.Scanner.Scan | filter/filter.go:14 | each true Scan appends the next token; a false Scan means every token was emitted and the scanner is done |
| Filter.Scanner.TrySplit | filter/filter.go:34-66 | one call of the split function inside Scan emits the next token or leaves the tokens still to come unchanged |
| Filter.Scanner.Fill | filter/filter.go:14 | reading repeats reads that return neither data nor an error, then consumes one non-empty chunk or reaches EOF, keeping the tokens still to come |
| Filter.Scanner.Err | filter/filter.go:23-25 | reports the reader's failure once the input has ended |
| Filter.OutputsAppend | filter/filter.go:14-22 | the writes for two runs of lines are the writes for each in turn |
| Filter.OutputsSnoc | filter/filter.go:15-17 | one more line adds its filtered text as a write exactly when that text is non-empty |
| Filter.OutputsPrefix | filter/filter.go:14-22 | the writes for a prefix of the lines are a prefix of the writes |
| Filter.LineFilter | filter/filter.go:9-27 | writes filter(line + "\n") for every scanned line in order and skips empty results; it stops at the first failing write with that error; otherwise it reports a read failure exactly when the reader fails |
| Replacements.IndexOf | replacements/replacements.go:47 | the first index of the rune, -1 exactly when it is absent |
| Replacements.TrailingCount | replacements/replacements.go:62-72 | the length of the maximal trailing run of the rune, at most the length of the string |
| Replacements.CountBack | replacements/replacements.go:62-72 | the loop computes TrailingCount |
| Replacements.SplitFrom | replacements/replacements.go:40-60 | the reference split always has at least one part |
| Replacements.SplitUnescaped | replacements/replacements.go:40-60 | the loop computes SplitFrom and returns at least one part |
| Replacements.SplitWithoutSeparator | replacements/replacements.go:58 | with no separator left, the current part and the rest make the last part |
| Replacements.SplitNoSeparator | replacements/replacements.go:44-59 | a string without the separator splits to itself alone |
| Replacements.Escape | replacements/replacements.go:47-56 | escaping a part never shortens it |
| Replacements.EscapeNoSeparator | replacements/replacements.go:47-56 | a part without separators needs no escaping |
| Replacements.EscapeAppend | replacements/replacements.go:47-56 | escaping distributes over concatenation |
| Replacements.EscapeAtSeparator | replacements/replacements.go:47-56 | escaping puts one escape before the first separator |
| Replacements.EscapeFreeWritable | replacements/replacements.go:47-56 | a part without escape runes is writable: no odd run of escapes before a separator or at its end |
| Replacements.SplitEscapedPart | replacements/replacements.go:47-56 | an escaped writable part followed by a separator splits off as the original part |
| Replacements.SplitUnwritablePart | replacements/replacements.go:47-56 | a part that is not writable never splits off as itself: an odd run before a separator ends it early, an odd run at its end keeps the following separator |
| Replacements.SplitEscapedLast | replacements/replacements.go:58 | an escaped last part with no odd run before a separator splits back to the original part |
| Replacements.SplitJoin | replacements/replacements.go:40-60 | splitting the escaped join gives the parts back when every part but the last is writable and the last has no odd run before a separator |
| Replacements.RegexpReplace | replacements/replacements.go:20-38 | the invalid-expression error comes exactly when the shape check fails; a result means the pattern compiled and the value was replaced with parts 1 and 2 |
| Replacements.RegexpReplaceExpression | replacements/replacements.go:27-37 | the expression written from a writable pattern and a writable substitution (escape runs such as `\d+` or `\.` included) replaces with that pattern and substitution, or reports that the pattern does not compile |
| Replacements.ExpressionLosesUnwritablePattern | replacements/replacements.go:27-28 | a pattern with an odd escape run before the delimiter or at its end cannot be written: the expression built from it does not split back to that pattern |
| Replacements.RegexpReplaceRejectsStart | replacements/replacements.go:23-25 | an empty expression or one starting with the escape is invalid |
| Replacements.Apply | replacements/replacements.go:9-18 | the loop computes the left-to-right fold ApplyAll; on an error the result is "" and the error is the first failing expression's |
| Replacements.ApplyNone | replacements/replacements.go:9-18 | no expressions leave the value unchanged without error |
| Replacements.ApplyConcat | replacements/replacements.go:11-16 | applying two lists is applying the second to the first's result; an error in the first stops everything |
| SchemaCondition.Condition.Empty | schema/condition.go:27-39 | true exactly when all eight rule lists are empty |
| SchemaCondition.RegexScan | schema/condition.go:115-130 | an error names a reached pattern that does not compile; true means some pattern matches some string; false means all compile and none matches |
| SchemaCondition.RegexScanFirstFailure | schema/condition.go:118-122 | the first non-compiling pattern, when no earlier pattern matched, is the error |
| SchemaCondition.FactOutcome | schema/condition.go:66-181 | an empty fact passes; unhit include rules or a hit exclude rule fail; errors name a non-compiling match or mismatch pattern; with valid patterns, the fact passes exactly when it is empty or (includes are absent or hit) and no exclude hits |
| SchemaCondition.MatchErrorReached | schema/condition.go:115-122 | a non-compiling match pattern reached after the literal includes miss is reported as an error |
| SchemaCondition.MismatchErrorReached | schema/condition.go:166-171 | a non-compiling mismatch pattern reached after the includes pass and the literal excludes miss is reported as an error |
| SchemaCondition.KeyedFacts | schema/condition.go:49-63 | "env X" and "var X" with X non-empty check the one-string fact of that env's or var's value; other keys check their stored fact, and a key without one passes |
| SchemaCondition.ContainsAny | schema/condition.go:81-89 | true exactly when some listed value is in the fact set |
| SchemaCondition.ContainsAnyEnv | schema/condition.go:91-101 | true exactly when some listed key names a present env whose value is in the fact set |
| SchemaCondition.ContainsAnyVar | schema/condition.go:103-113 | true exactly when some listed key names a present var whose value is in the fact set |
| SchemaCondition.ScanRegex | schema/condition.go:115-130 | the loop computes RegexScan, returning the failing pattern separately |
| SchemaCondition.FactMap | schema/condition.go:71-74 | the set holds exactly the fact's strings |
| SchemaCondition.CheckIncludes | schema/condition.go:78-130 | reports whether include rules exist and whether one holds, or the failing match pattern |
| SchemaCondition.CheckExcludes | schema/condition.go:138-178 | reports whether an exclude rule holds, or the failing mismatch pattern |
| SchemaCondition.CheckFact | schema/condition.go:66-181 | passes exactly when FactOutcome is Ok(true); the error is FactOutcome's |
| SchemaCondition.Check | schema/condition.go:41-64 | an empty condition passes with no error; otherwise it passes exactly when the fact its key selects passes, with that fact's error |
| Conditions.DefaultedByEntries | conditions/conditions.go:10-16 | a map that agrees with the defaulting rule key by key is the defaulted map |
| Conditions.DefaultedEntries | conditions/conditions.go:10-16 | non-empty default keys whose condition is absent or empty take the default; every other entry stays; no other key appears |
| Conditions.ApplyDefaults | conditions/conditions.go:5-17 | a nil map becomes an empty one, and the result is the defaulted map |
| Conditions.DefaultedIdempotent | conditions/conditions.go:10-16 | applying the defaults twice is applying them once |
| Conditions.Check | conditions/conditions.go:19-30 | true exactly when every condition under a non-empty key passes with no error; on false, the error is that of a condition that does not pass |
| Vars.CollectedKeysNonEmpty | vars/vars.go:19-75 | no collected pipeline or step key is empty |
| Vars.ConfigKeysNonEmpty | vars/vars.go:43-45 | no key a run config lists is empty |
| Vars.StepsKeysNonEmpty | vars/vars.go:47-75 | no key collected from the steps is empty |
| Vars.AddConditionKeys | vars/vars.go:19-41 | adds the env key of an "env X" key and the non-empty IncludeEnv/ExcludeEnv entries |
| Vars.AddWhenKeys | vars/vars.go:19-41 | adds the keys of every condition of a When map |
| Vars.AddAll | vars/vars.go:43-45 | adds every listed key |
| Vars.ListKeys | vars/vars.go:84-91 | lists each key of the set exactly once and appends the list to Env |
| Vars.CollectStepKeys | vars/vars.go:43-75 | collects exactly the setup and step keys |
| Vars.DeleteAll | vars/vars.go:77-79 | removes the pipeline keys from the remaining keys |
| Vars.DistinctConcat | vars/vars.go:81-91 | two duplicate-free, disjoint lists concatenate without duplicates |
| Vars.FindAllEnv | vars/vars.go:15-94 | PipelineEnv is exactly the pipeline-level keys; RemainingEnv is the setup and step keys that are not pipeline keys; no list has duplicates or empty keys; Env is PipelineEnv followed by RemainingEnv |
| Vars.BestNone | vars/vars.go:99-111 | no value is chosen exactly when no env has the key |
| Vars.BestIsLowest | vars/vars.go:103-107 | the chosen value is the one with strictly lowest priority, the first such in argument order |
| Vars.MergeTwice | vars/vars.go:103-107 | merging the same env twice changes nothing more |
| Vars.MissingKeysMembers | vars/vars.go:113-118 | the missing keys are exactly the listed keys not in the result |
| Vars.MergedByEntries | vars/vars.go:99-111 | a map that agrees key by key with the best values is the merged map |
| Vars.MergeMap | vars/vars.go:100-110 | one env's round of the loop extends the merge by that env |
| Vars.CollectMissing | vars/vars.go:113-118 | the loop lists the missing keys in key order |
| Vars.MergeEnv | vars/vars.go:96-125 | the result maps each non-empty key to its lowest-priority value; the error is given exactly when some key is missing, and lists those keys |
| Vars.MissingIsUnfilled | vars/vars.go:102-121 | a listed key is missing exactly when it is empty or found in no env |
| SchemaRunConfig.EnvKey | schema/runconfig.go:43-55 | a key only for a raw map with a non-empty string "env" or an EnvParam with non-empty Env, and it is that key |
| SchemaRunConfig.KeysOfMembers | schema/runconfig.go:19-41 | the listed keys are exactly the env keys of the parameters |
| SchemaRunConfig.KeysOfFields | schema/runconfig.go:22-33 | the field keys come from Command, Input, Directory and User, in that order |
| SchemaRunConfig.KeysInMembers | schema/runconfig.go:34-38 | the param keys are exactly the env keys of the visited params |
| SchemaRunConfig.GetEnv | schema/runconfig.go:19-41 | lists the field keys, then the param keys in the order the params are visited (each exactly once); the keys are exactly those the config refers to, none empty |
| SchemaRunConfig.FieldEnv | schema/runconfig.go:22-33 | the loop-free part lists the field keys |
| SchemaRunConfig.ListedEnvKeys | schema/runconfig.go:19-41 | the listed keys are exactly the config's env keys and none is empty |
| SchemaRunConfig.AllStrings | schema/runconfig.go:129-139 | Ok exactly when all elements are strings, then those strings; else the error names a non-string element |
| SchemaRunConfig.AllStringsOk | schema/runconfig.go:129-139 | elements that are all strings convert to those strings |
| SchemaRunConfig.AllStringsFirstBad | schema/runconfig.go:131-137 | the first non-string element is the error |
| SchemaRunConfig.ResolveParam | schema/runconfig.go:151-240 | "not found without error" happens exactly when one missing env or var key is reported; a reported key is missing and is the key the parameter names (its EnvParam/VarParam key or the string "env"/"var" of its raw map); an error gives "" |
| SchemaRunConfig.CommandResolution | schema/runconfig.go:121-149 | an error gives an empty command; "not found without error" happens exactly when one missing key is reported; reported keys are missing |
| SchemaRunConfig.LiteralResolutions | schema/runconfig.go:121-240 | nil resolves to "" and found; a string or LiteralParam to itself; a raw map whose non-nil "env" (or, without one, "var") is not a string is an error, as is a raw map with neither key and a value of another type; a []string or LiteralCommand passes unchanged; a []any with a non-string is an error |
| SchemaRunConfig.VarKeyIsResolvedKey | schema/runconfig.go:188-234 | a VarParam, or a raw map whose "var" string is reached, reports exactly its own key when that var is missing, as not found without an error, and reports no env key |
| SchemaRunConfig.EnvKeyIsResolvedKey | schema/runconfig.go:43-55 | the key getEnv lists is exactly the key resolve reports when that env is missing |
| SchemaRunConfig.ResolvedParamsAnyOrder | schema/runconfig.go:100-116 | without error, Params holds exactly the non-empty keys whose values are found, with their resolved values, whatever the order |
| SchemaRunConfig.ResolveParamsOutcome | schema/runconfig.go:100-118 | an error is a field error and returns no unresolved keys; otherwise every reported key is missing |
| SchemaRunConfig.ResolveRunOutcome | schema/runconfig.go:77-119 | the whole resolution: a field error with no unresolved keys, or the found params and missing keys |
| SchemaRunConfig.Resolver.constructor | schema/runconfig.go:57-58 | a resolver over the given envs and vars starts with no unresolved keys |
| SchemaRunConfig.Resolver.StringsOf | schema/runconfig.go:129-139 | the loop over a []any computes AllStrings |
| SchemaRunConfig.Resolver.ReplaceValue | schema/runconfig.go:176-184 | passes a found value through its replacements as Replaced says |
| SchemaRunConfig.Resolver.ReplaceEntry | schema/runconfig.go:176-184 | the "replace" list of a raw map, or its first non-string element |
| SchemaRunConfig.Resolver.Resolve | schema/runconfig.go:151-240 | returns ResolveParam's value, found flag and error, and appends its missing keys to the unresolved fields |
| SchemaRunConfig.Resolver.ResolveCommand | schema/runconfig.go:121-149 | returns CommandResolution's value, found flag and error, and appends its missing keys |
| SchemaRunConfig.Resolver.ResolveFields | schema/runconfig.go:83-98 | resolves Command, Input, Directory and User, stopping at the first error with that field's name |
| SchemaRunConfig.Resolver.ResolveParamsInSomeOrder | schema/runconfig.go:100-118 | visits each param at most once, all of them when there is no error, and returns ResolveParams for that order |
| SchemaRunConfig.Resolver.ResolveConfig | schema/runconfig.go:77-119 | the whole resolver run equals ResolveRun for the order the params were visited in |
| SchemaRunConfig.Resolve | schema/runconfig.go:57-60 | RunConfig.Resolve with a fresh resolver equals ResolveRun for the visit order |
| SchemaServer.Error.Error | schema/server.go:18-22 | the message is the wrapped string: wrapping it again gives the same error |
| SchemaServer.ErrorInjective | schema/server.go:18-22 | two errors have the same message exactly when they are equal |
| SchemaServer.UnavailableText | schema/server.go:24 | ERROR_UNAVAILABLE reads "not available" |
| SchemaServer.IsMessageFromPlugin | schema/server.go:28-39 | false exactly for the sources "*server" and "*api" |
| SchemaServer.BroadcastMessage | schema/server.go:47-49 | the target is "*" and options and data are kept |
| SchemaServer.PipelineStatus.Running | schema/server.go:68-76 | true exactly for waiting and running |
| SchemaServer.PipelineStatus.Finished | schema/server.go:78-86 | true exactly for success, failed and timeout |
| SchemaServer.StatusesExclusive | schema/server.go:11-86 | no status is both running and finished, enqueued is neither, and each other named status is exactly one |
| Logs.SubsystemName | logs/logs.go:286-291 | the name alone for an empty scope, else scope, ":" and name |
| Logs.SubsystemNameInjective | logs/logs.go:286-291 | within one scope, different names give different subsystem names |
| Logs.LinePrefixOf | logs/logs.go:293-311 | empty exactly for the empty scope; otherwise it starts with "[" and ends with the ellipsis or a space, never a newline |
| Logs.LineSuffixOf | logs/logs.go:313-324 | the ellipsis exactly when the scope is non-empty and the line is interrupted, else empty |
| Logs.InterruptedLineResumes | logs/logs.go:293-324 | an interrupted line's scope resumes with "[scope marker]…" once, then with "[scope marker] " |
| Logs.DefaultDecorator.constructor | logs/logs.go:277-279 | a new decorator has its marker and no interrupted scope |
| Logs.DefaultDecorator.Subsystem | logs/logs.go:286-291 | computes SubsystemName |
| Logs.DefaultDecorator.LinePrefix | logs/logs.go:293-311 | returns LinePrefixOf and clears the scope's interrupted mark |
| Logs.DefaultDecorator.LineSuffix | logs/logs.go:313-324 | returns LineSuffixOf and sets the mark when it returns the ellipsis |
| Logs.Interrupt | logs/logs.go:97-117 | a write under another scope to a started line marks it interrupted, moves it to its end, and emits the ellipsis suffix when the old scope is named |
| Logs.Begin | logs/logs.go:119-143 | a line at its end is closed by a newline, and the new line records what it interrupts |
| Logs.Open | logs/logs.go:97-143 | the decoration before the bytes: nothing, a newline, or suffix and newline; only when the line ended or another scope's line was mid-way |
| Logs.PrefixStep | logs/logs.go:170-188 | at line start the decorator prefix is emitted and the line is then mid-way |
| Logs.NewlineStep | logs/logs.go:190-210 | a newline byte returns to line start with a fresh context of the scope |
| Logs.StepShape | logs/logs.go:169-213 | each byte emits itself, after a "["-prefix at line start; the line is at its start exactly after a newline |
| Logs.StepInLoop | logs/logs.go:169-213 | a step keeps the loop invariant and ends at line start exactly on a newline |
| Logs.RunExtends | logs/logs.go:169-213 | the loop only appends output |
| Logs.StepContent | logs/logs.go:212 | each step emits the byte as its only content |
| Logs.RunContent | logs/logs.go:169-213 | the loop's content is exactly the written bytes |
| Logs.RunState | logs/logs.go:169-213 | the loop keeps its invariant; its last piece is the last byte, and the line is at its start exactly when that byte is a newline |
| Logs.RunPieces | logs/logs.go:169-213 | every piece the loop emits is content or a well-placed prefix |
| Logs.WriteScopeContent | logs/logs.go:90-217 | the content of a write's output is exactly the bytes written, in order |
| Logs.OpenInLoop | logs/logs.go:97-143 | after the opening decoration the line belongs to the scope and is at start or mid-way |
| Logs.OpenNoContent | logs/logs.go:97-143 | the opening decoration carries no content |
| Logs.WriteScopeDecorations | logs/logs.go:119-213 | apart from the bytes there is at most one leading suffix and newline, and prefixes only at line starts |
| Logs.RunDecorations | logs/logs.go:169-213 | the loop after such an opening emits only well-placed pieces |
| Logs.FlattenLast | logs/logs.go:156-160 | the last output byte is the last piece's byte or a newline |
| Logs.WriteScopeEndsLine | logs/logs.go:152-161 | after a write the line is at its start exactly when the last byte flushed is a newline, and mid-way otherwise |
| Logs.RunEndsLine | logs/logs.go:152-161 | the same for the loop after the opening decoration |
| Logs.WriteScopeSilent | logs/logs.go:145-167 | a write emits nothing exactly when it has no bytes and no line to close |
| Logs.InterruptingWrite | logs/logs.go:97-143 | a write mid-way through another scope's line starts with that line's suffix and a newline, and marks that scope interrupted |
| Logs.RootLogWriter.constructor | logs/logs.go:13-22 | a new root writer has its scope and decorator, at line start with an empty output |
| Logs.RootLogWriter.GetScope | logs/logs.go:82-84 | the decorator's subsystem name |
| Logs.RootLogWriter.Subsystem | logs/logs.go:78-80 | a subsystem writer on this root under the subsystem name |
| Logs.RootLogWriter.Emit | logs/logs.go:107-111 | one successful target write of a suffix, newline or prefix (also logs/logs.go:135-139, 179-183, 198-202) appends the bytes and commits the line context and position |
| Logs.RootLogWriter.Flush | logs/logs.go:148-167 | an empty buffer changes nothing; otherwise the buffer is appended, the context committed, and the position follows the last byte |
| Logs.RootLogWriter.InterruptLine | logs/logs.go:97-117 | performs Interrupt: emits its pieces and updates the decorator marks |
| Logs.RootLogWriter.BeginLine | logs/logs.go:119-143 | performs Begin |
| Logs.RootLogWriter.OpenLine | logs/logs.go:97-143 | performs Open |
| Logs.RootLogWriter.PrefixLine | logs/logs.go:170-188 | performs PrefixStep on the buffer |
| Logs.RootLogWriter.CloseLine | logs/logs.go:190-210 | performs NewlineStep on the buffer |
| Logs.RootLogWriter.WriteByte | logs/logs.go:169-213 | performs one byte's step of the loop; the buffer ends with the byte |
| Logs.RootLogWriter.WriteAt | logs/logs.go:169-213 | one round of the loop extends Run by the byte and keeps the loop invariant |
| Logs.RootLogWriter.WriteBytes | logs/logs.go:169-213 | the loop performs Run over all the bytes; written plus buffered equals the byte count |
| Logs.RootLogWriter.WriteScope | logs/logs.go:90-217 | returns len(b); the output grows by the WriteTrace decoration and bytes; the marks and line state are those of the trace |
| Logs.RootLogWriter.Write | logs/logs.go:70-72 | WriteScope under the writer's own scope |
| Logs.SubsystemLogWriter.constructor | logs/logs.go:219-223 | the writer has its parent and scope |
| Logs.SubsystemLogWriter.GetScope | logs/logs.go:244-246 | forwards to the parent |
| Logs.SubsystemLogWriter.Subsystem | logs/logs.go:240-242 | a subsystem on the same root under the nested subsystem name |
| Logs.SubsystemLogWriter.WriteScope | logs/logs.go:248-250 | forwards to the root with the same effect as the root's WriteScope |
| Logs.SubsystemLogWriter.Write | logs/logs.go:232-234 | writes under the writer's own scope through the root |

## Left out

- QueueModel.Queue.Get: the nil receiver (`q == nil`) is not modelled; methods are called on an allocated queue.
- QueueModel.Queue.Pop: does not model uint wrap-around of `count`. The proved invariant count == length makes the `count > 0` guard always true on a pop.
- QueueModel.Queue.Push: does not model uint wrap-around of `count`; `count` is unbounded.
- SchemaRunConfig.CommandResolution: `shlex.Split` is a function returning the words or a failure. On a failure the model's command is empty; if the library returns the words lexed before its error, resolver.Resolve would store those in `result.Command` (schema/runconfig.go:83-86, 146), which the model does not capture.
- Filter.Scanner.Scan: bufio.Scanner's buffer size limit (ErrTooLong) and its no-progress guard (ErrNoProgress) are not modelled. The reader is a finite list of chunks that may fail after its last chunk.
- Filter.Scanner.Fill: reads that return no data and no error are retried as bufio does, but without its limit of 100 such reads in a row, after which bufio reports ErrNoProgress.
- Filter.LineFilter: the filter is a total function on bytes and each write either succeeds or fails whole. Partial writes are not modelled.
- Strings are sequences of characters. Replacements treat each Go rune as one character, and logs and filter work on bytes. UTF-8 encoding is not modelled.
- Go's map iteration order is not modelled. Loops over maps take keys in some order. Results that depend on the order are stated for the order used, returned as a ghost value.
- Regular expressions (`regexp.Compile`, `MatchString`, `ReplaceAllString`) and `shlex.Split` are parameters whose behaviour the model does not fix.
- Error messages built with `fmt.Errorf` are modelled as datatype values naming the failing input. Their text is not.
- The log writer's mutex is left out: calls are sequential. The target writer is an append-only byte sequence that accepts every write. The partial-write and error paths of WriteScope (logs/logs.go:116, 140-142, 152-164, 184-186, 205-207) are therefore not modelled.
- The decorator's `prefixTemplate` and `fmt.Sprintf` (logs/logs.go:299-301) and the `writerPrinter` Print methods (logs/logs.go:252-266) are formatting and are not modelled. The template is taken as empty.
- `Decorator` is an interface in Go. The model uses `defaultDecorator` only, the decorator `New` installs.
- `WriteString` behaves exactly like `Write`, so it is not a separate member.
- A subsystem of a subsystem forwards through its parent chain to the root. The model holds the root directly, which forwards the same calls.
- The Pipeline, Logs and Result fields of `PipelineStatus` and the constant EVENT_STARTUP_COMPLETE are not used by any modelled operation.
- `Pipeline` and `Step` keep only the fields that `FindAllEnv` reads.
- The variadic `envs ...map[string]Env` of MergeEnv is a sequence of maps.
- The plugin RPC bridge, the synchronised and blocking queues, crypto, streams and exe are not part of this model.

## Findings

| source | as written | input that shows it | evidently intended | confidence | as-written member | corrected member |
|---|---|---|---|---|---|---|
| filter/filter.go:38-44 | After a CR ends one read, the next call clears `afterCR` and consumes a leading LF without a token. The step returns advance 1 and no token even when atEOF is set. bufio.Scanner stops at end of input after a call that returns no token, so the data after the LF is never split. | Reads "a\r" and then "\nb", where the second read also reports EOF: the lines emitted are only "a". | Every line of the input is emitted, here "a" and "b", however the reads are cut | not executed | Filter.CrLfAcrossFinalReadDropsLine | Filter.SplitStepFixed, Filter.FixedScanIsLines |

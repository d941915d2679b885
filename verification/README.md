# Verified model of the password generator's option handling

This project is a Dafny model of a command-line password generator written in Rust. It covers two parts of the program:

- the configuration pipeline in `src/cli.rs`: the option tokenizer (`is_arg`, `parse_single_arg`, `parse_args`), the layered resolver `construct_features`, and the dispatcher `process_and_execute_args`;
- the password assembly in `src/generation_logic.rs`: the per-class random character helpers and `generate_password`.

The model makes every external input an explicit parameter:

- The process environment is a `map<string, string>` snapshot.
- The SQLite profile table is a `map<string, Settings>` keyed by profile name. Insert fails on a duplicate name and retrieve returns `None` for a missing one.
- The random number generator is an oracle `pick(k, lo, hi)`: the `k`-th draw from the inclusive range. It is assumed to stay in range.
- The dictionary-word generator is a finite prefix of its output stream.

Modules, one per component:

| file | module | models |
|---|---|---|
| basics.dfy | `Basics` | `Option`, `Result`, sequence flattening |
| std_parse.dfy | `StdParse` | Rust's `str::parse::<usize>` (64-bit) and `str::parse::<bool>` |
| cli_args.dfy | `CliArgs` | `ArgType`, `ArgValue`, `Argument`, the two flag tables, value typing, `parse_args` |
| generation.dfy | `Generation` | `GenerationData`, the character helpers, `generate_password` |
| profile_store.dfy | `ProfileStore` | the logical contract of insert, retrieve and delete on the profile table |
| resolver.dfy | `Resolver` | `construct_features`: defaults, environment, arguments, save-or-load |
| dispatch.dfy | `Dispatch` | `process_and_execute_args` |

The program's source does not type-check as a whole. `GenerationData::new` (src/generation_logic.rs:30) takes five plain arguments, but `construct_features` passes it seven `Option`s (src/cli.rs:252-258) and assigns a `profile` field (src/cli.rs:263). The model's record therefore holds the five generation fields (`Settings`), `profile: Option<string>` and the transient `overwrite: Option<bool>`. `construct_features` always passes concrete values, so "absent means default" is not modelled.

Behaviour of the code that a reader might not expect, all modelled as written:

- `--overwrite` is parsed but never consulted (the TODO at src/cli.rs:261-262 says so). Saving under a taken name always fails and leaves the stored row alone.
- `--minlength 0` is accepted. Nothing checks that the minimum length is at least 1; the help text (src/cli.rs:295) says only "min password length".
- Giving both `--new_profile` and `--profile` is not an error. Saving wins.
- A loaded profile is returned as stored. Flags given next to `--profile` have no effect, and neither does the environment.
- Loading a missing profile panics (`unwrap`). The model reports this as `Failure(ProfileNotFound(name))`, not as a fallback to defaults.
- Deleting a name with no row is not an error. SQL `DELETE` of zero rows succeeds.
- A profile name that reads as an integer or boolean (`--new_profile 123`, `--new_profile true`) is typed `Int` or `Bool`. The resolver then neither saves nor loads it; it prints "invalid arg value for given arg type" (src/cli.rs:232-234, 242-244), which the model does not represent. A text value on a kind that takes no text, an option with no value, and `Argument::Error` are ignored without a message (src/cli.rs:215, 248).

## Model

| member | source | states |
|---|---|---|
| StdParse.ParseUsize | src/cli.rs:80-85 | integer values succeed exactly on an optional '+' followed by at least one ASCII digit whose value fits in 64 bits, and yield that value |
| StdParse.CheckedDigits | src/cli.rs:80 | a successful digit loop has seen only decimal digits from its start position on, and never lowers the running value |
| StdParse.CheckedDigitsValue | src/cli.rs:80-82 | the overflow-checked digit loop accepts exactly the digit strings whose value is at most the `usize` maximum |
| StdParse.UsizeRoundTrip | src/cli.rs:80-82 | rendering a `usize` in decimal and parsing it back, with or without '+', gives the same number |
| StdParse.NegativeRejected | src/cli.rs:80-85 | nothing that starts with '-' is an integer value |
| StdParse.ParseBool | src/cli.rs:177-196 | a boolean environment value is accepted exactly when it is "true" or "false" |
| CliArgs.IsArg | src/cli.rs:34-73 | `is_arg` holds exactly for the eleven flag strings, each of which starts with `--` |
| CliArgs.ArgTypeOf | src/cli.rs:88-127 | the flag-to-kind match gives a real kind exactly for the eleven flag strings, and `Error` for every other string |
| CliArgs.FlagName | src/cli.rs:88-127 | every option kind has a flag string, which is one of the eleven flags and maps back to that kind |
| CliArgs.FlagTablesAgree | src/cli.rs:34-127 | `is_arg` holds exactly for the eleven flags, exactly the strings the kind table maps to a real kind, each the name of its kind |
| CliArgs.ParseValue | src/cli.rs:75-87 | "true"/"false" become Bool, "" becomes NoValue, `usize`-parsable text becomes Int, anything else becomes String carrying the text; the Error value is never produced |
| CliArgs.ParseSingleArg | src/cli.rs:74-134 | the result is `Argument::Error` exactly when `is_arg` rejects the flag; otherwise it carries the flag's kind and the typed value |
| CliArgs.FailureDependsOnlyOnFlag | src/cli.rs:128-133 | whether parsing fails never depends on the value |
| CliArgs.ParseArgs | src/cli.rs:135-164 | the output has between half (rounded up) and all of the input's length |
| CliArgs.ParseArgsLoop | src/cli.rs:135-164 | the cursor loop with `arg_idx` and `inc` computes exactly the recursive tokenizer |
| CliArgs.Groups | src/cli.rs:138-162 | the tokens split in order into units of a flag alone or a flag and one non-flag value, and a flag stands alone only when last or followed by a flag |
| CliArgs.GroupingUnique | src/cli.rs:141-161 | that split is the only one satisfying the lookahead rule |
| CliArgs.ParseArgsByGroups | src/cli.rs:135-164 | the tokenizer parses the split unit by unit, so it keeps input order and consumes every token once |
| CliArgs.UnknownFlagSwallowsValue | src/cli.rs:141-150 | an unknown token followed by a non-flag becomes one `Argument::Error` and swallows that token |
| CliArgs.FlagValueCollision | src/cli.rs:141-155 | a value spelled like a flag is read as the next option, and the flag before it gets no value |
| CliArgs.TokenizeRoundTrip | src/cli.rs:74-164 | a flag followed by the rendering of any representable value tokenizes back to exactly that kind and value |
| CliArgs.DetectHelpArgument | src/cli.rs:350-357 | `--help` alone parses as Help with no value, as a single argument and as a one-token line |
| CliArgs.ParseSingleArgument | src/cli.rs:360-366 | `("--minlength","8")` parses as MinimumLength/Int(8) and `("--use_dict_words","true")` as UseWords/Bool(true) |
| CliArgs.ParseArgsFromVec | src/cli.rs:367-373 | `["--minlength","8"]` tokenizes to exactly one MinimumLength/Int(8) argument |
| CliArgs.TwoOptionsInOrder | src/cli.rs:135-164 | `["--include_ucase","true","--minlength","10"]` gives IncludeUcase/Bool(true) then MinimumLength/Int(10), in input order |
| Generation.GenerateRandomChar | src/generation_logic.rs:5-9 | the character drawn lies in the requested inclusive range |
| Generation.GenerateLcaseChar | src/generation_logic.rs:10-12 | the character is in 'a'..'z' |
| Generation.GenerateUcaseChar | src/generation_logic.rs:13-15 | the character is in 'A'..'Z' |
| Generation.GenerateNumericChar | src/generation_logic.rs:16-18 | the character is in '0'..'9' |
| Generation.GenerateSpecialChar | src/generation_logic.rs:19-21 | the character is in '!'..'~' |
| Generation.IncludedClassesCount | src/generation_logic.rs:58-66 | one optional character per enabled flag, of that flag's class, and never a lower-case one |
| Generation.LowercaseRun | src/generation_logic.rs:54-56 | the lower-case loop yields exactly the requested number of characters, all in 'a'..'z', in draw order |
| Generation.IncludeChars | src/generation_logic.rs:58-66 | the tail holds a digit, a special character and an upper-case letter, each only if enabled and in that order |
| Generation.FillWords | src/generation_logic.rs:42-51 | when the word loop finishes, the password has reached the minimum length and every appended word came from the source |
| Generation.FreshWords | src/generation_logic.rs:43-51 | the words the loop would append if it never stopped: only unused source words, every unused source word, and none twice |
| Generation.FillWordsSucceedsIff | src/generation_logic.rs:41-51 | the word loop reaches the minimum length exactly when the password so far plus every fresh source word is long enough |
| Generation.FillWordsConsistent | src/generation_logic.rs:41-51 | the word loop never appends a word twice, and the password is the appended words in order |
| Generation.GeneratePassword | src/generation_logic.rs:39-68 | length is at least the minimum plus the enabled flags; without words it is exactly that, starting with lower-case letters; the tail follows the class order |
| Generation.WordPasswordShape | src/generation_logic.rs:41-57 | with words, the base part is distinct source words at least the minimum long, followed by the optional tail |
| ProfileStore.InsertUserProfile | src/database.rs:47-84 | insert fails exactly when the name already has a row, and otherwise adds that row and changes no other |
| ProfileStore.RetrieveProfileSettings | src/database.rs:88-123 | retrieve gives `None` exactly for a missing name, else the stored fields bound to the name with no overwrite flag |
| ProfileStore.DeleteUserProfile | src/database.rs:37-46 | delete removes the name and keeps every other row |
| ProfileStore.InsertThenRetrieve | src/database.rs:147-162 | a profile saved under a fresh name reads back equal in every stored field |
| ProfileStore.DuplicateInsertKeepsRow | src/database.rs:9-24 | inserting under a taken name fails with a duplicate-name error and the original row still reads back |
| ProfileStore.InsertKeepsOtherProfiles | src/database.rs:47-84 | inserting one profile does not change how any other name reads |
| ProfileStore.InsertThenDelete | src/database.rs:147-162 | inserting then deleting a fresh profile restores the table |
| Resolver.ApplyEnv | src/cli.rs:172-196 | with none of the five variables set the defaults pass through; a field that changed is set from its own variable, whose text parses to the new value |
| Resolver.EnvVarOnlyOwnField | src/cli.rs:172-196 | each environment variable can change only its own field |
| Resolver.EnvUnparsableIgnored | src/cli.rs:172-196 | an environment value that does not parse counts as unset |
| Resolver.EnvParsedValueWins | src/cli.rs:172-196 | an environment value that parses replaces its field |
| Resolver.EnvOnlyKnownVars | src/cli.rs:172-196 | only MIN_LENGTH, INCLUDE_NUMBERS, INCLUDE_SPECIAL, INCLUDE_UCASE and USE_WORDS are read |
| Resolver.ApplyArgument | src/cli.rs:203-249 | one loop iteration: an argument that assigns nothing leaves the state unchanged, and one that does changes no field but its own |
| Resolver.ScanArguments | src/cli.rs:201-251 | the loop over all arguments in order; with no assigning argument the starting state is returned |
| Resolver.LastWriter | src/cli.rs:201-251 | the position of the last argument that assigns a field: that argument assigns it and no later one does, or none does at all |
| Resolver.NonWritingArgumentIgnored | src/cli.rs:201-250 | `Argument::Error`, valueless options and mismatched kind/value pairs leave every field unchanged |
| Resolver.WritingArgumentOwnField | src/cli.rs:203-247 | a Bool, Int or String argument of the matching kind sets its own field only |
| Resolver.LastWriteWins | src/cli.rs:201-250 | after the argument loop each field holds the value of the last argument that assigns it, or its earlier value if none does |
| Resolver.ConstructFeatures | src/cli.rs:165-283 | save beats load; a save returns the merged record bound to the last new name and adds it only if free; a load returns the stored record verbatim or fails if missing; otherwise the merged record is unbound |
| Resolver.DefaultsWhenNothingGiven | src/cli.rs:165-258 | with no arguments and no parsable environment, the result is length 8, no digits, special or upper case, words on, no profile, overwrite false |
| Resolver.SaveRecordIndependentOfStore | src/cli.rs:259-275 | a save returns the same record whether the insert succeeds or fails |
| Resolver.SaveThenLoad | src/cli.rs:259-281 | saving under a fresh name then loading it returns the saved settings |
| Resolver.LoadIgnoresOtherLayers | src/cli.rs:276-281 | a load ignores the environment and every other argument |
| Resolver.SaveExistingNameKeepsStore | src/cli.rs:259-275 | saving under a taken name leaves the store unchanged and still returns the merged settings |
| Resolver.NumericProfileNameTyped | src/cli.rs:75-87 | the profile name `123` is typed as an integer, not as text |
| Resolver.NumericProfileNameNotSaved | src/cli.rs:205-246 | so `--new_profile 123` saves nothing and resolves as if no argument were given |
| Resolver.OverwriteFlagIgnored | src/cli.rs:203-250 | `--overwrite` has no effect, whatever its value |
| Dispatch.IsTerminal | src/cli.rs:291-313 | an argument ends the run exactly when it is `--help` or `--list_profiles` with any value, or `--profile_info` with a text value |
| Dispatch.TerminalAction | src/cli.rs:291-319 | `--help` prints help, `--list_profiles` lists profiles, `--profile_info` shows the named profile; none of them generates |
| Dispatch.FirstTerminal | src/cli.rs:289-331 | the position of the first terminal argument: it is terminal and none before it is, or no argument is |
| Dispatch.ProcessAndExecuteArgs | src/cli.rs:286-337 | the first Help, ListProfiles, or text-valued ProfileInfo argument decides the action; with none, the result is the resolver's on all arguments |
| Dispatch.FirstTerminalAt | src/cli.rs:289-331 | a terminal argument preceded by no other is the one that decides |
| Dispatch.FirstTerminalNone | src/cli.rs:289-332 | with no terminal argument, nothing decides and generation follows |
| Dispatch.ProfileInfoWithoutNameFallsThrough | src/cli.rs:313-329 | `--profile_info` without a text value does not end the run |
| Dispatch.HelpFirstWins | src/cli.rs:289-306 | a leading `--help` decides the action whatever follows |

## Left out

- `src/main.rs`: process start-up, database initialisation, the `args.contains` pre-dispatch, printing the password and `exit(1)`. `main` never calls `process_and_execute_args`; it calls `parse_args` and `construct_features` directly (src/main.rs:44-48), so the modelled dispatcher is not reached from the program's entry point.
- The pre-dispatch in `main` (src/main.rs:20-43) is not the modelled dispatcher. It tests the raw strings by fixed priority (`--help`, then `--list_profiles`, then `--profile_info`) wherever they appear, where `process_and_execute_args` takes the first terminal argument in order: on `--list_profiles --help`, `main` prints the help text while the dispatcher lists profiles. `main` also stops on a bare `--profile_info`, which the dispatcher passes over (src/cli.rs:313).
- All `println!` diagnostics and the help text. Terminal actions are represented only by the `Action` they select.
- `dotenv::dotenv()` and `env::var`. The environment is a snapshot parameter, so a variable whose value is not valid Unicode cannot be represented.
- `print_profiles` and `print_single_profile` are called but not defined in the source, so listing profiles and showing one profile are not modelled. The insertion-ordered listing is not modelled either.
- `modify_single_setting` is not modelled: its SQL is malformed and nothing calls it.
- `create_connection`, `initialize_db` and connection closing are not modelled; the table is a map parameter.
- StdParse.ParseUsize: Rust's three error kinds (empty, invalid digit, overflow) collapse to `None`, because no caller tells them apart. A 64-bit `usize` is assumed.
- ProfileStore.InsertUserProfile: the database library's refusal to store a length above the signed 64-bit range is not modelled, because that conversion lives in a library whose code is not part of this model. The source's panic on an unnamed record is a precondition.
- Resolver.ConstructFeatures: the panic on loading a missing profile is returned as `Failure(ProfileNotFound(name))`, not modelled as an abort.
- Generation.GeneratePassword: the word source is a finite prefix of the word generator's output. The result is `None` when that prefix runs out before the minimum length is reached. Termination of the real loop depends on a word list this model cannot see.
- Generation.GeneratePassword: `String::len` counts bytes. The model counts characters, which agrees for the ASCII letters and words the loops append.
- The random-word and random-number libraries are oracles. Their distributions are not modelled, only their range contracts.

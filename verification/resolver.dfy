/** The layered configuration resolver `construct_features`: compiled-in
    defaults, then environment overrides, then the parsed arguments applied
    in order, then the save-or-load step against the profile store. The
    process environment is an explicit snapshot and the store an explicit
    map; the store that results is returned next to the record. */
module Resolver {
  import opened Basics
  import opened StdParse
  import opened CliArgs
  import opened Generation
  import opened ProfileStore

  /** A snapshot of the process environment (after `.env` loading). */
  type Env = map<string, string>

  /** Length 8, no digits, no special characters, no upper case, words. */
  const DEFAULT_SETTINGS := Settings(8, false, false, false, true)

  /** The environment variables the resolver reads. */
  const ENV_VARS: set<string> :=
    {"MIN_LENGTH", "INCLUDE_NUMBERS", "INCLUDE_SPECIAL", "INCLUDE_UCASE", "USE_WORDS"}

  /** A variable's value, when set and accepted by `usize::from_str`. */
  function EnvUsize(env: Env, name: string): Option<usize> {
    if name in env then ParseUsize(env[name]) else None
  }

  /** A variable's value, when set and accepted by `bool::from_str`. */
  function EnvBool(env: Env, name: string): Option<bool> {
    if name in env then ParseBool(env[name]) else None
  }

  /** The `if let Ok(v) = ...parse() { field = v }` step: the parsed value
      when there is one, otherwise the current value. */
  function Override<T>(current: T, parsed: Option<T>): T {
    match parsed
    case Some(v) => v
    case None => current
  }

  /** The text `bool::from_str` reads as `b`. */
  function BoolText(b: bool): string {
    if b then "true" else "false"
  }

  /** The environment layer: each variable, when set and parsable, replaces
      its field; otherwise the field keeps its previous value. With none of
      the five variables set the record is unchanged, and a field that
      changed holds what its own variable spells. */
  function ApplyEnv(s: Settings, env: Env): (r: Settings)
    ensures ENV_VARS !! env.Keys ==> r == s
    ensures r.minimumLength != s.minimumLength ==>
              "MIN_LENGTH" in env && ParseUsize(env["MIN_LENGTH"]) == Some(r.minimumLength)
    ensures r.includeNumbers != s.includeNumbers ==>
              "INCLUDE_NUMBERS" in env && env["INCLUDE_NUMBERS"] == BoolText(r.includeNumbers)
    ensures r.includeSpecial != s.includeSpecial ==>
              "INCLUDE_SPECIAL" in env && env["INCLUDE_SPECIAL"] == BoolText(r.includeSpecial)
    ensures r.includeUcase != s.includeUcase ==>
              "INCLUDE_UCASE" in env && env["INCLUDE_UCASE"] == BoolText(r.includeUcase)
    ensures r.useWords != s.useWords ==>
              "USE_WORDS" in env && env["USE_WORDS"] == BoolText(r.useWords)
  {
    var s1 := s.(minimumLength := Override(s.minimumLength, EnvUsize(env, "MIN_LENGTH")));
    var s2 := s1.(includeNumbers := Override(s1.includeNumbers, EnvBool(env, "INCLUDE_NUMBERS")));
    var s3 := s2.(includeSpecial := Override(s2.includeSpecial, EnvBool(env, "INCLUDE_SPECIAL")));
    var s4 := s3.(includeUcase := Override(s3.includeUcase, EnvBool(env, "INCLUDE_UCASE")));
    s4.(useWords := Override(s4.useWords, EnvBool(env, "USE_WORDS")))
  }

  /** The settings field an environment variable or an option kind targets. */
  function EnvVarField(name: string): ArgType
    requires name in ENV_VARS
  {
    match name
    case "MIN_LENGTH" => MinimumLength
    case "INCLUDE_NUMBERS" => IncludeNumbers
    case "INCLUDE_SPECIAL" => IncludeSpecial
    case "INCLUDE_UCASE" => IncludeUcase
    case _ => UseWords
  }

  /** Whether a value is accepted for a variable. */
  predicate EnvValueParses(name: string, v: string) {
    if name == "MIN_LENGTH" then ParseUsize(v).Some? else ParseBool(v).Some?
  }

  /** The two records agree on the field of kind `t` (kinds that are not a
      settings field impose nothing). */
  predicate SameSetting(a: Settings, b: Settings, t: ArgType) {
    match t
    case MinimumLength => a.minimumLength == b.minimumLength
    case IncludeNumbers => a.includeNumbers == b.includeNumbers
    case IncludeSpecial => a.includeSpecial == b.includeSpecial
    case IncludeUcase => a.includeUcase == b.includeUcase
    case UseWords => a.useWords == b.useWords
    case _ => true
  }

  /** Setting one environment variable can change only its own field. */
  lemma EnvVarOnlyOwnField(s: Settings, env: Env, name: string, v: string)
    requires name in ENV_VARS
    ensures forall t {:trigger SameSetting(ApplyEnv(s, env[name := v]), ApplyEnv(s, env - {name}), t)} ::
              t != EnvVarField(name) ==> SameSetting(ApplyEnv(s, env[name := v]), ApplyEnv(s, env - {name}), t)
  {
    var env1, env2 := env[name := v], env - {name};
    forall n | n in ENV_VARS && n != name
      ensures EnvUsize(env1, n) == EnvUsize(env2, n) && EnvBool(env1, n) == EnvBool(env2, n)
    {
      assert (n in env1 <==> n in env2) && (n in env1 ==> env1[n] == env2[n]);
    }
  }

  /** A variable whose value does not parse is as good as unset. */
  lemma EnvUnparsableIgnored(s: Settings, env: Env, name: string, v: string)
    requires name in ENV_VARS && !EnvValueParses(name, v)
    ensures ApplyEnv(s, env[name := v]) == ApplyEnv(s, env - {name})
  {
  }

  /** A variable whose value parses sets its field to that value. */
  lemma EnvParsedValueWins(s: Settings, env: Env, name: string, v: string)
    requires name in ENV_VARS && EnvValueParses(name, v)
    ensures var r := ApplyEnv(s, env[name := v]);
            match name
            case "MIN_LENGTH" => r.minimumLength == ParseUsize(v).value
            case "INCLUDE_NUMBERS" => r.includeNumbers == (v == "true")
            case "INCLUDE_SPECIAL" => r.includeSpecial == (v == "true")
            case "INCLUDE_UCASE" => r.includeUcase == (v == "true")
            case _ => r.useWords == (v == "true")
  {
  }

  /** Variables other than the five are never read. */
  lemma EnvOnlyKnownVars(s: Settings, env1: Env, env2: Env)
    requires forall name :: name in ENV_VARS ==> (name in env1 <==> name in env2)
    requires forall name :: name in ENV_VARS && name in env1 ==> env1[name] == env2[name]
    ensures ApplyEnv(s, env1) == ApplyEnv(s, env2)
  {
    assert EnvUsize(env1, "MIN_LENGTH") == EnvUsize(env2, "MIN_LENGTH");
    assert forall name :: name in ENV_VARS ==> EnvBool(env1, name) == EnvBool(env2, name);
  }

  /** The state of the argument loop: the merged settings and the profile
      names to save under and to load, when given. */
  datatype Scan = Scan(settings: Settings, newProfile: Option<string>, existingProfile: Option<string>)

  /** An argument assigns the field of kind `t`: a text value for the two
      profile-name kinds, a boolean for the four boolean kinds, an integer
      for the minimum length. Every other pairing assigns nothing. */
  predicate Writes(a: Argument, t: ArgType) {
    && a.ParsedArgument?
    && a.kind == t
    && match t
       case MinimumLength => a.value.Int?
       case IncludeNumbers | IncludeSpecial | IncludeUcase | UseWords => a.value.Bool?
       case NewProfile | Profile => a.value.String?
       case _ => false
  }

  /** The argument assigns the field its own kind names. */
  predicate Assigns(a: Argument) {
    a.ParsedArgument? && Writes(a, a.kind)
  }

  /** The two loop states agree on the field of kind `t`. */
  predicate SameField(a: Scan, b: Scan, t: ArgType) {
    match t
    case NewProfile => a.newProfile == b.newProfile
    case Profile => a.existingProfile == b.existingProfile
    case _ => SameSetting(a.settings, b.settings, t)
  }

  /** One iteration of the argument loop: an argument that assigns nothing
      leaves the state as it was, and one that does changes no field but
      its own. */
  function ApplyArgument(st: Scan, a: Argument): (r: Scan)
    ensures !Assigns(a) ==> r == st
    ensures a.ParsedArgument? ==> forall t :: t != a.kind ==> SameField(r, st, t)
  {
    match a
    case Error => st
    case ParsedArgument(t, v) =>
      match v
      case String(name) =>
        if t == NewProfile then st.(newProfile := Some(name))
        else if t == Profile then st.(existingProfile := Some(name))
        else st
      case Bool(b) =>
        if t in {IncludeNumbers, IncludeSpecial, IncludeUcase, UseWords}
        then st.(settings := SetBool(st.settings, t, b))
        else st
      case Int(n) =>
        if t == MinimumLength then st.(settings := st.settings.(minimumLength := n)) else st
      case _ => st
  }

  /** An argument that assigns nothing (an `Argument::Error`, a valueless
      option, or a kind paired with the wrong type of value, such as
      `--overwrite true` or `--new_profile 12`) leaves the state unchanged. */
  lemma NonWritingArgumentIgnored(st: Scan, a: Argument)
    requires !Assigns(a)
    ensures ApplyArgument(st, a) == st
  {
  }

  /** An argument that assigns a field changes that field only, to its value. */
  lemma WritingArgumentOwnField(st: Scan, a: Argument)
    requires Assigns(a)
    ensures forall t :: t != a.kind ==> SameField(ApplyArgument(st, a), st, t)
    ensures var r := ApplyArgument(st, a);
            match a.value
            case Bool(b) => r.settings == SetBool(st.settings, a.kind, b)
            case Int(n) => r.settings.minimumLength == n
            case String(name) =>
              if a.kind == NewProfile then r.newProfile == Some(name) else r.existingProfile == Some(name)
            case _ => false
  {
  }

  /** The settings record with the boolean field of kind `t` replaced. */
  function SetBool(s: Settings, t: ArgType, b: bool): Settings {
    match t
    case IncludeNumbers => s.(includeNumbers := b)
    case IncludeSpecial => s.(includeSpecial := b)
    case IncludeUcase => s.(includeUcase := b)
    case UseWords => s.(useWords := b)
    case _ => s
  }

  /** The boolean field of kind `t`. */
  function BoolSetting(s: Settings, t: ArgType): bool
    requires t in {IncludeNumbers, IncludeSpecial, IncludeUcase, UseWords}
  {
    match t
    case IncludeNumbers => s.includeNumbers
    case IncludeSpecial => s.includeSpecial
    case IncludeUcase => s.includeUcase
    case UseWords => s.useWords
  }

  /** The argument loop over the whole sequence, in order. Arguments that
      assign nothing leave the starting state as it was. */
  function ScanArguments(st: Scan, args: seq<Argument>): (r: Scan)
    ensures (forall j :: 0 <= j < |args| ==> !Assigns(args[j])) ==> r == st
    decreases |args|
  {
    if |args| == 0 then st else ApplyArgument(ScanArguments(st, args[..|args| - 1]), args[|args| - 1])
  }

  /** The position of the last argument that assigns the field of kind `t`. */
  function LastWriter(args: seq<Argument>, t: ArgType): (r: Option<nat>)
    ensures r.Some? ==> r.value < |args| && Writes(args[r.value], t)
    ensures r.Some? ==> forall j :: r.value < j < |args| ==> !Writes(args[j], t)
    ensures r.None? ==> forall j :: 0 <= j < |args| ==> !Writes(args[j], t)
    decreases |args|
  {
    if |args| == 0 then None
    else if Writes(args[|args| - 1], t) then Some(|args| - 1)
    else LastWriter(args[..|args| - 1], t)
  }

  /** Last write wins, per field: after the loop each field holds the value
      of the last argument that assigns it, or its value before the loop
      when no argument does. */
  lemma {:induction false} LastWriteWins(st: Scan, args: seq<Argument>, t: ArgType)
    ensures var r := ScanArguments(st, args);
            var w := LastWriter(args, t);
            && (t in {IncludeNumbers, IncludeSpecial, IncludeUcase, UseWords} ==>
                  BoolSetting(r.settings, t) == if w.Some? then args[w.value].value.b else BoolSetting(st.settings, t))
            && (t == MinimumLength ==>
                  r.settings.minimumLength == if w.Some? then args[w.value].value.n else st.settings.minimumLength)
            && (t == NewProfile ==>
                  r.newProfile == if w.Some? then Some(args[w.value].value.s) else st.newProfile)
            && (t == Profile ==>
                  r.existingProfile == if w.Some? then Some(args[w.value].value.s) else st.existingProfile)
    decreases |args|
  {
    if |args| > 0 {
      var pre := args[..|args| - 1];
      var last := args[|args| - 1];
      LastWriteWins(st, pre, t);
      if !Writes(last, t) {
        assert LastWriter(args, t) == LastWriter(pre, t);
        var w := LastWriter(pre, t);
        assert w.Some? ==> args[w.value] == pre[w.value];
        if Assigns(last) {
          WritingArgumentOwnField(ScanArguments(st, pre), last);
        } else {
          NonWritingArgumentIgnored(ScanArguments(st, pre), last);
        }
      }
    }
  }

  /** The text of the last text-valued argument of kind `t`, if any. */
  function LastName(args: seq<Argument>, t: ArgType): Option<string>
    requires t == NewProfile || t == Profile
  {
    var w := LastWriter(args, t);
    if w.Some? then Some(args[w.value].value.s) else None
  }

  datatype ResolveError = ProfileNotFound(name: string)

  /** Defaults, then the environment layer: the loop's starting state. */
  function InitialScan(env: Env): Scan {
    Scan(ApplyEnv(DEFAULT_SETTINGS, env), None, None)
  }

  /** The arguments the resolver sees; an absent argument vector means none. */
  function ArgumentsOf(input: Option<seq<Argument>>): seq<Argument> {
    match input
    case Some(args) => args
    case None => []
  }

  /** Defaults, environment and explicit arguments merged, last write wins. */
  function MergedSettings(input: Option<seq<Argument>>, env: Env): Settings {
    ScanArguments(InitialScan(env), ArgumentsOf(input)).settings
  }

  /** `construct_features`. Saving takes precedence over loading: with a
      `--new_profile` name the merged record is bound to the last such name,
      inserted when the name is free, and returned whether or not the insert
      succeeded. Otherwise, with a `--profile` name, the stored record is
      returned verbatim, and a missing name is a failure (the source unwraps
      `None`). Otherwise the merged record is returned unbound. */
  function ConstructFeatures(input: Option<seq<Argument>>, env: Env, store: Store)
    : (r: Result<(GenerationData, Store), ResolveError>)
    ensures var args := ArgumentsOf(input);
            var save := LastName(args, NewProfile);
            var load := LastName(args, Profile);
            && (r.Failure? <==> save.None? && load.Some? && load.value !in store)
            && (r.Failure? ==> r.error == ProfileNotFound(load.value))
            && (save.Some? ==>
                  && r.Success?
                  && r.value.0 == GenerationData(MergedSettings(input, env), save, Some(false))
                  && r.value.1 == if save.value in store then store else store[save.value := MergedSettings(input, env)])
            && (save.None? && load.Some? && load.value in store ==>
                  r == Success((GenerationData(store[load.value], load, None), store)))
            && (save.None? && load.None? ==>
                  r == Success((GenerationData(MergedSettings(input, env), None, Some(false)), store)))
  {
    var args := ArgumentsOf(input);
    var scan := ScanArguments(InitialScan(env), args);
    LastWriteWins(InitialScan(env), args, NewProfile);
    LastWriteWins(InitialScan(env), args, Profile);
    var data := GenerationData(scan.settings, None, Some(false));
    if scan.newProfile.Some? then
      var saved := data.(profile := scan.newProfile);
      var inserted := InsertUserProfile(store, saved);
      Success((saved, if inserted.Success? then inserted.value else store))
    else if scan.existingProfile.Some? then
      match RetrieveProfileSettings(store, scan.existingProfile.value)
      case Some(loaded) => Success((loaded, store))
      case None => Failure(ProfileNotFound(scan.existingProfile.value))
    else
      Success((data, store))
  }

  /** With no arguments and no parsable environment override, the result is
      the default record of src/cli.rs:167-171 and the store is untouched. */
  lemma DefaultsWhenNothingGiven(env: Env, store: Store)
    requires EnvUsize(env, "MIN_LENGTH").None?
    requires forall name :: name in ENV_VARS - {"MIN_LENGTH"} ==> EnvBool(env, name).None?
    ensures ConstructFeatures(None, env, store)
            == Success((GenerationData(Settings(8, false, false, false, true), None, Some(false)), store))
    ensures ConstructFeatures(Some([]), env, store) == ConstructFeatures(None, env, store)
  {
    assert "INCLUDE_NUMBERS" in ENV_VARS - {"MIN_LENGTH"};
    assert "INCLUDE_SPECIAL" in ENV_VARS - {"MIN_LENGTH"};
    assert "INCLUDE_UCASE" in ENV_VARS - {"MIN_LENGTH"};
    assert "USE_WORDS" in ENV_VARS - {"MIN_LENGTH"};
  }

  /** The record a save returns is the same whether or not the name was
      already taken; only the resulting store differs. */
  lemma SaveRecordIndependentOfStore(input: Option<seq<Argument>>, env: Env, store1: Store, store2: Store)
    requires LastName(ArgumentsOf(input), NewProfile).Some?
    ensures ConstructFeatures(input, env, store1).Success?
    ensures ConstructFeatures(input, env, store1).value.0 == ConstructFeatures(input, env, store2).value.0
  {
  }

  /** Saving under a fresh name and then loading that name returns the saved
      settings, bound to the name, whatever the environment of the second run. */
  lemma SaveThenLoad(args: seq<Argument>, env: Env, store: Store, env2: Env)
    requires LastName(args, NewProfile).Some? && LastName(args, NewProfile).value !in store
    ensures var first := ConstructFeatures(Some(args), env, store);
            var name := LastName(args, NewProfile).value;
            && first.Success?
            && name in first.value.1
            && ConstructFeatures(Some([ParsedArgument(Profile, String(name))]), env2, first.value.1)
               == Success((first.value.0.(overwrite := None), first.value.1))
  {
    var name := LastName(args, NewProfile).value;
    var load := [ParsedArgument(Profile, String(name))];
    assert LastWriter(load, NewProfile).None?;
    assert LastWriter(load, Profile) == Some(0);
  }

  /** Loading is authoritative: without a save, the outcome of a load depends
      only on the last profile name and the store, not on the environment or
      any other argument. */
  lemma LoadIgnoresOtherLayers(args: seq<Argument>, env: Env, store: Store)
    requires LastName(args, NewProfile).None? && LastName(args, Profile).Some?
    ensures var name := LastName(args, Profile).value;
            ConstructFeatures(Some(args), env, store)
            == ConstructFeatures(Some([ParsedArgument(Profile, String(name))]), map[], store)
  {
    var name := LastName(args, Profile).value;
    var load := [ParsedArgument(Profile, String(name))];
    assert LastWriter(load, NewProfile).None?;
    assert LastWriter(load, Profile) == Some(0);
  }

  /** A save request that names a profile already in the store leaves the
      store as it was, and the returned record is still the merged one. */
  lemma SaveExistingNameKeepsStore(input: Option<seq<Argument>>, env: Env, store: Store)
    requires LastName(ArgumentsOf(input), NewProfile).Some?
    requires LastName(ArgumentsOf(input), NewProfile).value in store
    ensures ConstructFeatures(input, env, store).Success?
    ensures ConstructFeatures(input, env, store).value.1 == store
    ensures ConstructFeatures(input, env, store).value.0.settings == MergedSettings(input, env)
  {
  }

  /** A profile name that reads as an integer is typed `Int`. */
  lemma NumericProfileNameTyped()
    ensures ParseArgs(["--new_profile", "123"]) == [ParsedArgument(NewProfile, Int(123))]
  {
    assert RenderUsize(123) == "123";
    ParseValueRenderInt(123);
    ParsePair("--new_profile", "123");
  }

  /** The save step ignores an `Int`-typed profile name: `--new_profile 123`
      saves nothing and the run proceeds as if no argument were given. */
  lemma NumericProfileNameNotSaved(env: Env, store: Store)
    ensures ConstructFeatures(Some(ParseArgs(["--new_profile", "123"])), env, store)
            == ConstructFeatures(None, env, store)
  {
    NumericProfileNameTyped();
    var args := [ParsedArgument(NewProfile, Int(123))];
    assert args[..0] == [];
    NonWritingArgumentIgnored(InitialScan(env), args[0]);
    assert MergedSettings(Some(args), env) == MergedSettings(None, env);
    assert LastWriter(args, NewProfile).None?;
    assert LastWriter(args, Profile).None?;
  }

  /** `--overwrite` is recognised but has no effect on the record. */
  lemma OverwriteFlagIgnored(st: Scan, v: ArgValue)
    ensures ApplyArgument(st, ParsedArgument(Overwrite, v)) == st
  {
  }
}

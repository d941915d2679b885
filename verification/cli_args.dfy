/** The command-line option tokenizer: the typed argument datatypes, the two
    flag tables (`is_arg` and the flag-to-kind match of `parse_single_arg`),
    value typing, and the left-to-right cursor scan `parse_args` with one
    token of lookahead. */
module CliArgs {
  import opened Basics
  import opened StdParse

  /** The option kinds; `Error` marks an unrecognised flag. */
  datatype ArgType =
    | MinimumLength
    | IncludeNumbers
    | IncludeSpecial
    | IncludeUcase
    | UseWords
    | Overwrite
    | Profile
    | Error
    | ListProfiles
    | ProfileInfo
    | Help
    | NewProfile

  /** A typed option value. `Error` exists in the source's enum but no code
      path produces it. */
  datatype ArgValue =
    | Bool(b: bool)
    | Int(n: usize)
    | String(s: string)
    | NoValue
    | Error

  datatype Argument =
    | ParsedArgument(kind: ArgType, value: ArgValue)
    | Error

  /** The eleven flag strings the program recognises. */
  const FLAGS: set<string> := {
    "--minlength", "--include_nums", "--include_spec", "--include_ucase",
    "--use_dict_words", "--overwrite", "--profile", "--help",
    "--new_profile", "--list_profiles", "--profile_info"
  }

  /** First flag table: is this token an option name? Exactly the eleven
      flags are, and each starts with two dashes. */
  function IsArg(input: string): (r: bool)
    ensures r <==> input in FLAGS
    ensures r ==> |input| >= 2 && input[0] == '-' && input[1] == '-'
  {
    match input
    case "--minlength" => true
    case "--include_nums" => true
    case "--include_spec" => true
    case "--include_ucase" => true
    case "--use_dict_words" => true
    case "--overwrite" => true
    case "--profile" => true
    case "--help" => true
    case "--new_profile" => true
    case "--list_profiles" => true
    case "--profile_info" => true
    case _ => false
  }

  /** Second flag table: the kind a flag string names; a real kind exactly
      for the eleven flags. */
  function ArgTypeOf(flag: string): (t: ArgType)
    ensures t != ArgType.Error <==> flag in FLAGS
  {
    match flag
    case "--minlength" => MinimumLength
    case "--include_nums" => IncludeNumbers
    case "--include_spec" => IncludeSpecial
    case "--include_ucase" => IncludeUcase
    case "--use_dict_words" => UseWords
    case "--overwrite" => Overwrite
    case "--profile" => Profile
    case "--help" => Help
    case "--new_profile" => NewProfile
    case "--list_profiles" => ListProfiles
    case "--profile_info" => ProfileInfo
    case _ => ArgType.Error
  }

  /** The flag string that names a kind; the inverse of `ArgTypeOf`. */
  function FlagName(t: ArgType): (flag: string)
    requires t != ArgType.Error
    ensures flag in FLAGS
    ensures ArgTypeOf(flag) == t
  {
    match t
    case MinimumLength => "--minlength"
    case IncludeNumbers => "--include_nums"
    case IncludeSpecial => "--include_spec"
    case IncludeUcase => "--include_ucase"
    case UseWords => "--use_dict_words"
    case Overwrite => "--overwrite"
    case Profile => "--profile"
    case Help => "--help"
    case NewProfile => "--new_profile"
    case ListProfiles => "--list_profiles"
    case ProfileInfo => "--profile_info"
  }

  /** The two flag tables agree: `is_arg` holds exactly for the eleven flags,
      which are exactly the strings the kind table maps to a real kind, and
      each such flag is the name of its kind. */
  lemma FlagTablesAgree(s: string)
    ensures IsArg(s) <==> s in FLAGS
    ensures IsArg(s) <==> ArgTypeOf(s) != ArgType.Error
    ensures IsArg(s) ==> FlagName(ArgTypeOf(s)) == s
  {
  }

  /** Value typing: "true"/"false" are booleans, "" is no value, what
      `usize::from_str` accepts is an integer, and anything else is text. */
  function ParseValue(v: string): (r: ArgValue)
    ensures !r.Error?
    ensures r.Bool? <==> v == "true" || v == "false"
    ensures r.Bool? ==> (r.b <==> v == "true")
    ensures r.NoValue? <==> v == ""
    ensures r.Int? <==> ParseUsize(v).Some?
    ensures r.Int? ==> r.n == ParseUsize(v).value
    ensures r.String? ==> r.s == v
  {
    match v
    case "true" => Bool(true)
    case "false" => Bool(false)
    case "" => NoValue
    case _ =>
      var parsed := ParseUsize(v);
      if parsed.Some? then Int(parsed.value) else String(v)
  }

  /** `parse_single_arg`: an unrecognised flag yields `Argument::Error` whatever
      the value; otherwise the flag's kind with the typed value. */
  function ParseSingleArg(flag: string, value: string): (r: Argument)
    ensures r.Error? <==> !IsArg(flag)
    ensures r.ParsedArgument? ==>
              r.kind != ArgType.Error && flag == FlagName(r.kind) && r.value == ParseValue(value)
  {
    var parsedValue := ParseValue(value);
    var parsedType := ArgTypeOf(flag);
    if parsedType != ArgType.Error && parsedValue != ArgValue.Error then
      ParsedArgument(parsedType, parsedValue)
    else
      Argument.Error
  }

  /** Whether a flag fails depends on the flag alone, never on its value. */
  lemma FailureDependsOnlyOnFlag(flag: string, v1: string, v2: string)
    ensures ParseSingleArg(flag, v1).Error? == ParseSingleArg(flag, v2).Error?
  {
  }

  /** `parse_args`, stated recursively: the token after a flag is its value
      iff it exists and is not itself a flag; otherwise the flag is parsed
      with the empty value. */
  function ParseArgs(args: seq<string>): (r: seq<Argument>)
    ensures |r| <= |args| <= 2 * |r|
    decreases |args|
  {
    if |args| == 0 then []
    else if |args| >= 2 && !IsArg(args[1]) then
      [ParseSingleArg(args[0], args[1])] + ParseArgs(args[2..])
    else
      [ParseSingleArg(args[0], "")] + ParseArgs(args[1..])
  }

  /** One step of the tokenizer at position `i`. */
  lemma ParseArgsStep(args: seq<string>, i: nat)
    requires i < |args|
    ensures i < |args| - 1 && !IsArg(args[i + 1]) ==>
              ParseArgs(args[i..]) == [ParseSingleArg(args[i], args[i + 1])] + ParseArgs(args[i + 2..])
    ensures !(i < |args| - 1 && !IsArg(args[i + 1])) ==>
              ParseArgs(args[i..]) == [ParseSingleArg(args[i], "")] + ParseArgs(args[i + 1..])
  {
    var rest := args[i..];
    assert rest[0] == args[i] && rest[1..] == args[i + 1..];
    if i < |args| - 1 {
      assert rest[1] == args[i + 1] && rest[2..] == args[i + 2..];
    }
  }

  /** Moving one element from the front of the unprocessed part to the end
      of the processed part keeps the whole. */
  lemma ShiftOne<T>(done: seq<T>, todo: seq<T>, x: T, rest: seq<T>, whole: seq<T>)
    requires done + todo == whole && todo == [x] + rest
    ensures (done + [x]) + rest == whole
  {
  }

  /** The cursor loop of `parse_args` as written, with `arg_idx` and `inc`. */
  method ParseArgsLoop(args: seq<string>) returns (parsed: seq<Argument>)
    ensures parsed == ParseArgs(args)
  {
    var argIdx := 0;
    parsed := [];
    while argIdx < |args|
      invariant 0 <= argIdx <= |args|
      invariant parsed + ParseArgs(args[argIdx..]) == ParseArgs(args)
      decreases |args| - argIdx
    {
      var inc := 1;
      var argType := args[argIdx];
      var argument;
      ParseArgsStep(args, argIdx);
      if argIdx < |args| - 1 && !IsArg(args[argIdx + 1]) {
        inc := 2;
        var argVal := args[argIdx + 1];
        argument := ParseSingleArg(argType, argVal);
      } else {
        argument := ParseSingleArg(argType, "");
      }
      ShiftOne(parsed, ParseArgs(args[argIdx..]), argument, ParseArgs(args[argIdx + inc..]), ParseArgs(args));
      parsed := parsed + [argument];
      argIdx := argIdx + inc;
    }
    assert args[argIdx..] == [];
  }

  /** A split of the tokens into the units `parse_args` consumes: every token
      lands in exactly one group, in order; a group is a flag alone or a flag
      with one value; a value is never a flag; and a flag stands alone only
      when it is last or the next token is a flag. */
  ghost predicate ValidGrouping(args: seq<string>, groups: seq<seq<string>>) {
    && Flatten(groups) == args
    && (forall k :: 0 <= k < |groups| ==> 1 <= |groups[k]| <= 2)
    && (forall k :: 0 <= k < |groups| && |groups[k]| == 2 ==> !IsArg(groups[k][1]))
    && (forall k :: 0 <= k < |groups| - 1 && |groups[k]| == 1 ==> IsArg(groups[k + 1][0]))
  }

  /** The grouping the lookahead rule produces. */
  function Groups(args: seq<string>): (groups: seq<seq<string>>)
    ensures ValidGrouping(args, groups)
    decreases |args|
  {
    if |args| == 0 then []
    else
      var n := if |args| >= 2 && !IsArg(args[1]) then 2 else 1;
      var tail := Groups(args[n..]);
      var groups := [args[..n]] + tail;
      assert groups[1..] == tail;
      assert Flatten(groups) == args[..n] + args[n..] == args;
      assert forall k :: 1 <= k < |groups| ==> groups[k] == tail[k - 1];
      assert |tail| > 0 ==> tail[0][0] == Flatten(tail)[0];
      groups
  }

  /** Parsing one group: a lone flag gets the empty value. */
  function ParseGroup(group: seq<string>): Argument
    requires 1 <= |group| <= 2
  {
    ParseSingleArg(group[0], if |group| == 2 then group[1] else "")
  }

  function ParseGroups(groups: seq<seq<string>>): (r: seq<Argument>)
    requires forall k :: 0 <= k < |groups| ==> 1 <= |groups[k]| <= 2
    ensures |r| == |groups|
    ensures forall k :: 0 <= k < |groups| ==> r[k] == ParseGroup(groups[k])
  {
    if |groups| == 0 then [] else [ParseGroup(groups[0])] + ParseGroups(groups[1..])
  }

  /** The lookahead rule leaves no choice: every valid grouping of the tokens
      is the one `Groups` computes. */
  lemma {:induction false} GroupingUnique(args: seq<string>, groups: seq<seq<string>>)
    requires ValidGrouping(args, groups)
    ensures groups == Groups(args)
    decreases |args|
  {
    if |groups| == 0 {
      assert args == [];
    } else {
      var g := groups[0];
      var tail := groups[1..];
      assert Flatten(groups) == g + Flatten(tail);
      assert args[..|g|] == g && args[|g|..] == Flatten(tail);
      assert |tail| > 0 ==> Flatten(tail)[0] == tail[0][0];
      assert forall k :: 0 <= k < |tail| ==> tail[k] == groups[k + 1];
      assert ValidGrouping(args[|g|..], tail);
      if |args| >= 2 && !IsArg(args[1]) {
        assert |g| == 2;
      } else if |args| >= 2 {
        assert |g| == 1;
      }
      GroupingUnique(args[|g|..], tail);
    }
  }

  /** `parse_args` is the group-by-group parse of that grouping: output order
      is input order and every token is consumed exactly once. */
  lemma {:induction false} ParseArgsByGroups(args: seq<string>)
    ensures ParseArgs(args) == ParseGroups(Groups(args))
    decreases |args|
  {
    if |args| > 0 {
      var n := if |args| >= 2 && !IsArg(args[1]) then 2 else 1;
      var gs := Groups(args);
      assert gs == [args[..n]] + Groups(args[n..]);
      assert gs[1..] == Groups(args[n..]);
      ParseArgsByGroups(args[n..]);
    }
  }

  /** An unrecognised token followed by a non-flag swallows it: the pair
      becomes a single `Argument::Error`. */
  lemma UnknownFlagSwallowsValue(bad: string, v: string, rest: seq<string>)
    requires !IsArg(bad) && !IsArg(v)
    ensures ParseArgs([bad, v] + rest) == [Argument.Error] + ParseArgs(rest)
  {
    assert ([bad, v] + rest)[2..] == rest;
  }

  /** A value textually equal to a flag can never be supplied: it is read as
      the next option, and the flag before it gets no value. */
  lemma FlagValueCollision(flag: string, other: string)
    requires IsArg(flag) && IsArg(other)
    ensures ParseArgs([flag, other]) ==
            [ParsedArgument(ArgTypeOf(flag), NoValue), ParsedArgument(ArgTypeOf(other), NoValue)]
  {
    assert [flag, other][1..] == [other];
  }

  /** The token a typed value is written as, or nothing for no value. */
  function RenderValue(v: ArgValue): seq<string>
    requires !v.Error?
  {
    match v
    case Bool(b) => if b then ["true"] else ["false"]
    case Int(n) => [RenderUsize(n)]
    case String(s) => [s]
    case NoValue => []
  }

  /** A text value survives tokenizing when it is not empty, not a boolean
      or integer literal, and not itself a flag. */
  predicate Representable(v: ArgValue) {
    match v
    case String(s) => s != "" && s != "true" && s != "false" && ParseUsize(s).None? && !IsArg(s)
    case Error => false
    case _ => true
  }

  /** Tokenizing a flag with one non-flag token after it, or alone. */
  lemma ParsePair(flag: string, v: string)
    ensures !IsArg(v) ==> ParseArgs([flag, v]) == [ParseSingleArg(flag, v)]
    ensures ParseArgs([flag]) == [ParseSingleArg(flag, "")]
  {
    assert [flag, v][2..] == [];
    assert [flag][1..] == [];
  }

  /** A rendered integer is read back as that integer. */
  lemma ParseValueRenderInt(n: usize)
    ensures !IsArg(RenderUsize(n)) && ParseValue(RenderUsize(n)) == Int(n)
  {
    UsizeRoundTrip(n);
    var s := RenderUsize(n);
    assert IsDigit(s[0]);
    assert s != "true" && s != "false" by {
      assert "true"[0] == 't' && "false"[0] == 'f';
    }
    var r := ParseValue(s);
    assert !r.Bool? && !r.NoValue?;
    assert r.Int?;
  }

  /** The rendering of a representable value types back to that value. */
  lemma ParseValueRender(v: ArgValue)
    requires Representable(v) && v != NoValue
    ensures |RenderValue(v)| == 1
    ensures !IsArg(RenderValue(v)[0]) && ParseValue(RenderValue(v)[0]) == v
  {
    if v.Int? {
      ParseValueRenderInt(v.n);
    }
  }

  /** Round trip: writing a recognised flag followed by the rendering of a
      value and tokenizing recovers exactly that kind and value. */
  lemma TokenizeRoundTrip(t: ArgType, v: ArgValue)
    requires t != ArgType.Error && Representable(v)
    ensures ParseArgs([FlagName(t)] + RenderValue(v)) == [ParsedArgument(t, v)]
  {
    var flag := FlagName(t);
    if v == NoValue {
      assert [flag] + RenderValue(v) == [flag];
      ParsePair(flag, "");
    } else {
      ParseValueRender(v);
      var s := RenderValue(v)[0];
      assert [flag] + RenderValue(v) == [flag, s];
      ParsePair(flag, s);
    }
  }

  /** The program's test `detect_help_argument`. */
  lemma DetectHelpArgument()
    ensures ParseSingleArg("--help", "") == ParsedArgument(Help, NoValue)
    ensures ParseArgs(["--help"]) == [ParsedArgument(Help, NoValue)]
  {
    ParsePair("--help", "");
  }

  /** The program's test `parse_single_argument`. */
  lemma ParseSingleArgument()
    ensures ParseSingleArg("--minlength", "8") == ParsedArgument(MinimumLength, Int(8))
    ensures ParseSingleArg("--use_dict_words", "true") == ParsedArgument(UseWords, Bool(true))
  {
    assert RenderUsize(8) == "8";
    ParseValueRenderInt(8);
  }

  /** The program's test `parse_args_from_vec`. */
  lemma ParseArgsFromVec()
    ensures ParseArgs(["--minlength", "8"]) == [ParsedArgument(MinimumLength, Int(8))]
  {
    assert RenderUsize(8) == "8";
    ParseValueRenderInt(8);
    ParsePair("--minlength", "8");
  }

  /** Two value-taking options come out in input order. */
  lemma TwoOptionsInOrder()
    ensures ParseArgs(["--include_ucase", "true", "--minlength", "10"]) ==
            [ParsedArgument(IncludeUcase, Bool(true)), ParsedArgument(MinimumLength, Int(10))]
  {
    assert RenderUsize(10) == "10";
    ParseValueRenderInt(10);
    ParsePair("--minlength", "10");
    var four := ["--include_ucase", "true", "--minlength", "10"];
    ParseArgsStep(four, 0);
    assert four[0..] == four && four[2..] == ["--minlength", "10"];
    assert !IsArg("true");
  }
}

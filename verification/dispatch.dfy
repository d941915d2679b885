/** The command dispatcher `process_and_execute_args`: the arguments are
    scanned in order and the first help, list-profiles or profile-info
    request ends the run; without one, the configuration is resolved for
    password generation. Printing and the process exit are represented by
    the action chosen. */
module Dispatch {
  import opened Basics
  import opened CliArgs
  import opened Generation
  import opened ProfileStore
  import opened Resolver

  /** What the invocation does. The first three end the process with exit
      status 1 after printing; `Generate` carries the resolver's outcome. */
  datatype Action =
    | PrintHelp
    | PrintProfiles
    | PrintProfileInfo(name: string)
    | Generate(features: Result<(GenerationData, Store), ResolveError>)

  /** Arguments that end the run: `--help` and `--list_profiles` with any
      value, `--profile_info` only with a text value. */
  function IsTerminal(a: Argument): (r: bool)
    ensures r ==> a.ParsedArgument? && a.kind in {Help, ListProfiles, ProfileInfo}
    ensures a.ParsedArgument? && a.kind in {Help, ListProfiles} ==> r
    ensures a.ParsedArgument? && a.kind == ProfileInfo ==> (r <==> a.value.String?)
  {
    match a
    case ParsedArgument(Help, _) => true
    case ParsedArgument(ListProfiles, _) => true
    case ParsedArgument(ProfileInfo, String(_)) => true
    case _ => false
  }

  function TerminalAction(a: Argument): (r: Action)
    requires IsTerminal(a)
    ensures !r.Generate?
    ensures r.PrintHelp? <==> a.kind == Help
    ensures r.PrintProfiles? <==> a.kind == ListProfiles
    ensures r.PrintProfileInfo? <==> a.kind == ProfileInfo
    ensures r.PrintProfileInfo? ==> r.name == a.value.s
  {
    match a
    case ParsedArgument(Help, _) => PrintHelp
    case ParsedArgument(ListProfiles, _) => PrintProfiles
    case ParsedArgument(ProfileInfo, String(name)) => PrintProfileInfo(name)
  }

  /** The position of the first terminal argument. */
  function FirstTerminal(args: seq<Argument>): (r: Option<nat>)
    ensures r.Some? ==> r.value < |args| && IsTerminal(args[r.value])
    ensures r.Some? ==> forall j :: 0 <= j < r.value ==> !IsTerminal(args[j])
    ensures r.None? ==> forall j :: 0 <= j < |args| ==> !IsTerminal(args[j])
    decreases |args|
  {
    if |args| == 0 then None
    else if IsTerminal(args[0]) then Some(0)
    else
      var rest := FirstTerminal(args[1..]);
      if rest.Some? then Some(rest.value + 1) else None
  }

  /** `process_and_execute_args`, with its loop over the arguments: the first
      terminal argument decides the action; otherwise the configuration is
      resolved from all of them. */
  method ProcessAndExecuteArgs(input: Option<seq<Argument>>, env: Env, store: Store) returns (action: Action)
    ensures input.None? ==> action == Generate(ConstructFeatures(None, env, store))
    ensures input.Some? ==>
              match FirstTerminal(input.value)
              case Some(i) => action == TerminalAction(input.value[i])
              case None => action == Generate(ConstructFeatures(input, env, store))
  {
    match input {
      case None =>
        action := Generate(ConstructFeatures(None, env, store));
      case Some(parsedArgs) =>
        var i := 0;
        while i < |parsedArgs|
          invariant 0 <= i <= |parsedArgs|
          invariant forall j :: 0 <= j < i ==> !IsTerminal(parsedArgs[j])
        {
          if IsTerminal(parsedArgs[i]) {
            action := TerminalAction(parsedArgs[i]);
            FirstTerminalAt(parsedArgs, i);
            return;
          }
          i := i + 1;
        }
        FirstTerminalNone(parsedArgs);
        action := Generate(ConstructFeatures(input, env, store));
    }
  }

  /** The first terminal argument is the one no earlier argument precedes. */
  lemma {:induction false} FirstTerminalAt(args: seq<Argument>, i: nat)
    requires i < |args| && IsTerminal(args[i])
    requires forall j :: 0 <= j < i ==> !IsTerminal(args[j])
    ensures FirstTerminal(args) == Some(i)
    decreases i
  {
    if i > 0 {
      FirstTerminalAt(args[1..], i - 1);
    }
  }

  lemma {:induction false} FirstTerminalNone(args: seq<Argument>)
    requires forall j :: 0 <= j < |args| ==> !IsTerminal(args[j])
    ensures FirstTerminal(args) == None
    decreases |args|
  {
    if |args| > 0 {
      FirstTerminalNone(args[1..]);
    }
  }

  /** A `--profile_info` without a text value is not a request: the run
      carries on as if it were absent. */
  lemma ProfileInfoWithoutNameFallsThrough(v: ArgValue)
    requires !v.String?
    ensures !IsTerminal(ParsedArgument(ProfileInfo, v))
  {
  }

  /** Help wins over everything after it: with `--help` first, the run prints
      the help text whatever follows. */
  lemma HelpFirstWins(rest: seq<Argument>)
    ensures FirstTerminal([ParsedArgument(Help, NoValue)] + rest) == Some(0)
    ensures TerminalAction(ParsedArgument(Help, NoValue)) == PrintHelp
  {
  }
}

/**
 The argument handling of `main` (cli.js): the first argument picks the
 command, in a short or a long spelling; only `-c`/`--checkout` reads a
 second argument, the project name. No argument at all shows the help.
 */
module Cli {
  import opened Wrappers

  datatype Command =
    | Init
    | Save
    | Read
    | Checkout(project: Option<string>)
    | List
    | Help
    | Version

  /** What `main` decides to do with its arguments. */
  datatype Dispatched = Run(command: Command) | UnknownCommand(verb: string)

  /** The `switch` of `main` on `process.argv.slice(2)`. */
  function Dispatch(args: seq<string>): (d: Dispatched)
    ensures d.UnknownCommand? ==> args != [] && d.verb == args[0]
  {
    if args == [] then Run(Help)
    else
      match args[0]
      case "init" => Run(Init)
      case "-s" => Run(Save)
      case "--save" => Run(Save)
      case "-r" => Run(Read)
      case "--read" => Run(Read)
      case "-c" => Run(Checkout(Operand(args)))
      case "--checkout" => Run(Checkout(Operand(args)))
      case "-l" => Run(List)
      case "--list" => Run(List)
      case "-h" => Run(Help)
      case "--help" => Run(Help)
      case "-v" => Run(Version)
      case "--version" => Run(Version)
      case _ => UnknownCommand(args[0])
  }

  /** `args[1]`, which JavaScript reads as `undefined` when it is missing. */
  function Operand(args: seq<string>): (r: Option<string>)
    ensures r.Some? <==> |args| >= 2
    ensures r.Some? ==> r.value == args[1]
  {
    if |args| >= 2 then Some(args[1]) else None
  }

  /** The verbs `main` recognises, each spelling with the command it names (checkout without its operand). */
  const Verbs: map<string, Command> := map[
    "init" := Init,
    "-s" := Save, "--save" := Save,
    "-r" := Read, "--read" := Read,
    "-c" := Checkout(None), "--checkout" := Checkout(None),
    "-l" := List, "--list" := List,
    "-h" := Help, "--help" := Help,
    "-v" := Version, "--version" := Version]

  /** A command from the table, with the checkout operand filled in from the arguments. */
  function WithOperand(c: Command, args: seq<string>): Command
  {
    if c.Checkout? then Checkout(Operand(args)) else c
  }

  /**
   Dispatch agrees with the table: a listed verb runs its command, any other
   first argument is an unknown command.
   */
  lemma DispatchMatchesTable(args: seq<string>)
    requires args != []
    ensures Dispatch(args) ==
      if args[0] in Verbs then Run(WithOperand(Verbs[args[0]], args)) else UnknownCommand(args[0])
  {
  }

  /** Each short flag and its long spelling run the same command, whatever follows it. */
  lemma ShortAndLongAgree(rest: seq<string>)
    ensures Dispatch(["-s"] + rest) == Dispatch(["--save"] + rest) == Run(Save)
    ensures Dispatch(["-r"] + rest) == Dispatch(["--read"] + rest) == Run(Read)
    ensures Dispatch(["-c"] + rest) == Dispatch(["--checkout"] + rest)
    ensures Dispatch(["-l"] + rest) == Dispatch(["--list"] + rest) == Run(List)
    ensures Dispatch(["-h"] + rest) == Dispatch(["--help"] + rest) == Dispatch([]) == Run(Help)
    ensures Dispatch(["-v"] + rest) == Dispatch(["--version"] + rest) == Run(Version)
  {
  }

  /** Arguments after the second never change what runs. */
  lemma LaterArgumentsIgnored(args: seq<string>, extra: seq<string>)
    requires |args| >= 2
    ensures Dispatch(args + extra) == Dispatch(args)
  {
    assert (args + extra)[0] == args[0] && (args + extra)[1] == args[1];
  }
}

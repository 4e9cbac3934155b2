/** handle_builtin of src/shell.c, reduced to which commands it takes
    over. What a builtin then does (changing directory, printing the
    history, the jobs or the help text) is outside this model; `exit`
    ends the shell, which the dispatcher records. */
module Builtins {
  datatype Outcome = NotBuiltin | Handled | Exit

  /** The names of the builtins, as the help text lists them. */
  const BuiltinNames: seq<string> := ["cd", "exit", "help", "history", "jobs"]

  /** How handle_builtin treats the argument list `argv`: only its first
      word matters. */
  function Classify(argv: seq<string>): (r: Outcome)
    ensures r == Exit <==> argv != [] && argv[0] == "exit"
    ensures r != NotBuiltin <==> argv != [] && argv[0] in BuiltinNames
  {
    if argv == [] then NotBuiltin
    else if argv[0] == "exit" then Exit
    else if argv[0] == "cd" || argv[0] == "help" || argv[0] == "history" || argv[0] == "jobs" then Handled
    else NotBuiltin
  }
}

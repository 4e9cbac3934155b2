/** The compile-time limits of include/shell.h. */
module Limits {
  /** Size of a line buffer in bytes, terminating NUL included. */
  const MaxLen: nat := 512
  /** Size of an argv array, terminating NULL included. */
  const MaxArgs: nat := 20
  /** Number of history slots. */
  const HistorySize: nat := 20
  /** Longest variable name expand_token collects after `$` or `${`. */
  const NameCap: nat := 250
}

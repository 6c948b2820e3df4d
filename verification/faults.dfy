/** Failure-carrying datatypes shared by every part of the model.

    The program reports every unrecoverable condition with a `panic!`, which
    ends the process before any further file is touched.  Here each such
    panic becomes a `Fault` value carried by `Result.Err`.
 */
module Faults {

  datatype Option<+T> = None | Some(value: T)

  /** The panics of `main` and `parse_args`, one constructor per cause. */
  datatype Fault =
      /** `-f`/`--file` located, but no token follows it: `args[file_arg_index]` is out of bounds. */
    | FilenameMissing(index: nat)
      /** The alias auto-quoting inserted a quote past the end of the line (`String::insert`). */
    | QuoteOffsetOutOfRange(offset: nat, length: nat)
      /** `SHELL` is not set in single-target mode. */
    | ShellUnset
      /** `SHELL` equals none of the executables the shell table resolves to. */
    | UnsupportedShell(shell: string)
      /** The single target file cannot be read (it does not exist). */
    | Unreadable(path: string)

  datatype Result<+T> = Ok(value: T) | Err(fault: Fault)
}

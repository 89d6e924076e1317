/**
 * The operating-system effects the commands ask for. `subprocess.run(...,
 * check=True)` is not executed here: a command builds the invocation it would
 * run, and what came of it is supplied as an `Outcome`.
 */
module OsProcess {
  /** What `subprocess.run` is given: a command line run with `shell=True`, or an argument list. */
  datatype Invocation = Shell(commandLine: string) | Argv(args: seq<string>)

  /** The run finished, raised `CalledProcessError`, or raised some other exception; each error carries its text. */
  datatype Outcome = Completed | CalledProcessError(message: string) | OtherError(message: string)
}

/** The records exchanged between the shell, the command worker and the
    commands: a command's input and its output. */
module ShellTypes {
  import opened Wrappers

  /** `CommandInput`: the arguments, the environment as name/value pairs,
      the working directory and the piped stdin, if any. */
  datatype CommandInput = CommandInput(args: seq<string>, env: seq<(string, string)>, cwd: string, stdin: Option<string>)

  /** `CommandOutput`, also `ExecResult`. */
  datatype CommandOutput = CommandOutput(stdout: string, stderr: string, exitCode: int)
}

/**
 * What a console command leaves behind: its exit code, the lines it wrote to the
 * output, and the file system afterwards.
 */
module Console {
  import opened Filesystem

  /** `Command::SUCCESS`. */
  const ExitSuccess: int := 0

  /** `Command::FAILURE`. */
  const ExitFailure: int := 1

  datatype Outcome = Outcome(exit: int, lines: seq<string>, fs: Fs)
}

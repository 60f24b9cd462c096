/**
 * `InitCommand::execute` (`bootstrap:init`): create `assets/scss` under the project
 * directory and write the two starter stylesheets into it, skipping files that exist
 * unless forced, and only reporting what would happen in a dry run.
 */
module InitCommand {
  import opened Wrappers
  import opened Text
  import opened Paths
  import opened Filesystem
  import opened Console

  /** `getLightContent()`: the light starter stylesheet. */
  const LightTemplate: string :=
    "// Project-wide Bootstrap configuration\n"
    + "// -------------------------------------------------\n"
    + "// Order matters: load functions first, then override variables,\n"
    + "// then import Bootstrap.\n"
    + "\n"
    + "// 1) Bootstrap functions (used in variable calculations)\n"
    + "@import \"functions\";\n"
    + "\n"
    + "// 2) Your variable overrides (omit !default so they actually apply)\n"
    + "// Examples (feel free to adjust/extend):\n"
    + "$primary: #ff0000;\n"
    + "\n"
    + "// 3) Optional: load Bootstrap base variables so later component imports\n"
    + "//    use consistent maps/variables (not strictly required before full import)\n"
    + "@import \"variables\";\n"
    + "\n"
    + "// 4) Import full Bootstrap\n"
    + "@import \"bootstrap\";\n"

  /** `getDarkContent()`: the dark-mode starter stylesheet. */
  const DarkTemplate: string :=
    "// Dark mode build for Bootstrap\n"
    + "// -------------------------------------------------\n"
    + "// 1) Load Bootstrap functions\n"
    + "@import \"functions\";\n"
    + "\n"
    + "// 2) Set dark-specific variables (adjust examples as needed)\n"
    + "$body-bg: #121212;\n"
    + "$body-color: #e6e6e6;\n"
    + "$primary: #0d6efd; // you can adjust this\n"
    + "\n"
    + "// Optional: load additional maps/variables from Bootstrap\n"
    + "@import \"variables\";\n"
    + "\n"
    + "// 3) Import full Bootstrap\n"
    + "@import \"bootstrap\";\n"

  /**
   * The texts of the two stylesheets. The loop does not look at them, so the
   * specification functions below take them as a parameter and `Execute` passes
   * `StockTemplates`.
   */
  datatype Templates = Templates(light: string, dark: string)

  /** What `getLightContent()` and `getDarkContent()` return. */
  const StockTemplates: Templates := Templates(LightTemplate, DarkTemplate)

  /** One entry of `$files`: where to write, and what. */
  datatype Target = Target(path: string, content: string)

  /** The per-file counters. */
  datatype Counters = Counters(created: nat, skipped: nat, overwritten: nat)

  /** How the loop over `$files` ends: after every entry, or at a failed write. */
  datatype LoopEnd =
    | Completed(fs: Fs, counts: Counters, lines: seq<string>)
    | WriteFailed(fs: Fs, lines: seq<string>)

  /** `$scssDir`. */
  function ScssDir(projectDir: string): string {
    projectDir + "/assets/scss"
  }

  /** The names of the two files. */
  const LightName: string := "bootstrap5-custom.scss"
  const DarkName: string := "bootstrap5-custom-dark.scss"

  /** How messages show them: `assets/scss/bootstrap5-custom.scss` and `assets/scss/bootstrap5-custom-dark.scss`. */
  const LightShown: string := "assets/scss/" + LightName
  const DarkShown: string := "assets/scss/" + DarkName

  /** `$scssDir.'/bootstrap5-custom.scss'`. */
  function LightPath(projectDir: string): string {
    ScssDir(projectDir) + "/" + LightName
  }

  /** `$scssDir.'/bootstrap5-custom-dark.scss'`. */
  function DarkPath(projectDir: string): string {
    ScssDir(projectDir) + "/" + DarkName
  }

  /** `$files`, in its order: the light stylesheet, then the dark one. */
  function Targets(projectDir: string, tpl: Templates): seq<Target> {
    [Target(LightPath(projectDir), tpl.light), Target(DarkPath(projectDir), tpl.dark)]
  }

  /** `$rel`: the path shown in messages. */
  function Rel(path: string): string {
    "assets/scss/" + Basename(path)
  }

  /** The messages of the loop body, for the path shown. */
  function SkipLine(rel: string): string {
    "<comment>Skip existing:</comment> " + rel + " (use --force to overwrite)"
  }

  function FailedLine(rel: string): string {
    "<error>Failed to write file:</error> " + rel
  }

  function OverwroteLine(rel: string): string {
    "<info>Overwrote:</info> " + rel
  }

  function CreatedLine(rel: string): string {
    "<info>Created:</info> " + rel
  }

  /**
   * One pass of the loop body for one entry. `shown` computes `$rel` from the path; the
   * command passes `Rel`, and the lemmas about the loop take it as a parameter because
   * they never depend on how the shown path is formed.
   */
  function Step(fs: Fs, t: Target, shown: string -> string, force: bool, dryRun: bool, counts: Counters, lines: seq<string>): LoopEnd {
    var rel := shown(t.path);
    if Exists(fs, t.path) && !force then
      Completed(fs, counts.(skipped := counts.skipped + 1),
        lines + [SkipLine(rel)])
    else if dryRun then
      Completed(fs, counts,
        lines + ["[dry-run] " + (if Exists(fs, t.path) then "Would overwrite" else "Would create") + ": " + rel])
    else
      match WriteFile(fs, t.path, t.content)
      case None => WriteFailed(fs, lines + [FailedLine(rel)])
      case Some(fs') =>
        if force && Exists(fs', t.path) then
          Completed(fs', counts.(overwritten := counts.overwritten + 1), lines + [OverwroteLine(rel)])
        else
          Completed(fs', counts.(created := counts.created + 1), lines + [CreatedLine(rel)])
  }

  /** The loop over `$files`, from a given state, until the entries run out or a write fails. */
  function FileLoop(fs: Fs, ts: seq<Target>, shown: string -> string, force: bool, dryRun: bool, counts: Counters, lines: seq<string>): LoopEnd
    decreases |ts|
  {
    if ts == [] then Completed(fs, counts, lines)
    else
      match Step(fs, ts[0], shown, force, dryRun, counts, lines)
      case WriteFailed(fs', lines') => WriteFailed(fs', lines')
      case Completed(fs', counts', lines') => FileLoop(fs', ts[1..], shown, force, dryRun, counts', lines')
  }

  lemma FileLoopUnfold(fs: Fs, ts: seq<Target>, shown: string -> string, force: bool, dryRun: bool, counts: Counters, lines: seq<string>)
    requires ts != []
    ensures FileLoop(fs, ts, shown, force, dryRun, counts, lines) ==
      match Step(fs, ts[0], shown, force, dryRun, counts, lines)
      case WriteFailed(fs', lines') => WriteFailed(fs', lines')
      case Completed(fs', counts', lines') => FileLoop(fs', ts[1..], shown, force, dryRun, counts', lines')
  {
  }

  /** The loop body for an existing entry without `--force`. */
  lemma StepSkipped(fs: Fs, t: Target, shown: string -> string, force: bool, dryRun: bool, counts: Counters, lines: seq<string>)
    requires Exists(fs, t.path) && !force
    ensures Step(fs, t, shown, force, dryRun, counts, lines) ==
      Completed(fs, counts.(skipped := counts.skipped + 1),
        lines + [SkipLine(shown(t.path))])
  {
  }

  /** The loop body in a dry run, for an entry that is not skipped. */
  lemma StepDry(fs: Fs, t: Target, shown: string -> string, force: bool, counts: Counters, lines: seq<string>)
    requires !(Exists(fs, t.path) && !force)
    ensures Step(fs, t, shown, force, true, counts, lines) ==
      Completed(fs, counts,
        lines + ["[dry-run] " + (if Exists(fs, t.path) then "Would overwrite" else "Would create") + ": " + shown(t.path)])
  {
  }

  /** The loop body for an entry whose write fails. */
  lemma StepFailed(fs: Fs, t: Target, shown: string -> string, force: bool, counts: Counters, lines: seq<string>)
    requires !(Exists(fs, t.path) && !force)
    requires WriteFile(fs, t.path, t.content).None?
    ensures Step(fs, t, shown, force, false, counts, lines) ==
      WriteFailed(fs, lines + [FailedLine(shown(t.path))])
  {
  }

  /** The loop body for an entry that is written successfully. */
  lemma StepWritten(fs: Fs, t: Target, shown: string -> string, force: bool, counts: Counters, lines: seq<string>, fs': Fs)
    requires !(Exists(fs, t.path) && !force)
    requires WriteFile(fs, t.path, t.content) == Some(fs')
    ensures Step(fs, t, shown, force, false, counts, lines) ==
      if force && Exists(fs', t.path) then
        Completed(fs', counts.(overwritten := counts.overwritten + 1), lines + [OverwroteLine(shown(t.path))])
      else
        Completed(fs', counts.(created := counts.created + 1), lines + [CreatedLine(shown(t.path))])
  {
  }

  /** The summary line of a run that wrote. */
  function DoneLine(c: Counters): string {
    "<info>Done.</info> Created: " + NatToString(c.created) + ", Overwritten: " + NatToString(c.overwritten)
      + ", Skipped: " + NatToString(c.skipped)
  }

  /** The lines that close a successful run that wrote. */
  function ClosingLines(c: Counters): seq<string> {
    [ DoneLine(c), "Next steps:", "  - Compile CSS: php bin/console bootstrap:compile",
      "  - With source map: php bin/console bootstrap:compile --source-map" ]
  }

  /** Whether the directory step stops the command: a real run whose `mkdir` fails. */
  predicate DirectoryFails(fs: Fs, projectDir: string, dryRun: bool) {
    !IsDir(fs, ScssDir(projectDir)) && !dryRun && MakeDir(fs, ScssDir(projectDir)).None?
  }

  /** The file system the loop starts from: `assets/scss` created when missing, unless dry. */
  function LoopStart(fs: Fs, projectDir: string, dryRun: bool): Fs
    requires !DirectoryFails(fs, projectDir, dryRun)
  {
    if IsDir(fs, ScssDir(projectDir)) || dryRun then fs else MakeDir(fs, ScssDir(projectDir)).value
  }

  /** The line the directory step writes, if any. */
  function DirectoryLines(fs: Fs, projectDir: string, dryRun: bool): seq<string> {
    if IsDir(fs, ScssDir(projectDir)) then []
    else if dryRun then ["[dry-run] Would create directory: assets/scss"]
    else ["<info>Created directory:</info> assets/scss"]
  }

  /** How the loop over `$files` ends, for a run whose directory step went through. */
  function LoopResult(fs: Fs, projectDir: string, tpl: Templates, force: bool, dryRun: bool): LoopEnd
    requires !DirectoryFails(fs, projectDir, dryRun)
  {
    FileLoop(LoopStart(fs, projectDir, dryRun), Targets(projectDir, tpl), Rel, force, dryRun,
      Counters(0, 0, 0), DirectoryLines(fs, projectDir, dryRun))
  }

  /** What the command leaves behind once the loop has ended. */
  function Finished(end: LoopEnd, dryRun: bool): Outcome {
    match end
    case WriteFailed(fs', lines) => Outcome(ExitFailure, lines, fs')
    case Completed(fs', c, lines) =>
      if dryRun then Outcome(ExitSuccess, lines + ["<info>Dry-run complete. No files were written.</info>"], fs')
      else Outcome(ExitSuccess, lines + ClosingLines(c), fs')
  }

  /** What `execute` leaves behind, for the given stylesheet texts. */
  function InitOutcome(fs: Fs, projectDir: string, tpl: Templates, force: bool, dryRun: bool): Outcome {
    if DirectoryFails(fs, projectDir, dryRun) then
      Outcome(ExitFailure, ["<error>Failed to create directory: assets/scss</error>"], fs)
    else Finished(LoopResult(fs, projectDir, tpl, force, dryRun), dryRun)
  }

  /** The body of the `foreach ($files ...)` loop for one entry, with the counters so far. */
  method ProcessFile(fs: Fs, t: Target, force: bool, dryRun: bool, counts: Counters, lines: seq<string>)
    returns (r: LoopEnd)
    ensures r == Step(fs, t, Rel, force, dryRun, counts, lines)
  {
    var rel := "assets/scss/" + Basename(t.path);
    if Exists(fs, t.path) && !force {
      return Completed(fs, counts.(skipped := counts.skipped + 1), lines + [SkipLine(rel)]);
    }
    if dryRun {
      var action := if Exists(fs, t.path) then "Would overwrite" else "Would create";
      return Completed(fs, counts, lines + ["[dry-run] " + action + ": " + rel]);
    }
    var written := WriteFile(fs, t.path, t.content);
    if written.None? {
      return WriteFailed(fs, lines + [FailedLine(rel)]);
    }
    var current := written.value;
    if force && Exists(current, t.path) {
      r := Completed(current, counts.(overwritten := counts.overwritten + 1), lines + [OverwroteLine(rel)]);
    } else {
      r := Completed(current, counts.(created := counts.created + 1), lines + [CreatedLine(rel)]);
    }
  }

  /**
   * The `foreach ($files ...)` loop with its counters, from the lines written so far;
   * it stops at the first failed write.
   */
  method FilesLoop(fs: Fs, files: seq<Target>, force: bool, dryRun: bool, lines0: seq<string>) returns (end: LoopEnd)
    ensures end == FileLoop(fs, files, Rel, force, dryRun, Counters(0, 0, 0), lines0)
  {
    var current := fs;
    var counts := Counters(0, 0, 0);
    var lines := lines0;
    for i := 0 to |files|
      invariant FileLoop(fs, files, Rel, force, dryRun, Counters(0, 0, 0), lines0)
        == FileLoop(current, files[i..], Rel, force, dryRun, counts, lines)
    {
      FileLoopUnfold(current, files[i..], Rel, force, dryRun, counts, lines);
      assert files[i..][0] == files[i] && files[i..][1..] == files[i + 1..];
      var r := ProcessFile(current, files[i], force, dryRun, counts, lines);
      if r.WriteFailed? {
        return r;
      }
      current, counts, lines := r.fs, r.counts, r.lines;
    }
    end := Completed(current, counts, lines);
  }

  /** The directory step: `assets/scss` is created when missing, unless dry; a failed `mkdir` stops. */
  method PrepareDirectory(fs: Fs, projectDir: string, dryRun: bool) returns (ok: bool, current: Fs, lines: seq<string>)
    ensures ok <==> !DirectoryFails(fs, projectDir, dryRun)
    ensures ok ==> current == LoopStart(fs, projectDir, dryRun) && lines == DirectoryLines(fs, projectDir, dryRun)
  {
    var scssDir := projectDir + "/assets/scss";
    current := fs;
    lines := [];
    ok := true;
    if !IsDir(current, scssDir) {
      if dryRun {
        lines := lines + ["[dry-run] Would create directory: assets/scss"];
      } else {
        var made := MakeDir(current, scssDir);
        if made.None? {
          ok := false;
          return;
        }
        current := made.value;
        lines := lines + ["<info>Created directory:</info> assets/scss"];
      }
    }
  }

  /** The end of `execute`: the exit code and the closing lines, after the loop. */
  method Finish(end: LoopEnd, dryRun: bool) returns (out: Outcome)
    ensures out == Finished(end, dryRun)
  {
    if end.WriteFailed? {
      return Outcome(ExitFailure, end.lines, end.fs);
    }
    var lines := end.lines;
    var c := end.counts;
    if dryRun {
      return Outcome(ExitSuccess, lines + ["<info>Dry-run complete. No files were written.</info>"], end.fs);
    }
    lines := lines + ["<info>Done.</info> Created: " + NatToString(c.created) + ", Overwritten: "
      + NatToString(c.overwritten) + ", Skipped: " + NatToString(c.skipped)];
    lines := lines + ["Next steps:"];
    lines := lines + ["  - Compile CSS: php bin/console bootstrap:compile"];
    lines := lines + ["  - With source map: php bin/console bootstrap:compile --source-map"];
    out := Outcome(ExitSuccess, lines, end.fs);
  }

  /** `execute($input, $output)`. */
  method Execute(fs: Fs, projectDir: string, force: bool, dryRun: bool) returns (out: Outcome)
    ensures out == InitOutcome(fs, projectDir, StockTemplates, force, dryRun)
  {
    var ok, current, lines := PrepareDirectory(fs, projectDir, dryRun);
    if !ok {
      return Outcome(ExitFailure, ["<error>Failed to create directory: assets/scss</error>"], fs);
    }
    var end := FilesLoop(current, Targets(projectDir, StockTemplates), force, dryRun, lines);
    out := Finish(end, dryRun);
  }

  // ---------------------------------------------------------------------------------
  // Properties of the loop, for any list of entries

  /** No two entries share a path. */
  predicate DistinctPaths(ts: seq<Target>) {
    forall i, j :: 0 <= i < j < |ts| ==> ts[i].path != ts[j].path
  }

  /** How many entries' paths exist. */
  function CountExisting(fs: Fs, ts: seq<Target>): (n: nat)
    ensures n <= |ts|
    decreases |ts|
  {
    if ts == [] then 0 else (if Exists(fs, ts[0].path) then 1 else 0) + CountExisting(fs, ts[1..])
  }

  /** The line a dry run writes for one entry of an unchanged file system. */
  function DryLine(fs: Fs, t: Target, shown: string -> string, force: bool): string {
    if Exists(fs, t.path) && !force then SkipLine(shown(t.path))
    else "[dry-run] " + (if Exists(fs, t.path) then "Would overwrite" else "Would create") + ": " + shown(t.path)
  }

  /** The lines a dry run writes for the entries, one per entry, in order. */
  function DryRunLines(fs: Fs, ts: seq<Target>, shown: string -> string, force: bool): (r: seq<string>)
    ensures |r| == |ts|
    decreases |ts|
  {
    if ts == [] then [] else [DryLine(fs, ts[0], shown, force)] + DryRunLines(fs, ts[1..], shown, force)
  }

  /** Running the loop over two lists is running it over the first, then, unless a write failed, over the second. */
  lemma {:induction false} FileLoopAppend(fs: Fs, ts1: seq<Target>, ts2: seq<Target>, shown: string -> string, force: bool, dryRun: bool,
                                          counts: Counters, lines: seq<string>)
    ensures FileLoop(fs, ts1 + ts2, shown, force, dryRun, counts, lines) ==
      match FileLoop(fs, ts1, shown, force, dryRun, counts, lines)
      case WriteFailed(fs', lines') => WriteFailed(fs', lines')
      case Completed(fs', counts', lines') => FileLoop(fs', ts2, shown, force, dryRun, counts', lines')
    decreases |ts1|
  {
    if ts1 == [] {
      assert ts1 + ts2 == ts2;
    } else {
      assert (ts1 + ts2)[0] == ts1[0] && (ts1 + ts2)[1..] == ts1[1..] + ts2;
      match Step(fs, ts1[0], shown, force, dryRun, counts, lines)
      case WriteFailed(_, _) =>
      case Completed(fs', counts', lines') =>
        FileLoopAppend(fs', ts1[1..], ts2, shown, force, dryRun, counts', lines');
    }
  }

  /** Once a write has failed, the entries after it are never looked at. */
  lemma FailureIgnoresRest(fs: Fs, ts1: seq<Target>, ts2: seq<Target>, shown: string -> string, force: bool, dryRun: bool,
                           counts: Counters, lines: seq<string>)
    requires FileLoop(fs, ts1, shown, force, dryRun, counts, lines).WriteFailed?
    ensures FileLoop(fs, ts1 + ts2, shown, force, dryRun, counts, lines) == FileLoop(fs, ts1, shown, force, dryRun, counts, lines)
  {
    FileLoopAppend(fs, ts1, ts2, shown, force, dryRun, counts, lines);
  }

  /** The loop body fails only on a real write that is refused, and then reports that entry. */
  lemma StepFailure(fs: Fs, t: Target, shown: string -> string, force: bool, dryRun: bool, counts: Counters, lines: seq<string>)
    requires Step(fs, t, shown, force, dryRun, counts, lines).WriteFailed?
    ensures !dryRun && WriteFile(fs, t.path, t.content).None?
    ensures Step(fs, t, shown, force, dryRun, counts, lines) == WriteFailed(fs, lines + [FailedLine(shown(t.path))])
  {
  }

  /** A loop that stops at a failed write ends on the error line of an entry whose write the final state refuses. */
  lemma {:induction false} FailureReported(fs: Fs, ts: seq<Target>, shown: string -> string, force: bool, dryRun: bool, counts: Counters, lines: seq<string>)
    requires FileLoop(fs, ts, shown, force, dryRun, counts, lines).WriteFailed?
    ensures var e := FileLoop(fs, ts, shown, force, dryRun, counts, lines);
      && !dryRun && e.lines != []
      && exists k :: 0 <= k < |ts| && WriteFile(e.fs, ts[k].path, ts[k].content).None?
           && e.lines[|e.lines| - 1] == FailedLine(shown(ts[k].path))
    decreases |ts|
  {
    var e := FileLoop(fs, ts, shown, force, dryRun, counts, lines);
    FileLoopUnfold(fs, ts, shown, force, dryRun, counts, lines);
    var step := Step(fs, ts[0], shown, force, dryRun, counts, lines);
    if step.WriteFailed? {
      StepFailure(fs, ts[0], shown, force, dryRun, counts, lines);
      assert e == step;
      assert WriteFile(e.fs, ts[0].path, ts[0].content).None?;
    } else {
      assert e == FileLoop(step.fs, ts[1..], shown, force, dryRun, step.counts, step.lines);
      FailureReported(step.fs, ts[1..], shown, force, dryRun, step.counts, step.lines);
      var k :| 0 <= k < |ts[1..]| && WriteFile(e.fs, ts[1..][k].path, ts[1..][k].content).None?
           && e.lines[|e.lines| - 1] == FailedLine(shown(ts[1..][k].path));
      assert ts[1..][k] == ts[k + 1];
    }
  }

  /** A loop that runs to the end writes one line per entry. */
  lemma {:induction false} OneLinePerEntry(fs: Fs, ts: seq<Target>, shown: string -> string, force: bool, dryRun: bool, counts: Counters, lines: seq<string>)
    requires FileLoop(fs, ts, shown, force, dryRun, counts, lines).Completed?
    ensures |FileLoop(fs, ts, shown, force, dryRun, counts, lines).lines| == |lines| + |ts|
    decreases |ts|
  {
    if ts != [] {
      var st := Step(fs, ts[0], shown, force, dryRun, counts, lines);
      FileLoopUnfold(fs, ts, shown, force, dryRun, counts, lines);
      OneLinePerEntry(st.fs, ts[1..], shown, force, dryRun, st.counts, st.lines);
    }
  }

  /** A path that no entry names keeps its kind and its contents, however the loop ends. */
  lemma {:induction false} UntouchedPath(fs: Fs, ts: seq<Target>, shown: string -> string, force: bool, dryRun: bool, counts: Counters,
                                         lines: seq<string>, q: string)
    requires forall k :: 0 <= k < |ts| ==> ts[k].path != q
    ensures var e := FileLoop(fs, ts, shown, force, dryRun, counts, lines);
      (IsFile(e.fs, q) <==> IsFile(fs, q)) && (IsDir(e.fs, q) <==> IsDir(fs, q)) && Read(e.fs, q) == Read(fs, q)
    decreases |ts|
  {
    if ts != [] {
      var t := ts[0];
      var st := Step(fs, t, shown, force, dryRun, counts, lines);
      FileLoopUnfold(fs, ts, shown, force, dryRun, counts, lines);
      if !(Exists(fs, t.path) && !force) && !dryRun && WriteFile(fs, t.path, t.content).Some? {
        WriteKeepsOthers(fs, t.path, t.content, q);
      }
      if st.Completed? {
        UntouchedPath(st.fs, ts[1..], shown, force, dryRun, st.counts, st.lines, q);
      }
    }
  }

  /** Without `--force`, a path that exists keeps its kind and its contents, however the loop ends. */
  lemma {:induction false} ExistingKeptWithoutForce(fs: Fs, ts: seq<Target>, shown: string -> string, dryRun: bool, counts: Counters,
                                                    lines: seq<string>, q: string)
    requires Exists(fs, q)
    ensures var e := FileLoop(fs, ts, shown, false, dryRun, counts, lines);
      (IsFile(e.fs, q) <==> IsFile(fs, q)) && (IsDir(e.fs, q) <==> IsDir(fs, q)) && Read(e.fs, q) == Read(fs, q)
    decreases |ts|
  {
    if ts != [] {
      var t := ts[0];
      var st := Step(fs, t, shown, false, dryRun, counts, lines);
      FileLoopUnfold(fs, ts, shown, false, dryRun, counts, lines);
      if !Exists(fs, t.path) && !dryRun && WriteFile(fs, t.path, t.content).Some? {
        WriteKeepsOthers(fs, t.path, t.content, q);
      }
      if st.Completed? {
        ExistingKeptWithoutForce(st.fs, ts[1..], shown, dryRun, st.counts, st.lines, q);
      }
    }
  }

  /**
   * A dry run changes nothing, never fails, counts only the skipped entries, and
   * writes one line per entry.
   */
  lemma {:induction false} DryRunLoop(fs: Fs, ts: seq<Target>, shown: string -> string, force: bool, counts: Counters, lines: seq<string>)
    ensures FileLoop(fs, ts, shown, force, true, counts, lines) ==
      Completed(fs, counts.(skipped := counts.skipped + (if force then 0 else CountExisting(fs, ts))),
        lines + DryRunLines(fs, ts, shown, force))
    decreases |ts|
  {
    if ts == [] {
      assert lines + [] == lines;
    } else {
      var t := ts[0];
      var line := DryLine(fs, t, shown, force);
      var counts' := if Exists(fs, t.path) && !force then counts.(skipped := counts.skipped + 1) else counts;
      StepDryLine(fs, t, shown, force, counts, lines);
      FileLoopUnfold(fs, ts, shown, force, true, counts, lines);
      DryRunLoop(fs, ts[1..], shown, force, counts', lines + [line]);
      assert DryRunLines(fs, ts, shown, force) == [line] + DryRunLines(fs, ts[1..], shown, force);
      assert (lines + [line]) + DryRunLines(fs, ts[1..], shown, force) == lines + DryRunLines(fs, ts, shown, force);
    }
  }

  /** The loop body in a dry run writes the entry's dry-run line and changes nothing. */
  lemma StepDryLine(fs: Fs, t: Target, shown: string -> string, force: bool, counts: Counters, lines: seq<string>)
    ensures Step(fs, t, shown, force, true, counts, lines) ==
      Completed(fs, if Exists(fs, t.path) && !force then counts.(skipped := counts.skipped + 1) else counts,
        lines + [DryLine(fs, t, shown, force)])
  {
    if Exists(fs, t.path) && !force {
      StepSkipped(fs, t, shown, force, true, counts, lines);
    } else {
      StepDry(fs, t, shown, force, counts, lines);
    }
  }

  /** With `--force` and no dry run, every entry written counts as overwritten, none as created. */
  lemma {:induction false} ForceCountsOverwritten(fs: Fs, ts: seq<Target>, shown: string -> string, counts: Counters, lines: seq<string>)
    requires FileLoop(fs, ts, shown, true, false, counts, lines).Completed?
    ensures FileLoop(fs, ts, shown, true, false, counts, lines).counts == counts.(overwritten := counts.overwritten + |ts|)
    decreases |ts|
  {
    if ts != [] {
      var t := ts[0];
      FileLoopUnfold(fs, ts, shown, true, false, counts, lines);
      var written := WriteFile(fs, t.path, t.content);
      assert written.Some?;
      WriteThenRead(fs, t.path, t.content);
      StepWritten(fs, t, shown, true, counts, lines, written.value);
      ForceCountsOverwritten(written.value, ts[1..], shown, counts.(overwritten := counts.overwritten + 1),
        lines + [OverwroteLine(shown(t.path))]);
    }
  }

  /** A write elsewhere does not change which entries exist. */
  lemma {:induction false} CountExistingAfterWrite(fs: Fs, p: string, data: string, ts: seq<Target>)
    requires WriteFile(fs, p, data).Some?
    requires forall k :: 0 <= k < |ts| ==> ts[k].path != p
    ensures CountExisting(WriteFile(fs, p, data).value, ts) == CountExisting(fs, ts)
    decreases |ts|
  {
    if ts != [] {
      WriteKeepsOthers(fs, p, data, ts[0].path);
      CountExistingAfterWrite(fs, p, data, ts[1..]);
    }
  }

  /**
   * Without `--force` and without a dry run, the existing entries are the skipped ones
   * and every other entry is created.
   */
  lemma {:induction false} NoForceCounts(fs: Fs, ts: seq<Target>, shown: string -> string, counts: Counters, lines: seq<string>)
    requires DistinctPaths(ts)
    requires FileLoop(fs, ts, shown, false, false, counts, lines).Completed?
    ensures FileLoop(fs, ts, shown, false, false, counts, lines).counts ==
      Counters(counts.created + (|ts| - CountExisting(fs, ts)), counts.skipped + CountExisting(fs, ts), counts.overwritten)
    decreases |ts|
  {
    if ts != [] {
      var t := ts[0];
      var rest := ts[1..];
      assert DistinctPaths(rest) by {
        forall i, j | 0 <= i < j < |rest| ensures rest[i].path != rest[j].path {
          assert rest[i] == ts[i + 1] && rest[j] == ts[j + 1];
        }
      }
      FileLoopUnfold(fs, ts, shown, false, false, counts, lines);
      if Exists(fs, t.path) {
        StepSkipped(fs, t, shown, false, false, counts, lines);
        NoForceCounts(fs, rest, shown, counts.(skipped := counts.skipped + 1),
          lines + [SkipLine(shown(t.path))]);
      } else {
        var written := WriteFile(fs, t.path, t.content);
        assert written.Some?;
        StepWritten(fs, t, shown, false, counts, lines, written.value);
        forall k | 0 <= k < |rest| ensures rest[k].path != t.path {
          assert rest[k] == ts[k + 1];
        }
        CountExistingAfterWrite(fs, t.path, t.content, rest);
        NoForceCounts(written.value, rest, shown, counts.(created := counts.created + 1),
          lines + [CreatedLine(shown(t.path))]);
      }
    }
  }

  /** Without a dry run, a loop that runs to the end counts every entry exactly once. */
  lemma {:induction false} EveryEntryCounted(fs: Fs, ts: seq<Target>, shown: string -> string, force: bool, counts: Counters, lines: seq<string>)
    requires FileLoop(fs, ts, shown, force, false, counts, lines).Completed?
    ensures var c := FileLoop(fs, ts, shown, force, false, counts, lines).counts;
      c.created + c.skipped + c.overwritten == counts.created + counts.skipped + counts.overwritten + |ts|
    decreases |ts|
  {
    if ts != [] {
      var st := Step(fs, ts[0], shown, force, false, counts, lines);
      FileLoopUnfold(fs, ts, shown, force, false, counts, lines);
      EveryEntryCounted(st.fs, ts[1..], shown, force, st.counts, st.lines);
    }
  }

  /**
   * Without a dry run, a loop that runs to the end leaves every entry's path holding the
   * entry's contents, except an existing one skipped without `--force`, which keeps its own.
   */
  lemma {:induction false} EntryContents(fs: Fs, ts: seq<Target>, shown: string -> string, force: bool, counts: Counters, lines: seq<string>, k: nat)
    requires DistinctPaths(ts) && k < |ts|
    requires FileLoop(fs, ts, shown, force, false, counts, lines).Completed?
    ensures Read(FileLoop(fs, ts, shown, force, false, counts, lines).fs, ts[k].path) ==
      if Exists(fs, ts[k].path) && !force then Read(fs, ts[k].path) else ts[k].content
    decreases |ts|
  {
    var t := ts[0];
    var rest := ts[1..];
    var st := Step(fs, t, shown, force, false, counts, lines);
    FileLoopUnfold(fs, ts, shown, force, false, counts, lines);
    assert DistinctPaths(rest) by {
      forall i, j | 0 <= i < j < |rest| ensures rest[i].path != rest[j].path {
        assert rest[i] == ts[i + 1] && rest[j] == ts[j + 1];
      }
    }
    var written := WriteFile(fs, t.path, t.content);
    if !(Exists(fs, t.path) && !force) {
      assert written.Some?;
      WriteThenRead(fs, t.path, t.content);
    }
    if k == 0 {
      forall j | 0 <= j < |rest| ensures rest[j].path != t.path {
        assert rest[j] == ts[j + 1];
      }
      UntouchedPath(st.fs, rest, shown, force, false, st.counts, st.lines, t.path);
    } else {
      assert rest[k - 1] == ts[k];
      if !(Exists(fs, t.path) && !force) {
        WriteKeepsOthers(fs, t.path, t.content, ts[k].path);
      }
      EntryContents(st.fs, rest, shown, force, st.counts, st.lines, k - 1);
    }
  }

  /** The `k`th line of a dry run is the `k`th entry's. */
  lemma {:induction false} DryRunLineAt(fs: Fs, ts: seq<Target>, shown: string -> string, force: bool, k: nat)
    requires k < |ts|
    ensures DryRunLines(fs, ts, shown, force)[k] == DryLine(fs, ts[k], shown, force)
    decreases |ts|
  {
    if k > 0 {
      DryRunLineAt(fs, ts[1..], shown, force, k - 1);
    }
  }

  // ---------------------------------------------------------------------------------
  // Properties of the command

  /** The two files are different, and neither is `assets/scss` itself. */
  lemma TargetPathsDiffer(projectDir: string)
    ensures LightPath(projectDir) != DarkPath(projectDir)
    ensures LightPath(projectDir) != ScssDir(projectDir) && DarkPath(projectDir) != ScssDir(projectDir)
  {
    assert |LightPath(projectDir)| == |ScssDir(projectDir)| + 23;
    assert |DarkPath(projectDir)| == |ScssDir(projectDir)| + 28;
  }

  /** A file directly inside `assets/scss` is shown by its name under `assets/scss/`. */
  lemma RelOfChild(projectDir: string, name: string)
    requires name != [] && '/' !in name
    ensures Rel(ScssDir(projectDir) + "/" + name) == "assets/scss/" + name
  {
    BasenameOfChild(ScssDir(projectDir) + "/", name);
  }

  /** The files are shown by their names under `assets/scss/`. */
  lemma TargetNames(projectDir: string)
    ensures Rel(LightPath(projectDir)) == LightShown
    ensures Rel(DarkPath(projectDir)) == DarkShown
  {
    LightNameShown(projectDir);
    DarkNameShown(projectDir);
  }

  lemma LightNameShown(projectDir: string)
    ensures Rel(LightPath(projectDir)) == LightShown
  {
    RelOfChild(projectDir, LightName);
  }

  lemma DarkNameShown(projectDir: string)
    ensures Rel(DarkPath(projectDir)) == DarkShown
  {
    RelOfChild(projectDir, DarkName);
  }

  /** `$files` holds two entries with different paths, the light one first. */
  lemma TargetsShape(projectDir: string, tpl: Templates)
    ensures var ts := Targets(projectDir, tpl);
      && |ts| == 2 && DistinctPaths(ts)
      && ts[0] == Target(LightPath(projectDir), tpl.light) && ts[1] == Target(DarkPath(projectDir), tpl.dark)
  {
    TargetPathsDiffer(projectDir);
  }

  /** The directory step changes no path other than `assets/scss`. */
  lemma StartKeepsOthers(fs: Fs, projectDir: string, dryRun: bool, q: string)
    requires !DirectoryFails(fs, projectDir, dryRun)
    requires q != ScssDir(projectDir) || Exists(fs, q)
    ensures var start := LoopStart(fs, projectDir, dryRun);
      (IsFile(start, q) <==> IsFile(fs, q)) && (IsDir(start, q) <==> IsDir(fs, q)) && Read(start, q) == Read(fs, q)
  {
    if !IsDir(fs, ScssDir(projectDir)) && !dryRun {
      MakeDirThenIsDir(fs, ScssDir(projectDir), q);
    }
  }

  /** A failed `mkdir` ends the command with FAILURE and its error line before any file is touched. */
  lemma DirectoryFailureTouchesNothing(fs: Fs, projectDir: string, tpl: Templates, force: bool, dryRun: bool)
    requires !IsDir(fs, ScssDir(projectDir)) && !dryRun && MakeDir(fs, ScssDir(projectDir)).None?
    ensures InitOutcome(fs, projectDir, tpl, force, dryRun) ==
      Outcome(ExitFailure, ["<error>Failed to create directory: assets/scss</error>"], fs)
  {
  }

  /** The command fails exactly when `mkdir` or a write fails; otherwise it succeeds. */
  lemma ExitCodes(fs: Fs, projectDir: string, tpl: Templates, force: bool, dryRun: bool)
    ensures var out := InitOutcome(fs, projectDir, tpl, force, dryRun);
      && (out.exit == ExitSuccess || out.exit == ExitFailure)
      && (out.exit == ExitFailure <==>
            DirectoryFails(fs, projectDir, dryRun) || LoopResult(fs, projectDir, tpl, force, dryRun).WriteFailed?)
  {
  }

  /**
   * A write failure ends the command with FAILURE on the error line of one of the two
   * files, whose write the final file system refuses.
   */
  lemma WriteFailureReported(fs: Fs, projectDir: string, tpl: Templates, force: bool, dryRun: bool)
    requires !DirectoryFails(fs, projectDir, dryRun) && LoopResult(fs, projectDir, tpl, force, dryRun).WriteFailed?
    ensures var out := InitOutcome(fs, projectDir, tpl, force, dryRun);
      && !dryRun && out.exit == ExitFailure && out.lines != []
      && (  (out.lines[|out.lines| - 1] == FailedLine(LightShown)
             && WriteFile(out.fs, LightPath(projectDir), tpl.light).None?)
         || (out.lines[|out.lines| - 1] == FailedLine(DarkShown)
             && WriteFile(out.fs, DarkPath(projectDir), tpl.dark).None?))
  {
    var ts := Targets(projectDir, tpl);
    TargetsShape(projectDir, tpl);
    TargetNames(projectDir);
    FailureReported(LoopStart(fs, projectDir, dryRun), ts, Rel, force, dryRun, Counters(0, 0, 0), DirectoryLines(fs, projectDir, dryRun));
  }

  /**
   * When writing the light stylesheet fails, the command stops there: the dark one is
   * never looked at and the file system is the one the loop started from.
   */
  lemma FirstWriteFailureStops(fs: Fs, projectDir: string, tpl: Templates, force: bool)
    requires !DirectoryFails(fs, projectDir, false)
    requires var start := LoopStart(fs, projectDir, false);
      !(Exists(start, LightPath(projectDir)) && !force) && WriteFile(start, LightPath(projectDir), tpl.light).None?
    ensures InitOutcome(fs, projectDir, tpl, force, false) ==
      Outcome(ExitFailure,
        DirectoryLines(fs, projectDir, false) + [FailedLine(LightShown)],
        LoopStart(fs, projectDir, false))
  {
    var start := LoopStart(fs, projectDir, false);
    var ts := Targets(projectDir, tpl);
    var lines := DirectoryLines(fs, projectDir, false);
    var err := FailedLine(LightShown);
    TargetsShape(projectDir, tpl);
    TargetNames(projectDir);
    assert ts == [ts[0]] + [ts[1]];
    StepFailed(start, ts[0], Rel, force, Counters(0, 0, 0), lines);
    assert Rel(ts[0].path) == LightShown;
    assert Step(start, ts[0], Rel, force, false, Counters(0, 0, 0), lines) == WriteFailed(start, lines + [err]);
    FileLoopUnfold(start, [ts[0]], Rel, force, false, Counters(0, 0, 0), lines);
    assert FileLoop(start, [ts[0]], Rel, force, false, Counters(0, 0, 0), lines) == WriteFailed(start, lines + [err]);
    FailureIgnoresRest(start, [ts[0]], [ts[1]], Rel, force, false, Counters(0, 0, 0), lines);
    assert LoopResult(fs, projectDir, tpl, force, false) == WriteFailed(start, lines + [err]);
  }

  /**
   * A dry run succeeds, creates no directory, writes no file, and reports each file as
   * skipped, as one it would overwrite, or as one it would create.
   */
  lemma DryRunOutcome(fs: Fs, projectDir: string, tpl: Templates, force: bool)
    ensures InitOutcome(fs, projectDir, tpl, force, true) ==
      Outcome(ExitSuccess,
        DirectoryLines(fs, projectDir, true) + DryRunLines(fs, Targets(projectDir, tpl), Rel, force)
          + ["<info>Dry-run complete. No files were written.</info>"],
        fs)
  {
    DryRunLoop(fs, Targets(projectDir, tpl), Rel, force, Counters(0, 0, 0), DirectoryLines(fs, projectDir, true));
  }

  /** Without `--force`, whatever exists before the command is left exactly as it was, however it ends. */
  lemma ExistingKept(fs: Fs, projectDir: string, tpl: Templates, dryRun: bool, q: string)
    requires Exists(fs, q)
    ensures var out := InitOutcome(fs, projectDir, tpl, false, dryRun);
      (IsFile(out.fs, q) <==> IsFile(fs, q)) && (IsDir(out.fs, q) <==> IsDir(fs, q)) && Read(out.fs, q) == Read(fs, q)
  {
    if !DirectoryFails(fs, projectDir, dryRun) {
      var start := LoopStart(fs, projectDir, dryRun);
      StartKeepsOthers(fs, projectDir, dryRun, q);
      ExistingKeptWithoutForce(start, Targets(projectDir, tpl), Rel, dryRun, Counters(0, 0, 0), DirectoryLines(fs, projectDir, dryRun), q);
    }
  }

  /** Each of the two files exists after the directory step exactly when it existed before. */
  lemma CountExistingTargets(fs: Fs, projectDir: string, tpl: Templates, dryRun: bool)
    requires !DirectoryFails(fs, projectDir, dryRun)
    ensures CountExisting(LoopStart(fs, projectDir, dryRun), Targets(projectDir, tpl)) ==
      (if Exists(fs, LightPath(projectDir)) then 1 else 0) + (if Exists(fs, DarkPath(projectDir)) then 1 else 0)
  {
    var ts := Targets(projectDir, tpl);
    TargetsShape(projectDir, tpl);
    TargetPathsDiffer(projectDir);
    StartKeepsOthers(fs, projectDir, dryRun, LightPath(projectDir));
    StartKeepsOthers(fs, projectDir, dryRun, DarkPath(projectDir));
    assert ts[1..][1..] == [];
  }

  /**
   * A run without `--force` that writes both files skips exactly the ones that existed
   * and creates the others.
   */
  lemma NoForceRun(fs: Fs, projectDir: string, tpl: Templates)
    requires !DirectoryFails(fs, projectDir, false) && LoopResult(fs, projectDir, tpl, false, false).Completed?
    ensures var n := (if Exists(fs, LightPath(projectDir)) then 1 else 0) + (if Exists(fs, DarkPath(projectDir)) then 1 else 0);
      LoopResult(fs, projectDir, tpl, false, false).counts == Counters(2 - n, n, 0)
  {
    TargetsShape(projectDir, tpl);
    CountExistingTargets(fs, projectDir, tpl, false);
    NoForceCounts(LoopStart(fs, projectDir, false), Targets(projectDir, tpl), Rel, Counters(0, 0, 0), DirectoryLines(fs, projectDir, false));
  }

  /** A run with `--force` that writes both files reports both as overwritten, whether they existed or not. */
  lemma ForceRun(fs: Fs, projectDir: string, tpl: Templates)
    requires !DirectoryFails(fs, projectDir, false) && LoopResult(fs, projectDir, tpl, true, false).Completed?
    ensures LoopResult(fs, projectDir, tpl, true, false).counts == Counters(0, 0, 2)
  {
    TargetsShape(projectDir, tpl);
    ForceCountsOverwritten(LoopStart(fs, projectDir, false), Targets(projectDir, tpl), Rel, Counters(0, 0, 0), DirectoryLines(fs, projectDir, false));
  }

  /**
   * A successful run that writes counts each of the two files once, and closes with the
   * `Done.` line showing the counters and the three hint lines.
   */
  lemma SuccessfulRun(fs: Fs, projectDir: string, tpl: Templates, force: bool)
    requires !DirectoryFails(fs, projectDir, false) && LoopResult(fs, projectDir, tpl, force, false).Completed?
    ensures var c := LoopResult(fs, projectDir, tpl, force, false).counts;
      var out := InitOutcome(fs, projectDir, tpl, force, false);
      && c.created + c.skipped + c.overwritten == 2
      && out.exit == ExitSuccess && |out.lines| >= 4
      && out.lines[|out.lines| - 4..] == ClosingLines(c)
  {
    TargetsShape(projectDir, tpl);
    EveryEntryCounted(LoopStart(fs, projectDir, false), Targets(projectDir, tpl), Rel, force, Counters(0, 0, 0), DirectoryLines(fs, projectDir, false));
  }

  /** The file system a run that writes leaves behind is the one its loop ends on. */
  lemma FinalFs(fs: Fs, projectDir: string, tpl: Templates, force: bool)
    requires !DirectoryFails(fs, projectDir, false) && LoopResult(fs, projectDir, tpl, force, false).Completed?
    ensures InitOutcome(fs, projectDir, tpl, force, false).fs == LoopResult(fs, projectDir, tpl, force, false).fs
  {
  }

  /** The contents a successful run that writes leaves at the path of entry `k`. */
  lemma EntryWritten(fs: Fs, projectDir: string, tpl: Templates, force: bool, k: nat)
    requires k < 2
    requires !DirectoryFails(fs, projectDir, false) && LoopResult(fs, projectDir, tpl, force, false).Completed?
    ensures var t := Targets(projectDir, tpl)[k];
      Read(InitOutcome(fs, projectDir, tpl, force, false).fs, t.path) ==
        (if Exists(fs, t.path) && !force then Read(fs, t.path) else t.content)
  {
    var ts := Targets(projectDir, tpl);
    TargetsShape(projectDir, tpl);
    TargetPathsDiffer(projectDir);
    StartKeepsOthers(fs, projectDir, false, ts[k].path);
    FinalFs(fs, projectDir, tpl, force);
    EntryContents(LoopStart(fs, projectDir, false), ts, Rel, force, Counters(0, 0, 0), DirectoryLines(fs, projectDir, false), k);
  }

  /**
   * After a successful run that writes, each file holds its template, except an
   * existing one kept without `--force`.
   */
  lemma WrittenTemplates(fs: Fs, projectDir: string, tpl: Templates, force: bool)
    requires !DirectoryFails(fs, projectDir, false) && LoopResult(fs, projectDir, tpl, force, false).Completed?
    ensures var out := InitOutcome(fs, projectDir, tpl, force, false);
      && Read(out.fs, LightPath(projectDir)) ==
           (if Exists(fs, LightPath(projectDir)) && !force then Read(fs, LightPath(projectDir)) else tpl.light)
      && Read(out.fs, DarkPath(projectDir)) ==
           (if Exists(fs, DarkPath(projectDir)) && !force then Read(fs, DarkPath(projectDir)) else tpl.dark)
  {
    TargetsShape(projectDir, tpl);
    EntryWritten(fs, projectDir, tpl, force, 0);
    EntryWritten(fs, projectDir, tpl, force, 1);
  }

  /** What `execute` writes: the texts of `getLightContent()` and `getDarkContent()`. */
  lemma StockTemplatesWritten(fs: Fs, projectDir: string, force: bool)
    requires !DirectoryFails(fs, projectDir, false) && LoopResult(fs, projectDir, StockTemplates, force, false).Completed?
    ensures var out := InitOutcome(fs, projectDir, StockTemplates, force, false);
      && Read(out.fs, LightPath(projectDir)) ==
           (if Exists(fs, LightPath(projectDir)) && !force then Read(fs, LightPath(projectDir)) else LightTemplate)
      && Read(out.fs, DarkPath(projectDir)) ==
           (if Exists(fs, DarkPath(projectDir)) && !force then Read(fs, DarkPath(projectDir)) else DarkTemplate)
  {
    WrittenTemplates(fs, projectDir, StockTemplates, force);
  }
}

/**
 * `PurgeCommand::execute` (`bootstrap:purge`): gather the existing paths to scan, run
 * the purge service, report what was found, and write the purged CSS unless this is a
 * dry run.
 */
module PurgeCommand {
  import opened Wrappers
  import opened Text
  import opened Lists
  import opened Paths
  import opened Scanners
  import opened Selectors
  import opened SelectorProperties
  import opened Filesystem
  import opened Console
  import opened PurgeService

  /** The command's options, after the casts at the top of `execute`. */
  datatype PurgeOptions = PurgeOptions(
    input: string, output: string,
    templatesDirs: seq<string>, includeDirs: seq<string>, includeFiles: seq<string>,
    selectors: seq<string>, readable: bool, dryRun: bool)

  /** The defaults `configure` gives the options, for a project directory. */
  function DefaultOptions(projectDir: string): PurgeOptions {
    PurgeOptions(projectDir + "/assets/css/bootstrap.css", projectDir + "/assets/css/bootstrap-purged.css",
      [projectDir + "/templates"], [], [], [], false, false)
  }

  // ---------------------------------------------------------------------------------
  // The paths to scan

  /** The non-empty entries that are directories, in order. */
  function ExistingDirs(fs: Fs, ds: seq<string>): (r: seq<string>)
    ensures |r| <= |ds|
  {
    if ds == [] then []
    else
      var d := ds[|ds| - 1];
      ExistingDirs(fs, ds[..|ds| - 1]) + (if d != "" && IsDir(fs, d) then [d] else [])
  }

  /** The non-empty entries that are regular files, in order. */
  function ExistingFiles(fs: Fs, ps: seq<string>): (r: seq<string>)
    ensures |r| <= |ps|
  {
    if ps == [] then []
    else
      var f := ps[|ps| - 1];
      ExistingFiles(fs, ps[..|ps| - 1]) + (if f != "" && IsFile(fs, f) then [f] else [])
  }

  /** `$pathsToScan`: template directories, then include directories, then include files. */
  function PathsToScan(fs: Fs, o: PurgeOptions): seq<string> {
    ExistingDirs(fs, o.templatesDirs) + ExistingDirs(fs, o.includeDirs) + ExistingFiles(fs, o.includeFiles)
  }

  lemma ExistingDirsStep(fs: Fs, ds: seq<string>, i: nat)
    requires i < |ds|
    ensures ExistingDirs(fs, ds[..i + 1]) == ExistingDirs(fs, ds[..i]) + (if ds[i] != "" && IsDir(fs, ds[i]) then [ds[i]] else [])
  {
    assert ds[..i + 1][..i] == ds[..i];
  }

  lemma ExistingFilesStep(fs: Fs, ps: seq<string>, i: nat)
    requires i < |ps|
    ensures ExistingFiles(fs, ps[..i + 1]) == ExistingFiles(fs, ps[..i]) + (if ps[i] != "" && IsFile(fs, ps[i]) then [ps[i]] else [])
  {
    assert ps[..i + 1][..i] == ps[..i];
  }

  /** One of the two directory loops. */
  method DirectoryLoop(fs: Fs, ds: seq<string>) returns (found: seq<string>)
    ensures found == ExistingDirs(fs, ds)
  {
    found := [];
    for i := 0 to |ds|
      invariant found == ExistingDirs(fs, ds[..i])
    {
      ExistingDirsStep(fs, ds, i);
      var dir := ds[i];
      if dir != "" && IsDir(fs, dir) {
        found := found + [dir];
      }
    }
    assert ds[..|ds|] == ds;
  }

  /** The three loops that build `$pathsToScan`. */
  method ScanPaths(fs: Fs, o: PurgeOptions) returns (paths: seq<string>)
    ensures paths == PathsToScan(fs, o)
  {
    paths := DirectoryLoop(fs, o.templatesDirs);
    var more := DirectoryLoop(fs, o.includeDirs);
    paths := paths + more;
    ghost var dirs := paths;
    var files := o.includeFiles;
    for i := 0 to |files|
      invariant paths == dirs + ExistingFiles(fs, files[..i])
    {
      ExistingFilesStep(fs, files, i);
      var file := files[i];
      if file != "" && IsFile(fs, file) {
        paths := paths + [file];
      }
    }
    assert files[..|files|] == files;
  }

  // ---------------------------------------------------------------------------------
  // The report

  /**
   * `preg_match('/^[a-z][a-z0-9-]*$/', $s)`: a lower-case tag name; `$` also matches
   * just before a final newline, so a tag name followed by one `\n` passes too.
   */
  predicate MatchesTagPattern(s: string) {
    IsLowerTagName(s) || (s != [] && s[|s| - 1] == '\n' && IsLowerTagName(s[..|s| - 1]))
  }

  /** `array_filter` with the tag pattern: the matching selectors, in order. */
  function TagFilter(sels: seq<string>): (r: seq<string>)
    ensures |r| <= |sels|
  {
    if sels == [] then []
    else
      var s := sels[|sels| - 1];
      TagFilter(sels[..|sels| - 1]) + (if MatchesTagPattern(s) then [s] else [])
  }

  /** `$tags`: the kept selectors that look like tag names, without duplicates. */
  function ReportedTags(kept: seq<string>): seq<string> {
    Dedup(TagFilter(kept))
  }

  /** One `  - item` line per item. */
  function Bullets(items: seq<string>): (r: seq<string>)
    ensures |r| == |items|
  {
    if items == [] then [] else Bullets(items[..|items| - 1]) + ["  - " + items[|items| - 1]]
  }

  /** The lines about the tags among the kept selectors. */
  function TagReport(tags: seq<string>): seq<string> {
    if tags == [] then ["HTML tags found: none"] else ["HTML tags found:"] + Bullets(tags)
  }

  /** The lines about the kept selectors. */
  function SelectorReport(kept: seq<string>): seq<string> {
    if kept == [] then ["Selectors found (normalized): none"]
    else ["Selectors found (normalized):"] + Bullets(kept) + TagReport(ReportedTags(kept))
  }

  /** The size note of the input line: `filesize` in bytes, or `missing`. */
  function SizeNote(fs: Fs, p: string): string {
    if IsFile(fs, p) then NatToString(|fs.files[p]|) + " bytes" else "missing"
  }

  /** The first three lines: the counts, the input, the output. */
  function SummaryLines(fs: Fs, o: PurgeOptions, found: nat, kept: nat): seq<string> {
    [ "Found " + NatToString(found) + " selectors in sources; keeping " + NatToString(kept) + " after normalization.",
      "Input CSS: " + o.input + " (" + SizeNote(fs, o.input) + ")",
      "Output CSS: " + o.output + (if o.dryRun then " (dry-run, not written)" else "") ]
  }

  // ---------------------------------------------------------------------------------
  // Writing the output

  /** Creating the output directory when it is missing, then writing the purged CSS. */
  function WriteOutcome(fs: Fs, output: string, css: string): Outcome {
    var outDir := Dirname(output);
    if !IsDir(fs, outDir) && MakeDir(fs, outDir).None? then
      Outcome(ExitFailure, ["<error>Failed to create output directory: " + outDir + "</error>"], fs)
    else
      var fs1 := if IsDir(fs, outDir) then fs else MakeDir(fs, outDir).value;
      match WriteFile(fs1, output, css)
      case None => Outcome(ExitFailure, ["<error>Failed to write output file: " + output + "</error>"], fs1)
      case Some(fs2) => Outcome(ExitSuccess, [], fs2)
  }

  /**
   * What `execute` leaves behind, or the message of the service's exception, which the
   * command does not catch.
   */
  function ExecuteOutcome(fs: Fs, o: PurgeOptions, purgerAvailable: bool, render: PurgerCall -> string): Result<Outcome, string> {
    var r := PurgeOutcome(fs, o.input, PathsToScan(fs, o), o.selectors, o.readable, purgerAvailable, render);
    if r.Failure? then Failure(r.error)
    else
      var lines := SummaryLines(fs, o, r.value.stats.found, |r.value.kept|) + SelectorReport(r.value.kept);
      if o.dryRun then Success(Outcome(ExitSuccess, lines, fs))
      else
        var w := WriteOutcome(fs, o.output, r.value.css);
        Success(Outcome(w.exit, lines + w.lines, w.fs))
  }

  lemma BulletsStep(items: seq<string>, i: nat)
    requires i < |items|
    ensures Bullets(items[..i + 1]) == Bullets(items[..i]) + ["  - " + items[i]]
  {
    assert items[..i + 1][..i] == items[..i];
  }

  /** The `writeln` loop over a list. */
  method WriteBullets(items: seq<string>) returns (lines: seq<string>)
    ensures lines == Bullets(items)
  {
    lines := [];
    for i := 0 to |items|
      invariant lines == Bullets(items[..i])
    {
      BulletsStep(items, i);
      lines := lines + ["  - " + items[i]];
    }
    assert items[..|items|] == items;
  }

  /** The report of the kept selectors and of the tags among them. */
  method ReportSelectors(kept: seq<string>) returns (lines: seq<string>)
    ensures lines == SelectorReport(kept)
  {
    if kept != [] {
      lines := ["Selectors found (normalized):"];
      var more := WriteBullets(kept);
      lines := lines + more;
      var tags := Dedup(TagFilter(kept));
      if tags != [] {
        lines := lines + ["HTML tags found:"];
        more := WriteBullets(tags);
        lines := lines + more;
      } else {
        lines := lines + ["HTML tags found: none"];
      }
    } else {
      lines := ["Selectors found (normalized): none"];
    }
  }

  /** The `!$dryRun` branch. */
  method WriteOutput(fs: Fs, output: string, css: string) returns (out: Outcome)
    ensures out == WriteOutcome(fs, output, css)
  {
    var current := fs;
    var outDir := Dirname(output);
    if !IsDir(current, outDir) {
      var made := MakeDir(current, outDir);
      if made.None? {
        return Outcome(ExitFailure, ["<error>Failed to create output directory: " + outDir + "</error>"], current);
      }
      current := made.value;
    }
    var written := WriteFile(current, output, css);
    if written.None? {
      return Outcome(ExitFailure, ["<error>Failed to write output file: " + output + "</error>"], current);
    }
    out := Outcome(ExitSuccess, [], written.value);
  }

  /** The three `writeln` calls of the summary. */
  method WriteSummary(fs: Fs, o: PurgeOptions, found: nat, kept: nat) returns (lines: seq<string>)
    ensures lines == SummaryLines(fs, o, found, kept)
  {
    lines := ["Found " + NatToString(found) + " selectors in sources; keeping " + NatToString(kept) + " after normalization."];
    lines := lines + ["Input CSS: " + o.input + " (" + SizeNote(fs, o.input) + ")"];
    lines := lines + ["Output CSS: " + o.output + (if o.dryRun then " (dry-run, not written)" else "")];
  }

  /** `execute($input, $output)`. */
  method Execute(fs: Fs, o: PurgeOptions, purgerAvailable: bool, render: PurgerCall -> string)
    returns (r: Result<Outcome, string>)
    ensures r == ExecuteOutcome(fs, o, purgerAvailable, render)
  {
    var paths := ScanPaths(fs, o);
    var purged := Purge(fs, o.input, paths, o.selectors, o.readable, purgerAvailable, render);
    if purged.Failure? {
      return Failure(purged.error);
    }
    var kept := purged.value.kept;
    var lines := WriteSummary(fs, o, purged.value.stats.found, |kept|);
    var report := ReportSelectors(kept);
    lines := lines + report;
    if o.dryRun {
      return Success(Outcome(ExitSuccess, lines, fs));
    }
    var w := WriteOutput(fs, o.output, purged.value.css);
    r := Success(Outcome(w.exit, lines + w.lines, w.fs));
  }

  // ---------------------------------------------------------------------------------
  // Properties of the paths to scan

  /** A directory entry is scanned exactly when it is non-empty and is a directory. */
  lemma {:induction false} ExistingDirsMembership(fs: Fs, ds: seq<string>, p: string)
    ensures p in ExistingDirs(fs, ds) <==> p in ds && p != "" && IsDir(fs, p)
  {
    if ds != [] {
      ExistingDirsMembership(fs, ds[..|ds| - 1], p);
      assert ds == ds[..|ds| - 1] + [ds[|ds| - 1]];
    }
  }

  /** A file entry is scanned exactly when it is non-empty and is a regular file. */
  lemma {:induction false} ExistingFilesMembership(fs: Fs, ps: seq<string>, p: string)
    ensures p in ExistingFiles(fs, ps) <==> p in ps && p != "" && IsFile(fs, p)
  {
    if ps != [] {
      ExistingFilesMembership(fs, ps[..|ps| - 1], p);
      assert ps == ps[..|ps| - 1] + [ps[|ps| - 1]];
    }
  }

  /** The service is only ever asked to scan paths that exist, each of the kind its option names. */
  lemma ScannedPathsExist(fs: Fs, o: PurgeOptions, p: string)
    ensures p in PathsToScan(fs, o) <==>
      p != "" && (((p in o.templatesDirs || p in o.includeDirs) && IsDir(fs, p)) || (p in o.includeFiles && IsFile(fs, p)))
  {
    ExistingDirsMembership(fs, o.templatesDirs, p);
    ExistingDirsMembership(fs, o.includeDirs, p);
    ExistingFilesMembership(fs, o.includeFiles, p);
  }

  /**
   * With every option at its default, the only path scanned is the project's `templates`
   * directory, and only when it is a directory; no extra selector is added.
   */
  lemma DefaultRunScansTemplates(fs: Fs, projectDir: string)
    ensures var o := DefaultOptions(projectDir);
      && PathsToScan(fs, o) == (if IsDir(fs, projectDir + "/templates") then [projectDir + "/templates"] else [])
      && o.selectors == [] && !o.dryRun && !o.readable
  {
    var t := projectDir + "/templates";
    assert t != "" by { assert |t| >= 10; }
    assert [t][..0] == [] && [t][..1] == [t];
    ExistingDirsStep(fs, [t], 0);
  }

  // ---------------------------------------------------------------------------------
  // Properties of the tag filter

  /** For normalized selectors, which never hold a newline, the filter is exactly "a tag name". */
  lemma TagPatternOnNormalSelectors(s: string)
    requires IsNormalSelector(s)
    ensures MatchesTagPattern(s) <==> IsLowerTagName(s)
  {
    NormalSelectorHasNoNewline(s);
    if s != [] {
      assert s[|s| - 1] in s;
    }
  }

  /** `$` lets a tag name followed by one newline through. */
  lemma FinalNewlinePasses(w: string)
    requires IsLowerTagName(w)
    ensures MatchesTagPattern(w + "\n") && !IsLowerTagName(w + "\n")
  {
    var s := w + "\n";
    assert s[..|s| - 1] == w;
    assert s[|s| - 1] == '\n';
  }

  /** Every tag the tag pass extracts passes the filter. */
  lemma ExtractedTagsPass(content: string, t: string)
    requires t in TagTokens(AllMatches(OpenTag, content))
    ensures MatchesTagPattern(t)
  {
    TagTokensAreLowerTagNames(content, t);
  }

  /** The filter keeps exactly the selectors that match. */
  lemma {:induction false} TagFilterMembership(sels: seq<string>, t: string)
    ensures t in TagFilter(sels) <==> t in sels && MatchesTagPattern(t)
  {
    if sels != [] {
      TagFilterMembership(sels[..|sels| - 1], t);
      assert sels == sels[..|sels| - 1] + [sels[|sels| - 1]];
    }
  }

  /** Filtering a list without duplicates yields a list without duplicates. */
  lemma {:induction false} TagFilterOfDistinct(sels: seq<string>)
    requires NoDup(sels)
    ensures NoDup(TagFilter(sels))
  {
    if sels != [] {
      var init := sels[..|sels| - 1];
      var x := sels[|sels| - 1];
      assert NoDup(init);
      TagFilterOfDistinct(init);
      assert x !in init by {
        forall k | 0 <= k < |init| ensures init[k] != x {
          assert init[k] == sels[k];
        }
      }
      TagFilterMembership(init, x);
    }
  }

  /**
   * The reported tags are exactly the kept selectors that match the tag pattern and,
   * as the kept selectors hold no duplicates, they come in the order of the kept list.
   */
  lemma ReportedTagsAreFilteredKept(kept: seq<string>, t: string)
    requires NoDup(kept)
    ensures ReportedTags(kept) == TagFilter(kept)
    ensures t in ReportedTags(kept) <==> t in kept && MatchesTagPattern(t)
  {
    TagFilterOfDistinct(kept);
    DedupOfDistinct(TagFilter(kept));
    TagFilterMembership(kept, t);
  }

  /** A bullet line names exactly one of its items. */
  lemma {:induction false} BulletsMembership(items: seq<string>, x: string)
    ensures "  - " + x in Bullets(items) <==> x in items
  {
    if items != [] {
      var init := items[..|items| - 1];
      var y := items[|items| - 1];
      BulletsMembership(init, x);
      assert items == init + [y];
      if "  - " + x == "  - " + y {
        assert x == ("  - " + x)[4..] == ("  - " + y)[4..] == y;
      }
    }
  }

  // ---------------------------------------------------------------------------------
  // Properties of the whole command

  /** The only failure the command and the service raise themselves: the purger class cannot be loaded. */
  lemma ExecuteFailsOnlyWithoutPurger(fs: Fs, o: PurgeOptions, purgerAvailable: bool, render: PurgerCall -> string)
    ensures var r := ExecuteOutcome(fs, o, purgerAvailable, render);
      (r.Failure? <==> !purgerAvailable) && (r.Failure? ==> r.error == MissingPurgerMessage)
  {
    FailsOnlyWithoutPurger(fs, o.input, PathsToScan(fs, o), o.selectors, o.readable, purgerAvailable, render);
  }

  /** A dry run succeeds and leaves the file system as it was. */
  lemma DryRunWritesNothing(fs: Fs, o: PurgeOptions, render: PurgerCall -> string)
    requires o.dryRun
    ensures var r := ExecuteOutcome(fs, o, true, render);
      r.Success? && r.value.exit == ExitSuccess && r.value.fs == fs
  {
  }

  /**
   * With the purger present, the command prints the summary, then the report on the kept
   * selectors, then whatever the write adds.
   */
  lemma ExecuteLines(fs: Fs, o: PurgeOptions, render: PurgerCall -> string)
    ensures var paths := PathsToScan(fs, o);
      var kept := KeptSelectors(fs, paths, o.selectors);
      var r := ExecuteOutcome(fs, o, true, render);
      && r.Success?
      && r.value.lines == SummaryLines(fs, o, |FoundSelectors(fs, paths, o.selectors)|, |kept|) + SelectorReport(kept)
           + (if o.dryRun then [] else WriteOutcome(fs, o.output, render(CallFor(o.input, kept, o.readable))).lines)
  {
  }

  /** Every kept selector is listed on a line of its own. */
  lemma KeptSelectorsListed(fs: Fs, o: PurgeOptions, render: PurgerCall -> string, sel: string)
    requires sel in KeptSelectors(fs, PathsToScan(fs, o), o.selectors)
    ensures var r := ExecuteOutcome(fs, o, true, render);
      r.Success? && "  - " + sel in r.value.lines
  {
    var kept := KeptSelectors(fs, PathsToScan(fs, o), o.selectors);
    BulletsMembership(kept, sel);
    var report := SelectorReport(kept);
    assert "  - " + sel in report by {
      assert report == ["Selectors found (normalized):"] + Bullets(kept) + TagReport(ReportedTags(kept));
    }
    ExecuteLines(fs, o, render);
  }

  /**
   * With nothing kept, the report is one line and there is no tag section: what follows
   * it comes from the write step alone.
   */
  lemma NothingKeptReport(fs: Fs, o: PurgeOptions, render: PurgerCall -> string)
    requires KeptSelectors(fs, PathsToScan(fs, o), o.selectors) == []
    ensures var r := ExecuteOutcome(fs, o, true, render);
      && r.Success? && |r.value.lines| >= 4
      && r.value.lines[3] == "Selectors found (normalized): none"
      && r.value.lines[4..] ==
           (if o.dryRun then [] else WriteOutcome(fs, o.output, render(CallFor(o.input, [], o.readable))).lines)
  {
    ExecuteLines(fs, o, render);
  }

  /** Kept selectors none of which looks like a tag name end the report with `HTML tags found: none`. */
  lemma NoTagShapedReport(kept: seq<string>)
    requires kept != [] && TagFilter(kept) == []
    ensures SelectorReport(kept) == ["Selectors found (normalized):"] + Bullets(kept) + ["HTML tags found: none"]
    ensures SelectorReport(kept)[|SelectorReport(kept)| - 1] == "HTML tags found: none"
  {
  }

  /** Once the output directory exists, the command succeeds exactly when the write does. */
  lemma WriteIntoExistingDirectory(fs: Fs, output: string, css: string)
    requires IsDir(fs, Dirname(output))
    ensures var w := WriteOutcome(fs, output, css);
      && (w.exit == ExitSuccess <==> WriteFile(fs, output, css).Some?)
      && (w.exit == ExitSuccess ==> IsFile(w.fs, output) && Read(w.fs, output) == css && w.lines == [])
      && (w.exit != ExitSuccess ==>
            w.exit == ExitFailure && w.fs == fs && w.lines == ["<error>Failed to write output file: " + output + "</error>"])
  {
    if WriteFile(fs, output, css).Some? {
      WriteThenRead(fs, output, css);
    }
  }

  /** A missing output directory that cannot be created stops the command before any write. */
  lemma OutputDirectoryNotCreated(fs: Fs, output: string, css: string)
    requires !IsDir(fs, Dirname(output)) && MakeDir(fs, Dirname(output)).None?
    ensures var w := WriteOutcome(fs, output, css);
      && w.exit == ExitFailure && w.fs == fs
      && w.lines == ["<error>Failed to create output directory: " + Dirname(output) + "</error>"]
  {
  }

  /** A successful write leaves the purged CSS in the output file; the exit code is always 0 or 1. */
  lemma WrittenOutputHoldsCss(fs: Fs, output: string, css: string)
    ensures var w := WriteOutcome(fs, output, css);
      && (w.exit == ExitSuccess || w.exit == ExitFailure)
      && (w.exit == ExitSuccess ==> IsFile(w.fs, output) && Read(w.fs, output) == css)
      && (w.exit == ExitFailure ==> Read(w.fs, output) == Read(fs, output))
  {
    var outDir := Dirname(output);
    if !IsDir(fs, outDir) && MakeDir(fs, outDir).Some? {
      var fs1 := MakeDir(fs, outDir).value;
      MakeDirThenIsDir(fs, outDir, output);
      if WriteFile(fs1, output, css).Some? {
        WriteThenRead(fs1, output, css);
      }
    } else if IsDir(fs, outDir) && WriteFile(fs, output, css).Some? {
      WriteThenRead(fs, output, css);
    }
  }
}

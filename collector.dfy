/**
 * `PurgeService::collectContents`: the text of every scannable file reachable from the
 * paths to scan, each preceded by a `FILE` comment naming it.
 *
 * The loops build their results by appending, so each function over a list is
 * defined on the list's first `n` entries and grows one entry at a time.
 */
module Collector {
  import opened Paths
  import opened Filesystem

  /** What one scanned file adds to the buffer: a header comment, then its contents. */
  function Chunk(path: string, data: string): string {
    "\n\n/* FILE: " + path + " */\n" + data
  }

  /** The chunks of the first `n` files, in order. */
  function ChunksOf(fs: Fs, files: seq<string>, n: nat): string
    requires n <= |files|
    decreases n
  {
    if n == 0 then "" else ChunksOf(fs, files, n - 1) + Chunk(files[n - 1], Read(fs, files[n - 1]))
  }

  /** The chunks of the given files, in order. */
  function Chunks(fs: Fs, files: seq<string>): string {
    ChunksOf(fs, files, |files|)
  }

  /**
   * The entries among the first `n` of a walk that `keep` accepts, in walk order. The
   * file filter is a parameter throughout, so that reasoning about the lists never
   * looks inside `isScannableFile`; `Collected` fixes it to the allow-list.
   */
  function FilterOf(ps: seq<string>, n: nat, keep: string -> bool): (r: seq<string>)
    requires n <= |ps|
    ensures |r| <= n
    decreases n
  {
    if n == 0 then [] else FilterOf(ps, n - 1, keep) + (if keep(ps[n - 1]) then [ps[n - 1]] else [])
  }

  /** The scannable pathnames among the entries of a walk, in walk order. */
  function ScannableOnly(ps: seq<string>): (r: seq<string>)
    ensures |r| <= |ps|
  {
    FilterOf(ps, |ps|, IsScannableFile)
  }

  /**
   * The files one entry of the paths to scan contributes: the accepted files of a
   * directory's walk, an accepted regular file itself, and nothing for the empty
   * string, a missing path or a file the filter refuses.
   */
  function PathFiles(fs: Fs, p: string, keep: string -> bool): seq<string> {
    if p == "" then []
    else if IsDir(fs, p) then FilterOf(Walk(fs, p), |Walk(fs, p)|, keep)
    else if IsFile(fs, p) && keep(p) then [p]
    else []
  }

  /** The files read for the first `n` entries of the paths to scan. */
  function ScannedOf(fs: Fs, paths: seq<string>, n: nat, keep: string -> bool): seq<string>
    requires n <= |paths|
    decreases n
  {
    if n == 0 then [] else ScannedOf(fs, paths, n - 1, keep) + PathFiles(fs, paths[n - 1], keep)
  }

  /** The files `collectContents($paths)` reads, in the order it reads them. */
  function ScannedFiles(fs: Fs, paths: seq<string>): seq<string> {
    ScannedOf(fs, paths, |paths|, IsScannableFile)
  }

  /** What `collectContents($paths)` returns. */
  function Collected(fs: Fs, paths: seq<string>): string {
    Chunks(fs, ScannedFiles(fs, paths))
  }

  /** The chunks of the first `n` files depend on those files only. */
  lemma {:induction false} ChunksOfAgree(fs: Fs, a: seq<string>, b: seq<string>, n: nat)
    requires n <= |a| && n <= |b|
    requires forall i :: 0 <= i < n ==> a[i] == b[i]
    ensures ChunksOf(fs, a, n) == ChunksOf(fs, b, n)
    decreases n
  {
    if n > 0 {
      ChunksOfAgree(fs, a, b, n - 1);
    }
  }

  lemma ChunksSnoc(fs: Fs, files: seq<string>, f: string)
    ensures Chunks(fs, files + [f]) == Chunks(fs, files) + Chunk(f, Read(fs, f))
  {
    ChunksOfAgree(fs, files + [f], files, |files|);
  }

  lemma {:induction false} ChunksOfAppend(fs: Fs, a: seq<string>, b: seq<string>, m: nat)
    requires m <= |b|
    ensures ChunksOf(fs, a + b, |a| + m) == Chunks(fs, a) + ChunksOf(fs, b, m)
    decreases m
  {
    if m == 0 {
      ChunksOfAgree(fs, a + b, a, |a|);
    } else {
      ChunksOfAppend(fs, a, b, m - 1);
      assert (a + b)[|a| + m - 1] == b[m - 1];
    }
  }

  /** The chunks of two lists of files are the two buffers concatenated. */
  lemma ChunksAppend(fs: Fs, a: seq<string>, b: seq<string>)
    ensures Chunks(fs, a + b) == Chunks(fs, a) + Chunks(fs, b)
  {
    ChunksOfAppend(fs, a, b, |b|);
  }

  /** The inner loop of `collectContents`, over the walk of one directory. */
  method WalkContents(fs: Fs, walk: seq<string>, keep: string -> bool) returns (more: string)
    ensures more == Chunks(fs, FilterOf(walk, |walk|, keep))
  {
    more := "";
    for j := 0 to |walk|
      invariant more == Chunks(fs, FilterOf(walk, j, keep))
    {
      var file := walk[j];
      assert FilterOf(walk, j + 1, keep) == FilterOf(walk, j, keep) + (if keep(file) then [file] else []);
      if keep(file) {
        ChunksSnoc(fs, FilterOf(walk, j, keep), file);
        more := more + Chunk(file, Read(fs, file));
      } else {
        assert FilterOf(walk, j + 1, keep) == FilterOf(walk, j, keep);
      }
    }
  }

  /** The body of the loop over the paths to scan, for one entry. */
  method PathContents(fs: Fs, path: string, keep: string -> bool) returns (more: string)
    ensures more == Chunks(fs, PathFiles(fs, path, keep))
  {
    if path == "" {
      return "";
    }
    if IsDir(fs, path) {
      more := WalkContents(fs, Walk(fs, path), keep);
    } else if IsFile(fs, path) && keep(path) {
      assert PathFiles(fs, path, keep) == [] + [path];
      ChunksSnoc(fs, [], path);
      more := Chunk(path, Read(fs, path));
    } else {
      more := "";
    }
  }

  /** The loop over the paths to scan, with the file filter as a parameter. */
  method CollectWith(fs: Fs, paths: seq<string>, keep: string -> bool) returns (buffer: string)
    ensures buffer == Chunks(fs, ScannedOf(fs, paths, |paths|, keep))
  {
    buffer := "";
    for i := 0 to |paths|
      invariant buffer == Chunks(fs, ScannedOf(fs, paths, i, keep))
    {
      var more := PathContents(fs, paths[i], keep);
      ChunksAppend(fs, ScannedOf(fs, paths, i, keep), PathFiles(fs, paths[i], keep));
      buffer := buffer + more;
    }
  }

  /** `collectContents($paths)`: the loop, filtering with `isScannableFile`. */
  method CollectContents(fs: Fs, paths: seq<string>) returns (buffer: string)
    ensures buffer == Collected(fs, paths)
  {
    buffer := CollectWith(fs, paths, IsScannableFile);
  }

  // ---------------------------------------------------------------------------------
  // Properties

  lemma {:induction false} FilterOfMembership(ps: seq<string>, n: nat, keep: string -> bool, f: string)
    requires n <= |ps|
    ensures f in FilterOf(ps, n, keep) <==> keep(f) && exists i :: 0 <= i < n && ps[i] == f
    decreases n
  {
    if n > 0 {
      FilterOfMembership(ps, n - 1, keep, f);
    }
  }

  /** An entry of a walk is kept exactly when it is scannable. */
  lemma ScannableOnlyMembership(ps: seq<string>, f: string)
    ensures f in ScannableOnly(ps) <==> f in ps && IsScannableFile(f)
  {
    FilterOfMembership(ps, |ps|, IsScannableFile, f);
  }

  /**
   * Whether entry `p` of the paths to scan leads to `f`: `p` is non-empty and is a
   * directory whose walk yields `f`, or is not a directory and is the regular file `f`.
   */
  predicate LeadsTo(fs: Fs, p: string, f: string) {
    p != "" && ((IsDir(fs, p) && f in Walk(fs, p)) || (!IsDir(fs, p) && IsFile(fs, f) && f == p))
  }

  /** One entry contributes exactly the accepted files it leads to. */
  lemma PathFilesMembership(fs: Fs, p: string, keep: string -> bool, f: string)
    ensures f in PathFiles(fs, p, keep) <==> keep(f) && LeadsTo(fs, p, f)
  {
    if p != "" && IsDir(fs, p) {
      FilterOfMembership(Walk(fs, p), |Walk(fs, p)|, keep, f);
    }
  }

  lemma {:induction false} ScannedOfMembership(fs: Fs, paths: seq<string>, n: nat, keep: string -> bool, f: string)
    requires n <= |paths|
    ensures f in ScannedOf(fs, paths, n, keep) <==>
      keep(f) && exists k :: 0 <= k < n && LeadsTo(fs, paths[k], f)
    decreases n
  {
    if n > 0 {
      ScannedOfMembership(fs, paths, n - 1, keep, f);
      PathFilesMembership(fs, paths[n - 1], keep, f);
    }
  }

  /** A file is read exactly when it is scannable and some entry of the paths leads to it. */
  lemma ScannedFilesMembership(fs: Fs, paths: seq<string>, f: string)
    ensures f in ScannedFiles(fs, paths) <==>
      IsScannableFile(f) && exists k :: 0 <= k < |paths| && LeadsTo(fs, paths[k], f)
  {
    ScannedOfMembership(fs, paths, |paths|, IsScannableFile, f);
  }

  /** Every file read has a scannable extension. */
  lemma EveryScannedFileIsScannable(fs: Fs, paths: seq<string>, f: string)
    requires f in ScannedFiles(fs, paths)
    ensures IsScannableFile(f)
  {
    ScannedFilesMembership(fs, paths, f);
  }

  /** The files read for the first `n` paths depend on those paths only. */
  lemma {:induction false} ScannedOfAgree(fs: Fs, a: seq<string>, b: seq<string>, n: nat, keep: string -> bool)
    requires n <= |a| && n <= |b|
    requires forall i :: 0 <= i < n ==> a[i] == b[i]
    ensures ScannedOf(fs, a, n, keep) == ScannedOf(fs, b, n, keep)
    decreases n
  {
    if n > 0 {
      ScannedOfAgree(fs, a, b, n - 1, keep);
    }
  }

  lemma {:induction false} ScannedOfAppend(fs: Fs, ps: seq<string>, qs: seq<string>, m: nat, keep: string -> bool)
    requires m <= |qs|
    ensures ScannedOf(fs, ps + qs, |ps| + m, keep) == ScannedOf(fs, ps, |ps|, keep) + ScannedOf(fs, qs, m, keep)
    decreases m
  {
    if m == 0 {
      ScannedOfAgree(fs, ps + qs, ps, |ps|, keep);
    } else {
      ScannedOfAppend(fs, ps, qs, m - 1, keep);
      assert (ps + qs)[|ps| + m - 1] == qs[m - 1];
    }
  }

  /** The files read for two lists of paths are the two lists of files concatenated. */
  lemma ScannedFilesAppend(fs: Fs, ps: seq<string>, qs: seq<string>)
    ensures ScannedFiles(fs, ps + qs) == ScannedFiles(fs, ps) + ScannedFiles(fs, qs)
  {
    ScannedOfAppend(fs, ps, qs, |qs|, IsScannableFile);
  }

  /** Scanning two lists of paths one after the other yields the two buffers concatenated. */
  lemma CollectedAppend(fs: Fs, ps: seq<string>, qs: seq<string>)
    ensures Collected(fs, ps + qs) == Collected(fs, ps) + Collected(fs, qs)
  {
    ScannedFilesAppend(fs, ps, qs);
    ChunksAppend(fs, ScannedFiles(fs, ps), ScannedFiles(fs, qs));
  }

  /**
   * The empty string, a path that does not exist and a file with an extension off the
   * allow-list add nothing to the buffer.
   */
  lemma SkippedPathAddsNothing(fs: Fs, paths: seq<string>, p: string)
    requires p == "" || !Exists(fs, p) || (IsFile(fs, p) && !IsScannableFile(p))
    ensures Collected(fs, paths + [p]) == Collected(fs, paths)
  {
    CollectedAppend(fs, paths, [p]);
    assert PathFiles(fs, [p][0], IsScannableFile) == [];
    assert ScannedOf(fs, [p], 0, IsScannableFile) == [];
    assert ScannedFiles(fs, [p]) == [] + [];
  }

  /** A single scannable file yields exactly its header comment and its contents. */
  lemma OneFileCollected(fs: Fs, p: string)
    requires p != "" && IsFile(fs, p) && IsScannableFile(p)
    ensures Collected(fs, [p]) == "\n\n/* FILE: " + p + " */\n" + fs.files[p]
  {
    assert PathFiles(fs, [p][0], IsScannableFile) == [p];
    assert ScannedOf(fs, [p], 0, IsScannableFile) == [];
    assert ScannedFiles(fs, [p]) == [] + [p];
    ChunksSnoc(fs, [], p);
  }

  /** Nothing to scan yields the empty buffer. */
  lemma NothingCollected(fs: Fs)
    ensures Collected(fs, []) == ""
  {
  }
}

/**
 * The part of the file system the service and the commands observe, as a value that
 * operations take and return: regular files with their contents, directories with
 * the pathnames a recursive walk of them yields, and the paths where creating a
 * directory or writing a file is refused (permissions, a missing parent, a full disk).
 */
module Filesystem {
  import opened Wrappers

  /**
   * `files` maps a file's path to its bytes. `dirs` maps a directory to the pathnames
   * that `RecursiveIteratorIterator(RecursiveDirectoryIterator($dir, SKIP_DOTS))` yields
   * for it, in the order it yields them (files only: directories are not leaves).
   * `refused` holds the paths where `mkdir` or `file_put_contents` fails.
   */
  datatype Fs = Fs(files: map<string, string>, dirs: map<string, seq<string>>, refused: set<string>)

  /** `is_dir($p)`. */
  predicate IsDir(fs: Fs, p: string) {
    p in fs.dirs
  }

  /** `is_file($p)`. */
  predicate IsFile(fs: Fs, p: string) {
    p in fs.files && p !in fs.dirs
  }

  /** `file_exists($p)`: a file or a directory. */
  predicate Exists(fs: Fs, p: string) {
    IsFile(fs, p) || IsDir(fs, p)
  }

  /**
   * `@file_get_contents($p)` as the service uses it: the contents of a file, and for
   * anything else the `false` it returns, which concatenates as the empty string.
   */
  function Read(fs: Fs, p: string): string {
    if IsFile(fs, p) then fs.files[p] else ""
  }

  /** The pathnames the recursive walk of a directory yields, in order. */
  function Walk(fs: Fs, d: string): seq<string>
    requires IsDir(fs, d)
  {
    fs.dirs[d]
  }

  /**
   * `mkdir($p, 0777, true)`: fails on the empty path, on a path that already exists
   * and on a refused one; on success `p` is a new, empty directory.
   */
  function MakeDir(fs: Fs, p: string): (r: Option<Fs>)
    ensures r.Some? <==> p != "" && !Exists(fs, p) && p !in fs.refused
  {
    if p == "" || Exists(fs, p) || p in fs.refused then None
    else Some(fs.(dirs := fs.dirs[p := []]))
  }

  /**
   * `file_put_contents($p, $data)`: fails on the empty path, a directory or a refused
   * path; otherwise creates or replaces the file.
   */
  function WriteFile(fs: Fs, p: string, data: string): (r: Option<Fs>)
    ensures r.Some? <==> p != "" && !IsDir(fs, p) && p !in fs.refused
  {
    if p == "" || IsDir(fs, p) || p in fs.refused then None
    else Some(fs.(files := fs.files[p := data]))
  }

  /** After a successful write the path is a file holding exactly the data written. */
  lemma WriteThenRead(fs: Fs, p: string, data: string)
    requires WriteFile(fs, p, data).Some?
    ensures IsFile(WriteFile(fs, p, data).value, p)
    ensures Read(WriteFile(fs, p, data).value, p) == data
  {
  }

  /** A write changes no other path. */
  lemma WriteKeepsOthers(fs: Fs, p: string, data: string, q: string)
    requires WriteFile(fs, p, data).Some?
    requires q != p
    ensures var fs' := WriteFile(fs, p, data).value;
      (IsFile(fs', q) <==> IsFile(fs, q)) && (IsDir(fs', q) <==> IsDir(fs, q)) && Read(fs', q) == Read(fs, q)
  {
  }

  /** After a successful `mkdir` the path is a directory; no file and no other directory changes. */
  lemma MakeDirThenIsDir(fs: Fs, p: string, q: string)
    requires MakeDir(fs, p).Some?
    ensures IsDir(MakeDir(fs, p).value, p)
    ensures MakeDir(fs, p).value.files == fs.files
    ensures q != p ==> (IsDir(MakeDir(fs, p).value, q) <==> IsDir(fs, q))
    ensures q != p ==> Read(MakeDir(fs, p).value, q) == Read(fs, q)
  {
  }
}

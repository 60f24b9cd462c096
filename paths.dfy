/**
 * Path handling from PHP's runtime that the core relies on: `basename`, the
 * `PATHINFO_EXTENSION` part of `pathinfo`, `dirname` (Unix, `/` only), and
 * `PurgeService::isScannableFile`, the extension allow-list.
 */
module Paths {
  import opened Text

  /** The position just after the last `c` among the first `n` bytes of `s`, or 0. */
  function CutAfterLast(s: string, c: char, n: nat): (k: nat)
    requires n <= |s|
    decreases n
    ensures k <= n
    ensures k > 0 ==> s[k - 1] == c
  {
    if n == 0 then 0 else if s[n - 1] == c then n else CutAfterLast(s, c, n - 1)
  }

  /** No `c` lies between the cut and `n`. */
  lemma {:induction false} CutAfterLastIsLast(s: string, c: char, n: nat, i: nat)
    requires n <= |s|
    requires CutAfterLast(s, c, n) <= i < n
    ensures s[i] != c
    decreases n
  {
    if s[n - 1] != c && i < n - 1 {
      CutAfterLastIsLast(s, c, n - 1, i);
    }
  }

  /** The part of `s` after its last `c`, or all of `s` when `c` does not occur. */
  function AfterLast(s: string, c: char): (r: string)
    ensures c !in r
  {
    var k := CutAfterLast(s, c, |s|);
    var r := s[k..];
    assert c !in r by {
      forall j | 0 <= j < |r| ensures r[j] != c {
        CutAfterLastIsLast(s, c, |s|, k + j);
      }
    }
    r
  }

  lemma {:induction false} CutOfAbsent(b: string, c: char, n: nat)
    requires n <= |b| && c !in b
    ensures CutAfterLast(b, c, n) == 0
    decreases n
  {
    if n > 0 {
      CutOfAbsent(b, c, n - 1);
    }
  }

  lemma AfterLastAbsent(b: string, c: char)
    requires c !in b
    ensures AfterLast(b, c) == b
  {
    CutOfAbsent(b, c, |b|);
  }

  lemma {:induction false} CutOfSuffix(a: string, c: char, b: string, n: nat)
    requires c !in b
    requires |a| < n <= |a| + 1 + |b|
    ensures CutAfterLast(a + [c] + b, c, n) == |a| + 1
    decreases n
  {
    var s := a + [c] + b;
    if n > |a| + 1 {
      assert s[n - 1] == b[n - 2 - |a|];
      CutOfSuffix(a, c, b, n - 1);
    } else {
      assert s[n - 1] == c;
    }
  }

  lemma AfterLastOfSuffix(a: string, c: char, b: string)
    requires c !in b
    ensures AfterLast(a + [c] + b, c) == b
  {
    var s := a + [c] + b;
    CutOfSuffix(a, c, b, |s|);
    assert s[|a| + 1..] == b;
  }

  /** The length of `s[..n]` without its trailing run of bytes equal to `c`. */
  function RunStart(s: string, c: char, n: nat): (k: nat)
    requires n <= |s|
    decreases n
    ensures k <= n
    ensures k == 0 || s[k - 1] != c
  {
    if n > 0 && s[n - 1] == c then RunStart(s, c, n - 1) else n
  }

  /** The length of `s[..n]` without its trailing run of bytes other than `c`. */
  function OtherRunStart(s: string, c: char, n: nat): (k: nat)
    requires n <= |s|
    decreases n
    ensures k <= n
    ensures k == 0 || s[k - 1] == c
  {
    if n > 0 && s[n - 1] != c then OtherRunStart(s, c, n - 1) else n
  }

  /** `s` without its trailing run of slashes. */
  function StripSlashes(s: string): (r: string)
    ensures |r| <= |s| && r == s[..|r|]
    ensures r == [] || r[|r| - 1] != '/'
  {
    s[..RunStart(s, '/', |s|)]
  }

  /** `s` without its trailing run of non-slash bytes (its last component). */
  function StripComponent(s: string): (r: string)
    ensures |r| <= |s| && r == s[..|r|]
    ensures r == [] || r[|r| - 1] == '/'
  {
    s[..OtherRunStart(s, '/', |s|)]
  }

  lemma {:induction false} OtherRunOfSuffix(a: string, b: string, n: nat)
    requires a == [] || a[|a| - 1] == '/'
    requires '/' !in b
    requires |a| <= n <= |a| + |b|
    ensures OtherRunStart(a + b, '/', n) == |a|
    decreases n
  {
    var s := a + b;
    if n > |a| {
      assert s[n - 1] == b[n - 1 - |a|];
      OtherRunOfSuffix(a, b, n - 1);
    } else if n > 0 {
      assert s[n - 1] == a[|a| - 1];
    }
  }

  lemma StripComponentOfSuffix(a: string, b: string)
    requires a == [] || a[|a| - 1] == '/'
    requires '/' !in b
    ensures StripComponent(a + b) == a
  {
    OtherRunOfSuffix(a, b, |a + b|);
    assert (a + b)[..|a|] == a;
  }

  /** PHP `basename($p)`: the last component of `p`, trailing slashes ignored. */
  function Basename(p: string): (r: string)
    ensures '/' !in r
  {
    AfterLast(StripSlashes(p), '/')
  }

  /**
   * `pathinfo($p, PATHINFO_EXTENSION)`: what follows the last dot of the basename,
   * or the empty string when the basename has no dot.
   */
  function Extension(p: string): (r: string)
    ensures '.' !in r && '/' !in r
    ensures '.' !in Basename(p) ==> r == ""
  {
    var b := Basename(p);
    if '.' in b then AfterLast(b, '.') else ""
  }

  /** The extensions whose files are scanned for selectors. */
  const ScannableExtensions: seq<string> :=
    ["twig", "html", "htm", "php", "phtml", "js", "ts", "vue", "jsx", "tsx", "md"]

  /** `in_array($e, $list, true)`, looked up entry by entry. */
  predicate Listed(e: string, list: seq<string>)
    decreases |list|
  {
    list != [] && (list[0] == e || Listed(e, list[1..]))
  }

  lemma {:induction false} ListedIff(e: string, list: seq<string>)
    ensures Listed(e, list) <==> e in list
    decreases |list|
  {
    if list != [] {
      ListedIff(e, list[1..]);
      assert list == [list[0]] + list[1..];
    }
  }

  /** `PurgeService::isScannableFile`: the lower-cased extension is on the allow-list. */
  predicate IsScannableFile(p: string) {
    Listed(Lower(Extension(p)), ScannableExtensions)
  }

  /** The basename of a path that does not end with a slash is its last component. */
  lemma BasenameOfChild(dir: string, name: string)
    requires dir == [] || dir[|dir| - 1] == '/'
    requires name != [] && '/' !in name
    ensures Basename(dir + name) == name
  {
    var p := dir + name;
    assert p[|p| - 1] == name[|name| - 1];
    assert StripSlashes(p) == p;
    if dir == [] {
      assert p == name;
      AfterLastAbsent(name, '/');
    } else {
      assert p == dir[..|dir| - 1] + ['/'] + name;
      AfterLastOfSuffix(dir[..|dir| - 1], '/', name);
    }
  }

  /**
   * The extension of `dir + stem + "." + ext` is `ext`, for a directory part that is
   * empty or ends with a slash and a file name whose extension holds no dot.
   */
  lemma ExtensionOfFileName(dir: string, stem: string, ext: string)
    requires dir == [] || dir[|dir| - 1] == '/'
    requires '/' !in stem && '/' !in ext && '.' !in ext
    ensures Extension(dir + stem + "." + ext) == ext
  {
    var name := stem + ['.'] + ext;
    NoSlashInName(stem, ext);
    assert dir + stem + "." + ext == dir + name;
    BasenameOfChild(dir, name);
    ExtensionOfName(stem, ext);
  }

  lemma NoSlashInName(stem: string, ext: string)
    requires '/' !in stem && '/' !in ext
    ensures '/' !in stem + ['.'] + ext
  {
    var name := stem + ['.'] + ext;
    forall i | 0 <= i < |name| ensures name[i] != '/' {
      if i < |stem| { assert name[i] == stem[i]; }
      else if i > |stem| { assert name[i] == ext[i - |stem| - 1]; }
    }
  }

  lemma ExtensionOfName(stem: string, ext: string)
    requires '.' !in ext
    ensures var name := stem + ['.'] + ext; '.' in name && AfterLast(name, '.') == ext
  {
    var name := stem + ['.'] + ext;
    assert name[|stem|] == '.';
    AfterLastOfSuffix(stem, '.', ext);
  }

  /** A file is scanned exactly when its extension, in any letter case, is on the allow-list. */
  lemma ScannableByExtension(dir: string, stem: string, ext: string)
    requires dir == [] || dir[|dir| - 1] == '/'
    requires '/' !in stem && '/' !in ext && '.' !in ext
    ensures IsScannableFile(dir + stem + "." + ext) <==> Lower(ext) in ScannableExtensions
  {
    ExtensionOfFileName(dir, stem, ext);
    ListedIff(Lower(ext), ScannableExtensions);
  }

  /** A basename without a dot has no extension, so the file is never scanned. */
  lemma NoExtensionNotScannable(p: string)
    requires '.' !in Basename(p)
    ensures !IsScannableFile(p)
  {
    assert Lower("") == "";
    ListedIff("", ScannableExtensions);
  }

  /** A dot in a directory name does not count as an extension. */
  lemma DottedDirectoryNotScannable(dir: string, name: string)
    requires name != [] && '/' !in name && '.' !in name
    ensures !IsScannableFile(dir + "/" + name)
  {
    assert dir + "/" + name == (dir + "/") + name;
    BasenameOfChild(dir + "/", name);
    NoExtensionNotScannable(dir + "/" + name);
  }

  lemma LowerOfExampleExtensions()
    ensures Lower("twig") == "twig" && Lower("html") == "html" && Lower("HTML") == "html"
  {
  }

  lemma ExampleExtensionsListed()
    ensures "twig" in ScannableExtensions && "html" in ScannableExtensions
  {
  }

  lemma ListedExtensionScanned(dir: string, stem: string, ext: string)
    requires dir == [] || dir[|dir| - 1] == '/'
    requires '/' !in stem && '/' !in ext && '.' !in ext
    requires Lower(ext) in ScannableExtensions
    ensures IsScannableFile(dir + stem + "." + ext)
  {
    ExtensionOfFileName(dir, stem, ext);
    ListedIff(Lower(ext), ScannableExtensions);
  }

  lemma UnlistedExtensionSkipped(dir: string, stem: string, ext: string)
    requires dir == [] || dir[|dir| - 1] == '/'
    requires '/' !in stem && '/' !in ext && '.' !in ext
    requires Lower(ext) !in ScannableExtensions
    ensures !IsScannableFile(dir + stem + "." + ext)
  {
    ExtensionOfFileName(dir, stem, ext);
    ListedIff(Lower(ext), ScannableExtensions);
  }

  /** The service's tests: for any directory and file stem, `.twig` and `.html` files are scanned. */
  lemma ScannedExamples(dir: string, stem: string)
    requires dir == [] || dir[|dir| - 1] == '/'
    requires '/' !in stem
    ensures IsScannableFile(dir + stem + "." + "twig")
    ensures IsScannableFile(dir + stem + "." + "html")
  {
    LowerOfExampleExtensions();
    ExampleExtensionsListed();
    ListedExtensionScanned(dir, stem, "twig");
    ListedExtensionScanned(dir, stem, "html");
  }

  /** Letter case does not matter: `.HTML` files are scanned too. */
  lemma UpperCaseExample(dir: string, stem: string)
    requires dir == [] || dir[|dir| - 1] == '/'
    requires '/' !in stem
    ensures IsScannableFile(dir + stem + "." + "HTML")
  {
    LowerOfExampleExtensions();
    ExampleExtensionsListed();
    ListedExtensionScanned(dir, stem, "HTML");
  }

  /** The service's tests: `.txt` files are not scanned. */
  lemma TextFileExample(dir: string, stem: string)
    requires dir == [] || dir[|dir| - 1] == '/'
    requires '/' !in stem
    ensures !IsScannableFile(dir + stem + "." + "txt")
  {
    assert Lower("txt") == "txt";
    assert "txt" !in ScannableExtensions;
    UnlistedExtensionSkipped(dir, stem, "txt");
  }

  /** The service's tests: binary `.bin` files are not scanned. */
  lemma BinaryFileExample(dir: string, stem: string)
    requires dir == [] || dir[|dir| - 1] == '/'
    requires '/' !in stem
    ensures !IsScannableFile(dir + stem + "." + "bin")
  {
    assert Lower("bin") == "bin";
    assert "bin" !in ScannableExtensions;
    UnlistedExtensionSkipped(dir, stem, "bin");
  }

  /**
   * PHP `dirname($p)` on Unix: drop trailing slashes, then the last component, then the
   * slashes before it; "/" when only slashes remain, "." when there was no slash at all,
   * and "" for the empty path.
   */
  function Dirname(p: string): (r: string)
    ensures p != [] ==> r != []
    ensures r == "." || r == "/" || r == "" || (|r| <= |p| && r == p[..|r|] && r[|r| - 1] != '/')
  {
    if p == [] then ""
    else
      var a := StripSlashes(p);
      if a == [] then "/"
      else
        var b := StripComponent(a);
        if b == [] then "."
        else
          var c := StripSlashes(b);
          if c == [] then "/" else c
  }

  /** The directory of `dir/name` is `dir`, for a non-empty `dir` without a trailing slash. */
  lemma DirnameOfChild(dir: string, name: string)
    requires dir != [] && dir[|dir| - 1] != '/'
    requires name != [] && '/' !in name
    ensures Dirname(dir + "/" + name) == dir
  {
    var p := dir + "/" + name;
    assert p[|p| - 1] == name[|name| - 1];
    assert p[..|p|] == p;
    assert StripSlashes(p) == p;
    assert p == (dir + "/") + name;
    StripComponentOfSuffix(dir + "/", name);
    var d := dir + "/";
    assert d[|d| - 1] == '/' && d[|dir| - 1] == dir[|dir| - 1];
    assert RunStart(d, '/', |d|) == |dir|;
    assert d[..|dir|] == dir;
  }

  /** A bare file name lives in the current directory. */
  lemma DirnameOfBareName(name: string)
    requires name != [] && '/' !in name
    ensures Dirname(name) == "."
  {
    assert name[|name| - 1] != '/';
    assert StripSlashes(name) == name;
    StripComponentOfSuffix([], name);
    assert [] + name == name;
  }
}

/**
 * Hand-written matchers for the fixed regular expressions of
 * `PurgeService::extractSelectors`, and the leftmost, non-overlapping scan that
 * `preg_match_all` performs with each of them. For every pattern the matcher
 * returns the match PCRE's backtracking finds first at a given start offset,
 * with the capture group the PHP code reads and the offset where the match ends.
 */
module Scanners {
  import opened Wrappers
  import opened Text

  /** The fixed patterns. Literal names are stored lower-case; matching folds ASCII case. */
  datatype Pattern =
    | QuotedAttribute(name: string)   // /NAME\s*=\s*(["'])(.*?)\1/si, capture 2
    | ThemeAttribute                  // /data-bs-theme\s*=\s*(["']?)([a-zA-Z0-9_-]+)\1/si, capture 2
    | OpenTag                         // /<\s*([a-z][a-z0-9-]*)[^>]*>/i, capture 1
    | ClassListCall                   // /classList\.(?:add|toggle)\s*\(([^\)]*)\)/si, capture 1
    | QuotedArgument                  // /["']([a-zA-Z0-9_-]+)["']/, capture 1

  /** The capture group the PHP code reads, and the offset just after the whole match. */
  datatype Match = Match(capture: string, end: nat)

  predicate IsQuote(c: char) { c == '"' || c == '\'' }

  /** `[a-zA-Z0-9_-]` */
  predicate IsWordChar(c: char) { IsAsciiLetter(c) || IsAsciiDigit(c) || c == '_' || c == '-' }

  /** `[a-z0-9-]` under the `i` flag. */
  predicate IsTagChar(c: char) { IsAsciiLetter(c) || IsAsciiDigit(c) || c == '-' }

  predicate AllWordChars(w: string) { forall i :: 0 <= i < |w| ==> IsWordChar(w[i]) }

  /** A tag name as the open-tag pattern captures it: `[a-zA-Z][a-zA-Z0-9-]*`. */
  predicate IsTagName(w: string) {
    w != [] && IsAsciiLetter(w[0]) && forall i :: 0 <= i < |w| ==> IsTagChar(w[i])
  }

  /** `s[i..]` starts with `lit` (given lower-case), ASCII case ignored. */
  predicate StartsWithFolded(s: string, i: nat, lit: string) {
    i + |lit| <= |s| && forall k :: 0 <= k < |lit| ==> ToLower(s[i + k]) == lit[k]
  }

  /** End of the maximal run of `\s` starting at `i` (greedy `\s*`). */
  function SpacesEnd(s: string, i: nat): (j: nat)
    requires i <= |s|
    decreases |s| - i
    ensures i <= j <= |s|
    ensures forall k :: i <= k < j ==> IsPcreSpace(s[k])
    ensures j < |s| ==> !IsPcreSpace(s[j])
  {
    if i < |s| && IsPcreSpace(s[i]) then SpacesEnd(s, i + 1) else i
  }

  /** End of the maximal run of `[a-zA-Z0-9_-]` starting at `i`. */
  function WordEnd(s: string, i: nat): (j: nat)
    requires i <= |s|
    decreases |s| - i
    ensures i <= j <= |s|
    ensures forall k :: i <= k < j ==> IsWordChar(s[k])
    ensures j < |s| ==> !IsWordChar(s[j])
  {
    if i < |s| && IsWordChar(s[i]) then WordEnd(s, i + 1) else i
  }

  /** End of the maximal run of `[a-zA-Z0-9-]` starting at `i`. */
  function TagNameEnd(s: string, i: nat): (j: nat)
    requires i <= |s|
    decreases |s| - i
    ensures i <= j <= |s|
    ensures forall k :: i <= k < j ==> IsTagChar(s[k])
    ensures j < |s| ==> !IsTagChar(s[j])
  {
    if i < |s| && IsTagChar(s[i]) then TagNameEnd(s, i + 1) else i
  }

  /** The first offset at or after `i` holding `c`. */
  function FindFrom(s: string, i: nat, c: char): (r: Option<nat>)
    requires i <= |s|
    decreases |s| - i
    ensures r.Some? ==> i <= r.value < |s| && s[r.value] == c
    ensures forall k :: i <= k < (if r.Some? then r.value else |s|) ==> s[k] != c
  {
    if i == |s| then None else if s[i] == c then Some(i) else FindFrom(s, i + 1, c)
  }

  /**
   * `NAME\s*=\s*(["'])(.*?)\1` at offset `i`. Neither `\s*` can give back a byte (the next
   * item is `=` or a quote), and the lazy `.*?` stops at the first copy of the opening
   * quote; without one the match fails.
   */
  function MatchQuotedAttribute(name: string, s: string, i: nat): (r: Option<Match>)
    requires i < |s|
    ensures r.Some? ==> i < r.value.end <= |s|
    ensures r.Some? ==> StartsWithFolded(s, i, name)
    ensures r.Some? ==> exists q :: IsQuote(q) && q !in r.value.capture && s[r.value.end - 1] == q
  {
    if !StartsWithFolded(s, i, name) then None
    else
      var j := SpacesEnd(s, i + |name|);
      if j == |s| || s[j] != '=' then None
      else
        var k := SpacesEnd(s, j + 1);
        if k == |s| || !IsQuote(s[k]) then None
        else
          match FindFrom(s, k + 1, s[k])
          case None => None
          case Some(c) =>
            var v := s[k + 1..c];
            assert s[k] !in v by {
              forall x | 0 <= x < |v| ensures v[x] != s[k] { assert v[x] == s[k + 1 + x]; }
            }
            Some(Match(v, c + 1))
  }

  /**
   * `data-bs-theme\s*=\s*(["']?)([a-zA-Z0-9_-]+)\1` at offset `i`. A quote after `=` must be
   * closed by the same quote right after a non-empty word run; otherwise the empty
   * alternative of the optional group is tried, and it fails on the quote. Without a
   * quote the whole non-empty word run is taken.
   */
  function MatchThemeAttribute(s: string, i: nat): (r: Option<Match>)
    requires i < |s|
    ensures r.Some? ==> i < r.value.end <= |s|
    ensures r.Some? ==> r.value.capture != [] && AllWordChars(r.value.capture)
  {
    if !StartsWithFolded(s, i, "data-bs-theme") then None
    else
      var j := SpacesEnd(s, i + 13);
      if j == |s| || s[j] != '=' then None
      else
        var k := SpacesEnd(s, j + 1);
        if k == |s| then None
        else if IsQuote(s[k]) then
          var e := WordEnd(s, k + 1);
          if e > k + 1 && e < |s| && s[e] == s[k] then Some(Match(s[k + 1..e], e + 1)) else None
        else
          var e := WordEnd(s, k);
          if e > k then Some(Match(s[k..e], e)) else None
  }

  /**
   * `<\s*([a-z][a-z0-9-]*)[^>]*>` (caseless) at offset `i`: the name is the maximal run,
   * and the match ends at the first `>` after it; without a `>` the match fails.
   */
  function MatchOpenTag(s: string, i: nat): (r: Option<Match>)
    requires i < |s|
    ensures r.Some? ==> i < r.value.end <= |s|
    ensures r.Some? ==> s[i] == '<' && IsTagName(r.value.capture)
  {
    if s[i] != '<' then None
    else
      var j := SpacesEnd(s, i + 1);
      if j == |s| || !IsAsciiLetter(s[j]) then None
      else
        var n := TagNameEnd(s, j + 1);
        match FindFrom(s, n, '>')
        case None => None
        case Some(c) => Some(Match(s[j..n], c + 1))
  }

  /**
   * `classList\.(?:add|toggle)\s*\(([^\)]*)\)` at offset `i`: the arguments are the bytes
   * between the `(` and the first `)` after it; without a `)` the match fails.
   */
  function MatchClassListCall(s: string, i: nat): (r: Option<Match>)
    requires i < |s|
    ensures r.Some? ==> i < r.value.end <= |s|
    ensures r.Some? ==> ')' !in r.value.capture
  {
    if !StartsWithFolded(s, i, "classlist.") then None
    else
      var p := i + 10;
      var q := if StartsWithFolded(s, p, "add") then p + 3
               else if StartsWithFolded(s, p, "toggle") then p + 6
               else p;
      if q == p then None
      else
        var j := SpacesEnd(s, q);
        if j == |s| || s[j] != '(' then None
        else
          match FindFrom(s, j + 1, ')')
          case None => None
          case Some(c) =>
            var v := s[j + 1..c];
            assert ')' !in v by {
              forall x | 0 <= x < |v| ensures v[x] != ')' { assert v[x] == s[j + 1 + x]; }
            }
            Some(Match(v, c + 1))
  }

  /** `["']([a-zA-Z0-9_-]+)["']` at offset `i`; the two quotes need not be the same. */
  function MatchQuotedArgument(s: string, i: nat): (r: Option<Match>)
    requires i < |s|
    ensures r.Some? ==> i < r.value.end <= |s|
    ensures r.Some? ==> r.value.capture != [] && AllWordChars(r.value.capture)
  {
    if !IsQuote(s[i]) then None
    else
      var e := WordEnd(s, i + 1);
      if e > i + 1 && e < |s| && IsQuote(s[e]) then Some(Match(s[i + 1..e], e + 1)) else None
  }

  /** What every capture of a pattern looks like. */
  predicate CaptureShape(p: Pattern, v: string) {
    match p
    case QuotedAttribute(_) => '"' !in v || '\'' !in v
    case ThemeAttribute => v != [] && AllWordChars(v)
    case OpenTag => IsTagName(v)
    case ClassListCall => ')' !in v
    case QuotedArgument => v != [] && AllWordChars(v)
  }

  /** The first match of `p` starting exactly at offset `i`, if any. */
  function MatchAt(p: Pattern, s: string, i: nat): (r: Option<Match>)
    requires i < |s|
    ensures r.Some? ==> i < r.value.end <= |s| && CaptureShape(p, r.value.capture)
  {
    match p
    case QuotedAttribute(name) => MatchQuotedAttribute(name, s, i)
    case ThemeAttribute => MatchThemeAttribute(s, i)
    case OpenTag => MatchOpenTag(s, i)
    case ClassListCall => MatchClassListCall(s, i)
    case QuotedArgument => MatchQuotedArgument(s, i)
  }

  /** A matcher for a subject of length `n`: every match it reports ends after its start, by `n`. */
  ghost predicate Advances(m: nat -> Option<Match>, n: nat) {
    forall j: nat :: j < n && m(j).Some? ==> j < m(j).value.end <= n
  }

  /**
   * The walk of `preg_match_all` over a subject of length `n` from offset `i`, where `m(j)`
   * is the match starting at offset `j`: try each offset in turn, and after a match go on
   * where it ended, so matches never overlap.
   */
  function Walk(m: nat -> Option<Match>, n: nat, i: nat): (r: seq<string>)
    requires i <= n && Advances(m, n)
    decreases n - i
    ensures |r| <= n - i
  {
    if i == n then []
    else
      match m(i)
      case Some(x) => [x.capture] + Walk(m, n, x.end)
      case None => Walk(m, n, i + 1)
  }

  /** The matcher of pattern `p` on subject `s`. */
  function Matcher(p: Pattern, s: string): (m: nat -> Option<Match>)
    ensures Advances(m, |s|)
    ensures forall j: nat :: j < |s| ==> m(j) == MatchAt(p, s, j)
  {
    (j: nat) => if j < |s| then MatchAt(p, s, j) else None
  }

  /** The captures of `preg_match_all` with pattern `p` on `s`, from offset `i` on. */
  function Scan(p: Pattern, s: string, i: nat): (r: seq<string>)
    requires i <= |s|
    ensures forall k :: 0 <= k < |r| ==> CaptureShape(p, r[k])
  {
    ScanShaped(p, s, i);
    Walk(Matcher(p, s), |s|, i)
  }

  lemma ScanShaped(p: Pattern, s: string, i: nat)
    requires i <= |s|
    ensures forall k :: 0 <= k < |Walk(Matcher(p, s), |s|, i)| ==>
      CaptureShape(p, Walk(Matcher(p, s), |s|, i)[k])
  {
    var r := Walk(Matcher(p, s), |s|, i);
    forall k | 0 <= k < |r| ensures CaptureShape(p, r[k]) {
      var j := WalkCaptureReported(Matcher(p, s), |s|, i, k);
    }
  }

  /** `preg_match_all($pattern, $s, $m)` followed by reading the capture list `$m[g]`. */
  function AllMatches(p: Pattern, s: string): (r: seq<string>)
    ensures forall k :: 0 <= k < |r| ==> CaptureShape(p, r[k])
  {
    Scan(p, s, 0)
  }

  // ---------------------------------------------------------------------------------
  // Properties of the scan and of the individual patterns

  /** A literal whose letters are already lower-case, as the pattern names are stored. */
  predicate IsFoldedLiteral(lit: string) {
    forall k :: 0 <= k < |lit| ==> ToLower(lit[k]) == lit[k]
  }

  /** Where a match starts, the scan records its capture and resumes at its end. */
  lemma ScanAtMatch(p: Pattern, s: string, i: nat, m: Match)
    requires i < |s| && MatchAt(p, s, i) == Some(m)
    ensures Scan(p, s, i) == [m.capture] + Scan(p, s, m.end)
  {
    assert Matcher(p, s)(i) == Some(m);
  }

  /** Where the pattern does not match, the scan moves on to the next offset. */
  lemma ScanAtNoMatch(p: Pattern, s: string, i: nat)
    requires i < |s| && MatchAt(p, s, i).None?
    ensures Scan(p, s, i) == Scan(p, s, i + 1)
  {
    assert Matcher(p, s)(i).None?;
  }

  /** Every capture of the walk is the capture of a match the matcher reports at some offset. */
  lemma {:induction false} WalkCaptureReported(m: nat -> Option<Match>, n: nat, i: nat, k: nat) returns (j: nat)
    requires i <= n && Advances(m, n) && k < |Walk(m, n, i)|
    ensures i <= j < n && m(j).Some? && m(j).value.capture == Walk(m, n, i)[k]
    decreases n - i
  {
    match m(i)
    case Some(x) =>
      if k == 0 {
        j := i;
      } else {
        j := WalkCaptureReported(m, n, x.end, k - 1);
      }
    case None =>
      j := WalkCaptureReported(m, n, i + 1, k);
  }

  /** Offsets where the matcher reports nothing are passed over without a capture. */
  lemma {:induction false} WalkSkipsNonMatches(m: nat -> Option<Match>, n: nat, i: nat, j: nat)
    requires i <= j <= n && Advances(m, n)
    requires forall k :: i <= k < j ==> m(k).None?
    ensures Walk(m, n, i) == Walk(m, n, j)
    decreases j - i
  {
    if i < j {
      assert m(i).None?;
      WalkSkipsNonMatches(m, n, i + 1, j);
    }
  }

  /**
   * Leftmost first: a walk from `i` that captures anything starts with the match at the
   * first offset `j >= i` where the matcher reports one, and goes on from the end of that
   * match, so the next match cannot overlap it.
   */
  lemma {:induction false} WalkFirstMatch(m: nat -> Option<Match>, n: nat, i: nat) returns (j: nat, x: Match)
    requires i <= n && Advances(m, n) && Walk(m, n, i) != []
    ensures i <= j < x.end <= n && m(j) == Some(x)
    ensures forall k :: i <= k < j ==> m(k).None?
    ensures Walk(m, n, i) == [x.capture] + Walk(m, n, x.end)
    decreases n - i
  {
    if m(i).Some? {
      j, x := i, m(i).value;
    } else {
      j, x := WalkFirstMatch(m, n, i + 1);
    }
  }

  /** A match at any offset from `i` on means the walk from `i` captures something. */
  lemma {:induction false} WalkFindsMatch(m: nat -> Option<Match>, n: nat, i: nat, k: nat)
    requires i <= k < n && Advances(m, n) && m(k).Some?
    ensures Walk(m, n, i) != []
    decreases k - i
  {
    if i < k && m(i).None? {
      WalkFindsMatch(m, n, i + 1, k);
    }
  }

  /** The walk captures nothing exactly when the matcher reports no match from `i` on. */
  lemma WalkEmptyIff(m: nat -> Option<Match>, n: nat, i: nat)
    requires i <= n && Advances(m, n)
    ensures Walk(m, n, i) == [] <==> forall k :: i <= k < n ==> m(k).None?
  {
    if forall k :: i <= k < n ==> m(k).None? {
      WalkSkipsNonMatches(m, n, i, n);
    } else {
      var k :| i <= k < n && m(k).Some?;
      WalkFindsMatch(m, n, i, k);
    }
  }

  /**
   * The offsets where the matches the walk records start, in order. The walk only
   * records captures; this names the offset each one came from.
   */
  function MatchStarts(m: nat -> Option<Match>, n: nat, i: nat): (r: seq<nat>)
    requires i <= n && Advances(m, n)
    decreases n - i
    ensures |r| == |Walk(m, n, i)|
  {
    if i == n then []
    else
      match m(i)
      case Some(x) => [i] + MatchStarts(m, n, x.end)
      case None => MatchStarts(m, n, i + 1)
  }

  /** Where the match at offset `j` ends, or `j` itself where there is none. */
  function EndAt(m: nat -> Option<Match>, j: nat): nat {
    if m(j).Some? then m(j).value.end else j
  }

  /** Each capture of the walk is the one of the match at its start offset. */
  lemma {:induction false} WalkStartsReported(m: nat -> Option<Match>, n: nat, i: nat)
    requires i <= n && Advances(m, n)
    ensures forall k :: 0 <= k < |MatchStarts(m, n, i)| ==>
      var j := MatchStarts(m, n, i)[k];
      i <= j < n && m(j).Some? && m(j).value.capture == Walk(m, n, i)[k]
    decreases n - i
  {
    if i < n {
      var st, w := MatchStarts(m, n, i), Walk(m, n, i);
      match m(i)
      case Some(x) =>
        var st', w' := MatchStarts(m, n, x.end), Walk(m, n, x.end);
        assert st == [i] + st' && w == [x.capture] + w';
        WalkStartsReported(m, n, x.end);
        forall k | 0 < k < |st| ensures i <= st[k] < n && m(st[k]).Some? && m(st[k]).value.capture == w[k] {
          assert st[k] == st'[k - 1] && w[k] == w'[k - 1];
        }
      case None =>
        assert st == MatchStarts(m, n, i + 1) && w == Walk(m, n, i + 1);
        WalkStartsReported(m, n, i + 1);
    }
  }

  /**
   * The recorded matches are disjoint and in increasing order: each one ends no later
   * than any later one starts (and each ends after it starts, by `WalkStartsReported`).
   */
  lemma {:induction false} WalkStartsDisjoint(m: nat -> Option<Match>, n: nat, i: nat)
    requires i <= n && Advances(m, n)
    ensures forall k, l :: 0 <= k < l < |MatchStarts(m, n, i)| ==>
      EndAt(m, MatchStarts(m, n, i)[k]) <= MatchStarts(m, n, i)[l]
    decreases n - i
  {
    if i < n {
      var st := MatchStarts(m, n, i);
      match m(i)
      case Some(x) =>
        var st' := MatchStarts(m, n, x.end);
        assert st == [i] + st';
        WalkStartsDisjoint(m, n, x.end);
        WalkStartsReported(m, n, x.end);
        forall k, l | 0 <= k < l < |st| ensures EndAt(m, st[k]) <= st[l] {
          assert st[l] == st'[l - 1] && x.end <= st'[l - 1];
          if k == 0 {
            assert st[0] == i && EndAt(m, i) == x.end;
          } else {
            assert st[k] == st'[k - 1];
          }
        }
      case None =>
        assert st == MatchStarts(m, n, i + 1);
        WalkStartsDisjoint(m, n, i + 1);
    }
  }

  /** Offset `j` lies inside one of the matches starting at the offsets `st`. */
  ghost predicate Covered(m: nat -> Option<Match>, st: seq<nat>, j: nat) {
    exists k :: 0 <= k < |st| && st[k] <= j < EndAt(m, st[k])
  }

  lemma CoveredCons(m: nat -> Option<Match>, i: nat, st: seq<nat>, j: nat)
    requires Covered(m, st, j)
    ensures Covered(m, [i] + st, j)
  {
    var k :| 0 <= k < |st| && st[k] <= j < EndAt(m, st[k]);
    assert ([i] + st)[k + 1] == st[k];
  }

  /** No match is passed over: a match at any offset from `i` on starts inside a recorded one. */
  lemma {:induction false} WalkStartsCover(m: nat -> Option<Match>, n: nat, i: nat)
    requires i <= n && Advances(m, n)
    ensures forall j :: i <= j < n && m(j).Some? ==> Covered(m, MatchStarts(m, n, i), j)
    decreases n - i
  {
    if i < n {
      if m(i).Some? {
        var e := m(i).value.end;
        WalkStartsCover(m, n, e);
        CoverFirstMatch(m, n, i);
      } else {
        assert MatchStarts(m, n, i) == MatchStarts(m, n, i + 1);
        WalkStartsCover(m, n, i + 1);
      }
    }
  }

  /** The step of `WalkStartsCover` at an offset where a match starts. */
  lemma CoverFirstMatch(m: nat -> Option<Match>, n: nat, i: nat)
    requires i < n && Advances(m, n) && m(i).Some?
    requires forall j :: m(i).value.end <= j < n && m(j).Some? ==>
      Covered(m, MatchStarts(m, n, m(i).value.end), j)
    ensures forall j :: i <= j < n && m(j).Some? ==> Covered(m, MatchStarts(m, n, i), j)
  {
    var e := m(i).value.end;
    var st, st' := MatchStarts(m, n, i), MatchStarts(m, n, e);
    assert st == [i] + st';
    forall j | i <= j < n && m(j).Some? ensures Covered(m, st, j) {
      if j < e {
        assert st[0] == i && EndAt(m, i) == e;
      } else {
        CoveredCons(m, i, st', j);
      }
    }
  }

  /** Offsets where the pattern does not match add no capture. */
  lemma ScanSkipsNonMatches(p: Pattern, s: string, i: nat, j: nat)
    requires i <= j <= |s|
    requires forall k :: i <= k < j ==> MatchAt(p, s, k).None?
    ensures Scan(p, s, i) == Scan(p, s, j)
  {
    WalkSkipsNonMatches(Matcher(p, s), |s|, i, j);
  }

  /**
   * Leftmost first, no overlap: a scan that captures anything begins with the match at
   * the first offset where the pattern matches, and goes on from that match's end.
   */
  lemma ScanFirstMatch(p: Pattern, s: string, i: nat) returns (j: nat, x: Match)
    requires i <= |s| && Scan(p, s, i) != []
    ensures i <= j < x.end <= |s| && MatchAt(p, s, j) == Some(x)
    ensures forall k :: i <= k < j ==> MatchAt(p, s, k).None?
    ensures Scan(p, s, i) == [x.capture] + Scan(p, s, x.end)
  {
    j, x := WalkFirstMatch(Matcher(p, s), |s|, i);
  }

  /** A match at any offset from `i` on means the scan from `i` captures something. */
  lemma ScanFindsMatch(p: Pattern, s: string, i: nat, k: nat)
    requires i <= k < |s| && MatchAt(p, s, k).Some?
    ensures Scan(p, s, i) != []
  {
    WalkFindsMatch(Matcher(p, s), |s|, i, k);
  }

  /** `preg_match_all` captures nothing exactly when the pattern matches at no offset. */
  lemma ScanEmptyIff(p: Pattern, s: string, i: nat)
    requires i <= |s|
    ensures Scan(p, s, i) == [] <==> forall k :: i <= k < |s| ==> MatchAt(p, s, k).None?
  {
    WalkEmptyIff(Matcher(p, s), |s|, i);
  }

  /** The offsets where the matches `preg_match_all` records start, from offset `i` on. */
  function ScanStarts(p: Pattern, s: string, i: nat): (r: seq<nat>)
    requires i <= |s|
    ensures |r| == |Scan(p, s, i)|
  {
    MatchStarts(Matcher(p, s), |s|, i)
  }

  /** Where the match of `p` at offset `j` ends, or `j` itself where there is none. */
  function MatchEnd(p: Pattern, s: string, j: nat): nat {
    if j < |s| && MatchAt(p, s, j).Some? then MatchAt(p, s, j).value.end else j
  }

  /** The `k`th capture of the scan is the one of the match at its `k`th start offset. */
  lemma ScanStartsReported(p: Pattern, s: string, i: nat)
    requires i <= |s|
    ensures forall k :: 0 <= k < |ScanStarts(p, s, i)| ==>
      var j := ScanStarts(p, s, i)[k];
      i <= j < MatchEnd(p, s, j) <= |s| && MatchAt(p, s, j).Some? && MatchAt(p, s, j).value.capture == Scan(p, s, i)[k]
  {
    var m := Matcher(p, s);
    WalkStartsReported(m, |s|, i);
    forall k | 0 <= k < |ScanStarts(p, s, i)| ensures m(ScanStarts(p, s, i)[k]) == MatchAt(p, s, ScanStarts(p, s, i)[k]) {
    }
  }

  /** The matches the scan records are disjoint and in increasing order. */
  lemma ScanStartsDisjoint(p: Pattern, s: string, i: nat)
    requires i <= |s|
    ensures forall k, l :: 0 <= k < l < |ScanStarts(p, s, i)| ==>
      MatchEnd(p, s, ScanStarts(p, s, i)[k]) <= ScanStarts(p, s, i)[l]
  {
    var m := Matcher(p, s);
    var st := ScanStarts(p, s, i);
    WalkStartsDisjoint(m, |s|, i);
    WalkStartsReported(m, |s|, i);
    forall k | 0 <= k < |st| ensures EndAt(m, st[k]) == MatchEnd(p, s, st[k]) {
      assert m(st[k]) == MatchAt(p, s, st[k]);
    }
  }

  /** Offset `j` lies inside one of the matches the scan from `i` records. */
  ghost predicate InScannedMatch(p: Pattern, s: string, i: nat, j: nat)
    requires i <= |s|
  {
    exists k :: 0 <= k < |ScanStarts(p, s, i)| && ScanStarts(p, s, i)[k] <= j < MatchEnd(p, s, ScanStarts(p, s, i)[k])
  }

  /** The scan passes over no match: every offset where the pattern matches lies inside a recorded match. */
  lemma ScanStartsCover(p: Pattern, s: string, i: nat)
    requires i <= |s|
    ensures forall j :: i <= j < |s| && MatchAt(p, s, j).Some? ==> InScannedMatch(p, s, i, j)
  {
    var m := Matcher(p, s);
    WalkStartsCover(m, |s|, i);
    forall j | i <= j < |s| && MatchAt(p, s, j).Some? ensures InScannedMatch(p, s, i, j) {
      assert m(j).Some?;
      CoveredInScan(p, s, i, j);
    }
  }

  lemma CoveredInScan(p: Pattern, s: string, i: nat, j: nat)
    requires i <= j < |s| && Covered(Matcher(p, s), ScanStarts(p, s, i), j)
    ensures InScannedMatch(p, s, i, j)
  {
    var m, st := Matcher(p, s), ScanStarts(p, s, i);
    var k :| 0 <= k < |st| && st[k] <= j < EndAt(m, st[k]);
    assert m(st[k]) == MatchAt(p, s, st[k]);
  }

  /**
   * The open-tag pattern finds nothing from `i` on when every `<` there is followed by a
   * byte that is neither `\s` nor a letter, such as the `/` of a closing tag.
   */
  lemma {:induction false} NoOpenTagFrom(s: string, i: nat)
    requires i <= |s|
    requires forall k :: i <= k < |s| && s[k] == '<' ==>
      k + 1 < |s| && !IsPcreSpace(s[k + 1]) && !IsAsciiLetter(s[k + 1])
    ensures Scan(OpenTag, s, i) == []
    decreases |s| - i
  {
    if i < |s| {
      assert MatchAt(OpenTag, s, i).None? by {
        if s[i] == '<' {
          assert SpacesEnd(s, i + 1) == i + 1;
        }
      }
      NoOpenTagFrom(s, i + 1);
    }
  }

  /** A closing tag such as `</div>` yields no tag name. */
  lemma ClosingTagYieldsNothing(name: string)
    requires '<' !in name
    ensures AllMatches(OpenTag, "</" + name + ">") == []
  {
    var s := "</" + name + ">";
    assert forall k :: 2 <= k < |s| - 1 ==> s[k] == name[k - 2];
    NoOpenTagFrom(s, 0);
  }

  lemma {:induction false} TagNameEndAt(s: string, i: nat, n: nat)
    requires i <= n < |s|
    requires forall k :: i <= k < n ==> IsTagChar(s[k])
    requires !IsTagChar(s[n])
    ensures TagNameEnd(s, i) == n
    decreases n - i
  {
    if i < n {
      TagNameEndAt(s, i + 1, n);
    }
  }

  /** `<name>` at offset `i` is matched with `name` as its capture. */
  lemma OpenTagAt(s: string, i: nat, n: nat)
    requires i + 1 < n < |s|
    requires s[i] == '<' && s[n] == '>' && IsTagName(s[i + 1..n])
    ensures MatchAt(OpenTag, s, i) == Some(Match(s[i + 1..n], n + 1))
  {
    assert s[i + 1] == s[i + 1..n][0];
    assert SpacesEnd(s, i + 1) == i + 1;
    forall k | i + 1 <= k < n ensures IsTagChar(s[k]) {
      assert s[k] == s[i + 1..n][k - i - 1];
    }
    TagNameEndAt(s, i + 2, n);
  }

  /** `<h1>Hello</h1>` and the like: an element with plain text yields its tag name once. */
  lemma ElementYieldsTagOnce(name: string, text: string, closing: string)
    requires IsTagName(name)
    requires '<' !in text && '<' !in closing
    ensures AllMatches(OpenTag, "<" + name + ">" + text + "</" + closing + ">") == [name]
  {
    var u := "<" + name + ">";
    var s := u + text + "</" + closing + ">";
    var e := |name| + 2;
    assert s[1..e - 1] == name;
    OpenTagAt(s, 0, e - 1);
    ScanAtMatch(OpenTag, s, 0, Match(name, e));
    NoOpenTagAfter(u, text, closing);
  }

  /** After the open tag, text without `<` and a closing tag hold no further open tag. */
  lemma NoOpenTagAfter(u: string, text: string, closing: string)
    requires '<' !in text && '<' !in closing
    ensures Scan(OpenTag, u + text + "</" + closing + ">", |u|) == []
  {
    OnlyClosingBracket(u, text, closing);
    NoOpenTagFrom(u + text + "</" + closing + ">", |u|);
  }

  /** Past `u`, the only `<` is the one of the closing tag, and a `/` follows it. */
  lemma OnlyClosingBracket(u: string, text: string, closing: string)
    requires '<' !in text && '<' !in closing
    ensures var s := u + text + "</" + closing + ">";
      forall k :: |u| <= k < |s| && s[k] == '<' ==> k + 1 < |s| && s[k + 1] == '/'
  {
    var s := u + text + "</" + closing + ">";
    var e := |u|;
    var t := e + |text|;
    forall k | e <= k < t ensures s[k] != '<' {
      assert s[k] == text[k - e];
    }
    forall k | t + 2 <= k < |s| - 1 ensures s[k] != '<' {
      assert s[k] == closing[k - t - 2];
    }
    assert s[t + 1] == '/' && s[|s| - 1] == '>';
  }

  lemma {:induction false} FindFromAt(s: string, i: nat, c: nat, x: char)
    requires i <= c < |s| && s[c] == x
    requires forall k :: i <= k < c ==> s[k] != x
    ensures FindFrom(s, i, x) == Some(c)
    decreases c - i
  {
    if i < c {
      FindFromAt(s, i + 1, c, x);
    }
  }

  /**
   * The lazy capture: once `name="` is seen at `i`, the value runs to the first copy of
   * the same quote, whatever follows it, and the scan resumes right after that quote.
   */
  lemma QuotedAttributeAt(name: string, s: string, i: nat, c: nat)
    requires StartsWithFolded(s, i, name)
    requires var n := i + |name|; n + 1 < c < |s| && s[n] == '=' && IsQuote(s[n + 1])
    requires s[c] == s[i + |name| + 1] && s[i + |name| + 1] !in s[i + |name| + 2..c]
    ensures MatchAt(QuotedAttribute(name), s, i) == Some(Match(s[i + |name| + 2..c], c + 1))
  {
    var n := i + |name|;
    assert SpacesEnd(s, n) == n;
    assert SpacesEnd(s, n + 1) == n + 1;
    forall k | n + 2 <= k < c ensures s[k] != s[n + 1] {
      assert s[k] == s[n + 2..c][k - n - 2];
    }
    FindFromAt(s, n + 2, c, s[n + 1]);
  }

  /** The `class` pattern does not fire where `className` starts: `N` is neither `\s` nor `=`. */
  lemma ClassPatternSkipsClassName(s: string, i: nat)
    requires i < |s| && StartsWithFolded(s, i, "classname")
    ensures MatchAt(QuotedAttribute("class"), s, i).None?
  {
    assert "classname"[5] == 'n';
    assert ToLower(s[i + 5]) == 'n';
    assert SpacesEnd(s, i + 5) == i + 5;
  }

  lemma {:induction false} WordEndAt(s: string, i: nat, n: nat)
    requires i <= n <= |s|
    requires forall k :: i <= k < n ==> IsWordChar(s[k])
    requires n < |s| ==> !IsWordChar(s[n])
    ensures WordEnd(s, i) == n
    decreases n - i
  {
    if i < n {
      WordEndAt(s, i + 1, n);
    }
  }

  /** `data-bs-theme="dark"`: a quoted theme value is captured without its quotes. */
  lemma QuotedThemeAt(s: string, i: nat, e: nat)
    requires StartsWithFolded(s, i, "data-bs-theme")
    requires i + 15 < e < |s| && s[i + 13] == '=' && IsQuote(s[i + 14]) && s[e] == s[i + 14]
    requires AllWordChars(s[i + 15..e])
    ensures MatchAt(ThemeAttribute, s, i) == Some(Match(s[i + 15..e], e + 1))
  {
    assert SpacesEnd(s, i + 13) == i + 13;
    assert SpacesEnd(s, i + 14) == i + 14;
    forall k | i + 15 <= k < e ensures IsWordChar(s[k]) { assert s[k] == s[i + 15..e][k - i - 15]; }
    WordEndAt(s, i + 15, e);
  }

  /** `data-bs-theme=dark`: a bare theme value is the whole word run. */
  lemma BareThemeAt(s: string, i: nat, e: nat)
    requires StartsWithFolded(s, i, "data-bs-theme")
    requires i + 14 < e <= |s| && s[i + 13] == '='
    requires AllWordChars(s[i + 14..e]) && (e < |s| ==> !IsWordChar(s[e]))
    ensures MatchAt(ThemeAttribute, s, i) == Some(Match(s[i + 14..e], e))
  {
    assert SpacesEnd(s, i + 13) == i + 13;
    assert IsWordChar(s[i + 14]) by { assert s[i + 14] == s[i + 14..e][0]; }
    assert SpacesEnd(s, i + 14) == i + 14;
    forall k | i + 14 <= k < e ensures IsWordChar(s[k]) { assert s[k] == s[i + 14..e][k - i - 14]; }
    WordEndAt(s, i + 14, e);
  }

  /** A quoted theme value closed by the other kind of quote is not matched at all. */
  lemma MismatchedThemeQuotes(s: string, i: nat, e: nat)
    requires StartsWithFolded(s, i, "data-bs-theme")
    requires i + 15 < e < |s| && s[i + 13] == '=' && s[i + 14] == '"' && s[e] == '\''
    requires AllWordChars(s[i + 15..e])
    ensures MatchAt(ThemeAttribute, s, i).None?
  {
    assert SpacesEnd(s, i + 13) == i + 13;
    assert SpacesEnd(s, i + 14) == i + 14;
    forall k | i + 15 <= k < e ensures IsWordChar(s[k]) { assert s[k] == s[i + 15..e][k - i - 15]; }
    WordEndAt(s, i + 15, e);
  }

  /** A copy of a lower-case literal is a case-folded match of it. */
  lemma StartsWithFoldedLiteral(s: string, i: nat, lit: string)
    requires IsFoldedLiteral(lit)
    requires i + |lit| <= |s| && s[i..i + |lit|] == lit
    ensures StartsWithFolded(s, i, lit)
  {
    forall k | 0 <= k < |lit| ensures ToLower(s[i + k]) == lit[k] {
      assert s[i + k] == s[i..i + |lit|][k];
    }
  }

  /** The attribute patterns all need an `=`: without one they find nothing. */
  lemma {:induction false} NoAttributeWithoutEquals(p: Pattern, s: string, i: nat)
    requires p.QuotedAttribute? || p.ThemeAttribute?
    requires i <= |s| && '=' !in s
    ensures Scan(p, s, i) == []
    decreases |s| - i
  {
    if i < |s| {
      assert MatchAt(p, s, i).None?;
      NoAttributeWithoutEquals(p, s, i + 1);
    }
  }

  /** The classList pattern needs a `(`: without one it finds nothing. */
  lemma {:induction false} NoClassListCallWithoutParenthesis(s: string, i: nat)
    requires i <= |s| && '(' !in s
    ensures Scan(ClassListCall, s, i) == []
    decreases |s| - i
  {
    if i < |s| {
      assert MatchAt(ClassListCall, s, i).None?;
      NoClassListCallWithoutParenthesis(s, i + 1);
    }
  }

  /** The open-tag pattern needs a `<`: without one it finds nothing. */
  lemma NoOpenTagWithoutBracket(s: string)
    requires '<' !in s
    ensures AllMatches(OpenTag, s) == []
  {
    NoOpenTagFrom(s, 0);
  }

  /**
   * `'w'` or `"w"` (the quotes may differ) as the whole text is the one quoted-argument
   * match, with `w` as its capture.
   */
  lemma QuotedArgumentAlone(q: char, w: string, q2: char)
    requires IsQuote(q) && IsQuote(q2) && w != [] && AllWordChars(w)
    ensures AllMatches(QuotedArgument, [q] + w + [q2]) == [w]
  {
    var s := [q] + w + [q2];
    var e := |w| + 1;
    forall k | 1 <= k < e ensures IsWordChar(s[k]) { assert s[k] == w[k - 1]; }
    assert s[e] == q2;
    WordEndAt(s, 1, e);
    assert s[1..e] == w;
    ScanAtMatch(QuotedArgument, s, 0, Match(w, e + 1));
  }

  /** `classList.toggle(args)` as the whole text is one call, with `args` captured. */
  lemma ToggleCallAlone(args: string)
    requires ')' !in args
    ensures AllMatches(ClassListCall, "classList.toggle(" + args + ")") == [args]
  {
    var s := "classList.toggle(" + args + ")";
    var c := |s| - 1;
    assert s[0..10] == "classList.";
    assert ToLower('L') == 'l';
    assert StartsWithFolded(s, 0, "classlist.");
    assert !StartsWithFolded(s, 10, "add") by {
      assert s[10] == 't' && ToLower('t') == 't' && "add"[0] == 'a';
    }
    assert s[10..16] == "toggle";
    StartsWithFoldedLiteral(s, 10, "toggle");
    assert s[16] == '(' && SpacesEnd(s, 16) == 16;
    forall k | 17 <= k < c ensures s[k] != ')' { assert s[k] == args[k - 17]; }
    FindFromAt(s, 17, c, ')');
    assert s[17..c] == args;
    ScanAtMatch(ClassListCall, s, 0, Match(args, c + 1));
  }
}

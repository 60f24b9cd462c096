/**
 * `PurgeService::purge`: scan the paths, extract and normalize the selectors, add the
 * user's extra selectors, and hand the list to the CSS purger.
 *
 * The purger library (`JBSNewMedia\CssPurger\Vendors\Bootstrap`) is not part of this
 * model: whether its class can be loaded is the parameter `purgerAvailable`, and the
 * CSS it generates from a call is the function parameter `render`.
 */
module PurgeService {
  import opened Wrappers
  import opened Text
  import opened Lists
  import opened Selectors
  import opened SelectorProperties
  import opened Filesystem
  import opened Collector

  /** What the service asks of the purger: the input CSS, the selectors to add (if any), the minify flag. */
  datatype PurgerCall = PurgerCall(cssPath: string, added: Option<seq<string>>, minify: bool)

  /** The `stats` part of the result. */
  datatype Stats = Stats(found: nat, normalized: nat)

  /** `[$normalized, $css, $stats]`. */
  datatype PurgeResult = PurgeResult(kept: seq<string>, css: string, stats: Stats)

  /** The message of the `RuntimeException` thrown when the purger class cannot be loaded. */
  const MissingPurgerMessage: string :=
    "Required class JBSNewMedia\\CssPurger\\Vendors\\Bootstrap not found. "
    + "Please ensure the package \"jbsnewmedia/css-purger\" is installed. "
    + "If you load the BootstrapBundle from source, either: "
    + "1) require jbsnewmedia/css-purger in your application, or "
    + "2) run \"composer install\" inside the bundle so its vendor/autoload.php exists."

  /** What one extra selector adds: itself trimmed, or nothing when that is empty. */
  function TrimmedExtra(x: string): (r: seq<string>)
    ensures |r| <= 1
  {
    var sel := Trim(x);
    if sel != [] then [sel] else []
  }

  /** The extra selectors, trimmed, with those that trim to nothing dropped. */
  function TrimmedExtras(extras: seq<string>): (r: seq<string>)
    ensures |r| <= |extras|
  {
    FlatMapAtMostOne(extras, TrimmedExtra);
    FlatMap(extras, TrimmedExtra)
  }

  /** `$foundSelectors` before normalization: the extracted tokens, then the extras. */
  function FoundSelectors(fs: Fs, paths: seq<string>, extras: seq<string>): seq<string> {
    Extracted(Collected(fs, paths)) + TrimmedExtras(extras)
  }

  /** `$normalized`: the normalized selectors, each kept at its first occurrence. */
  function KeptSelectors(fs: Fs, paths: seq<string>, extras: seq<string>): seq<string> {
    Dedup(Normalized(FoundSelectors(fs, paths, extras)))
  }

  /** The call the service makes: `addSelectors` only with a non-empty list, minified unless readable. */
  function CallFor(cssPath: string, kept: seq<string>, readable: bool): PurgerCall {
    PurgerCall(cssPath, if kept != [] then Some(kept) else None, !readable)
  }

  /** What `purge(...)` returns, or the message of the exception it throws. */
  function PurgeOutcome(fs: Fs, cssPath: string, paths: seq<string>, extras: seq<string>,
                        readable: bool, purgerAvailable: bool, render: PurgerCall -> string): Result<PurgeResult, string>
  {
    if !purgerAvailable then Failure(MissingPurgerMessage)
    else
      var kept := KeptSelectors(fs, paths, extras);
      Success(PurgeResult(kept, render(CallFor(cssPath, kept, readable)),
        Stats(|FoundSelectors(fs, paths, extras)|, |kept|)))
  }

  /** The loop of `purge` over the extra selectors: each non-empty trimmed one is appended. */
  method AddExtras(found: seq<string>, extras: seq<string>) returns (r: seq<string>)
    ensures r == found + TrimmedExtras(extras)
  {
    r := found;
    for i := 0 to |extras|
      invariant r == found + FlatMapOf(extras, i, TrimmedExtra)
    {
      var sel := Trim(extras[i]);
      if sel != [] {
        r := r + [sel];
      }
    }
  }

  /** `purge($cssPath, $pathsToScan, $extraSelectors, $readable)`. */
  method Purge(fs: Fs, cssPath: string, paths: seq<string>, extras: seq<string>,
               readable: bool, purgerAvailable: bool, render: PurgerCall -> string)
    returns (r: Result<PurgeResult, string>)
    ensures r == PurgeOutcome(fs, cssPath, paths, extras, readable, purgerAvailable, render)
  {
    var content := CollectContents(fs, paths);
    var found := ExtractSelectors(content);
    found := AddExtras(found, extras);
    var normalized := NormalizeSelectors(found);
    normalized := Dedup(normalized);
    if !purgerAvailable {
      return Failure(MissingPurgerMessage);
    }
    var added := if normalized != [] then Some(normalized) else None;
    var css := render(PurgerCall(cssPath, added, !readable));
    r := Success(PurgeResult(normalized, css, Stats(|found|, |normalized|)));
  }

  // ---------------------------------------------------------------------------------
  // Properties

  /** The extras that survive are the non-empty trimmed values, and each is trimmed. */
  lemma TrimmedExtrasMembership(extras: seq<string>, x: string)
    ensures x in TrimmedExtras(extras) <==> x != [] && exists k :: 0 <= k < |extras| && Trim(extras[k]) == x
  {
    FlatMapMembership(extras, TrimmedExtra, x);
    if x != [] && exists k :: 0 <= k < |extras| && Trim(extras[k]) == x {
      var k :| 0 <= k < |extras| && Trim(extras[k]) == x;
      assert x in TrimmedExtra(extras[k]);
    }
  }

  /** The only failure of the service's own code: the purger class cannot be loaded, with its message. */
  lemma FailsOnlyWithoutPurger(fs: Fs, cssPath: string, paths: seq<string>, extras: seq<string>,
                               readable: bool, purgerAvailable: bool, render: PurgerCall -> string)
    ensures var r := PurgeOutcome(fs, cssPath, paths, extras, readable, purgerAvailable, render);
      (r.Failure? <==> !purgerAvailable) && (r.Failure? ==> r.error == MissingPurgerMessage)
  {
  }

  /** The kept selectors hold no duplicates and follow the order of their first occurrence. */
  lemma KeptAreDistinct(fs: Fs, paths: seq<string>, extras: seq<string>)
    ensures NoDup(KeptSelectors(fs, paths, extras))
  {
    DedupHasNoDuplicates(Normalized(FoundSelectors(fs, paths, extras)));
  }

  /**
   * A selector is kept exactly when it is the canonical form of an accepted token found
   * in the sources or given as an extra.
   */
  lemma KeptMembership(fs: Fs, paths: seq<string>, extras: seq<string>, e: string)
    ensures e in KeptSelectors(fs, paths, extras) <==>
      exists k :: 0 <= k < |FoundSelectors(fs, paths, extras)| && e in Kept(FoundSelectors(fs, paths, extras)[k])
  {
    NormalizedMembership(FoundSelectors(fs, paths, extras), e);
  }

  /** Every kept selector starts like a selector and holds only single plain spaces. */
  lemma KeptAreNormal(fs: Fs, paths: seq<string>, extras: seq<string>, e: string)
    requires e in KeptSelectors(fs, paths, extras)
    ensures IsNormalSelector(e)
  {
    NormalizedShape(FoundSelectors(fs, paths, extras), e);
  }

  /** An extra selector with a selector start is always kept, whatever the sources hold. */
  lemma ExtraSelectorKept(fs: Fs, paths: seq<string>, extras: seq<string>, k: nat)
    requires k < |extras| && Accepted(extras[k])
    ensures Canonical(extras[k]) in KeptSelectors(fs, paths, extras)
  {
    ExtraKeptAfter(Extracted(Collected(fs, paths)), extras, k);
  }

  /** The same, for any list of tokens in front of the extras. */
  lemma ExtraKeptAfter(pre: seq<string>, extras: seq<string>, k: nat)
    requires k < |extras| && Accepted(extras[k])
    ensures Canonical(extras[k]) in Normalized(pre + TrimmedExtras(extras))
  {
    var x := extras[k];
    var t := Trim(x);
    TrimIdempotent(x);
    assert Kept(t) == [Canonical(x)];
    TrimmedExtrasMembership(extras, t);
    var found := pre + TrimmedExtras(extras);
    assert t in found;
    var j :| 0 <= j < |found| && found[j] == t;
    NormalizedMembership(found, Canonical(x));
  }

  /**
   * The stats: `found` counts every extracted token and every non-empty extra, and
   * survives normalization and deduplication as an upper bound.
   */
  lemma StatsBound(fs: Fs, cssPath: string, paths: seq<string>, extras: seq<string>,
                   readable: bool, render: PurgerCall -> string)
    ensures var r := PurgeOutcome(fs, cssPath, paths, extras, readable, true, render);
      && r.Success?
      && r.value.stats.found == |Extracted(Collected(fs, paths))| + |TrimmedExtras(extras)|
      && r.value.stats.normalized == |r.value.kept| <= r.value.stats.found
  {
  }

  /** Normalization drops no extracted token, so only extras can be lost before deduplication. */
  lemma OnlyExtrasDropped(fs: Fs, paths: seq<string>, extras: seq<string>)
    ensures |Normalized(FoundSelectors(fs, paths, extras))|
      == |Extracted(Collected(fs, paths))| + |Normalized(TrimmedExtras(extras))|
  {
    NormalizedAppend(Extracted(Collected(fs, paths)), TrimmedExtras(extras));
    ExtractedTokensAllKept(Collected(fs, paths));
  }

  /**
   * The purger is asked to add the kept selectors only when there are some, and to
   * minify exactly when readable output was not requested.
   */
  lemma PurgerCallMade(fs: Fs, cssPath: string, paths: seq<string>, extras: seq<string>,
                       readable: bool, render: PurgerCall -> string)
    ensures var r := PurgeOutcome(fs, cssPath, paths, extras, readable, true, render);
      && r.Success?
      && (r.value.kept == [] ==> r.value.css == render(PurgerCall(cssPath, None, !readable)))
      && (r.value.kept != [] ==> r.value.css == render(PurgerCall(cssPath, Some(r.value.kept), !readable)))
  {
  }

  /** With nothing to scan and no extras there is nothing to keep, and `addSelectors` is not called. */
  lemma NothingToKeep(fs: Fs, cssPath: string, readable: bool, render: PurgerCall -> string)
    ensures var r := PurgeOutcome(fs, cssPath, [], [], readable, true, render);
      && r.Success? && r.value.kept == [] && r.value.stats == Stats(0, 0)
      && r.value.css == render(PurgerCall(cssPath, None, !readable))
  {
    assert Collected(fs, []) == "";
  }
}

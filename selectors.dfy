/**
 * The selector pipeline of `PurgeService`: the six extraction passes of
 * `extractSelectors`, which turn scanned text into raw selector tokens, and
 * `normalizeSelectors`, which trims, filters and tidies those tokens.
 *
 * Each pass is specified as the concatenation of what every capture of its pattern
 * contributes (`FlatMap`), which a loop over the captures extends one capture at a
 * time; the methods perform the PHP loops and are proved equal to those functions.
 */
module Selectors {
  import opened Text
  import opened Scanners
  import opened Lists

  // ---------------------------------------------------------------------------------
  // The raw tokens of each pass

  /** A non-empty piece written as a class selector; nothing for an empty piece. */
  function Dotted(w: string): (r: seq<string>)
    ensures |r| <= 1
  {
    if w != [] then ["." + w] else []
  }

  /** The non-empty pieces, each written as a class selector. */
  function DottedPieces(ps: seq<string>): seq<string> {
    FlatMap(ps, Dotted)
  }

  /** The class selectors of one captured value. */
  function ValueClassTokens(v: string): seq<string> {
    DottedPieces(SplitSpaces(Trim(v)))
  }

  /**
   * Class and className pass: each value is trimmed and split on `\s` runs, and every
   * non-empty piece becomes `.piece`. A piece holds no `\s`.
   */
  function ClassTokens(values: seq<string>): seq<string> {
    FlatMap(values, ValueClassTokens)
  }

  /** The id selector of one captured value: `#` and the trimmed value, unless that is empty. */
  function IdToken(v: string): (r: seq<string>)
    ensures |r| <= 1
  {
    var u := Trim(v);
    if u != [] then ["#" + u] else []
  }

  /** Id pass: a value that is not empty once trimmed becomes `#value`, trimmed. */
  function IdTokens(values: seq<string>): seq<string> {
    FlatMap(values, IdToken)
  }

  /** The attribute selector for one `data-bs-theme` value. */
  function ThemeSelector(v: string): string {
    "[data-bs-theme=" + v + "]"
  }

  function ThemeToken(v: string): seq<string> {
    [ThemeSelector(v)]
  }

  /** data-bs-theme pass: one attribute selector per value, in order. */
  function ThemeTokens(values: seq<string>): seq<string> {
    FlatMap(values, ThemeToken)
  }

  function TagToken(name: string): seq<string> {
    [Lower(name)]
  }

  /** Tag pass: each tag name, lower-cased. */
  function TagTokens(names: seq<string>): seq<string> {
    FlatMap(names, TagToken)
  }

  function ArgumentToken(w: string): seq<string> {
    ["." + w]
  }

  /** The quoted words of one classList call, each as a class selector. */
  function ArgumentTokens(words: seq<string>): seq<string> {
    FlatMap(words, ArgumentToken)
  }

  /** The class selectors of one classList call's argument list. */
  function CallTokens(args: string): seq<string> {
    ArgumentTokens(AllMatches(QuotedArgument, args))
  }

  /** classList pass: the quoted arguments of every call, call by call. */
  function ClassListTokens(calls: seq<string>): seq<string> {
    FlatMap(calls, CallTokens)
  }

  /** What `extractSelectors($content)` returns: the six passes, in this order. */
  function Extracted(content: string): seq<string> {
    ClassTokens(AllMatches(QuotedAttribute("class"), content))
    + ClassTokens(AllMatches(QuotedAttribute("classname"), content))
    + IdTokens(AllMatches(QuotedAttribute("id"), content))
    + ThemeTokens(AllMatches(ThemeAttribute, content))
    + TagTokens(AllMatches(OpenTag, content))
    + ClassListTokens(AllMatches(ClassListCall, content))
  }

  // ---------------------------------------------------------------------------------
  // Normalization

  /** The first byte is `.`, `#`, `[`, `:` or an ASCII letter. */
  predicate HasSelectorStart(u: string) {
    u != [] && (u[0] == '.' || u[0] == '#' || u[0] == '[' || u[0] == ':' || IsAsciiLetter(u[0]))
  }

  /** A token `normalizeSelectors` keeps: non-empty once trimmed, with a selector start. */
  predicate Accepted(t: string) {
    HasSelectorStart(Trim(t))
  }

  /** What a kept token becomes: trimmed, then every `\s` run replaced by one space. */
  function Canonical(t: string): string {
    CollapseSpaces(Trim(t))
  }

  /** What one token contributes to the output: its canonical form, or nothing. */
  function Kept(t: string): (r: seq<string>)
    ensures |r| <= 1
  {
    if Accepted(t) then [Canonical(t)] else []
  }

  /** What `normalizeSelectors($tokens)` returns. */
  function Normalized(tokens: seq<string>): (r: seq<string>)
    ensures |r| <= |tokens|
  {
    FlatMapAtMostOne(tokens, Kept);
    FlatMap(tokens, Kept)
  }

  /** The shape of every normalized selector. */
  predicate IsNormalSelector(e: string) {
    HasSelectorStart(e) && Collapsed(e)
  }

  // ---------------------------------------------------------------------------------
  // The PHP loops. Each pass appends its tokens to `$selectors` in turn; here every pass
  // collects its own tokens and `ExtractSelectors` appends the six lists in pass order,
  // which yields the same list.

  /** The inner loop of the class and className passes, over the `preg_split` pieces. */
  method ValueClassPass(v: string) returns (tokens: seq<string>)
    ensures tokens == ValueClassTokens(v)
  {
    var pieces := SplitSpaces(Trim(v));
    tokens := [];
    for j := 0 to |pieces|
      invariant tokens == FlatMapOf(pieces, j, Dotted)
    {
      if pieces[j] != [] {
        tokens := tokens + ["." + pieces[j]];
      }
    }
  }

  /** The outer loop of the class and className passes, over the captured values. */
  method ClassPass(values: seq<string>) returns (tokens: seq<string>)
    ensures tokens == ClassTokens(values)
  {
    tokens := [];
    for i := 0 to |values|
      invariant tokens == FlatMapOf(values, i, ValueClassTokens)
    {
      var more := ValueClassPass(values[i]);
      tokens := tokens + more;
    }
  }

  /** The loop of the id pass. */
  method IdPass(values: seq<string>) returns (tokens: seq<string>)
    ensures tokens == IdTokens(values)
  {
    tokens := [];
    for i := 0 to |values|
      invariant tokens == FlatMapOf(values, i, IdToken)
    {
      var v := Trim(values[i]);
      if v != [] {
        tokens := tokens + ["#" + v];
      }
    }
  }

  /** The loop of the data-bs-theme pass. */
  method ThemePass(values: seq<string>) returns (tokens: seq<string>)
    ensures tokens == ThemeTokens(values)
  {
    tokens := [];
    for i := 0 to |values|
      invariant tokens == FlatMapOf(values, i, ThemeToken)
    {
      tokens := tokens + ["[data-bs-theme=" + values[i] + "]"];
    }
  }

  /** The loop of the tag pass. */
  method TagPass(names: seq<string>) returns (tokens: seq<string>)
    ensures tokens == TagTokens(names)
  {
    tokens := [];
    for i := 0 to |names|
      invariant tokens == FlatMapOf(names, i, TagToken)
    {
      tokens := tokens + [Lower(names[i])];
    }
  }

  /** The inner loop of the classList pass, over the quoted arguments of one call. */
  method ArgumentPass(words: seq<string>) returns (tokens: seq<string>)
    ensures tokens == ArgumentTokens(words)
  {
    tokens := [];
    for j := 0 to |words|
      invariant tokens == FlatMapOf(words, j, ArgumentToken)
    {
      tokens := tokens + ["." + words[j]];
    }
  }

  /** The outer loop of the classList pass, over the captured argument lists. */
  method ClassListPass(calls: seq<string>) returns (tokens: seq<string>)
    ensures tokens == ClassListTokens(calls)
  {
    tokens := [];
    for i := 0 to |calls|
      invariant tokens == FlatMapOf(calls, i, CallTokens)
    {
      var more := ArgumentPass(AllMatches(QuotedArgument, calls[i]));
      tokens := tokens + more;
    }
  }

  /** `extractSelectors($content)`. */
  method ExtractSelectors(content: string) returns (selectors: seq<string>)
    ensures selectors == Extracted(content)
  {
    selectors := ClassPass(AllMatches(QuotedAttribute("class"), content));
    var more := ClassPass(AllMatches(QuotedAttribute("classname"), content));
    selectors := selectors + more;
    more := IdPass(AllMatches(QuotedAttribute("id"), content));
    selectors := selectors + more;
    more := ThemePass(AllMatches(ThemeAttribute, content));
    selectors := selectors + more;
    more := TagPass(AllMatches(OpenTag, content));
    selectors := selectors + more;
    more := ClassListPass(AllMatches(ClassListCall, content));
    selectors := selectors + more;
  }

  /** `normalizeSelectors($selectors)`. */
  method NormalizeSelectors(selectors: seq<string>) returns (out: seq<string>)
    ensures out == Normalized(selectors)
  {
    out := [];
    for i := 0 to |selectors|
      invariant out == FlatMapOf(selectors, i, Kept)
    {
      var sel := Trim(selectors[i]);
      if sel == [] {
        continue;
      }
      if sel[0] != '.' && sel[0] != '#' && sel[0] != '[' && sel[0] != ':' && !IsAsciiLetter(sel[0]) {
        continue;
      }
      sel := CollapseSpaces(sel);
      out := out + [sel];
    }
  }
}

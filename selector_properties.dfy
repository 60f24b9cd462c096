/**
 * What the extraction passes and the normalization promise: the shape of every token a
 * pass emits, which tokens the passes emit for given captures, that normalization is an
 * order-preserving filter-map whose outputs are well formed, and the end-to-end result
 * for the small templates the behaviour is usually illustrated with.
 */
module SelectorProperties {
  import opened Text
  import opened Scanners
  import opened Selectors
  import opened Lists

  // ---------------------------------------------------------------------------------
  // The passes

  /** The class selectors of a value are its non-empty pieces after trim and split, dotted. */
  lemma DottedPiecesMembership(ps: seq<string>, t: string)
    ensures t in DottedPieces(ps) <==> exists w :: w in ps && w != [] && t == "." + w
  {
    FlatMapMembership(ps, Dotted, t);
    if exists w :: w in ps && w != [] && t == "." + w {
      var w :| w in ps && w != [] && t == "." + w;
      var k :| 0 <= k < |ps| && ps[k] == w;
      assert t in Dotted(ps[k]);
    }
  }

  /** Every class selector is a dot followed by a non-empty run without `\s`. */
  lemma {:induction false} DottedPiecesShape(ps: seq<string>)
    requires forall k :: 0 <= k < |ps| ==> NoSpace(ps[k])
    ensures forall t :: t in DottedPieces(ps) ==> |t| > 1 && t[0] == '.' && NoSpace(t[1..])
  {
    forall t | t in DottedPieces(ps) ensures |t| > 1 && t[0] == '.' && NoSpace(t[1..]) {
      DottedPiecesMembership(ps, t);
      var w :| w in ps && w != [] && t == "." + w;
      assert t[1..] == w;
    }
  }

  /** A class-pass token comes from one of the captured values. */
  lemma ClassTokensMembership(values: seq<string>, t: string)
    ensures t in ClassTokens(values) <==> exists v :: v in values && t in ValueClassTokens(v)
  {
    FlatMapMembership(values, ValueClassTokens, t);
    if exists v :: v in values && t in ValueClassTokens(v) {
      var v :| v in values && t in ValueClassTokens(v);
      var k :| 0 <= k < |values| && values[k] == v;
      assert t in ValueClassTokens(values[k]);
    }
  }

  /** Class-pass tokens are `.` and a non-empty class name without `\s`. */
  lemma ClassTokensShape(values: seq<string>, t: string)
    requires t in ClassTokens(values)
    ensures |t| > 1 && t[0] == '.' && NoSpace(t[1..])
  {
    ClassTokensMembership(values, t);
    var v :| v in values && t in ValueClassTokens(v);
    DottedPiecesShape(SplitSpaces(Trim(v)));
  }

  /** `class="w1 w2"`: two words separated by one space give two class selectors. */
  lemma TwoClassNames(w1: string, w2: string)
    requires w1 != [] && w2 != [] && NoSpace(w1) && NoSpace(w2)
    requires !IsTrimChar(w1[0]) && !IsTrimChar(w2[|w2| - 1])
    ensures ValueClassTokens(w1 + " " + w2) == ["." + w1, "." + w2]
  {
    var v := w1 + " " + w2;
    assert v[0] == w1[0] && v[|v| - 1] == w2[|w2| - 1];
    TrimOfTrimmed(v);
    SplitTwoWords(w1, w2);
    DottedTwo(w1, w2);
  }

  lemma DottedTwo(w1: string, w2: string)
    requires w1 != [] && w2 != []
    ensures DottedPieces([w1, w2]) == ["." + w1, "." + w2]
  {
    FlatMapSnoc([], w1, Dotted);
    FlatMapSnoc([w1], w2, Dotted);
    assert [] + [w1] == [w1] && [w1] + [w2] == [w1, w2];
  }

  /** Splitting `w1 w2` on the space gives the two words. */
  lemma SplitTwoWords(w1: string, w2: string)
    requires w1 != [] && w2 != [] && NoSpace(w1) && NoSpace(w2)
    ensures SplitSpaces(w1 + " " + w2) == [w1, w2]
  {
    var rest := " " + w2;
    var v := w1 + rest;
    assert w1 + " " + w2 == v;
    WordLengthOfWord(w1, rest);
    assert v[|w1|..] == rest && v[..|w1|] == w1;
    SkipOneSpace(w2);
    SplitSpacesOfWord(w2);
    SplitSpacesStep(v);
  }

  lemma SplitSpacesStep(s: string)
    requires WordLength(s) < |s|
    ensures SplitSpaces(s) == [s[..WordLength(s)]] + SplitSpaces(SkipSpaces(s[WordLength(s)..]))
  {
  }

  lemma SkipOneSpace(w: string)
    requires w != [] && !IsPcreSpace(w[0])
    ensures SkipSpaces(" " + w) == w
  {
    assert (" " + w)[1..] == w;
  }

  /** A word without `\s` is its own single piece. */
  lemma SplitSpacesOfWord(w: string)
    requires NoSpace(w)
    ensures SplitSpaces(w) == [w]
  {
    WordLengthOfWord(w, []);
    assert w + [] == w;
  }

  lemma {:induction false} WordLengthOfWord(w: string, rest: string)
    requires NoSpace(w)
    requires rest == [] || IsPcreSpace(rest[0])
    ensures WordLength(w + rest) == |w|
    decreases |w|
  {
    if w != [] {
      assert (w + rest)[1..] == w[1..] + rest;
      WordLengthOfWord(w[1..], rest);
    }
  }

  /** An id token comes from a captured value that is not empty once trimmed. */
  lemma IdTokensMembership(values: seq<string>, t: string)
    ensures t in IdTokens(values) <==> exists v :: v in values && Trim(v) != [] && t == "#" + Trim(v)
  {
    FlatMapMembership(values, IdToken, t);
    if t in IdTokens(values) {
      var k :| 0 <= k < |values| && t in IdToken(values[k]);
      assert values[k] in values;
    }
    if exists v :: v in values && Trim(v) != [] && t == "#" + Trim(v) {
      var v :| v in values && Trim(v) != [] && t == "#" + Trim(v);
      var k :| 0 <= k < |values| && values[k] == v;
      assert t in IdToken(values[k]);
    }
  }

  /** The theme pass emits exactly one attribute selector per captured value, in order. */
  lemma ThemeTokensAreOnePerValue(values: seq<string>)
    ensures |ThemeTokens(values)| == |values|
    ensures forall k :: 0 <= k < |values| ==> ThemeTokens(values)[k] == ThemeSelector(values[k])
  {
    FlatMapOnePer(values, ThemeToken);
  }

  /** The tag pass emits exactly the lower-cased names, one per open tag, in order. */
  lemma TagTokensAreOnePerName(names: seq<string>)
    ensures |TagTokens(names)| == |names|
    ensures forall k :: 0 <= k < |names| ==> TagTokens(names)[k] == Lower(names[k])
  {
    FlatMapOnePer(names, TagToken);
  }

  /** `[a-z][a-z0-9-]*`: the shape of a lower-cased tag name. */
  predicate IsLowerTagName(t: string) {
    t != [] && IsAsciiLower(t[0])
    && forall k :: 0 <= k < |t| ==> IsAsciiLower(t[k]) || IsAsciiDigit(t[k]) || t[k] == '-'
  }

  /** Every tag token of any content matches `[a-z][a-z0-9-]*`. */
  lemma TagTokensAreLowerTagNames(content: string, t: string)
    requires t in TagTokens(AllMatches(OpenTag, content))
    ensures IsLowerTagName(t)
  {
    var names := AllMatches(OpenTag, content);
    TagTokensAreOnePerName(names);
    var k :| 0 <= k < |names| && TagTokens(names)[k] == t;
    assert IsTagName(names[k]);
    assert t == Lower(names[k]);
  }

  /** The classList pass emits each quoted argument, dotted, in order. */
  lemma ArgumentTokensAreOnePerWord(words: seq<string>)
    ensures |ArgumentTokens(words)| == |words|
    ensures forall k :: 0 <= k < |words| ==> ArgumentTokens(words)[k] == "." + words[k]
  {
    FlatMapOnePer(words, ArgumentToken);
  }

  /** A classList token is a dot and a quoted word of one of the calls. */
  lemma ClassListTokensMembership(calls: seq<string>, t: string)
    ensures t in ClassListTokens(calls) <==>
      exists a :: a in calls && t in ArgumentTokens(AllMatches(QuotedArgument, a))
  {
    FlatMapMembership(calls, CallTokens, t);
    if exists a :: a in calls && t in ArgumentTokens(AllMatches(QuotedArgument, a)) {
      var a :| a in calls && t in ArgumentTokens(AllMatches(QuotedArgument, a));
      var k :| 0 <= k < |calls| && calls[k] == a;
      assert t in CallTokens(calls[k]);
    }
  }

  // ---------------------------------------------------------------------------------
  // Extraction, end to end

  /** Without `=` or `(`, only the tag pass can emit anything. */
  lemma OnlyTagsWithoutAttributes(content: string)
    requires '=' !in content && '(' !in content
    ensures Extracted(content) == TagTokens(AllMatches(OpenTag, content))
  {
    NoAttributeWithoutEquals(QuotedAttribute("class"), content, 0);
    NoAttributeWithoutEquals(QuotedAttribute("classname"), content, 0);
    NoAttributeWithoutEquals(QuotedAttribute("id"), content, 0);
    NoAttributeWithoutEquals(ThemeAttribute, content, 0);
    NoClassListCallWithoutParenthesis(content, 0);
  }

  /** `<h1>Hello</h1>`: an element with plain text contributes its tag name and nothing else. */
  lemma PlainElementExtracted(name: string, text: string, closing: string)
    requires IsTagName(name)
    requires '<' !in text && '=' !in text && '(' !in text
    requires '<' !in closing && '=' !in closing && '(' !in closing
    ensures Extracted("<" + name + ">" + text + "</" + closing + ">") == [Lower(name)]
  {
    var s := "<" + name + ">" + text + "</" + closing + ">";
    assert forall k :: 0 <= k < |name| ==> s[k + 1] == name[k];
    assert forall k :: 0 <= k < |text| ==> s[k + |name| + 2] == text[k];
    assert forall k :: 0 <= k < |closing| ==> s[k + |name| + |text| + 4] == closing[k];
    assert '=' !in s && '(' !in s;
    OnlyTagsWithoutAttributes(s);
    ElementYieldsTagOnce(name, text, closing);
    FlatMapSnoc([], name, TagToken);
    assert [] + [name] == [name];
  }

  /** `classList.toggle("toggle-class")`: the call contributes the dotted argument only. */
  lemma ToggleCallExtracted(q: char, w: string, q2: char)
    requires IsQuote(q) && IsQuote(q2) && w != [] && AllWordChars(w)
    ensures Extracted("classList.toggle(" + ([q] + w + [q2]) + ")") == ["." + w]
  {
    var args := [q] + w + [q2];
    var s := "classList.toggle(" + args + ")";
    ToggleCallText(q, w, q2);
    NoAttributeWithoutEquals(QuotedAttribute("class"), s, 0);
    NoAttributeWithoutEquals(QuotedAttribute("classname"), s, 0);
    NoAttributeWithoutEquals(QuotedAttribute("id"), s, 0);
    NoAttributeWithoutEquals(ThemeAttribute, s, 0);
    NoOpenTagWithoutBracket(s);
    ToggleCallAlone(args);
    QuotedArgumentAlone(q, w, q2);
    OneCallTokens(args, w);
  }

  lemma OneCallTokens(args: string, w: string)
    requires AllMatches(QuotedArgument, args) == [w]
    ensures ClassListTokens([args]) == ["." + w]
  {
    FlatMapSnoc([], args, CallTokens);
    FlatMapSnoc([], w, ArgumentToken);
    assert [] + [args] == [args] && [] + [w] == [w];
  }

  /** The call text has no `=` and no `<`, and its arguments no `)`. */
  lemma ToggleCallText(q: char, w: string, q2: char)
    requires IsQuote(q) && IsQuote(q2) && AllWordChars(w)
    ensures var args := [q] + w + [q2];
      var s := "classList.toggle(" + args + ")";
      '=' !in s && '<' !in s && ')' !in args
  {
    assert '=' !in w && '<' !in w && ')' !in w by {
      forall i | 0 <= i < |w| ensures w[i] != '=' && w[i] != '<' && w[i] != ')' {
        assert IsWordChar(w[i]);
      }
    }
    var lit := "classList.toggle(";
    assert '=' !in lit && '<' !in lit;
  }

  /** Every extracted token passes the first-byte test of the normalization. */
  lemma ExtractedTokenAccepted(content: string, t: string)
    requires t in Extracted(content)
    ensures Accepted(t)
  {
    var a := ClassTokens(AllMatches(QuotedAttribute("class"), content));
    var b := ClassTokens(AllMatches(QuotedAttribute("classname"), content));
    var c := IdTokens(AllMatches(QuotedAttribute("id"), content));
    var d := ThemeTokens(AllMatches(ThemeAttribute, content));
    var e := TagTokens(AllMatches(OpenTag, content));
    var f := ClassListTokens(AllMatches(ClassListCall, content));
    assert t in a || t in b || t in c || t in d || t in e || t in f;
    if t in a {
      ClassTokensShape(AllMatches(QuotedAttribute("class"), content), t);
    } else if t in b {
      ClassTokensShape(AllMatches(QuotedAttribute("classname"), content), t);
    } else if t in c {
      IdTokensMembership(AllMatches(QuotedAttribute("id"), content), t);
    } else if t in d {
      ThemeTokensAreOnePerValue(AllMatches(ThemeAttribute, content));
    } else if t in e {
      TagTokensAreLowerTagNames(content, t);
    } else {
      ClassListTokensMembership(AllMatches(ClassListCall, content), t);
      var args :| args in AllMatches(ClassListCall, content) && t in ArgumentTokens(AllMatches(QuotedArgument, args));
      ArgumentTokensAreOnePerWord(AllMatches(QuotedArgument, args));
    }
    assert t != [] && !IsTrimChar(t[0]);
    TrimKeepsFirst(t);
  }

  // ---------------------------------------------------------------------------------
  // Normalization

  lemma NormalizedSnoc(init: seq<string>, t: string)
    ensures Normalized(init + [t]) == Normalized(init) + Kept(t)
  {
    FlatMapSnoc(init, t, Kept);
  }

  /** Normalizing a concatenation normalizes the parts. */
  lemma NormalizedAppend(a: seq<string>, b: seq<string>)
    ensures Normalized(a + b) == Normalized(a) + Normalized(b)
  {
    FlatMapAppend(a, b, Kept);
  }

  /** The output holds exactly the canonical forms of the accepted inputs. */
  lemma NormalizedMembership(tokens: seq<string>, e: string)
    ensures e in Normalized(tokens) <==> exists k :: 0 <= k < |tokens| && e in Kept(tokens[k])
  {
    FlatMapMembership(tokens, Kept, e);
  }

  /** When every token is accepted, none is dropped. */
  lemma NormalizedKeepsAccepted(tokens: seq<string>)
    requires forall k :: 0 <= k < |tokens| ==> Accepted(tokens[k])
    ensures |Normalized(tokens)| == |tokens|
  {
    FlatMapOnePer(tokens, Kept);
  }

  /** When no token is accepted, the result is empty. */
  lemma NormalizedDropsRejected(tokens: seq<string>)
    requires forall k :: 0 <= k < |tokens| ==> !Accepted(tokens[k])
    ensures Normalized(tokens) == []
  {
    FlatMapNone(tokens, Kept);
  }

  /** No extracted token is lost in normalization. */
  lemma ExtractedTokensAllKept(content: string)
    ensures |Normalized(Extracted(content))| == |Extracted(content)|
  {
    var ts := Extracted(content);
    forall k | 0 <= k < |ts| ensures Accepted(ts[k]) {
      ExtractedTokenAccepted(content, ts[k]);
    }
    NormalizedKeepsAccepted(ts);
  }

  /** A canonical form has a selector start and only single plain spaces. */
  lemma CanonicalShape(t: string)
    requires Accepted(t)
    ensures IsNormalSelector(Canonical(t))
  {
    var u := Trim(t);
    CollapseSpacesIsCollapsed(u);
  }

  /** Every output element is well formed: a selector start, and no `\s` runs. */
  lemma NormalizedShape(tokens: seq<string>, e: string)
    requires e in Normalized(tokens)
    ensures IsNormalSelector(e)
  {
    NormalizedMembership(tokens, e);
    var k :| 0 <= k < |tokens| && e in Kept(tokens[k]);
    CanonicalShape(tokens[k]);
  }

  /** A well-formed selector holds no line break. */
  lemma NormalSelectorHasNoNewline(e: string)
    requires IsNormalSelector(e)
    ensures '\n' !in e
  {
    if '\n' in e {
      var i :| 0 <= i < |e| && e[i] == '\n';
      assert IsPcreSpace(e[i]);
    }
  }

  /**
   * Without form feeds in the token, its canonical form is trimmed. A trailing form feed
   * survives `trim` and then becomes a space, so the condition is needed (see
   * `TrailingFormFeedBecomesSpace`).
   */
  lemma CanonicalIsTrimmed(t: string)
    requires Accepted(t) && FormFeed !in t
    ensures Trim(Canonical(t)) == Canonical(t)
  {
    var u := Trim(t);
    var last := u[|u| - 1];
    TrimKeepsBytes(t, last);
    assert !IsPcreSpace(last);
    CollapseSpacesKeepsLast(u);
    var e := CollapseSpaces(u);
    TrimOfTrimmed(e);
  }

  /** A token ending in a form feed keeps a trailing space. */
  lemma TrailingFormFeedBecomesSpace()
    ensures Normalized([".a" + [FormFeed]]) == [".a "]
  {
    var t := ".a" + [FormFeed];
    TrimOfTrimmed(t);
    assert t[1..] == "a" + [FormFeed];
    assert ("a" + [FormFeed])[1..] == [FormFeed];
    assert SkipSpaces([FormFeed]) == [];
    assert CollapseSpaces([FormFeed]) == " ";
    assert CollapseSpaces("a" + [FormFeed]) == "a ";
    assert Canonical(t) == ".a ";
    FlatMapSnoc([], t, Kept);
    assert [] + [t] == [t];
  }

  /** A well-formed, trimmed selector is accepted and is its own canonical form. */
  lemma CanonicalOfNormal(e: string)
    requires IsNormalSelector(e) && Trim(e) == e
    ensures Accepted(e) && Canonical(e) == e
  {
    CollapseSpacesOfCollapsed(e);
  }

  lemma NormalizedOfCanonical(tokens: seq<string>)
    requires forall k :: 0 <= k < |tokens| ==> IsNormalSelector(tokens[k]) && Trim(tokens[k]) == tokens[k]
    ensures Normalized(tokens) == tokens
  {
    forall k | 0 <= k < |tokens| ensures Kept(tokens[k]) == [tokens[k]] {
      CanonicalOfNormal(tokens[k]);
    }
    FlatMapIdentity(tokens, Kept);
  }

  /** Without form feeds in the input, every output element is well formed and trimmed. */
  lemma OutputIsCanonical(tokens: seq<string>, e: string)
    requires forall k :: 0 <= k < |tokens| ==> FormFeed !in tokens[k]
    requires e in Normalized(tokens)
    ensures IsNormalSelector(e) && Trim(e) == e
  {
    NormalizedMembership(tokens, e);
    var k :| 0 <= k < |tokens| && e in Kept(tokens[k]);
    CanonicalOfToken(tokens[k]);
  }

  lemma CanonicalOfToken(t: string)
    requires Accepted(t) && FormFeed !in t
    ensures IsNormalSelector(Canonical(t)) && Trim(Canonical(t)) == Canonical(t)
  {
    CanonicalShape(t);
    CanonicalIsTrimmed(t);
  }

  /** Without form feeds in the input, normalizing a second time changes nothing. */
  lemma NormalizedIdempotent(tokens: seq<string>)
    requires forall k :: 0 <= k < |tokens| ==> FormFeed !in tokens[k]
    ensures Normalized(Normalized(tokens)) == Normalized(tokens)
  {
    var out := Normalized(tokens);
    forall j | 0 <= j < |out| ensures IsNormalSelector(out[j]) && Trim(out[j]) == out[j] {
      OutputIsCanonical(tokens, out[j]);
    }
    NormalizedOfCanonical(out);
  }

  /** `['', '  ', '1abc', '!!!']` normalizes to nothing. */
  lemma RejectedExamples()
    ensures Normalized(["", "  ", "1abc", "!!!"]) == []
  {
    var ts := ["", "  ", "1abc", "!!!"];
    TrimEmptyIff("  ");
    TrimKeepsFirst("1abc");
    TrimKeepsFirst("!!!");
    assert forall k :: 0 <= k < |ts| ==> !Accepted(ts[k]);
    NormalizedDropsRejected(ts);
  }

  /** A word padded with spaces, such as `' invalid '`, comes back bare. */
  lemma PaddedWordIsTrimmed(w: string)
    requires HasSelectorStart(w) && NoSpace(w) && !IsTrimChar(w[|w| - 1])
    ensures Normalized([" " + w + " "]) == [w]
  {
    var t := " " + w + " ";
    TrimPadded(' ', w, ' ');
    assert Collapsed(w);
    CollapseSpacesOfCollapsed(w);
    FlatMapSnoc([], t, Kept);
    assert [] + [t] == [t];
  }

  lemma InvalidIsPadded()
    ensures Normalized([" invalid "]) == ["invalid"]
  {
    var w := "invalid";
    InvalidIsWord();
    PaddedWordIsTrimmed(w);
    assert " " + w + " " == " invalid ";
  }

  lemma InvalidIsWord()
    ensures HasSelectorStart("invalid") && NoSpace("invalid") && !IsTrimChar('d')
  {
    var w := "invalid";
    assert w[0] == 'i' && w[1] == 'n' && w[2] == 'v' && w[3] == 'a' && w[4] == 'l' && w[5] == 'i' && w[6] == 'd';
  }
}

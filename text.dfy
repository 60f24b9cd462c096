/**
 * Character classes and string operations that the PHP code gets from its runtime:
 * the PCRE `\s` class, the default character set of `trim`, ASCII case folding,
 * `preg_replace('/\s+/', ' ', ...)`, `preg_split('/\s+/', ...)` and `sprintf('%d', ...)`.
 *
 * A PHP string is a sequence of bytes; here each `char` stands for one byte, and only
 * ASCII letters have a case, as in PCRE's default tables and PHP 8's `strtolower`.
 */
module Text {

  /** The form feed byte (12). */
  const FormFeed: char := 12 as char

  /** `\s` in a PCRE pattern without the `u` flag: space, tab, LF, VT (11), FF (12), CR. */
  predicate IsPcreSpace(c: char) {
    c == ' ' || c == '\t' || c == '\n' || c == '\r' || c as int == 11 || c as int == 12
  }

  /** A byte that PHP's `trim` strips by default: space, tab, LF, CR, NUL (0), VT (11). */
  predicate IsTrimChar(c: char) {
    c == ' ' || c == '\t' || c == '\n' || c == '\r' || c as int == 0 || c as int == 11
  }

  /** The two classes differ in exactly one byte each: FF is `\s` but not trimmed, NUL the reverse. */
  lemma SpaceAndTrimClassesDiffer(c: char)
    ensures IsPcreSpace(c) && !IsTrimChar(c) <==> c as int == 12
    ensures IsTrimChar(c) && !IsPcreSpace(c) <==> c as int == 0
  {
  }

  predicate IsAsciiUpper(c: char) { 'A' <= c <= 'Z' }
  predicate IsAsciiLower(c: char) { 'a' <= c <= 'z' }
  predicate IsAsciiLetter(c: char) { IsAsciiUpper(c) || IsAsciiLower(c) }
  predicate IsAsciiDigit(c: char) { '0' <= c <= '9' }

  /** ASCII lower-casing of one byte. */
  function ToLower(c: char): (r: char)
    ensures IsAsciiLetter(c) <==> IsAsciiLetter(r)
    ensures !IsAsciiUpper(r)
    ensures IsAsciiLetter(c) ==> r as int - c as int == (if IsAsciiUpper(c) then 32 else 0)
    ensures !IsAsciiLetter(c) ==> r == c
  {
    if IsAsciiUpper(c) then (c as int + 32) as char else c
  }

  /** PHP `strtolower`: lower-cases the ASCII letters and leaves every other byte alone. */
  function Lower(s: string): (r: string)
    ensures |r| == |s|
    ensures forall i :: 0 <= i < |s| ==> r[i] == ToLower(s[i])
  {
    seq(|s|, i requires 0 <= i < |s| => ToLower(s[i]))
  }

  lemma LowerIdempotent(s: string)
    ensures Lower(Lower(s)) == Lower(s)
  {
  }

  /** Every character of `w` is outside `\s`. */
  predicate NoSpace(w: string) {
    forall i :: 0 <= i < |w| ==> !IsPcreSpace(w[i])
  }

  /** `s` with every `\s` byte removed: the text that whitespace handling must not touch. */
  function Unspaced(s: string): (r: string)
    ensures |r| <= |s|
    ensures NoSpace(r)
  {
    if s == [] then []
    else if IsPcreSpace(s[0]) then Unspaced(s[1..])
    else [s[0]] + Unspaced(s[1..])
  }

  lemma {:induction false} UnspacedAppend(a: string, b: string)
    ensures Unspaced(a + b) == Unspaced(a) + Unspaced(b)
  {
    if a == [] {
      assert a + b == b;
    } else {
      assert (a + b)[1..] == a[1..] + b;
      UnspacedAppend(a[1..], b);
    }
  }

  lemma {:induction false} UnspacedOfNoSpace(w: string)
    requires NoSpace(w)
    ensures Unspaced(w) == w
  {
    if w != [] {
      UnspacedOfNoSpace(w[1..]);
    }
  }

  // ---------------------------------------------------------------------------------
  // trim

  /**
   * PHP `trim($s)` with the default character set: trim bytes are cut off both ends
   * until neither end is one. The result never starts or ends with a trim byte.
   */
  function Trim(s: string): (r: string)
    decreases |s|
    ensures |r| <= |s|
    ensures |r| == 0 || (!IsTrimChar(r[0]) && !IsTrimChar(r[|r| - 1]))
  {
    if s == [] then []
    else if IsTrimChar(s[0]) then Trim(s[1..])
    else if IsTrimChar(s[|s| - 1]) then Trim(s[..|s| - 1])
    else s
  }

  /** Bytes of `s` outside `s[i..j]` are trim bytes. */
  predicate CutBytesAreTrim(s: string, i: nat, j: nat) {
    forall k :: 0 <= k < |s| && (k < i || j <= k) ==> IsTrimChar(s[k])
  }

  /**
   * The result is the factor `s[i..j]` left once trim bytes, and only trim bytes, are cut
   * off the two ends.
   */
  lemma {:induction false} TrimIsFactor(s: string) returns (i: nat, j: nat)
    decreases |s|
    ensures i <= j <= |s| && Trim(s) == s[i..j] && CutBytesAreTrim(s, i, j)
  {
    if s == [] {
      i, j := 0, 0;
    } else if IsTrimChar(s[0]) {
      TrimFrontStep(s);
      var i', j' := TrimIsFactor(s[1..]);
      FactorAfterFront(s, i', j');
      i, j := i' + 1, j' + 1;
    } else if IsTrimChar(s[|s| - 1]) {
      TrimBackStep(s);
      i, j := TrimIsFactor(s[..|s| - 1]);
      FactorBeforeBack(s, i, j);
    } else {
      i, j := 0, |s|;
    }
  }

  /** A factor of `s[1..]` cut out by trim bytes is one of `s` when `s[0]` is a trim byte too. */
  lemma FactorAfterFront(s: string, i: nat, j: nat)
    requires s != [] && IsTrimChar(s[0])
    requires i <= j <= |s| - 1 && CutBytesAreTrim(s[1..], i, j)
    ensures s[1..][i..j] == s[i + 1..j + 1] && CutBytesAreTrim(s, i + 1, j + 1)
  {
    forall k | 0 < k < |s| ensures s[k] == s[1..][k - 1] { }
  }

  /** A factor of `s[..|s| - 1]` cut out by trim bytes is one of `s` when its last byte is a trim byte too. */
  lemma FactorBeforeBack(s: string, i: nat, j: nat)
    requires s != [] && IsTrimChar(s[|s| - 1])
    requires i <= j <= |s| - 1 && CutBytesAreTrim(s[..|s| - 1], i, j)
    ensures s[..|s| - 1][i..j] == s[i..j] && CutBytesAreTrim(s, i, j)
  {
    forall k | 0 <= k < |s| - 1 ensures s[k] == s[..|s| - 1][k] { }
  }

  lemma TrimFrontStep(s: string)
    requires s != [] && IsTrimChar(s[0])
    ensures Trim(s) == Trim(s[1..])
  {
  }

  lemma TrimBackStep(s: string)
    requires s != [] && !IsTrimChar(s[0]) && IsTrimChar(s[|s| - 1])
    ensures Trim(s) == Trim(s[..|s| - 1])
  {
  }

  /** The result is empty exactly when every byte is a trim byte. */
  lemma {:induction false} TrimEmptyIff(s: string)
    decreases |s|
    ensures Trim(s) == [] <==> forall i :: 0 <= i < |s| ==> IsTrimChar(s[i])
  {
    if s != [] {
      if IsTrimChar(s[0]) {
        TrimEmptyIff(s[1..]);
        assert forall i :: 0 < i < |s| ==> s[i] == s[1..][i - 1];
      } else if IsTrimChar(s[|s| - 1]) {
        TrimEmptyIff(s[..|s| - 1]);
        assert forall i :: 0 <= i < |s| - 1 ==> s[i] == s[..|s| - 1][i];
      }
    }
  }

  /** Trimming only removes bytes: every byte left was in the input. */
  lemma {:induction false} TrimKeepsBytes(s: string, c: char)
    requires c in Trim(s)
    ensures c in s
    decreases |s|
  {
    if s != [] {
      if IsTrimChar(s[0]) {
        TrimKeepsBytes(s[1..], c);
      } else if IsTrimChar(s[|s| - 1]) {
        TrimKeepsBytes(s[..|s| - 1], c);
        var i :| 0 <= i < |s| - 1 && s[..|s| - 1][i] == c;
        assert s[i] == c;
      }
    }
  }

  /** A string that neither starts nor ends with a trim byte is returned unchanged. */
  lemma TrimOfTrimmed(s: string)
    requires s != [] && !IsTrimChar(s[0]) && !IsTrimChar(s[|s| - 1])
    ensures Trim(s) == s
  {
  }

  lemma TrimIdempotent(s: string)
    ensures Trim(Trim(s)) == Trim(s)
  {
    if Trim(s) != [] {
      TrimOfTrimmed(Trim(s));
    }
  }

  /** Trimming keeps a first byte that is not a trim byte. */
  lemma {:induction false} TrimKeepsFirst(s: string)
    requires s != [] && !IsTrimChar(s[0])
    ensures Trim(s) != [] && Trim(s)[0] == s[0]
    decreases |s|
  {
    if IsTrimChar(s[|s| - 1]) {
      var p := s[..|s| - 1];
      assert p != [] && p[0] == s[0];
      TrimKeepsFirst(p);
    }
  }

  /** A word padded by one trim byte on each side comes back bare. */
  lemma TrimPadded(a: char, w: string, b: char)
    requires IsTrimChar(a) && IsTrimChar(b)
    requires w != [] && !IsTrimChar(w[0]) && !IsTrimChar(w[|w| - 1])
    ensures Trim([a] + w + [b]) == w
  {
    var s := [a] + w + [b];
    assert s[1..] == w + [b];
    assert (w + [b])[..|w|] == w;
    assert Trim(s) == Trim(w + [b]);
    assert Trim(w + [b]) == Trim(w);
    TrimOfTrimmed(w);
  }

  // ---------------------------------------------------------------------------------
  // preg_replace('/\s+/', ' ', $s)

  /** The rest of `s` after its maximal leading run of `\s` bytes. */
  function SkipSpaces(s: string): (r: string)
    ensures |r| <= |s| && r == s[|s| - |r|..]
    ensures |r| == 0 || !IsPcreSpace(r[0])
    ensures forall i :: 0 <= i < |s| - |r| ==> IsPcreSpace(s[i])
  {
    if s != [] && IsPcreSpace(s[0]) then SkipSpaces(s[1..]) else s
  }

  lemma {:induction false} UnspacedSkipSpaces(s: string)
    ensures Unspaced(SkipSpaces(s)) == Unspaced(s)
  {
    if s != [] && IsPcreSpace(s[0]) {
      UnspacedSkipSpaces(s[1..]);
    }
  }

  /** No `\s` byte other than a plain space, and no two `\s` bytes side by side. */
  predicate Collapsed(s: string) {
    && (forall i :: 0 <= i < |s| && IsPcreSpace(s[i]) ==> s[i] == ' ')
    && (forall i :: 0 <= i < |s| - 1 ==> !(IsPcreSpace(s[i]) && IsPcreSpace(s[i + 1])))
  }

  /**
   * `preg_replace('/\s+/', ' ', $s)`: every maximal run of `\s` becomes one space.
   * It keeps a non-space first byte and turns a leading run into a space.
   */
  function CollapseSpaces(s: string): (r: string)
    decreases |s|
    ensures |r| <= |s| && (r == [] <==> s == [])
    ensures r != [] && !IsPcreSpace(s[0]) ==> r[0] == s[0]
    ensures r != [] && IsPcreSpace(s[0]) ==> r[0] == ' '
  {
    if s == [] then []
    else if IsPcreSpace(s[0]) then [' '] + CollapseSpaces(SkipSpaces(s))
    else [s[0]] + CollapseSpaces(s[1..])
  }

  /** The result of collapsing has no `\s` but single plain spaces. */
  lemma {:induction false} CollapseSpacesIsCollapsed(s: string)
    decreases |s|
    ensures Collapsed(CollapseSpaces(s))
  {
    if s != [] {
      if IsPcreSpace(s[0]) {
        var rest := SkipSpaces(s);
        CollapseSpacesIsCollapsed(rest);
        var t := CollapseSpaces(rest);
        assert t != [] ==> !IsPcreSpace(t[0]);
        assert CollapseSpaces(s) == [' '] + t;
      } else {
        CollapseSpacesIsCollapsed(s[1..]);
        assert CollapseSpaces(s) == [s[0]] + CollapseSpaces(s[1..]);
      }
    }
  }

  /** Collapsing keeps every byte that is not `\s`, in order. */
  lemma {:induction false} CollapseSpacesKeepsText(s: string)
    decreases |s|
    ensures Unspaced(CollapseSpaces(s)) == Unspaced(s)
  {
    if s != [] {
      if IsPcreSpace(s[0]) {
        var rest := SkipSpaces(s);
        CollapseSpacesKeepsText(rest);
        UnspacedSkipSpaces(s);
        UnspacedAppend([' '], CollapseSpaces(rest));
      } else {
        CollapseSpacesKeepsText(s[1..]);
        assert s == [s[0]] + s[1..];
        UnspacedAppend([s[0]], CollapseSpaces(s[1..]));
        UnspacedAppend([s[0]], s[1..]);
      }
    }
  }

  /** Collapsing keeps a last byte that is not `\s`. */
  lemma {:induction false} CollapseSpacesKeepsLast(s: string)
    decreases |s|
    requires s != [] && !IsPcreSpace(s[|s| - 1])
    ensures var r := CollapseSpaces(s); r != [] && r[|r| - 1] == s[|s| - 1]
  {
    if IsPcreSpace(s[0]) {
      var rest := SkipSpaces(s);
      CollapseSpacesKeepsLast(rest);
    } else if |s| > 1 {
      CollapseSpacesKeepsLast(s[1..]);
    }
  }

  /** An already collapsed string is a fixed point. */
  lemma {:induction false} CollapseSpacesOfCollapsed(s: string)
    decreases |s|
    requires Collapsed(s)
    ensures CollapseSpaces(s) == s
  {
    if s != [] {
      assert Collapsed(s[1..]);
      if IsPcreSpace(s[0]) {
        assert SkipSpaces(s) == s[1..];
      }
      CollapseSpacesOfCollapsed(s[1..]);
    }
  }

  // ---------------------------------------------------------------------------------
  // preg_split('/\s+/', $s)

  /** Concatenation of a list of strings. */
  function Concat(ss: seq<string>): (r: string)
    ensures |r| >= (if ss == [] then 0 else |ss[0]|)
  {
    if ss == [] then [] else ss[0] + Concat(ss[1..])
  }

  /** Length of the maximal prefix of `s` without `\s`. */
  function WordLength(s: string): (n: nat)
    ensures n <= |s| && NoSpace(s[..n])
    ensures n < |s| ==> IsPcreSpace(s[n])
  {
    if s == [] || IsPcreSpace(s[0]) then 0
    else
      var n := 1 + WordLength(s[1..]);
      assert s[..n] == [s[0]] + s[1..][..n - 1];
      n
  }

  /**
   * `preg_split('/\s+/', $s)`: the pieces between the maximal `\s` runs, empty pieces
   * included (a leading or trailing run yields an empty first or last piece). There is
   * always at least one piece and no piece holds `\s`.
   */
  function SplitSpaces(s: string): (r: seq<string>)
    decreases |s|
    ensures |r| >= 1
    ensures forall k :: 0 <= k < |r| ==> NoSpace(r[k])
  {
    var n := WordLength(s);
    if n == |s| then [s] else [s[..n]] + SplitSpaces(SkipSpaces(s[n..]))
  }

  /** The pieces together are exactly the bytes of `s` that are not `\s`, in order. */
  lemma {:induction false} SplitSpacesKeepsText(s: string)
    decreases |s|
    ensures Concat(SplitSpaces(s)) == Unspaced(s)
  {
    var n := WordLength(s);
    if n == |s| {
      UnspacedOfNoSpace(s);
      assert Concat([s]) == s + Concat([]);
    } else {
      var rest := SkipSpaces(s[n..]);
      SplitSpacesKeepsText(rest);
      assert s == s[..n] + s[n..];
      UnspacedAppend(s[..n], s[n..]);
      UnspacedOfNoSpace(s[..n]);
      UnspacedSkipSpaces(s[n..]);
      var r := [s[..n]] + SplitSpaces(rest);
      assert r[1..] == SplitSpaces(rest);
    }
  }

  // ---------------------------------------------------------------------------------
  // sprintf('%d', $n)

  function DigitChar(d: nat): (c: char)
    requires d < 10
    ensures IsAsciiDigit(c) && c as int - '0' as int == d
  {
    ('0' as int + d) as char
  }

  predicate AllDigits(s: string) {
    forall i :: 0 <= i < |s| ==> IsAsciiDigit(s[i])
  }

  /** Decimal rendering of a count, as `sprintf('%d', $n)` prints it: no sign, no leading zero. */
  function NatToString(n: nat): (r: string)
    ensures r != [] && AllDigits(r)
    ensures r[0] == '0' <==> n == 0
  {
    if n < 10 then [DigitChar(n)] else NatToString(n / 10) + [DigitChar(n % 10)]
  }

  /** The number a string of decimal digits denotes. */
  function DecimalValue(s: string): nat
    requires AllDigits(s)
  {
    if s == [] then 0 else DecimalValue(s[..|s| - 1]) * 10 + (s[|s| - 1] as int - '0' as int)
  }

  /** Reading back a rendered count gives the count. */
  lemma {:induction false} DecimalRoundTrip(n: nat)
    ensures DecimalValue(NatToString(n)) == n
  {
    if n >= 10 {
      DecimalRoundTrip(n / 10);
      var s := NatToString(n);
      assert s[..|s| - 1] == NatToString(n / 10);
    }
  }

  /** Two counts render differently. */
  lemma NatToStringInjective(m: nat, n: nat)
    requires NatToString(m) == NatToString(n)
    ensures m == n
  {
    DecimalRoundTrip(m);
    DecimalRoundTrip(n);
  }
}

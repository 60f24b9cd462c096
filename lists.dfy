/**
 * Sequence utilities: the lists the loops build by appending, one input value at a
 * time, and PHP's `array_unique`, which keeps the first occurrence of every value and
 * drops the later ones.
 */
module Lists {

  // ---------------------------------------------------------------------------------
  // Appending a list for every value

  /**
   * What a loop that appends `f(v)` for each of the first `n` values `v` of `s` builds.
   * The per-value function is a parameter, so that reasoning about the list never
   * looks inside it.
   */
  function FlatMapOf<T, U>(s: seq<T>, n: nat, f: T -> seq<U>): seq<U>
    requires n <= |s|
    decreases n
  {
    if n == 0 then [] else FlatMapOf(s, n - 1, f) + f(s[n - 1])
  }

  /** `f(v)` for every value `v` of `s`, concatenated in order. */
  function FlatMap<T, U>(s: seq<T>, f: T -> seq<U>): seq<U> {
    FlatMapOf(s, |s|, f)
  }

  /** The list built from the first `n` values depends on those values only. */
  lemma {:induction false} FlatMapOfAgree<T, U>(a: seq<T>, b: seq<T>, n: nat, f: T -> seq<U>)
    requires n <= |a| && n <= |b|
    requires forall i :: 0 <= i < n ==> a[i] == b[i]
    ensures FlatMapOf(a, n, f) == FlatMapOf(b, n, f)
    decreases n
  {
    if n > 0 {
      FlatMapOfAgree(a, b, n - 1, f);
    }
  }

  /** One more value appends its list. */
  lemma FlatMapSnoc<T, U>(s: seq<T>, x: T, f: T -> seq<U>)
    ensures FlatMap(s + [x], f) == FlatMap(s, f) + f(x)
  {
    FlatMapOfAgree(s + [x], s, |s|, f);
  }

  lemma {:induction false} FlatMapOfAppend<T, U>(a: seq<T>, b: seq<T>, m: nat, f: T -> seq<U>)
    requires m <= |b|
    ensures FlatMapOf(a + b, |a| + m, f) == FlatMap(a, f) + FlatMapOf(b, m, f)
    decreases m
  {
    if m == 0 {
      FlatMapOfAgree(a + b, a, |a|, f);
    } else {
      FlatMapOfAppend(a, b, m - 1, f);
      assert (a + b)[|a| + m - 1] == b[m - 1];
    }
  }

  /** Mapping a concatenation concatenates the two results. */
  lemma FlatMapAppend<T, U>(a: seq<T>, b: seq<T>, f: T -> seq<U>)
    ensures FlatMap(a + b, f) == FlatMap(a, f) + FlatMap(b, f)
  {
    FlatMapOfAppend(a, b, |b|, f);
  }

  lemma {:induction false} FlatMapOfMembership<T, U>(s: seq<T>, n: nat, f: T -> seq<U>, e: U)
    requires n <= |s|
    ensures e in FlatMapOf(s, n, f) <==> exists k :: 0 <= k < n && e in f(s[k])
    decreases n
  {
    if n > 0 {
      FlatMapOfMembership(s, n - 1, f, e);
    }
  }

  /** An element of the result comes from the list of one of the values, and each such element is there. */
  lemma FlatMapMembership<T, U>(s: seq<T>, f: T -> seq<U>, e: U)
    ensures e in FlatMap(s, f) <==> exists k :: 0 <= k < |s| && e in f(s[k])
  {
    FlatMapOfMembership(s, |s|, f, e);
  }

  lemma {:induction false} FlatMapOfAtMostOne<T, U>(s: seq<T>, n: nat, f: T -> seq<U>)
    requires n <= |s|
    requires forall k :: 0 <= k < n ==> |f(s[k])| <= 1
    ensures |FlatMapOf(s, n, f)| <= n
    decreases n
  {
    if n > 0 {
      FlatMapOfAtMostOne(s, n - 1, f);
    }
  }

  /** When each value yields at most one element, the result is no longer than the input. */
  lemma FlatMapAtMostOne<T, U>(s: seq<T>, f: T -> seq<U>)
    requires forall k :: 0 <= k < |s| ==> |f(s[k])| <= 1
    ensures |FlatMap(s, f)| <= |s|
  {
    FlatMapOfAtMostOne(s, |s|, f);
  }

  lemma {:induction false} FlatMapOfOnePer<T, U>(s: seq<T>, n: nat, f: T -> seq<U>)
    requires n <= |s|
    requires forall k :: 0 <= k < n ==> |f(s[k])| == 1
    ensures |FlatMapOf(s, n, f)| == n
    ensures forall k :: 0 <= k < n ==> FlatMapOf(s, n, f)[k] == f(s[k])[0]
    decreases n
  {
    if n > 0 {
      FlatMapOfOnePer(s, n - 1, f);
    }
  }

  /** When each value yields exactly one element, the result lists them value by value. */
  lemma FlatMapOnePer<T, U>(s: seq<T>, f: T -> seq<U>)
    requires forall k :: 0 <= k < |s| ==> |f(s[k])| == 1
    ensures |FlatMap(s, f)| == |s|
    ensures forall k :: 0 <= k < |s| ==> FlatMap(s, f)[k] == f(s[k])[0]
  {
    FlatMapOfOnePer(s, |s|, f);
  }

  lemma {:induction false} FlatMapOfNone<T, U>(s: seq<T>, n: nat, f: T -> seq<U>)
    requires n <= |s|
    requires forall k :: 0 <= k < n ==> f(s[k]) == []
    ensures FlatMapOf(s, n, f) == []
    decreases n
  {
    if n > 0 {
      FlatMapOfNone(s, n - 1, f);
    }
  }

  /** When no value yields anything, the result is empty. */
  lemma FlatMapNone<T, U>(s: seq<T>, f: T -> seq<U>)
    requires forall k :: 0 <= k < |s| ==> f(s[k]) == []
    ensures FlatMap(s, f) == []
  {
    FlatMapOfNone(s, |s|, f);
  }

  lemma {:induction false} FlatMapOfIdentity<T>(s: seq<T>, n: nat, f: T -> seq<T>)
    requires n <= |s|
    requires forall k :: 0 <= k < n ==> f(s[k]) == [s[k]]
    ensures FlatMapOf(s, n, f) == s[..n]
    decreases n
  {
    if n > 0 {
      FlatMapOfIdentity(s, n - 1, f);
      assert s[..n] == s[..n - 1] + [s[n - 1]];
    }
  }

  /** When every value yields itself, the result is the input. */
  lemma FlatMapIdentity<T>(s: seq<T>, f: T -> seq<T>)
    requires forall k :: 0 <= k < |s| ==> f(s[k]) == [s[k]]
    ensures FlatMap(s, f) == s
  {
    FlatMapOfIdentity(s, |s|, f);
    assert s[..|s|] == s;
  }

  // ---------------------------------------------------------------------------------
  // Keeping the first occurrence

  /** No value occurs twice. */
  predicate NoDup(s: seq<string>) {
    forall i, j :: 0 <= i < j < |s| ==> s[i] != s[j]
  }

  /** The position of the first occurrence of `x`. */
  function FirstIndex(s: seq<string>, x: string): (k: nat)
    requires x in s
    ensures k < |s| && s[k] == x && x !in s[..k]
  {
    if s[0] == x then 0
    else
      var k := 1 + FirstIndex(s[1..], x);
      assert s[..k] == [s[0]] + s[1..][..k - 1];
      k
  }

  /**
   * `array_values(array_unique($s))`: the values of `s` in order, each kept only where it
   * occurs first.
   */
  function Dedup(s: seq<string>): (r: seq<string>)
    ensures |r| <= |s|
    ensures forall x :: x in r <==> x in s
  {
    if s == [] then []
    else
      var init := s[..|s| - 1];
      var x := s[|s| - 1];
      assert s == init + [x];
      Dedup(init) + (if x in init then [] else [x])
  }

  lemma {:induction false} DedupHasNoDuplicates(s: seq<string>)
    ensures NoDup(Dedup(s))
  {
    if s != [] {
      DedupHasNoDuplicates(s[..|s| - 1]);
    }
  }

  /** A list without duplicates is returned unchanged. */
  lemma {:induction false} DedupOfDistinct(s: seq<string>)
    requires NoDup(s)
    ensures Dedup(s) == s
  {
    if s != [] {
      var init := s[..|s| - 1];
      assert NoDup(init);
      DedupOfDistinct(init);
      assert s[|s| - 1] !in init by {
        forall k | 0 <= k < |init| ensures init[k] != s[|s| - 1] {
          assert init[k] == s[k];
        }
      }
      assert s == init + [s[|s| - 1]];
    }
  }

  /** Deduplicating twice changes nothing. */
  lemma DedupIdempotent(s: seq<string>)
    ensures Dedup(Dedup(s)) == Dedup(s)
  {
    DedupHasNoDuplicates(s);
    DedupOfDistinct(Dedup(s));
  }

  /** The first occurrence of a value in `s` is not before the one in `s + t`. */
  lemma FirstIndexOfPrefix(s: seq<string>, t: seq<string>, x: string)
    requires x in s
    ensures x in s + t && FirstIndex(s + t, x) == FirstIndex(s, x)
  {
    var k := FirstIndex(s, x);
    var st := s + t;
    assert st[k] == x;
    assert st[..k] == s[..k];
  }

  /**
   * The kept values appear in the order of their first occurrences, so the dedup is the
   * "keep the first" one and not another choice of representatives.
   */
  lemma {:induction false} DedupKeepsFirstOccurrenceOrder(s: seq<string>)
    ensures forall i, j :: 0 <= i < j < |Dedup(s)| ==>
      FirstIndex(s, Dedup(s)[i]) < FirstIndex(s, Dedup(s)[j])
  {
    if s != [] {
      var init := s[..|s| - 1];
      var x := s[|s| - 1];
      DedupKeepsFirstOccurrenceOrder(init);
      var d := Dedup(init);
      var r := Dedup(s);
      assert s == init + [x];
      forall i, j | 0 <= i < j < |r| ensures FirstIndex(s, r[i]) < FirstIndex(s, r[j]) {
        assert r[i] == d[i];
        FirstIndexOfPrefix(init, [x], r[i]);
        if j < |d| {
          assert r[j] == d[j];
          FirstIndexOfPrefix(init, [x], r[j]);
        } else {
          assert r[j] == x && x !in init;
        }
      }
    }
  }

  /** Deduplication distributes: the second part loses what the first already holds. */
  lemma {:induction false} DedupAppendOne(s: seq<string>, x: string)
    ensures Dedup(s + [x]) == Dedup(s) + (if x in s then [] else [x])
  {
    assert (s + [x])[..|s|] == s;
  }
}

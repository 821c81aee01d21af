/**
 * The two orders the application sorts by: JavaScript's default `sort()` on
 * strings (the rasteriser's page files) and the newest-first comparator
 * `(a, b) => b.created - a.created` of the folder browser. Both are modelled
 * as insertion sorts, proved to return a sorted permutation of their input.
 */
module Sorting {

  /**
   * `a <= b` in JavaScript's default string order: lexicographic, a prefix
   * first. Characters compare by code point, where JavaScript compares
   * UTF-16 code units; the two orders agree on every string without
   * characters outside the Basic Multilingual Plane.
   */
  predicate LexLe(a: string, b: string)
  {
    a == [] || (b != [] && (a[0] < b[0] || (a[0] == b[0] && LexLe(a[1..], b[1..]))))
  }

  lemma {:induction false} LexLeTotal(a: string, b: string)
    ensures LexLe(a, b) || LexLe(b, a)
  {
    if a != [] && b != [] && a[0] == b[0] {
      LexLeTotal(a[1..], b[1..]);
    }
  }

  lemma {:induction false} LexLeTransitive(a: string, b: string, c: string)
    requires LexLe(a, b) && LexLe(b, c)
    ensures LexLe(a, c)
  {
    if a != [] && a[0] == b[0] && b[0] == c[0] {
      LexLeTransitive(a[1..], b[1..], c[1..]);
    }
  }

  predicate LexSorted(s: seq<string>)
  {
    forall i, j :: 0 <= i < j < |s| ==> LexLe(s[i], s[j])
  }

  /** An element no greater than a sorted sequence's head is no greater than any of it. */
  lemma LexBelowAll(x: string, s: seq<string>)
    requires LexSorted(s) && s != [] && LexLe(x, s[0])
    ensures forall j :: 0 <= j < |s| ==> LexLe(x, s[j])
  {
    forall j | 0 < j < |s| { LexLeTransitive(x, s[0], s[j]); }
  }

  /** A bound on `x` and on every element of `tail` bounds every element of a permutation of both. */
  lemma LexHeadBound(h: string, x: string, tail: seq<string>, rest: seq<string>)
    requires multiset(rest) == multiset(tail) + multiset{x}
    requires LexLe(h, x) && forall k :: 0 <= k < |tail| ==> LexLe(h, tail[k])
    ensures forall j :: 0 <= j < |rest| ==> LexLe(h, rest[j])
  {
    forall j | 0 <= j < |rest| ensures LexLe(h, rest[j]) {
      assert rest[j] in multiset(rest);
      if rest[j] != x {
        assert rest[j] in multiset(tail);
        var k :| 0 <= k < |tail| && tail[k] == rest[j];
      }
    }
  }

  function LexInsert(x: string, s: seq<string>): (r: seq<string>)
    requires LexSorted(s)
    ensures multiset(r) == multiset(s) + multiset{x}
    ensures LexSorted(r)
  {
    if s == [] then [x]
    else if LexLe(x, s[0]) then
      LexBelowAll(x, s);
      [x] + s
    else
      LexLeTotal(x, s[0]);
      assert s == [s[0]] + s[1..];
      var rest := LexInsert(x, s[1..]);
      LexHeadBound(s[0], x, s[1..], rest);
      [s[0]] + rest
  }

  /** `strings.sort()` with the default comparator. */
  function LexSort(s: seq<string>): (r: seq<string>)
    ensures LexSorted(r)
    ensures multiset(r) == multiset(s)
  {
    if s == [] then [] else
      assert s == [s[0]] + s[1..];
      LexInsert(s[0], LexSort(s[1..]))
  }

  /** Ordered by a descending key: the largest key first. */
  predicate Descending<T>(s: seq<T>, key: T -> int)
  {
    forall i, j :: 0 <= i < j < |s| ==> key(s[i]) >= key(s[j])
  }

  /** A key bound on `x` and on all of `tail` bounds all of a permutation of both. */
  lemma KeyHeadBound<T>(h: T, x: T, tail: seq<T>, rest: seq<T>, key: T -> int)
    requires multiset(rest) == multiset(tail) + multiset{x}
    requires key(h) >= key(x) && forall k :: 0 <= k < |tail| ==> key(h) >= key(tail[k])
    ensures forall j :: 0 <= j < |rest| ==> key(h) >= key(rest[j])
  {
    forall j | 0 <= j < |rest| ensures key(h) >= key(rest[j]) {
      assert rest[j] in multiset(rest);
      if rest[j] != x {
        assert rest[j] in multiset(tail);
        var k :| 0 <= k < |tail| && tail[k] == rest[j];
      }
    }
  }

  function InsertDescending<T(==)>(x: T, s: seq<T>, key: T -> int): (r: seq<T>)
    requires Descending(s, key)
    ensures multiset(r) == multiset(s) + multiset{x}
    ensures Descending(r, key)
  {
    if s == [] then [x]
    else if key(x) >= key(s[0]) then
      assert forall j :: 0 <= j < |s| ==> key(x) >= key(s[j]);
      [x] + s
    else
      assert s == [s[0]] + s[1..];
      var rest := InsertDescending(x, s[1..], key);
      KeyHeadBound(s[0], x, s[1..], rest, key);
      [s[0]] + rest
  }

  /** `items.sort((a, b) => key(b) - key(a))`: newest (largest key) first. */
  function SortDescending<T(==)>(s: seq<T>, key: T -> int): (r: seq<T>)
    ensures Descending(r, key)
    ensures multiset(r) == multiset(s)
  {
    if s == [] then [] else
      assert s == [s[0]] + s[1..];
      InsertDescending(s[0], SortDescending(s[1..], key), key)
  }
}

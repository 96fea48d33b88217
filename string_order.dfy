/**
 * Python's ordering of `str` values and the `sorted` built-in applied to a
 * list of file names.  Python compares strings code point by code point and
 * puts a proper prefix before every longer string that extends it.
 */
module StringOrder {

  /** `a` is `b` or the start of it. */
  ghost predicate IsPrefix(a: string, b: string)
  {
    |a| <= |b| && a == b[..|a|]
  }

  /** `a` and `b` agree before position `i`, where `a` has the smaller code point. */
  ghost predicate SmallerAt(a: string, b: string, i: int)
  {
    0 <= i < |a| && i < |b| && a[..i] == b[..i] && a[i] < b[i]
  }

  /**
   * The ordering as Python's documentation states it: `a` is a prefix of `b`,
   * or at the first position where they differ `a` has the smaller code point.
   */
  ghost predicate PythonLe(a: string, b: string)
  {
    IsPrefix(a, b) || exists i :: SmallerAt(a, b, i)
  }

  /** Python's `a <= b` on strings, compared one character at a time. */
  predicate Le(a: string, b: string)
    ensures Le(a, b) <==> PythonLe(a, b)
  {
    if a == [] then true
    else if b == [] then false
    else if a[0] != b[0] then
      FirstDifference(a, b);
      a[0] < b[0]
    else
      EqualHeads(a, b);
      Le(a[1..], b[1..])
  }

  /** When the first characters differ, only they decide the order. */
  lemma FirstDifference(a: string, b: string)
    requires a != [] && b != [] && a[0] != b[0]
    ensures PythonLe(a, b) <==> a[0] < b[0]
  {
    if a[0] < b[0] {
      assert SmallerAt(a, b, 0);
    }
    if exists i :: SmallerAt(a, b, i) {
      var i :| SmallerAt(a, b, i);
      if i > 0 {
        assert a[..i][0] == b[..i][0];
      }
    }
  }

  lemma PrefixOfTails(a: string, b: string)
    requires a != [] && b != [] && a[0] == b[0]
    ensures IsPrefix(a, b) <==> IsPrefix(a[1..], b[1..])
  {
    assert a == [a[0]] + a[1..] && b == [b[0]] + b[1..];
    if IsPrefix(a[1..], b[1..]) {
      assert b[..|a|] == [b[0]] + b[1..][..|a| - 1];
    }
    if IsPrefix(a, b) {
      assert a[1..] == b[..|a|][1..];
    }
  }

  lemma SmallerAtTails(a: string, b: string, i: nat)
    requires a != [] && b != [] && a[0] == b[0]
    ensures SmallerAt(a, b, i + 1) <==> SmallerAt(a[1..], b[1..], i)
  {
    if i + 1 < |a| && i + 1 < |b| {
      assert a[..i + 1] == [a[0]] + a[1..][..i];
      assert b[..i + 1] == [b[0]] + b[1..][..i];
    }
  }

  /** When the first characters agree, the order is that of the rests. */
  lemma EqualHeads(a: string, b: string)
    requires a != [] && b != [] && a[0] == b[0]
    ensures PythonLe(a, b) <==> PythonLe(a[1..], b[1..])
  {
    PrefixOfTails(a, b);
    if exists i :: SmallerAt(a[1..], b[1..], i) {
      var i :| SmallerAt(a[1..], b[1..], i);
      SmallerAtTails(a, b, i);
    }
    if exists i :: SmallerAt(a, b, i) {
      var i :| SmallerAt(a, b, i);
      assert i != 0;
      SmallerAtTails(a, b, i - 1);
    }
  }

  lemma {:induction false} LeReflexive(a: string)
    ensures Le(a, a)
  {
    if a != [] {
      LeReflexive(a[1..]);
    }
  }

  lemma {:induction false} LeTotal(a: string, b: string)
    ensures Le(a, b) || Le(b, a)
  {
    if a != [] && b != [] && a[0] == b[0] {
      LeTotal(a[1..], b[1..]);
    }
  }

  lemma {:induction false} LeAntisymmetric(a: string, b: string)
    requires Le(a, b) && Le(b, a)
    ensures a == b
  {
    if a != [] && b != [] {
      LeAntisymmetric(a[1..], b[1..]);
      assert a == [a[0]] + a[1..] && b == [b[0]] + b[1..];
    }
  }

  lemma {:induction false} LeTransitive(a: string, b: string, c: string)
    requires Le(a, b) && Le(b, c)
    ensures Le(a, c)
  {
    if a != [] && b != [] && c != [] && a[0] == b[0] == c[0] {
      LeTransitive(a[1..], b[1..], c[1..]);
    }
  }

  /** Ascending order under Python's string comparison. */
  predicate Sorted(xs: seq<string>)
  {
    forall i, j :: 0 <= i < j < |xs| ==> Le(xs[i], xs[j])
  }

  /** Places `x` into an ascending list, before the first element it does not exceed. */
  function Insert(x: string, xs: seq<string>): (r: seq<string>)
    requires Sorted(xs)
    ensures Sorted(r)
    ensures multiset(r) == multiset(xs) + multiset{x}
  {
    if xs == [] then [x]
    else if Le(x, xs[0]) then
      ConsSorted(x, xs);
      [x] + xs
    else
      var rest := Insert(x, xs[1..]);
      LeTotal(x, xs[0]);
      assert xs == [xs[0]] + xs[1..];
      HeadBelowAll(xs[0], xs[1..], x, rest);
      [xs[0]] + rest
  }

  /** A head at or below the first element of an ascending list keeps it ascending. */
  lemma ConsSorted(x: string, xs: seq<string>)
    requires Sorted(xs) && xs != [] && Le(x, xs[0])
    ensures Sorted([x] + xs)
  {
    forall j | 0 < j < |xs| ensures Le(x, xs[j]) {
      LeTransitive(x, xs[0], xs[j]);
    }
  }

  /** A head at or below every element of an ascending list keeps it ascending. */
  lemma HeadBelowAll(h: string, tail: seq<string>, x: string, rest: seq<string>)
    requires Sorted([h] + tail) && Le(h, x) && Sorted(rest)
    requires multiset(rest) == multiset(tail) + multiset{x}
    ensures Sorted([h] + rest)
  {
    forall j | 0 <= j < |rest| ensures Le(h, rest[j]) {
      assert rest[j] in multiset(rest);
      if rest[j] != x {
        assert rest[j] in multiset(tail);
        var k :| 0 <= k < |tail| && tail[k] == rest[j];
        assert ([h] + tail)[0] == h && ([h] + tail)[k + 1] == tail[k];
        assert Le(([h] + tail)[0], ([h] + tail)[k + 1]);
      }
    }
  }

  /** Python's `sorted` on a list of strings, written as an insertion sort. */
  function Sort(xs: seq<string>): (r: seq<string>)
    ensures Sorted(r)
    ensures multiset(r) == multiset(xs)
  {
    if xs == [] then []
    else
      assert xs == [xs[0]] + xs[1..];
      Insert(xs[0], Sort(xs[1..]))
  }

  /** The first element of an ascending list is at or below every element of it. */
  lemma HeadIsLeast(xs: seq<string>, x: string)
    requires Sorted(xs) && x in multiset(xs)
    ensures Le(xs[0], x)
  {
    var k :| 0 <= k < |xs| && xs[k] == x;
    if k == 0 {
      LeReflexive(x);
    }
  }

  lemma MultisetTail(xs: seq<string>)
    requires xs != []
    ensures multiset(xs[1..]) == multiset(xs) - multiset{xs[0]}
  {
    assert xs == [xs[0]] + xs[1..];
  }

  /**
   * There is only one ascending arrangement of a collection of strings, so
   * `Sort` agrees with Python's `sorted` whatever algorithm that uses.
   */
  lemma {:induction false} SortedPermutationUnique(a: seq<string>, b: seq<string>)
    requires Sorted(a) && Sorted(b)
    requires multiset(a) == multiset(b)
    ensures a == b
  {
    if a == [] {
      assert |multiset(b)| == 0;
    } else {
      assert a[0] in multiset(a);
      assert b != [];
      assert b[0] in multiset(b);
      HeadIsLeast(a, b[0]);
      HeadIsLeast(b, a[0]);
      LeAntisymmetric(a[0], b[0]);
      MultisetTail(a);
      MultisetTail(b);
      SortedPermutationUnique(a[1..], b[1..]);
      assert a == [a[0]] + a[1..] && b == [b[0]] + b[1..];
    }
  }
}

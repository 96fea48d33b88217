/**
 * Directory listings and the string tests both scripts apply to file names:
 * an order-preserving filter (a list comprehension with an `if`), Python's
 * `name[-n:]` slice and `str.endswith`.
 */
module Listing {

  /** `[x for x in xs if p(x)]`: keeps the entries that satisfy `p`, in listing order. */
  function Filter(p: string -> bool, xs: seq<string>): (r: seq<string>)
    ensures |r| <= |xs|
    ensures forall x :: x in r <==> x in xs && p(x)
  {
    if xs == [] then []
    else if p(xs[0]) then [xs[0]] + Filter(p, xs[1..])
    else Filter(p, xs[1..])
  }

  /** Filtering distributes over concatenation, so the kept entries keep their relative order. */
  lemma {:induction false} FilterConcat(p: string -> bool, a: seq<string>, b: seq<string>)
    ensures Filter(p, a + b) == Filter(p, a) + Filter(p, b)
  {
    if a == [] {
      assert a + b == b;
    } else {
      assert (a + b)[1..] == a[1..] + b;
      FilterConcat(p, a[1..], b);
    }
  }

  /** Nothing is added, dropped or duplicated: every kept name occurs as often as in the listing. */
  lemma {:induction false} FilterCount(p: string -> bool, xs: seq<string>, x: string)
    ensures multiset(Filter(p, xs))[x] == if p(x) then multiset(xs)[x] else 0
  {
    if xs != [] {
      assert xs == [xs[0]] + xs[1..];
      assert multiset(xs) == multiset([xs[0]]) + multiset(xs[1..]);
      FilterCount(p, xs[1..], x);
    }
  }

  /**
   * Python's `s[-n:]` for a positive `n`: the last `n` characters, or the
   * whole string when it is shorter.  (`s[-0:]` is all of `s`, which this
   * function does not model.)
   */
  function PyTail(s: string, n: nat): (r: string)
    requires n > 0
    ensures |r| == if |s| < n then |s| else n
    ensures s == s[..|s| - |r|] + r
  {
    if |s| < n then s else s[|s| - n..]
  }

  /** Python's `s.endswith(suffix)`: `s` is some string followed by `suffix`. */
  predicate EndsWith(s: string, suffix: string)
    ensures EndsWith(s, suffix) <==> exists head :: s == head + suffix
  {
    SplitOffSuffix(s, suffix);
    |suffix| <= |s| && s[|s| - |suffix|..] == suffix
  }

  /** Where `s` is `head + suffix`, `head` is everything before the last `|suffix|` characters. */
  lemma SplitOffSuffix(s: string, suffix: string)
    ensures (exists head :: s == head + suffix) <==> |suffix| <= |s| && s[|s| - |suffix|..] == suffix
  {
    if |suffix| <= |s| && s[|s| - |suffix|..] == suffix {
      assert s == s[..|s| - |suffix|] + suffix;
    }
    if exists head :: s == head + suffix {
      var head :| s == head + suffix;
      assert s[|head|..] == suffix;
    }
  }
}

/**
 * `Array.prototype.filter` and the facts about it that both listing
 * pipelines rely on: the result is an order-preserving subsequence, passes
 * compose into one conjunction, and passes commute.
 */
module Seqs {

  /** `s.filter(keep)`: the elements of `s` that `keep` accepts, in their order. */
  function Filter<T>(s: seq<T>, keep: T -> bool): (r: seq<T>)
    ensures |r| <= |s|
  {
    if s == [] then []
    else (if keep(s[0]) then [s[0]] else []) + Filter(s[1..], keep)
  }

  /** An element survives the filter exactly when it is present and accepted. */
  lemma {:induction false} FilterMembers<T>(s: seq<T>, keep: T -> bool)
    ensures forall x :: x in Filter(s, keep) <==> x in s && keep(x)
  {
    if s != [] {
      FilterMembers(s[1..], keep);
      assert s == [s[0]] + s[1..];
    }
  }

  /** `a` can be obtained from `b` by deleting elements: an order-preserving subsequence. */
  predicate IsSubsequence<T(==)>(a: seq<T>, b: seq<T>)
    decreases |b|
  {
    a == [] || (b != [] && ((a[0] == b[0] && IsSubsequence(a[1..], b[1..])) || IsSubsequence(a, b[1..])))
  }

  function And<T>(a: T -> bool, b: T -> bool): T -> bool
  {
    x => a(x) && b(x)
  }

  lemma {:induction false} FilterIsSubsequence<T>(s: seq<T>, keep: T -> bool)
    ensures IsSubsequence(Filter(s, keep), s)
  {
    if s != [] {
      FilterIsSubsequence(s[1..], keep);
      var r := Filter(s, keep);
      if keep(s[0]) {
        assert r[0] == s[0] && r[1..] == Filter(s[1..], keep);
      } else {
        assert r == Filter(s[1..], keep);
      }
    }
  }

  /** Filtering depends only on what the predicate says about the elements present. */
  lemma {:induction false} FilterExt<T>(s: seq<T>, a: T -> bool, b: T -> bool)
    requires forall x :: x in s ==> a(x) == b(x)
    ensures Filter(s, a) == Filter(s, b)
  {
    if s != [] {
      FilterExt(s[1..], a, b);
    }
  }

  /** A predicate that accepts every element leaves the sequence as it is. */
  lemma {:induction false} FilterKeepsAll<T>(s: seq<T>, keep: T -> bool)
    requires forall x :: x in s ==> keep(x)
    ensures Filter(s, keep) == s
  {
    if s != [] {
      FilterKeepsAll(s[1..], keep);
    }
  }

  lemma FilterDropsAll<T>(s: seq<T>, keep: T -> bool)
    requires forall x :: x in s ==> !keep(x)
    ensures Filter(s, keep) == []
  {
  }

  lemma {:induction false} FilterAppend<T>(a: seq<T>, b: seq<T>, keep: T -> bool)
    ensures Filter(a + b, keep) == Filter(a, keep) + Filter(b, keep)
  {
    if a == [] {
      assert a + b == b;
    } else {
      var head := if keep(a[0]) then [a[0]] else [];
      assert (a + b)[0] == a[0] && (a + b)[1..] == a[1..] + b;
      FilterAppend(a[1..], b, keep);
      assert Filter(a + b, keep) == head + Filter(a[1..] + b, keep);
      assert Filter(a, keep) == head + Filter(a[1..], keep);
    }
  }

  /** Two passes in a row are one pass with the conjunction of their predicates. */
  lemma {:induction false} FilterFilter<T>(s: seq<T>, a: T -> bool, b: T -> bool)
    ensures Filter(Filter(s, a), b) == Filter(s, And(a, b))
  {
    if s != [] {
      FilterFilter(s[1..], a, b);
      var head := if a(s[0]) then [s[0]] else [];
      FilterAppend(head, Filter(s[1..], a), b);
    }
  }

  /** Passes commute: the order in which two filters run does not matter. */
  lemma FilterCommute<T>(s: seq<T>, a: T -> bool, b: T -> bool)
    ensures Filter(Filter(s, a), b) == Filter(Filter(s, b), a)
  {
    FilterFilter(s, a, b);
    FilterFilter(s, b, a);
    FilterExt(s, And(a, b), And(b, a));
  }

  /** A stronger predicate keeps a subsequence of what a weaker one keeps. */
  lemma FilterMonotone<T>(s: seq<T>, weak: T -> bool, strong: T -> bool)
    requires forall x :: x in s && strong(x) ==> weak(x)
    ensures IsSubsequence(Filter(s, strong), Filter(s, weak))
  {
    FilterFilter(s, weak, strong);
    FilterExt(s, And(weak, strong), strong);
    FilterIsSubsequence(Filter(s, weak), strong);
  }

  /**
   * One conditional pass of a pipeline: if `before` is the filter of `s` by
   * `kept`, then running `keep` only when `active` filters `s` by any `next`
   * that agrees with "`kept`, and `keep` too when `active`".
   */
  lemma ConditionalPass<T>(s: seq<T>, before: seq<T>, kept: T -> bool, active: bool, keep: T -> bool, next: T -> bool)
    requires before == Filter(s, kept)
    requires forall x :: x in s ==> next(x) == (kept(x) && (!active || keep(x)))
    ensures (if active then Filter(before, keep) else before) == Filter(s, next)
  {
    if active {
      FilterFilter(s, kept, keep);
      FilterExt(s, And(kept, keep), next);
    } else {
      FilterExt(s, kept, next);
    }
  }
}

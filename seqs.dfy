/** Sequence helpers shared by the list-editing handlers: the `Array.prototype.filter`
    that `deleteRoutine`, `toggleTag` and `handleDeleteConfirmed` use. */
module Seqs {

  /** The elements of `s` that satisfy `p`, in their original order. */
  function Filter<T(==,!new)>(p: T -> bool, s: seq<T>): (r: seq<T>)
    ensures |r| <= |s|
    ensures forall x :: x in r <==> x in s && p(x)
  {
    if s == [] then [] else (if p(s[0]) then [s[0]] else []) + Filter(p, s[1..])
  }

  /** `a` can be obtained from `b` by deleting elements (the relative order is kept). */
  predicate IsSubsequence<T(==)>(a: seq<T>, b: seq<T>)
  {
    if a == [] then true
    else if b == [] then false
    else if a[0] == b[0] then IsSubsequence(a[1..], b[1..])
    else IsSubsequence(a, b[1..])
  }

  /** Filtering distributes over concatenation: the kept elements of the first part
      come before the kept elements of the second part. */
  lemma {:induction false} FilterConcat<T(!new)>(p: T -> bool, a: seq<T>, b: seq<T>)
    ensures Filter(p, a + b) == Filter(p, a) + Filter(p, b)
  {
    if a == [] {
      assert a + b == b;
    } else {
      assert (a + b)[0] == a[0];
      assert (a + b)[1..] == a[1..] + b;
      FilterConcat(p, a[1..], b);
    }
  }

  /** A filter keeps every copy of each element that satisfies `p`, and no copy of the others. */
  lemma {:induction false} FilterCounts<T(!new)>(p: T -> bool, s: seq<T>)
    ensures forall x :: multiset(Filter(p, s))[x] == if p(x) then multiset(s)[x] else 0
  {
    if s != [] {
      FilterCounts(p, s[1..]);
      assert s == [s[0]] + s[1..];
    }
  }

  /** A filter that rejects nothing returns its input unchanged. */
  lemma {:induction false} FilterKeepsAll<T(!new)>(p: T -> bool, s: seq<T>)
    requires forall x :: x in s ==> p(x)
    ensures Filter(p, s) == s
  {
    if s != [] {
      assert s[0] in s;
      assert forall x :: x in s[1..] ==> x in s;
      FilterKeepsAll(p, s[1..]);
      assert [s[0]] + s[1..] == s;
    }
  }

  /** The result of a filter is a subsequence of its input. */
  lemma {:induction false} FilterIsSubsequence<T(!new)>(p: T -> bool, s: seq<T>)
    ensures IsSubsequence(Filter(p, s), s)
  {
    if s != [] {
      FilterIsSubsequence(p, s[1..]);
      if p(s[0]) {
        assert Filter(p, s) == [s[0]] + Filter(p, s[1..]);
        assert Filter(p, s)[1..] == Filter(p, s[1..]);
      } else {
        assert Filter(p, s) == Filter(p, s[1..]);
        SubsequenceOfTail(Filter(p, s[1..]), s);
      }
    }
  }

  /** A subsequence of the tail is a subsequence of the whole. */
  lemma {:induction false} SubsequenceOfTail<T>(a: seq<T>, b: seq<T>)
    requires b != []
    requires IsSubsequence(a, b[1..])
    ensures IsSubsequence(a, b)
    decreases |b|, |a|
  {
    if a != [] && a[0] == b[0] {
      SubsequenceDropHead(a, b[1..]);
    }
  }

  /** Dropping the first element of a subsequence keeps it a subsequence. */
  lemma {:induction false} SubsequenceDropHead<T>(a: seq<T>, b: seq<T>)
    requires a != []
    requires IsSubsequence(a, b)
    ensures IsSubsequence(a[1..], b)
    decreases |b|, |a|
  {
    if a[0] == b[0] {
      if a[1..] != [] {
        SubsequenceOfTail(a[1..], b);
      }
    } else {
      SubsequenceDropHead(a, b[1..]);
      if a[1..] != [] {
        SubsequenceOfTail(a[1..], b);
      }
    }
  }

  /** Slicing inside the first part of a concatenation. */
  lemma SliceAppend<T>(a: seq<T>, b: seq<T>, i: nat)
    requires i <= |a|
    ensures (a + b)[i..] == a[i..] + b
    ensures (a + b)[..i] == a[..i]
  {
  }

  /** Two lists that start with the same element, the second continuing with the rest of the
      first and then `tb`, are the first followed by `tb`. */
  lemma ConsAppend<T>(ta: seq<T>, tab: seq<T>, rest: seq<T>, restb: seq<T>, tb: seq<T>, t: T)
    requires ta == [t] + rest && tab == [t] + restb && restb == rest + tb
    ensures tab == ta + tb
  {
    assert [t] + (rest + tb) == ([t] + rest) + tb;
  }

  /** Where the parts of `x + [c] + y` lie. */
  lemma AroundElement<T>(x: seq<T>, c: T, y: seq<T>)
    ensures |x + [c] + y| == |x| + 1 + |y|
    ensures (x + [c] + y)[|x|] == c
    ensures (x + [c] + y)[..|x|] == x
    ensures (x + [c] + y)[|x| + 1..] == y
  {
    var t := x + [c] + y;
    assert t[..|x|] == x;
    assert t[|x| + 1..] == y;
  }

  /** The pieces of `a + b + [c] + d`, where each one starts. */
  lemma FourParts<T>(a: seq<T>, b: seq<T>, c: T, d: seq<T>)
    ensures a + b + [c] + d == a + (b + ([c] + d))
    ensures (a + b + [c] + d)[..|a|] == a
    ensures (a + b + [c] + d)[|a|..] == b + ([c] + d)
    ensures (a + b + [c] + d)[|a| + |b|..] == [c] + d
  {
    var s := a + b + [c] + d;
    assert s == a + (b + ([c] + d));
    assert s[..|a|] == a;
    assert s[|a| + |b|..] == [c] + d;
  }
}

/**
 * The array operations the application's state updates are built from:
 * an order-preserving `filter`, an element-wise `map`, and a `slice(0, n)`
 * prefix, together with the sub-sequence relation that says what "keeps
 * the relative order" means.
 */
module Lists {

  /** `s.filter(keep)`: the elements of `s` that `keep` accepts, in their original order. */
  function Filter<T(!new)>(s: seq<T>, keep: T -> bool): (r: seq<T>)
    ensures |r| <= |s|
    ensures forall x :: x in r <==> x in s && keep(x)
  {
    if s == [] then []
    else if keep(s[0]) then [s[0]] + Filter(s[1..], keep)
    else Filter(s[1..], keep)
  }

  /** `s.map(f)`: one image per element, in the same positions. */
  function Map<T, U>(s: seq<T>, f: T -> U): (r: seq<U>)
    ensures |r| == |s|
    ensures forall i :: 0 <= i < |s| ==> r[i] == f(s[i])
  {
    if s == [] then [] else [f(s[0])] + Map(s[1..], f)
  }

  /** `s.slice(0, n)`: the first `n` elements, or all of `s` when it is shorter. */
  function Take<T>(s: seq<T>, n: nat): (r: seq<T>)
    ensures |r| == if |s| <= n then |s| else n
    ensures r == s[..|r|]
  {
    if |s| <= n then s else s[..n]
  }

  /** `a` is obtained from `b` by deleting elements, without reordering the rest. */
  ghost predicate SubsequenceOf<T>(a: seq<T>, b: seq<T>)
    decreases |b|
  {
    if a == [] then true
    else if b == [] then false
    else if a[0] == b[0] then SubsequenceOf(a[1..], b[1..])
    else SubsequenceOf(a, b[1..])
  }

  /** The number of elements of `s` that `keep` rejects. */
  function Rejected<T(!new)>(s: seq<T>, keep: T -> bool): (n: nat)
    ensures n <= |s|
    ensures n == 0 <==> forall x :: x in s ==> keep(x)
  {
    if s == [] then 0 else (if keep(s[0]) then 0 else 1) + Rejected(s[1..], keep)
  }

  lemma {:induction false} SubsequenceReflexive<T>(s: seq<T>)
    ensures SubsequenceOf(s, s)
  {
    if s != [] {
      SubsequenceReflexive(s[1..]);
    }
  }

  /** Dropping elements from the front of `b` still leaves a super-sequence of what remained. */
  lemma {:induction false} SubsequenceOfTail<T>(a: seq<T>, b: seq<T>)
    requires b != [] && SubsequenceOf(a, b[1..])
    ensures SubsequenceOf(a, b)
    decreases |b|, 0
  {
    if a != [] && a[0] == b[0] {
      SubsequenceDropFront(a, b[1..]);
    }
  }

  /** Dropping the head of a sub-sequence keeps it a sub-sequence. */
  lemma {:induction false} SubsequenceDropFront<T>(a: seq<T>, b: seq<T>)
    requires a != [] && SubsequenceOf(a, b)
    ensures SubsequenceOf(a[1..], b)
    decreases |b|, 1
  {
    if b != [] {
      if a[0] == b[0] {
        SubsequenceOfTail(a[1..], b);
      } else {
        SubsequenceDropFront(a, b[1..]);
        SubsequenceOfTail(a[1..], b);
      }
    }
  }

  /** A prefix of a sub-sequence is a sub-sequence. */
  lemma {:induction false} SubsequencePrefix<T>(a: seq<T>, b: seq<T>, k: nat)
    requires k <= |a| && SubsequenceOf(a, b)
    ensures SubsequenceOf(a[..k], b)
    decreases |b|
  {
    if k > 0 && b != [] {
      if a[0] == b[0] {
        assert a[..k][1..] == a[1..][..k - 1];
        SubsequencePrefix(a[1..], b[1..], k - 1);
      } else {
        SubsequencePrefix(a, b[1..], k);
        SubsequenceOfTail(a[..k], b);
      }
    }
  }

  /** Every element of a sub-sequence is an element of the sequence. */
  lemma {:induction false} SubsequenceMembers<T>(a: seq<T>, b: seq<T>)
    requires SubsequenceOf(a, b)
    ensures forall x :: x in a ==> x in b
    decreases |b|
  {
    if a != [] && b != [] {
      if a[0] == b[0] {
        SubsequenceMembers(a[1..], b[1..]);
        assert forall x :: x in a ==> x == a[0] || x in a[1..];
      } else {
        SubsequenceMembers(a, b[1..]);
      }
    }
  }

  /** A sub-sequence picks its elements at strictly increasing positions of the sequence. */
  lemma {:induction false} SubsequencePositions<T>(a: seq<T>, b: seq<T>, i: nat, j: nat)
    requires SubsequenceOf(a, b) && i < j < |a|
    ensures exists p, q :: 0 <= p < q < |b| && b[p] == a[i] && b[q] == a[j]
    decreases |b|
  {
    if a[0] == b[0] {
      if i == 0 {
        SubsequenceMembers(a[1..], b[1..]);
        assert a[j] == a[1..][j - 1];
        assert a[j] in b[1..];
        var q :| 0 <= q < |b[1..]| && b[1..][q] == a[j];
        assert b[0] == a[i] && b[q + 1] == a[j];
      } else {
        SubsequencePositions(a[1..], b[1..], i - 1, j - 1);
        var p, q :| 0 <= p < q < |b[1..]| && b[1..][p] == a[1..][i - 1] && b[1..][q] == a[1..][j - 1];
        assert b[p + 1] == a[i] && b[q + 1] == a[j];
      }
    } else {
      SubsequencePositions(a, b[1..], i, j);
      var p, q :| 0 <= p < q < |b[1..]| && b[1..][p] == a[i] && b[1..][q] == a[j];
      assert b[p + 1] == a[i] && b[q + 1] == a[j];
    }
  }

  /** `filter` keeps the relative order of what it keeps. */
  lemma {:induction false} FilterIsSubsequence<T(!new)>(s: seq<T>, keep: T -> bool)
    ensures SubsequenceOf(Filter(s, keep), s)
  {
    if s != [] {
      FilterIsSubsequence(s[1..], keep);
      if !keep(s[0]) {
        SubsequenceOfTail(Filter(s, keep), s);
      }
    }
  }

  /** `filter` removes exactly the rejected elements, counted with multiplicity. */
  lemma {:induction false} FilterLength<T(!new)>(s: seq<T>, keep: T -> bool)
    ensures |Filter(s, keep)| == |s| - Rejected(s, keep)
  {
    if s != [] {
      FilterLength(s[1..], keep);
    }
  }

  /** A filter that rejects nothing in `s` returns `s` itself. */
  lemma {:induction false} FilterKeepsAll<T(!new)>(s: seq<T>, keep: T -> bool)
    requires forall x :: x in s ==> keep(x)
    ensures Filter(s, keep) == s
  {
    if s != [] {
      FilterKeepsAll(s[1..], keep);
    }
  }
}

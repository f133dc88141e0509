/**
 * Order-preserving sequence helpers: the `Vec` built by pushing matches in a
 * loop (`filter`) and the iterator searches `find` and `rev().find`.
 */
module Seqs {
  import opened Wrappers

  /** The elements of `s` that satisfy `p`, in their original order. */
  function Filter<T(!new)>(s: seq<T>, p: T -> bool): (r: seq<T>)
    ensures |r| <= |s|
    ensures forall x :: x in r <==> x in s && p(x)
  {
    if s == [] then [] else (if p(s[0]) then [s[0]] else []) + Filter(s[1..], p)
  }

  lemma {:induction false} FilterAppend<T(!new)>(a: seq<T>, b: seq<T>, p: T -> bool)
    ensures Filter(a + b, p) == Filter(a, p) + Filter(b, p)
  {
    if a == [] {
      assert a + b == b;
    } else {
      assert (a + b)[0] == a[0];
      assert (a + b)[1..] == a[1..] + b;
      FilterAppend(a[1..], b, p);
    }
  }

  /** Filtering a sequence extended by one element. */
  lemma FilterSnoc<T(!new)>(a: seq<T>, x: T, p: T -> bool)
    ensures Filter(a + [x], p) == Filter(a, p) + (if p(x) then [x] else [])
  {
    FilterAppend(a, [x], p);
    assert Filter([x], p) == (if p(x) then [x] else []) + Filter([x][1..], p);
  }

  lemma AppendAssoc<T>(a: seq<T>, b: seq<T>, c: seq<T>)
    ensures a + (b + c) == (a + b) + c
  {
  }

  /** Filtering a suffix that starts at index `i`. */
  lemma FilterFrom<T(!new)>(s: seq<T>, i: nat, p: T -> bool)
    requires i < |s|
    ensures Filter(s[i..], p) == (if p(s[i]) then [s[i]] else []) + Filter(s[i + 1..], p)
  {
    assert s[i..][1..] == s[i + 1..];
  }

  /** No element satisfies `p`: nothing is kept. */
  lemma {:induction false} FilterNone<T(!new)>(s: seq<T>, p: T -> bool)
    requires forall y :: y in s ==> !p(y)
    ensures Filter(s, p) == []
  {
    if s != [] {
      assert s[0] in s;
      FilterNone(s[1..], p);
    }
  }

  /** When every element satisfying `p` is `x`, and `x` occurs exactly once, `x` is the only match. */
  lemma {:induction false} FilterUnique<T(!new)>(s: seq<T>, p: T -> bool, k: nat)
    requires k < |s| && p(s[k])
    requires forall j :: 0 <= j < |s| && j != k ==> s[j] != s[k]
    requires forall y :: y in s && p(y) ==> y == s[k]
    ensures Filter(s, p) == [s[k]]
  {
    if k == 0 {
      assert forall y :: y in s[1..] ==> y != s[0] by {
        forall y | y in s[1..] ensures y != s[0] {
          var j :| 0 <= j < |s[1..]| && s[1..][j] == y;
          assert s[j + 1] == y;
        }
      }
      FilterNone(s[1..], p);
    } else {
      assert s[0] != s[k];
      forall y | y in s[1..] && p(y) ensures y == s[1..][k - 1] {
        assert y in s;
      }
      FilterUnique(s[1..], p, k - 1);
    }
  }

  /** `iter().find(p)`: the first element satisfying `p`. */
  function FirstWhere<T(!new)>(s: seq<T>, p: T -> bool): (r: Option<T>)
    ensures r == if Filter(s, p) == [] then None else Some(Filter(s, p)[0])
  {
    if s == [] then None else if p(s[0]) then Some(s[0]) else FirstWhere(s[1..], p)
  }

  /** `iter().rev().find(p)`: the last element satisfying `p`. */
  function LastWhere<T(!new)>(s: seq<T>, p: T -> bool): (r: Option<T>)
    ensures r == if Filter(s, p) == [] then None else Some(Filter(s, p)[|Filter(s, p)| - 1])
  {
    if s == [] then None
    else
      var init, last := s[..|s| - 1], s[|s| - 1];
      assert s == init + [last];
      FilterSnoc(init, last, p);
      if p(last) then Some(last) else LastWhere(init, p)
  }

  /** `a` is a subsequence of `b`: its elements occur in `b` in the same order, not necessarily adjacent. */
  ghost predicate IsSubseq<T>(a: seq<T>, b: seq<T>)
    decreases |b|
  {
    if a == [] then true
    else if b == [] then false
    else if a[0] == b[0] then IsSubseq(a[1..], b[1..])
    else IsSubseq(a, b[1..])
  }

  lemma {:induction false} SubseqRefl<T>(a: seq<T>)
    ensures IsSubseq(a, a)
  {
    if a != [] {
      SubseqRefl(a[1..]);
    }
  }

  /** Skipping the first element of `b` keeps a subsequence of it. */
  lemma {:induction false} SubseqTail<T>(a: seq<T>, b: seq<T>)
    requires b != [] && IsSubseq(a, b[1..])
    ensures IsSubseq(a, b)
    decreases |b|, 0
  {
    if a != [] && a[0] == b[0] {
      SubseqDropHead(a, b[1..]);
    }
  }

  /** Dropping the first element of `a` keeps a subsequence. */
  lemma {:induction false} SubseqDropHead<T>(a: seq<T>, c: seq<T>)
    requires a != [] && IsSubseq(a, c)
    ensures IsSubseq(a[1..], c)
    decreases |c|, 1
  {
    if a[0] == c[0] {
      SubseqTail(a[1..], c);
    } else {
      SubseqDropHead(a, c[1..]);
      SubseqTail(a[1..], c);
    }
  }

  /** A subsequence of a suffix of `b` is a subsequence of `b`. */
  lemma {:induction false} SubseqSuffix<T>(a: seq<T>, b: seq<T>, n: nat)
    requires n <= |b| && IsSubseq(a, b[n..])
    ensures IsSubseq(a, b)
    decreases n
  {
    if n > 0 {
      assert b[n - 1..][1..] == b[n..];
      SubseqTail(a, b[n - 1..]);
      SubseqSuffix(a, b, n - 1);
    }
  }

  lemma SubseqCons<T>(x: T, a: seq<T>, b: seq<T>)
    requires IsSubseq(a, b)
    ensures IsSubseq([x] + a, [x] + b)
  {
    assert ([x] + a)[1..] == a && ([x] + b)[1..] == b;
  }

  /** Every element of a subsequence occurs in the sequence. */
  lemma {:induction false} SubseqMembers<T>(a: seq<T>, b: seq<T>)
    requires IsSubseq(a, b)
    ensures forall x :: x in a ==> x in b
    decreases |b|
  {
    if a != [] {
      if a[0] == b[0] {
        SubseqMembers(a[1..], b[1..]);
        assert forall x :: x in a ==> x == a[0] || x in a[1..];
      } else {
        SubseqMembers(a, b[1..]);
      }
    }
  }

  /** Extending both sequences by the same last element. */
  lemma {:induction false} SubseqSnoc<T>(a: seq<T>, b: seq<T>, y: T)
    requires IsSubseq(a, b)
    ensures IsSubseq(a + [y], b + [y])
    decreases |b|
  {
    if a == [] {
      SubseqRefl([y]);
      assert (b + [y])[|b|..] == [y] && a + [y] == [y];
      SubseqSuffix([y], b + [y], |b|);
    } else if a[0] == b[0] {
      assert (a + [y])[1..] == a[1..] + [y] && (b + [y])[1..] == b[1..] + [y];
      SubseqSnoc(a[1..], b[1..], y);
    } else {
      assert (b + [y])[1..] == b[1..] + [y];
      SubseqSnoc(a, b[1..], y);
    }
  }

  /** Extending only the longer sequence. */
  lemma {:induction false} SubseqExtend<T>(a: seq<T>, b: seq<T>, y: T)
    requires IsSubseq(a, b)
    ensures IsSubseq(a, b + [y])
    decreases |b|
  {
    if a != [] {
      assert (b + [y])[1..] == b[1..] + [y];
      if a[0] == b[0] {
        SubseqExtend(a[1..], b[1..], y);
      } else {
        SubseqExtend(a, b[1..], y);
      }
    }
  }

  /** The index of the first occurrence of `x` in `s`, or `|s|` when there is none. */
  function FirstIndex<T(==)>(s: seq<T>, x: T): (k: nat)
    ensures k <= |s| && (k < |s| <==> x in s)
    ensures forall j :: 0 <= j < k ==> s[j] != x
    ensures k < |s| ==> s[k] == x
  {
    if s == [] then 0 else if s[0] == x then 0 else 1 + FirstIndex(s[1..], x)
  }

  /** Appending an element does not move the first occurrence of anything already present. */
  lemma FirstIndexSnoc<T>(s: seq<T>, y: T, x: T)
    ensures x in s ==> FirstIndex(s + [y], x) == FirstIndex(s, x)
    ensures x !in s ==> FirstIndex(s + [x], x) == |s|
  {
    var t := s + [y];
    if x in s {
      var p, q := FirstIndex(s, x), FirstIndex(t, x);
      assert t[p] == x;
      assert q < |s| ==> s[q] == x;
    } else {
      var q := FirstIndex(s + [x], x);
      assert q == |s| by {
        assert (s + [x])[|s|] == x;
      }
    }
  }
}

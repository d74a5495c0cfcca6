/** Sequence helpers shared by the modules: order-keeping filters, the
    interleaving relation that states "a partition that keeps input order",
    and concatenation of a list of lists. */
module Seqs {

  /** `a` is `s` with some elements left out, the rest in their order. */
  predicate Subsequence<T(==)>(a: seq<T>, s: seq<T>)
    decreases |s|
  {
    a == [] ||
    (s != [] && ((a[0] == s[0] && Subsequence(a[1..], s[1..])) || Subsequence(a, s[1..])))
  }

  /** Every element of a subsequence of `s` is an element of `s`. */
  lemma {:induction false} SubsequenceMember<T>(a: seq<T>, s: seq<T>, i: nat)
    requires Subsequence(a, s) && i < |a|
    ensures a[i] in s
    decreases |s|
  {
    if a[0] == s[0] && Subsequence(a[1..], s[1..]) {
      if i > 0 {
        SubsequenceMember(a[1..], s[1..], i - 1);
      }
    } else {
      SubsequenceMember(a, s[1..], i);
    }
  }

  /** The elements of `s` that satisfy `p`, in their original order. */
  function Filter<T(==)>(p: T -> bool, s: seq<T>): (r: seq<T>)
    ensures Subsequence(r, s)
    ensures forall i :: 0 <= i < |r| ==> r[i] in s && p(r[i])
    ensures forall i :: 0 <= i < |s| && p(s[i]) ==> s[i] in r
  {
    if s == [] then []
    else if p(s[0]) then [s[0]] + Filter(p, s[1..])
    else Filter(p, s[1..])
  }

  /** The filter keeps every copy of a value that satisfies `p` and no copy
      of one that does not. */
  lemma {:induction false} FilterCounts<T(!new)>(p: T -> bool, s: seq<T>)
    ensures forall x :: multiset(Filter(p, s))[x] == if p(x) then multiset(s)[x] else 0
  {
    if s != [] {
      FilterCounts(p, s[1..]);
      assert s == [s[0]] + s[1..];
    }
  }

  /** `s` is an interleaving of `a` and `b`: every element of `s` is taken,
      front to back, from the front of exactly one of `a` and `b`. */
  predicate Interleaving<T(==)>(s: seq<T>, a: seq<T>, b: seq<T>)
    decreases |s|
  {
    if s == [] then a == [] && b == []
    else
      (a != [] && a[0] == s[0] && Interleaving(s[1..], a[1..], b)) ||
      (b != [] && b[0] == s[0] && Interleaving(s[1..], a, b[1..]))
  }

  /** The elements satisfying `p` and those that do not, each in their
      original order: their interleaving is `s` itself, so nothing is lost,
      duplicated or reordered. */
  function Partition<T>(p: T -> bool, s: seq<T>): (r: (seq<T>, seq<T>))
    ensures Interleaving(s, r.0, r.1)
    ensures forall i :: 0 <= i < |r.0| ==> p(r.0[i])
    ensures forall i :: 0 <= i < |r.1| ==> !p(r.1[i])
  {
    if s == [] then ([], [])
    else
      var rest := Partition(p, s[1..]);
      if p(s[0]) then
        assert ([s[0]] + rest.0)[1..] == rest.0;
        ([s[0]] + rest.0, rest.1)
      else
        assert ([s[0]] + rest.1)[1..] == rest.1;
        (rest.0, [s[0]] + rest.1)
  }

  /** When every element satisfies `p`, all of `s` goes to the first side. */
  lemma {:induction false} PartitionAll<T>(p: T -> bool, s: seq<T>)
    requires forall i :: 0 <= i < |s| ==> p(s[i])
    ensures Partition(p, s) == (s, [])
  {
    if s != [] {
      PartitionAll(p, s[1..]);
      assert [s[0]] + s[1..] == s;
    }
  }

  /** When no element satisfies `p`, all of `s` goes to the second side. */
  lemma {:induction false} PartitionNone<T>(p: T -> bool, s: seq<T>)
    requires forall i :: 0 <= i < |s| ==> !p(s[i])
    ensures Partition(p, s) == ([], s)
  {
    if s != [] {
      PartitionNone(p, s[1..]);
      assert [s[0]] + s[1..] == s;
    }
  }

  /** An interleaving takes every element once: lengths and multisets add up. */
  lemma {:induction false} InterleavingCounts<T>(s: seq<T>, a: seq<T>, b: seq<T>)
    requires Interleaving(s, a, b)
    ensures |a| + |b| == |s|
    ensures multiset(a) + multiset(b) == multiset(s)
    decreases |s|
  {
    if s != [] {
      assert s == [s[0]] + s[1..];
      if a != [] && a[0] == s[0] && Interleaving(s[1..], a[1..], b) {
        InterleavingCounts(s[1..], a[1..], b);
        assert a == [a[0]] + a[1..];
      } else {
        InterleavingCounts(s[1..], a, b[1..]);
        assert b == [b[0]] + b[1..];
      }
    }
  }

  /** The lists of `ls` one after the other. */
  function Concat<T>(ls: seq<seq<T>>): seq<T>
  {
    if ls == [] then [] else Concat(ls[..|ls| - 1]) + ls[|ls| - 1]
  }

  /** An element of the concatenation comes from one of the lists, and every
      element of every list is in the concatenation. */
  lemma {:induction false} ConcatMember<T>(ls: seq<seq<T>>, x: T)
    ensures x in Concat(ls) <==> exists i :: 0 <= i < |ls| && x in ls[i]
  {
    if ls != [] {
      var n := |ls| - 1;
      ConcatMember(ls[..n], x);
      assert forall i :: 0 <= i < n ==> ls[..n][i] == ls[i];
    }
  }

  lemma {:induction false} ConcatAppend<T>(a: seq<seq<T>>, b: seq<seq<T>>)
    ensures Concat(a + b) == Concat(a) + Concat(b)
    decreases |b|
  {
    if b == [] {
      assert a + b == a;
    } else {
      var n := |b| - 1;
      assert (a + b)[..|a + b| - 1] == a + b[..n];
      assert (a + b)[|a + b| - 1] == b[n];
      assert Concat(a + b) == Concat(a + b[..n]) + b[n];
      ConcatAppend(a, b[..n]);
      assert Concat(b) == Concat(b[..n]) + b[n];
    }
  }

  /** Taking element `k` out of `s` takes one copy of it out of the multiset. */
  lemma MultisetRemove<T>(s: seq<T>, k: nat)
    requires k < |s|
    ensures multiset(s) == multiset(s[..k] + s[k + 1..]) + multiset{s[k]}
  {
    assert s == s[..k] + [s[k]] + s[k + 1..];
  }

  lemma MultisetCancel<T>(a: multiset<T>, b: multiset<T>, x: T)
    requires a + multiset{x} == b + multiset{x}
    ensures a == b
  {
    assert a == (a + multiset{x}) - multiset{x};
    assert b == (b + multiset{x}) - multiset{x};
  }

  lemma MultisetRegroup<T>(a: multiset<T>, b: multiset<T>, c: multiset<T>)
    ensures (a + b) + c == (a + c) + b
  {
  }

  lemma ConcatAppendMultiset<T>(a: seq<seq<T>>, b: seq<seq<T>>)
    ensures multiset(Concat(a + b)) == multiset(Concat(a)) + multiset(Concat(b))
  {
    ConcatAppend(a, b);
  }

  /** Taking list `y` out of the lists takes its elements out of the
      concatenation. */
  lemma ConcatRemove<T>(a: seq<seq<T>>, y: seq<T>, c: seq<seq<T>>)
    ensures multiset(Concat(a + [y] + c)) == multiset(Concat(a + c)) + multiset(y)
  {
    ConcatAppendMultiset(a + [y], c);
    assert multiset(Concat(a + [y])) == multiset(Concat(a)) + multiset(y) by {
      ConcatAppendMultiset(a, [y]);
      assert Concat([y]) == y by { assert [y][..0] == []; }
    }
    ConcatAppendMultiset(a, c);
    MultisetRegroup(multiset(Concat(a)), multiset(y), multiset(Concat(c)));
  }

  /** Concatenating the same lists in any order gives the same elements
      (as a multiset). */
  lemma {:induction false} ConcatMultiset<T>(xs: seq<seq<T>>, ys: seq<seq<T>>)
    requires multiset(xs) == multiset(ys)
    ensures multiset(Concat(xs)) == multiset(Concat(ys))
    decreases |xs|
  {
    if xs == [] {
      assert |ys| == |multiset(ys)| == 0;
    } else {
      var n := |xs| - 1;
      var init, last := xs[..n], xs[n];
      assert multiset(Concat(xs)) == multiset(Concat(init)) + multiset(last);
      assert last in multiset(ys) by { assert xs == init + [last]; }
      var k :| 0 <= k < |ys| && ys[k] == last;
      var a, c := ys[..k], ys[k + 1..];
      assert multiset(init) == multiset(a + c) by {
        MultisetRemove(xs, n);
        assert xs[..n] + xs[n + 1..] == init;
        MultisetRemove(ys, k);
        MultisetCancel(multiset(init), multiset(a + c), last);
      }
      ConcatMultiset(init, a + c);
      assert multiset(Concat(ys)) == multiset(Concat(a + c)) + multiset(last) by {
        assert ys == a + [last] + c;
        ConcatRemove(a, last, c);
      }
    }
  }

  /** The members of an interleaving are the members of its two parts. */
  lemma {:induction false} InterleavingMembers<T>(s: seq<T>, a: seq<T>, b: seq<T>)
    requires Interleaving(s, a, b)
    ensures forall i :: 0 <= i < |a| ==> a[i] in s
    ensures forall i :: 0 <= i < |b| ==> b[i] in s
    ensures forall i :: 0 <= i < |s| ==> s[i] in a || s[i] in b
    decreases |s|
  {
    if s != [] {
      if a != [] && a[0] == s[0] && Interleaving(s[1..], a[1..], b) {
        InterleavingMembers(s[1..], a[1..], b);
        assert forall i :: 1 <= i < |a| ==> a[i] == a[1..][i - 1];
        assert forall i :: 1 <= i < |s| ==> s[i] == s[1..][i - 1];
      } else {
        InterleavingMembers(s[1..], a, b[1..]);
        assert forall i :: 1 <= i < |b| ==> b[i] == b[1..][i - 1];
        assert forall i :: 1 <= i < |s| ==> s[i] == s[1..][i - 1];
      }
    }
  }
}

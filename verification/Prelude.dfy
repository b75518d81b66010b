/** Shared vocabulary: optional values, duplicate-free sequences, searching in text. */
module Prelude {

  datatype Option<+T> = None | Some(value: T)

  type Byte = x: int | 0 <= x < 256

  ghost predicate NoDup<T>(q: seq<T>) {
    forall i, j :: 0 <= i < j < |q| ==> q[i] != q[j]
  }

  ghost function Elements<T>(q: seq<T>): set<T> {
    set i | 0 <= i < |q| :: q[i]
  }

  ghost function Below(n: nat): (b: set<nat>)
    ensures forall i: nat :: i in b <==> i < n
  {
    if n == 0 then {} else Below(n - 1) + {n - 1}
  }

  lemma {:induction false} BelowSize(n: nat)
    ensures |Below(n)| == n
  {
    if n == 0 {
    } else {
      BelowSize(n - 1);
      assert Below(n) == Below(n - 1) + {n - 1};
    }
  }

  lemma {:induction false} NoDupSize<T>(q: seq<T>)
    requires NoDup(q)
    ensures |Elements(q)| == |q|
  {
    if |q| == 0 {
    } else {
      var init := q[..|q| - 1];
      NoDupSize(init);
      assert Elements(q) == Elements(init) + {q[|q| - 1]};
      assert q[|q| - 1] !in Elements(init);
    }
  }

  lemma SubsetSize<T>(a: set<T>, b: set<T>)
    requires a <= b
    ensures |a| <= |b|
    ensures |a| == |b| ==> a == b
  {
    assert b == a + (b - a);
    assert |b| == |a| + |b - a|;
  }

  /** A duplicate-free list of numbers below `n` that misses one of them is shorter than `n`. */
  lemma MissingOneIsShorter(q: seq<nat>, n: nat, s: nat)
    requires NoDup(q) && s < n && s !in q
    requires forall i :: 0 <= i < |q| ==> q[i] < n
    ensures |q| < n
  {
    NoDupSize(q);
    BelowSize(n);
    SubsetSize(Elements(q), Below(n) - {s});
  }

  lemma TailNoDup<T>(q: seq<T>)
    requires NoDup(q) && |q| > 0
    ensures NoDup(q[1..])
    ensures forall x :: x in q[1..] <==> x in q && x != q[0]
  {
    forall x | x in q && x != q[0]
      ensures x in q[1..]
    {
      var i :| 0 <= i < |q| && q[i] == x;
      assert q[1..][i - 1] == x;
    }
  }

  lemma SnocNoDup<T>(q: seq<T>, x: T)
    requires NoDup(q) && x !in q
    ensures NoDup(q + [x])
    ensures forall y :: y in q + [x] <==> y in q || y == x
  {
  }

  /** The position of the first `c`, or the length of `s`. */
  function Find(s: string, c: char): (p: nat)
    ensures p <= |s|
    ensures p < |s| ==> s[p] == c
  {
    if s == "" || s[0] == c then 0 else 1 + Find(s[1..], c)
  }

  lemma {:induction false} FindAt(pre: string, c: char, post: string)
    requires c !in pre
    ensures Find(pre + ([c] + post), c) == |pre|
  {
    if pre == "" {
      assert pre + ([c] + post) == [c] + post;
    } else {
      assert pre[0] in pre;
      assert forall x :: x in pre[1..] ==> x in pre;
      FindAt(pre[1..], c, post);
      assert (pre + ([c] + post))[1..] == pre[1..] + ([c] + post);
    }
  }

  lemma Regroup<T>(a: seq<T>, b: seq<T>, c: seq<T>)
    ensures a + (b + c) == (a + b) + c
  {
  }
}

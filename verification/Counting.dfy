/** Counting and summing over sequences, array slices and maps. Everything the
    statistics and the histograms claim is stated with these three notions. */
module Counting {

  /** Number of elements of s that satisfy f. */
  ghost function Count<T>(s: seq<T>, f: T -> bool): nat {
    if s == [] then 0
    else Count(s[..|s| - 1], f) + if f(s[|s| - 1]) then 1 else 0
  }

  lemma CountSnoc<T>(s: seq<T>, x: T, f: T -> bool)
    ensures Count(s + [x], f) == Count(s, f) + if f(x) then 1 else 0
  {
    assert (s + [x])[..|s|] == s;
  }

  lemma {:induction false} CountConcat<T>(s: seq<T>, t: seq<T>, f: T -> bool)
    ensures Count(s + t, f) == Count(s, f) + Count(t, f)
  {
    if t == [] {
      assert s + t == s;
    } else {
      var u, x := t[..|t| - 1], t[|t| - 1];
      assert s + t == (s + u) + [x];
      CountSnoc(s + u, x, f);
      CountConcat(s, u, f);
    }
  }

  /** A predicate that splits into two disjoint ones splits the count. */
  lemma {:induction false} CountSplit<T>(s: seq<T>, f: T -> bool, g: T -> bool, h: T -> bool)
    requires forall x | x in s :: f(x) <==> g(x) || h(x)
    requires forall x | x in s :: !(g(x) && h(x))
    ensures Count(s, f) == Count(s, g) + Count(s, h)
  {
    if s != [] {
      CountSplit(s[..|s| - 1], f, g, h);
    }
  }

  lemma {:induction false} CountNone<T>(s: seq<T>, f: T -> bool)
    requires forall x | x in s :: !f(x)
    ensures Count(s, f) == 0
  {
    if s != [] {
      CountNone(s[..|s| - 1], f);
    }
  }

  lemma {:induction false} CountSame<T>(s: seq<T>, f: T -> bool, g: T -> bool)
    requires forall x | x in s :: f(x) <==> g(x)
    ensures Count(s, f) == Count(s, g)
  {
    if s != [] {
      CountSame(s[..|s| - 1], f, g);
    }
  }

  /** a[start] + a[start + stride] + ... with n terms: a row, a column or a whole array. */
  ghost function StridedSum(a: seq<nat>, start: nat, stride: nat, n: nat): nat
    requires n > 0 ==> start + (n - 1) * stride < |a|
  {
    if n == 0 then 0
    else
      StrideStep(start, stride, n);
      StridedSum(a, start, stride, n - 1) + a[start + (n - 1) * stride]
  }

  lemma StrideStep(start: nat, stride: nat, n: nat)
    requires n > 0
    ensures n > 1 ==> start + (n - 2) * stride <= start + (n - 1) * stride
  {
    if n > 1 {
      assert (n - 1) * stride == (n - 2) * stride + stride;
    }
  }

  /** The elements of kind q that fall into bin i. */
  ghost function InBin<T>(q: T -> bool, bin: T -> nat, i: nat): T -> bool {
    x => q(x) && bin(x) == i
  }

  ghost function BelowBin<T>(q: T -> bool, bin: T -> nat, n: nat): T -> bool {
    x => q(x) && bin(x) < n
  }

  /** If the n summed cells hold the bin counts of s, their sum counts the
      elements of kind q whose bin is below n: nothing is lost, nothing is counted twice. */
  lemma {:induction false} SliceCounts<T>(
    s: seq<T>, q: T -> bool, bin: T -> nat, a: seq<nat>, start: nat, stride: nat, n: nat)
    requires n > 0 ==> start + (n - 1) * stride < |a|
    requires forall i: nat | i < n :: start + i * stride < |a| && a[start + i * stride] == Count(s, InBin(q, bin, i))
    ensures StridedSum(a, start, stride, n) == Count(s, BelowBin(q, bin, n))
  {
    if n == 0 {
      CountNone(s, BelowBin(q, bin, 0));
    } else {
      SliceCounts(s, q, bin, a, start, stride, n - 1);
      CountSplit(s, BelowBin(q, bin, n), BelowBin(q, bin, n - 1), InBin(q, bin, n - 1));
    }
  }

  /** With every element in one of the n bins the sum counts all elements of kind q. */
  lemma AllBinsCount<T>(s: seq<T>, q: T -> bool, bin: T -> nat, a: seq<nat>, start: nat, stride: nat, n: nat)
    requires n > 0 ==> start + (n - 1) * stride < |a|
    requires forall i: nat | i < n :: start + i * stride < |a| && a[start + i * stride] == Count(s, InBin(q, bin, i))
    requires forall x | x in s && q(x) :: bin(x) < n
    ensures StridedSum(a, start, stride, n) == Count(s, q)
  {
    SliceCounts(s, q, bin, a, start, stride, n);
    CountSame(s, q, BelowBin(q, bin, n));
  }

  /** Sum of f over the values of m. */
  ghost function SumBy<K, V>(m: map<K, V>, f: V -> nat): nat
    decreases |m|
  {
    if m == map[] then 0
    else
      var k :| k in m;
      f(m[k]) + SumBy(m - {k}, f)
  }

  /** Any key may be taken out first: the sum does not depend on an order of the keys. */
  lemma {:induction false} SumRemove<K, V>(m: map<K, V>, k: K, f: V -> nat)
    requires k in m
    ensures SumBy(m, f) == f(m[k]) + SumBy(m - {k}, f)
    decreases |m|
  {
    var c :| c in m && SumBy(m, f) == f(m[c]) + SumBy(m - {c}, f);
    if c != k {
      SumRemove(m - {c}, k, f);
      SumRemove(m - {k}, c, f);
      assert m - {c} - {k} == m - {k} - {c};
    }
  }

  lemma SumUpdate<K, V>(m: map<K, V>, k: K, v: V, f: V -> nat)
    ensures SumBy(m[k := v], f) + (if k in m then f(m[k]) else 0) == SumBy(m, f) + f(v)
  {
    SumRemove(m[k := v], k, f);
    assert m[k := v] - {k} == m - {k};
    if k in m {
      SumRemove(m, k, f);
    } else {
      assert m - {k} == m;
    }
  }
}

/** Folding a sequence of packets into one state per key. The statistics collector and
    the histogrammers are such folds; what they have in common is proved here once. */
module Folds {
  import opened Counting

  ghost function Fold<V, T>(start: V, ts: seq<T>, step: (V, T) -> V): V {
    if ts == [] then start else step(Fold(start, ts[..|ts| - 1], step), ts[|ts| - 1])
  }

  ghost function Filter<T>(ts: seq<T>, keep: T -> bool): (kept: seq<T>)
    ensures |kept| <= |ts| && forall t | t in kept :: t in ts && keep(t)
  {
    if ts == [] then []
    else
      var kept := Filter(ts[..|ts| - 1], keep);
      if keep(ts[|ts| - 1]) then kept + [ts[|ts| - 1]] else kept
  }

  ghost function MapSeq<S, T>(ts: seq<S>, f: S -> T): (us: seq<T>)
    ensures |us| == |ts| && forall i :: 0 <= i < |ts| ==> us[i] == f(ts[i])
  {
    seq(|ts|, (i: nat) requires i < |ts| => f(ts[i]))
  }

  lemma MapSnoc<S, T>(ts: seq<S>, t: S, f: S -> T)
    ensures MapSeq(ts + [t], f) == MapSeq(ts, f) + [f(t)]
  {
  }

  ghost function WeightOf<T>(ts: seq<T>, w: T -> nat): nat {
    if ts == [] then 0 else WeightOf(ts[..|ts| - 1], w) + w(ts[|ts| - 1])
  }

  function Lookup<K, V>(m: map<K, V>, k: K, zero: V): V {
    if k in m then m[k] else zero
  }

  ghost function HasKey<K, T>(key: T -> K, k: K): T -> bool { t => key(t) == k }

  ghost function KeyIn<K(!new), T>(key: T -> K, ks: K -> bool): T -> bool { t => ks(key(t)) }

  /** Every element updates the entry of its key; a missing entry starts as zero. */
  ghost function KeyedFold<K, V, T>(start: map<K, V>, ts: seq<T>, key: T -> K, zero: V, step: (V, T) -> V): map<K, V> {
    if ts == [] then start
    else
      var m := KeyedFold(start, ts[..|ts| - 1], key, zero, step);
      var t := ts[|ts| - 1];
      m[key(t) := step(Lookup(m, key(t), zero), t)]
  }

  lemma KeyedFoldSnoc<K, V, T>(start: map<K, V>, ts: seq<T>, t: T, key: T -> K, zero: V, step: (V, T) -> V)
    ensures
      var m := KeyedFold(start, ts, key, zero, step);
      KeyedFold(start, ts + [t], key, zero, step) == m[key(t) := step(Lookup(m, key(t), zero), t)]
  {
    assert (ts + [t])[..|ts|] == ts;
  }

  lemma FilterSnoc<T>(ts: seq<T>, t: T, keep: T -> bool)
    ensures Filter(ts + [t], keep) == if keep(t) then Filter(ts, keep) + [t] else Filter(ts, keep)
  {
    assert (ts + [t])[..|ts|] == ts;
  }

  /** However the keys interleave, each one is folded as if it were alone. */
  lemma {:induction false} KeysAreIndependent<K, V, T>(
    start: map<K, V>, ts: seq<T>, key: T -> K, zero: V, step: (V, T) -> V, k: K)
    ensures
      var m, own := KeyedFold(start, ts, key, zero, step), Filter(ts, HasKey(key, k));
      && (k in m <==> k in start || own != [])
      && Lookup(m, k, zero) == Fold(Lookup(start, k, zero), own, step)
  {
    if ts != [] {
      var before, t := ts[..|ts| - 1], ts[|ts| - 1];
      KeysAreIndependent(start, before, key, zero, step, k);
      if key(t) == k {
        var own := Filter(before, HasKey(key, k));
        assert (own + [t])[..|own|] == own;
      }
    }
  }

  /** Looking only at some keys is the same as having seen only their elements. */
  lemma {:induction false} RestrictedFold<K(!new), V, T>(
    ts: seq<T>, key: T -> K, zero: V, step: (V, T) -> V, ks: K -> bool)
    ensures
      var m := KeyedFold(map[], ts, key, zero, step);
      (map k | k in m && ks(k) :: m[k]) == KeyedFold(map[], Filter(ts, KeyIn(key, ks)), key, zero, step)
  {
    if ts != [] {
      var before, t := ts[..|ts| - 1], ts[|ts| - 1];
      RestrictedFold(before, key, zero, step, ks);
      var m := KeyedFold(map[], before, key, zero, step);
      var some := Filter(before, KeyIn(key, ks));
      if ks(key(t)) {
        assert (some + [t])[..|some|] == some;
      }
    }
  }

  /** f grows by the weight of each element, whatever the state. */
  ghost predicate Additive<V(!new), T(!new)>(f: V -> nat, zero: V, step: (V, T) -> V, w: T -> nat) {
    f(zero) == 0 && forall v, t :: f(step(v, t)) == f(v) + w(t)
  }

  /** Summed over all keys an additive counter weighs every element exactly once. */
  lemma {:induction false} AdditiveTotal<K, V(!new), T(!new)>(
    start: map<K, V>, ts: seq<T>, key: T -> K, zero: V, step: (V, T) -> V, f: V -> nat, w: T -> nat)
    requires Additive(f, zero, step, w)
    ensures SumBy(KeyedFold(start, ts, key, zero, step), f) == SumBy(start, f) + WeightOf(ts, w)
  {
    if ts != [] {
      var before, t := ts[..|ts| - 1], ts[|ts| - 1];
      AdditiveTotal(start, before, key, zero, step, f, w);
      var m := KeyedFold(start, before, key, zero, step);
      SumUpdate(m, key(t), step(Lookup(m, key(t), zero), t), f);
    }
  }

  lemma {:induction false} SumOfZeros<K, V>(m: map<K, V>, f: V -> nat)
    requires forall k | k in m :: f(m[k]) == 0
    ensures SumBy(m, f) == 0
    decreases |m|
  {
    if k :| k in m {
      SumRemove(m, k, f);
      SumOfZeros(m - {k}, f);
    }
  }

  lemma {:induction false} WeightOfConcat<T>(s: seq<T>, t: seq<T>, w: T -> nat)
    ensures WeightOf(s + t, w) == WeightOf(s, w) + WeightOf(t, w)
  {
    if t == [] {
      assert s + t == s;
    } else {
      var n := |t| - 1;
      assert (s + t)[..|s + t| - 1] == s + t[..n];
      WeightOfConcat(s, t[..n], w);
    }
  }

  lemma {:induction false} FilterConcat<T>(s: seq<T>, t: seq<T>, keep: T -> bool)
    ensures Filter(s + t, keep) == Filter(s, keep) + Filter(t, keep)
  {
    if t == [] {
      assert s + t == s;
    } else {
      var n := |t| - 1;
      assert s + t == s + t[..n] + [t[n]] && t == t[..n] + [t[n]];
      FilterSnoc(s + t[..n], t[n], keep);
      FilterSnoc(t[..n], t[n], keep);
      FilterConcat(s, t[..n], keep);
    }
  }

  /** Leaving out elements is giving them no weight. */
  lemma {:induction false} FilteredWeight<T>(ts: seq<T>, keep: T -> bool, w: T -> nat, w': T -> nat)
    requires forall t | t in ts :: w'(t) == if keep(t) then w(t) else 0
    ensures WeightOf(Filter(ts, keep), w) == WeightOf(ts, w')
  {
    if ts != [] {
      var before, t := ts[..|ts| - 1], ts[|ts| - 1];
      FilteredWeight(before, keep, w, w');
      var kept := Filter(before, keep);
      assert (kept + [t])[..|kept|] == kept;
    }
  }

  lemma {:induction false} FiltersCommute<T>(ts: seq<T>, f: T -> bool, g: T -> bool)
    ensures Filter(Filter(ts, f), g) == Filter(Filter(ts, g), f)
  {
    if ts != [] {
      var before, t := ts[..|ts| - 1], ts[|ts| - 1];
      FiltersCommute(before, f, g);
      var some, others := Filter(before, f), Filter(before, g);
      assert (some + [t])[..|some|] == some;
      assert (others + [t])[..|others|] == others;
    }
  }

  lemma {:induction false} AdditiveFold<V(!new), T(!new)>(
    ts: seq<T>, zero: V, step: (V, T) -> V, f: V -> nat, w: T -> nat)
    requires Additive(f, zero, step, w)
    ensures f(Fold(zero, ts, step)) == WeightOf(ts, w)
  {
    if ts != [] {
      AdditiveFold(ts[..|ts| - 1], zero, step, f, w);
    }
  }

  /** Part of the state that depends only on part of the elements can be folded alone. */
  lemma {:induction false} ProjectedFold<V(!new), T(!new), V', T'>(
    start: V, ts: seq<T>, step: (V, T) -> V, part: V -> V', g: T -> T', step': (V', T') -> V')
    requires forall v, t :: part(step(v, t)) == step'(part(v), g(t))
    ensures part(Fold(start, ts, step)) == Fold(part(start), MapSeq(ts, g), step')
  {
    if ts != [] {
      var before := ts[..|ts| - 1];
      ProjectedFold(start, before, step, part, g, step');
      assert MapSeq(ts, g)[..|ts| - 1] == MapSeq(before, g);
    }
  }

  lemma {:induction false} FilterAfterMap<S(!new), T>(ts: seq<S>, f: S -> T, keep: T -> bool, keep': S -> bool)
    requires forall t | t in ts :: keep'(t) <==> keep(f(t))
    ensures Filter(MapSeq(ts, f), keep) == MapSeq(Filter(ts, keep'), f)
  {
    if ts != [] {
      var before := ts[..|ts| - 1];
      FilterAfterMap(before, f, keep, keep');
      assert MapSeq(ts, f)[..|ts| - 1] == MapSeq(before, f);
    }
  }

  lemma {:induction false} WeightAfterMap<S, T>(ts: seq<S>, f: S -> T, w: T -> nat, w': S -> nat)
    requires forall t | t in ts :: w'(t) == w(f(t))
    ensures WeightOf(MapSeq(ts, f), w) == WeightOf(ts, w')
  {
    if ts != [] {
      var before := ts[..|ts| - 1];
      WeightAfterMap(before, f, w, w');
      assert MapSeq(ts, f)[..|ts| - 1] == MapSeq(before, f);
    }
  }
}

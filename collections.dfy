/** Python's insertion-ordered dict and its set, as the engine uses them.
    A dict is the sequence of its (key, value) pairs in insertion order; a
    well-formed one never holds a key twice. */
module Collections {
  import opened Results

  /** The keys of a dict, in insertion order. */
  function Keys<K, V>(d: seq<(K, V)>): (ks: seq<K>)
    ensures |ks| == |d|
    ensures forall i :: 0 <= i < |d| ==> ks[i] == d[i].0
  {
    seq(|d|, i requires 0 <= i < |d| => d[i].0)
  }

  /** `k in d` */
  predicate HasKey<K(==), V>(d: seq<(K, V)>, k: K) {
    exists i :: 0 <= i < |d| && d[i].0 == k
  }

  /** No key occurs twice, which every Python dict satisfies. */
  predicate DistinctKeys<K(==), V>(d: seq<(K, V)>) {
    forall i, j :: 0 <= i < j < |d| ==> d[i].0 != d[j].0
  }

  /** No element occurs twice, which the iteration order of a Python set satisfies. */
  predicate Distinct<T(==)>(xs: seq<T>) {
    forall i, j :: 0 <= i < j < |xs| ==> xs[i] != xs[j]
  }

  /** The position of the first pair whose key is `k`. */
  function IndexOf<K(==), V>(d: seq<(K, V)>, k: K): (r: Option<nat>)
    ensures r.Some? ==> r.value < |d| && d[r.value].0 == k
    ensures r.Some? ==> forall j :: 0 <= j < r.value ==> d[j].0 != k
    ensures r.None? <==> !HasKey(d, k)
  {
    if |d| == 0 then None
    else if d[0].0 == k then Some(0)
    else match IndexOf(d[1..], k)
      case None =>
        assert forall i :: 1 <= i < |d| ==> d[i] == d[1..][i - 1];
        None
      case Some(j) => Some(j + 1)
  }

  /** `d.get(k)`: the value stored under `k`, if any. */
  function Get<K(==), V>(d: seq<(K, V)>, k: K): (r: Option<V>)
    ensures r.Some? <==> HasKey(d, k)
    ensures DistinctKeys(d) ==> forall i :: 0 <= i < |d| && d[i].0 == k ==> r == Some(d[i].1)
  {
    match IndexOf(d, k)
    case Some(i) => Some(d[i].1)
    case None => None
  }

  /** Key `j` is in `d[k] = v` exactly when it is `k` or a key of `d`. */
  lemma PutHasKey<K(!new), V>(d: seq<(K, V)>, k: K, v: V, j: K)
    ensures HasKey(Put(d, k, v), j) <==> j == k || HasKey(d, j)
  {
    PutLaws(d, k, v);
    if j != k {
      assert Get(Put(d, k, v), j) == Get(d, j);
    } else {
      assert Get(Put(d, k, v), j) == Some(v);
    }
  }

  /** Looking up `j` in `d[k] = v` gives `v` for `k` and what `d` holds otherwise. */
  lemma PutGet<K(!new), V>(d: seq<(K, V)>, k: K, v: V, j: K)
    ensures Get(Put(d, k, v), j) == if j == k then Some(v) else Get(d, j)
  {
    PutLaws(d, k, v);
  }

  /** `d[k] = v`: replaces the value of an existing key in place, or appends a new pair. */
  function Put<K(==), V>(d: seq<(K, V)>, k: K, v: V): seq<(K, V)> {
    match IndexOf(d, k)
    case Some(i) => d[i := (k, v)]
    case None => d + [(k, v)]
  }

  /** What `d[k] = v` does to the dict: `k` now maps to `v`, every other key
      keeps its value, an existing key keeps its position, a new key is
      appended, and keys stay distinct. */
  lemma PutLaws<K(!new), V>(d: seq<(K, V)>, k: K, v: V)
    ensures Get(Put(d, k, v), k) == Some(v)
    ensures forall j :: j != k ==> Get(Put(d, k, v), j) == Get(d, j)
    ensures HasKey(d, k) ==> Keys(Put(d, k, v)) == Keys(d)
    ensures !HasKey(d, k) ==> Put(d, k, v) == d + [(k, v)]
    ensures DistinctKeys(d) ==> DistinctKeys(Put(d, k, v))
  {
    var r := Put(d, k, v);
    match IndexOf(d, k)
    case Some(i) =>
      assert Keys(r) == Keys(d);
      forall j | j != k ensures IndexOf(r, j) == IndexOf(d, j) {
        IndexOfUnderSameKeys(d, r, j);
      }
    case None =>
      assert IndexOf(r, k) == Some(|d|) by { IndexOfAppend(d, k, v, k); }
      forall j | j != k ensures IndexOf(r, j) == IndexOf(d, j) { IndexOfAppend(d, k, v, j); }
  }

  lemma {:induction false} IndexOfUnderSameKeys<K, V>(d: seq<(K, V)>, r: seq<(K, V)>, j: K)
    requires Keys(r) == Keys(d)
    ensures IndexOf(r, j) == IndexOf(d, j)
  {
    if |d| > 0 {
      assert r[0].0 == Keys(r)[0] == Keys(d)[0] == d[0].0;
      assert Keys(r[1..]) == Keys(r)[1..] == Keys(d)[1..] == Keys(d[1..]);
      IndexOfUnderSameKeys(d[1..], r[1..], j);
    } else {
      assert |r| == |Keys(r)| == 0;
    }
  }

  lemma {:induction false} IndexOfAppend<K, V>(d: seq<(K, V)>, k: K, v: V, j: K)
    requires !HasKey(d, k) || j != k
    ensures IndexOf(d + [(k, v)], j) == if HasKey(d, j) then IndexOf(d, j) else if j == k then Some(|d|) else None
  {
    if |d| > 0 {
      assert (d + [(k, v)])[1..] == d[1..] + [(k, v)];
      if d[0].0 != j {
        assert HasKey(d, j) <==> HasKey(d[1..], j) by {
          if HasKey(d, j) {
            var i :| 0 <= i < |d| && d[i].0 == j;
            assert d[1..][i - 1].0 == j;
          }
          if HasKey(d[1..], j) {
            var i :| 0 <= i < |d[1..]| && d[1..][i].0 == j;
            assert d[i + 1].0 == j;
          }
        }
        assert !HasKey(d, k) ==> !HasKey(d[1..], k) by {
          if HasKey(d[1..], k) {
            var i :| 0 <= i < |d[1..]| && d[1..][i].0 == k;
            assert d[i + 1].0 == k;
          }
        }
        IndexOfAppend(d[1..], k, v, j);
      }
    }
  }

  /** `d.pop(k, None)` on a copy: the dict without key `k`. */
  function Remove<K(==,!new), V>(d: seq<(K, V)>, k: K): (r: seq<(K, V)>)
    ensures !HasKey(r, k)
    ensures forall j :: j != k ==> Get(r, j) == Get(d, j)
    ensures DistinctKeys(d) ==> DistinctKeys(r)
    ensures forall p :: p in r ==> p in d
  {
    if |d| == 0 then []
    else
      var rest := Remove(d[1..], k);
      if d[0].0 == k then
        assert forall j :: j != k ==> Get(d, j) == Get(d[1..], j) by {
          forall j | j != k ensures Get(d, j) == Get(d[1..], j) { IndexOfTail(d, j); }
        }
        rest
      else
        var r := [d[0]] + rest;
        assert r[1..] == rest;
        assert forall j :: j != k ==> Get(r, j) == Get(d, j) by {
          forall j | j != k ensures Get(r, j) == Get(d, j) {
            if j != d[0].0 { IndexOfTail(d, j); IndexOfTail(r, j); }
          }
        }
        assert DistinctKeys(d) ==> DistinctKeys(r) by {
          if DistinctKeys(d) {
            assert DistinctKeys(d[1..]);
            forall i | 0 < i < |r| ensures r[0].0 != r[i].0 {
              assert rest[i - 1] in d[1..];
            }
          }
        }
        r
  }

  lemma IndexOfTail<K, V>(d: seq<(K, V)>, j: K)
    requires |d| > 0 && d[0].0 != j
    ensures Get(d, j) == Get(d[1..], j)
  {
  }

  /** `OrderedDict(pairs)`: inserts the pairs one by one, a repeated key
      keeping its first position and taking its last value. */
  function FromPairs<K(==,!new), V>(ps: seq<(K, V)>): (r: seq<(K, V)>)
    ensures DistinctKeys(r)
    ensures DistinctKeys(ps) ==> r == ps
  {
    if |ps| == 0 then []
    else
      var init := ps[..|ps| - 1];
      var last := ps[|ps| - 1];
      assert ps == init + [last];
      var r := Put(FromPairs(init), last.0, last.1);
      PutLaws(FromPairs(init), last.0, last.1);
      assert DistinctKeys(ps) ==> r == ps by {
        if DistinctKeys(ps) {
          assert DistinctKeys(init);
        }
      }
      r
  }

  /** A key is in `d + [p]` exactly when it is in `d` or is the key of `p`. */
  lemma HasKeyAppend<K, V>(d: seq<(K, V)>, p: (K, V), k: K)
    ensures HasKey(d + [p], k) <==> HasKey(d, k) || p.0 == k
  {
    if HasKey(d, k) {
      var i :| 0 <= i < |d| && d[i].0 == k;
      assert (d + [p])[i].0 == k;
    }
    if p.0 == k {
      assert (d + [p])[|d|].0 == k;
    }
    if HasKey(d + [p], k) {
      var i :| 0 <= i < |d + [p]| && (d + [p])[i].0 == k;
      if i < |d| { assert d[i].0 == k; }
    }
  }

  /** `k in OrderedDict(pairs)` exactly when some pair has key `k`. */
  lemma {:induction false} FromPairsHasKey<K(!new), V>(ps: seq<(K, V)>, k: K)
    ensures HasKey(FromPairs(ps), k) <==> HasKey(ps, k)
  {
    if |ps| > 0 {
      var init := ps[..|ps| - 1];
      var last := ps[|ps| - 1];
      assert ps == init + [last];
      FromPairsHasKey(init, k);
      PutHasKey(FromPairs(init), last.0, last.1, k);
      HasKeyAppend(init, last, k);
    }
  }

  /** In `OrderedDict(pairs)` a key holds the value of the last pair with that key. */
  lemma {:induction false} FromPairsGet<K(!new), V>(ps: seq<(K, V)>, i: nat)
    requires i < |ps| && forall j :: i < j < |ps| ==> ps[j].0 != ps[i].0
    ensures Get(FromPairs(ps), ps[i].0) == Some(ps[i].1)
  {
    var init := ps[..|ps| - 1];
    var last := ps[|ps| - 1];
    assert ps == init + [last];
    PutGet(FromPairs(init), last.0, last.1, ps[i].0);
    if i < |ps| - 1 {
      assert init[i] == ps[i];
      FromPairsGet(init, i);
    }
  }

  /** The keys of `d + [p]` are those of `d` followed by that of `p`. */
  lemma KeysAppend<K, V>(d: seq<(K, V)>, p: (K, V))
    ensures Keys(d + [p]) == Keys(d) + [p.0]
  {
  }

  /** `k` is among the listed keys exactly when `k in d`. */
  lemma InKeys<K, V>(d: seq<(K, V)>, k: K)
    ensures k in Keys(d) <==> HasKey(d, k)
  {
    if k in Keys(d) {
      var i :| 0 <= i < |d| && Keys(d)[i] == k;
      assert d[i].0 == k;
    }
    if HasKey(d, k) {
      var i :| 0 <= i < |d| && d[i].0 == k;
      assert Keys(d)[i] == k;
    }
  }

  /** `set(xs + [x])` is `set(xs)`, extended by `x` when it is new. */
  lemma DedupAppend<T(!new)>(xs: seq<T>, x: T)
    ensures Dedup(xs + [x]) == if x in Dedup(xs) then Dedup(xs) else Dedup(xs) + [x]
  {
    assert (xs + [x])[..|xs|] == xs;
  }

  /** The keys of `OrderedDict(pairs)` are the pairs' keys in order of first occurrence. */
  lemma {:induction false} FromPairsKeys<K(!new), V>(ps: seq<(K, V)>)
    ensures Keys(FromPairs(ps)) == Dedup(Keys(ps))
  {
    if |ps| > 0 {
      var init := ps[..|ps| - 1];
      var last := ps[|ps| - 1];
      assert ps == init + [last];
      var d := FromPairs(init);
      FromPairsKeys(init);
      KeysAppend(init, last);
      DedupAppend(Keys(init), last.0);
      PutLaws(d, last.0, last.1);
      FromPairsHasKey(init, last.0);
      InKeys(init, last.0);
      if !HasKey(d, last.0) {
        KeysAppend(d, last);
      }
    }
  }

  /** `set(xs)` listed in order of first occurrence. */
  function Dedup<T(==,!new)>(xs: seq<T>): (r: seq<T>)
    ensures Distinct(r)
    ensures forall x :: x in r <==> x in xs
    ensures Distinct(xs) ==> r == xs
  {
    if |xs| == 0 then []
    else
      var init := xs[..|xs| - 1];
      var last := xs[|xs| - 1];
      assert xs == init + [last];
      var r := Dedup(init);
      if last in r then r else r + [last]
  }
}

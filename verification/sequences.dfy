/** Sequence operations shared by the loader, the services and the chart
    script: keep-last and keep-first deduplication, a stable descending
    sort, fixed-size chunking and the arithmetic mean. */
module Sequences {
  import opened Wrappers

  function Min(a: int, b: int): int {
    if a <= b then a else b
  }

  /** The keys of `s`, position by position. */
  function KeysOf<T, K>(s: seq<T>, key: T -> K): (ks: seq<K>)
    ensures |ks| == |s| && forall i :: 0 <= i < |s| ==> ks[i] == key(s[i])
  {
    seq(|s|, i requires 0 <= i < |s| => key(s[i]))
  }

  /** No key occurs twice. */
  ghost predicate KeysDistinct<T, K>(s: seq<T>, key: T -> K) {
    forall i, j :: 0 <= i < j < |s| ==> key(s[i]) != key(s[j])
  }

  /** Position `i` holds the last occurrence of its key in `s`. */
  ghost predicate IsLastOfKey<T, K>(s: seq<T>, key: T -> K, i: nat)
    requires i < |s|
  {
    forall j :: i < j < |s| ==> key(s[j]) != key(s[i])
  }

  /** Dropping the first element shifts last-occurrence positions by one. */
  lemma LastOfKeyShift<T, K>(s: seq<T>, key: T -> K, i: nat)
    requires 1 <= i < |s|
    ensures IsLastOfKey(s, key, i) <==> IsLastOfKey(s[1..], key, i - 1)
  {
    assert forall j :: 0 <= j < |s| - 1 ==> s[1..][j] == s[j + 1];
  }

  function Shift(ix: seq<nat>): (r: seq<nat>)
    ensures |r| == |ix| && forall k :: 0 <= k < |ix| ==> r[k] == ix[k] + 1
  {
    seq(|ix|, k requires 0 <= k < |ix| => ix[k] + 1)
  }

  /** The positions of `s` that hold the last occurrence of their key,
      in increasing order (see `LastPositionsSpec`). */
  function LastPositions<T, K(==)>(s: seq<T>, key: T -> K): (ix: seq<nat>)
  {
    if s == [] then []
    else
      var shifted := Shift(LastPositions(s[1..], key));
      if key(s[0]) in KeysOf(s[1..], key) then shifted else [0] + shifted
  }

  lemma {:induction false} LastPositionsLength<T, K>(s: seq<T>, key: T -> K)
    ensures |LastPositions(s, key)| <= |s|
  {
    if s != [] {
      LastPositionsLength(s[1..], key);
    }
  }

  /** Every listed position holds the last occurrence of its key. */
  lemma {:induction false} LastPositionsSound<T, K>(s: seq<T>, key: T -> K)
    ensures forall k :: 0 <= k < |LastPositions(s, key)| ==>
              LastPositions(s, key)[k] < |s| && IsLastOfKey(s, key, LastPositions(s, key)[k])
  {
    if s != [] {
      var tail := s[1..];
      LastPositionsSound(tail, key);
      var rest := LastPositions(tail, key);
      var shifted := Shift(rest);
      forall k | 0 <= k < |rest|
        ensures shifted[k] < |s| && IsLastOfKey(s, key, shifted[k])
      {
        LastOfKeyShift(s, key, shifted[k]);
      }
      if key(s[0]) !in KeysOf(tail, key) {
        forall j | 0 < j < |s|
          ensures key(s[j]) != key(s[0])
        {
          assert KeysOf(tail, key)[j - 1] == key(s[j]);
        }
        var ix := [0] + shifted;
        assert forall k :: 1 <= k < |ix| ==> ix[k] == shifted[k - 1];
      }
    }
  }

  /** The listed positions increase. */
  lemma {:induction false} LastPositionsIncreasing<T, K>(s: seq<T>, key: T -> K)
    ensures forall k, l :: 0 <= k < l < |LastPositions(s, key)| ==>
              LastPositions(s, key)[k] < LastPositions(s, key)[l]
  {
    if s != [] {
      LastPositionsIncreasing(s[1..], key);
      var shifted := Shift(LastPositions(s[1..], key));
      var ix := [0] + shifted;
      assert forall k :: 1 <= k < |ix| ==> ix[k] == shifted[k - 1];
    }
  }

  /** Every last-occurrence position is listed. */
  lemma {:induction false} LastPositionsComplete<T, K>(s: seq<T>, key: T -> K)
    ensures forall i :: 0 <= i < |s| && IsLastOfKey(s, key, i) ==> i in LastPositions(s, key)
  {
    if s != [] {
      var tail := s[1..];
      LastPositionsComplete(tail, key);
      var rest := LastPositions(tail, key);
      var shifted := Shift(rest);
      forall i | 1 <= i < |s| && IsLastOfKey(s, key, i)
        ensures i in shifted
      {
        LastOfKeyShift(s, key, i);
        var k :| 0 <= k < |rest| && rest[k] == i - 1;
        assert shifted[k] == i;
      }
      if key(s[0]) in KeysOf(tail, key) {
        var j :| 0 <= j < |tail| && KeysOf(tail, key)[j] == key(s[0]);
        assert s[j + 1] == tail[j];
      }
    }
  }

  /** `LastPositions` lists exactly the last-occurrence positions, in
      increasing order. */
  lemma LastPositionsSpec<T, K>(s: seq<T>, key: T -> K)
    ensures forall k :: 0 <= k < |LastPositions(s, key)| ==>
              LastPositions(s, key)[k] < |s| && IsLastOfKey(s, key, LastPositions(s, key)[k])
    ensures forall k, l :: 0 <= k < l < |LastPositions(s, key)| ==>
              LastPositions(s, key)[k] < LastPositions(s, key)[l]
    ensures forall i :: 0 <= i < |s| && IsLastOfKey(s, key, i) ==> i in LastPositions(s, key)
  {
    LastPositionsSound(s, key);
    LastPositionsIncreasing(s, key);
    LastPositionsComplete(s, key);
  }

  /** pandas' `drop_duplicates(subset=key, keep="last")`: the elements that
      are the last occurrence of their key, in their original order. */
  function DedupLast<T, K(==)>(s: seq<T>, key: T -> K): (r: seq<T>)
    ensures |r| == |LastPositions(s, key)| <= |s|
    ensures forall k :: 0 <= k < |r| ==>
              LastPositions(s, key)[k] < |s| && r[k] == s[LastPositions(s, key)[k]]
    ensures KeysDistinct(r, key)
  {
    var ix := LastPositions(s, key);
    LastPositionsSpec(s, key);
    LastPositionsLength(s, key);
    seq(|ix|, k requires 0 <= k < |ix| => s[ix[k]])
  }

  /** Every key of the input survives deduplication: its last occurrence
      is kept. */
  lemma {:induction false} DedupLastKeepsEveryKey<T, K>(s: seq<T>, key: T -> K, i: nat)
    requires i < |s|
    ensures exists k :: 0 <= k < |DedupLast(s, key)| && key(DedupLast(s, key)[k]) == key(s[i])
    decreases |s| - i
  {
    var r := DedupLast(s, key);
    var ix := LastPositions(s, key);
    LastPositionsSpec(s, key);
    if IsLastOfKey(s, key, i) {
      var k :| 0 <= k < |ix| && ix[k] == i;
      assert r[k] == s[i];
    } else {
      var j :| i < j < |s| && key(s[j]) == key(s[i]);
      DedupLastKeepsEveryKey(s, key, j);
    }
  }

  /** The set of keys occurring in `s`. */
  ghost function KeySet<T, K>(s: seq<T>, key: T -> K): set<K> {
    set i | 0 <= i < |s| :: key(s[i])
  }

  lemma {:induction false} DistinctKeysCount<T, K>(s: seq<T>, key: T -> K)
    requires KeysDistinct(s, key)
    ensures |KeySet(s, key)| == |s|
  {
    if s != [] {
      var t := s[..|s| - 1];
      DistinctKeysCount(t, key);
      assert KeySet(s, key) == KeySet(t, key) + {key(s[|s| - 1])} by {
        forall i | 0 <= i < |t|
          ensures key(t[i]) == key(s[i])
        {
        }
      }
      assert key(s[|s| - 1]) !in KeySet(t, key);
    }
  }

  /** Deduplication keeps exactly one element per distinct key, so the
      result has as many elements as the input has distinct keys. */
  lemma DedupLastCount<T, K>(s: seq<T>, key: T -> K)
    ensures |DedupLast(s, key)| == |KeySet(s, key)|
  {
    var r := DedupLast(s, key);
    DistinctKeysCount(r, key);
    forall i | 0 <= i < |s|
      ensures key(s[i]) in KeySet(r, key)
    {
      DedupLastKeepsEveryKey(s, key, i);
    }
    LastPositionsSpec(s, key);
    assert KeySet(r, key) == KeySet(s, key);
  }

  /** Keep-first deduplication (insertion into a JavaScript `Set`): each
      distinct element once, at its first position. */
  function DedupFirst<T(==)>(s: seq<T>): (r: seq<T>)
    ensures forall i, j :: 0 <= i < j < |r| ==> r[i] != r[j]
    ensures forall i :: 0 <= i < |s| ==> s[i] in r
    ensures |r| <= |s|
  {
    if s == [] then []
    else
      var p := DedupFirst(s[..|s| - 1]);
      assert s == s[..|s| - 1] + [s[|s| - 1]];
      if s[|s| - 1] in p then p else p + [s[|s| - 1]]
  }

  /** Deduplication invents nothing: every kept element comes from `s`. */
  lemma {:induction false} DedupFirstFrom<T>(s: seq<T>, x: T)
    requires x in DedupFirst(s)
    ensures x in s
  {
    if s != [] {
      var init := s[..|s| - 1];
      if x in DedupFirst(init) {
        DedupFirstFrom(init, x);
        assert x in init;
      }
    }
  }

  /** Deduplicating one more element appends it unless already present. */
  lemma DedupFirstAppend<T>(s: seq<T>, x: T)
    ensures DedupFirst(s + [x]) == if x in DedupFirst(s) then DedupFirst(s) else DedupFirst(s) + [x]
  {
    assert (s + [x])[..|s|] == s;
  }

  lemma PrefixTransitive<T>(a: seq<T>, b: seq<T>, c: seq<T>)
    requires |a| <= |b| <= |c| && b[..|a|] == a && c[..|b|] == b
    ensures c[..|a|] == a
  {
    assert c[..|a|] == c[..|b|][..|a|];
  }

  /** Deduplicating a longer input only appends: the result for a prefix
      is a prefix of the result for the whole. */
  lemma {:induction false} DedupFirstPrefix<T>(s: seq<T>, n: nat)
    requires n <= |s|
    ensures |DedupFirst(s[..n])| <= |DedupFirst(s)|
    ensures DedupFirst(s[..n]) == DedupFirst(s)[..|DedupFirst(s[..n])|]
    decreases |s|
  {
    if n < |s| {
      var init := s[..|s| - 1];
      DedupFirstPrefix(init, n);
      assert init[..n] == s[..n];
      var p := DedupFirst(init);
      assert DedupFirst(s)[..|p|] == p;
      PrefixTransitive(DedupFirst(s[..n]), p, DedupFirst(s));
    } else {
      assert s[..n] == s;
    }
  }

  /** `key` never increases along `s`. */
  ghost predicate SortedDesc<T>(s: seq<T>, key: T -> real) {
    forall i, j :: 0 <= i < j < |s| ==> key(s[i]) >= key(s[j])
  }

  /** Inserts `x` before the first element whose key is not larger. */
  function InsertDesc<T(==)>(x: T, s: seq<T>, key: T -> real): (r: seq<T>)
    requires SortedDesc(s, key)
    ensures |r| == |s| + 1
    ensures forall j :: 0 <= j < |r| ==> key(r[j]) <= key(x) || (s != [] && key(r[j]) <= key(s[0]))
    ensures SortedDesc(r, key)
    ensures multiset(r) == multiset(s) + multiset{x}
  {
    if s == [] || key(s[0]) <= key(x) then
      HeadBounds(s, key);
      ConsSorted(x, s, key);
      [x] + s
    else
      var t := s[1..];
      TailSorted(s, key);
      var rest := InsertDesc(x, t, key);
      HeadBounds(s, key);
      ConsSorted(s[0], rest, key);
      ConsMultiset(s, rest, x);
      [s[0]] + rest
  }

  /** The head of a sorted sequence bounds every element. */
  lemma HeadBounds<T>(s: seq<T>, key: T -> real)
    requires SortedDesc(s, key)
    ensures forall j :: 0 < j < |s| ==> key(s[j]) <= key(s[0])
  {
  }

  lemma TailSorted<T>(s: seq<T>, key: T -> real)
    requires s != [] && SortedDesc(s, key)
    ensures SortedDesc(s[1..], key)
  {
    var t := s[1..];
    assert forall i :: 0 <= i < |t| ==> t[i] == s[i + 1];
  }

  lemma ConsMultiset<T>(s: seq<T>, rest: seq<T>, x: T)
    requires s != [] && multiset(rest) == multiset(s[1..]) + multiset{x}
    ensures multiset([s[0]] + rest) == multiset(s) + multiset{x}
  {
    assert s == [s[0]] + s[1..];
  }

  /** A head no smaller than anything after it keeps a sorted tail sorted. */
  lemma ConsSorted<T>(h: T, s: seq<T>, key: T -> real)
    requires SortedDesc(s, key)
    requires forall j :: 0 <= j < |s| ==> key(s[j]) <= key(h)
    ensures SortedDesc([h] + s, key)
    ensures forall j :: 0 <= j < |[h] + s| ==> key(([h] + s)[j]) <= key(h)
  {
    var r := [h] + s;
    assert forall j :: 1 <= j < |r| ==> r[j] == s[j - 1];
  }

  /** A stable sort by `key`, largest first: JavaScript's
      `sort((a, b) => key(b) - key(a))`. */
  function SortDesc<T(==)>(s: seq<T>, key: T -> real): (r: seq<T>)
    ensures SortedDesc(r, key)
    ensures multiset(r) == multiset(s)
  {
    if s == [] then []
    else
      assert s == [s[0]] + s[1..];
      InsertDesc(s[0], SortDesc(s[1..], key), key)
  }

  /** A permutation holds the same elements. */
  lemma PermutationIn<T>(a: seq<T>, b: seq<T>, x: T)
    requires multiset(a) == multiset(b) && x in a
    ensures x in b
  {
    assert x in multiset(a);
  }

  /** The elements of `s` satisfying `p`, in their original order. */
  function Filter<T>(s: seq<T>, p: T -> bool): (r: seq<T>)
    ensures |r| <= |s|
    ensures forall k :: 0 <= k < |r| ==> p(r[k]) && r[k] in s
  {
    if s == [] then []
    else
      var rest := Filter(s[1..], p);
      if p(s[0]) then [s[0]] + rest else rest
  }

  /** Every element of `s` satisfying `p` is kept. */
  lemma {:induction false} FilterKeeps<T>(s: seq<T>, p: T -> bool, x: T)
    requires x in s && p(x)
    ensures x in Filter(s, p)
  {
    if s[0] != x {
      assert x in s[1..];
      FilterKeeps(s[1..], p, x);
    }
  }

  /** Splitting by a predicate loses and invents nothing. */
  lemma {:induction false} FilterSplit<T>(s: seq<T>, p: T -> bool, q: T -> bool)
    requires forall x :: q(x) == !p(x)
    ensures multiset(Filter(s, p)) + multiset(Filter(s, q)) == multiset(s)
  {
    if s != [] {
      var r := s[1..];
      FilterSplit(r, p, q);
      assert multiset(s) == multiset{s[0]} + multiset(r) by {
        assert s == [s[0]] + r;
      }
      assert p(s[0]) != q(s[0]);
    }
  }

  /** The first `n` elements, or all of them: JavaScript/Python `s[:n]`. */
  function Take<T>(s: seq<T>, n: nat): (r: seq<T>)
    ensures |r| == Min(n, |s|) && r == s[..|r|]
  {
    if n <= |s| then s[..n] else s
  }

  /** The concatenation of a sequence of sequences. */
  function Flatten<T>(cs: seq<seq<T>>): seq<T> {
    if cs == [] then [] else cs[0] + Flatten(cs[1..])
  }

  /** The chunks `s[i..i+size]` for `i` in `range(0, |s|, size)`: none is
      empty or longer than `size`, and together they are `s` in order. */
  function Chunks<T>(s: seq<T>, size: nat): (cs: seq<seq<T>>)
    requires size > 0
    ensures forall k :: 0 <= k < |cs| ==> 0 < |cs[k]| <= size
    ensures Flatten(cs) == s
    decreases |s|
  {
    if s == [] then []
    else
      var n := Min(size, |s|);
      var cs := [s[..n]] + Chunks(s[n..], size);
      assert cs[1..] == Chunks(s[n..], size);
      assert s == s[..n] + s[n..];
      cs
  }

  lemma SliceOfSuffix<T>(s: seq<T>, n: nat, b: nat, e: nat)
    requires n <= |s| && b <= e <= |s| - n
    ensures s[n..][b..e] == s[n + b..n + e]
  {
  }

  lemma MulNat(a: nat, b: nat)
    ensures a * b >= 0
  {
  }

  lemma MulStep(k: nat, size: nat)
    requires k > 0
    ensures k * size == (k - 1) * size + size
  {
  }

  /** Chunk `k` is `s[k*size .. k*size+size]`, cut at the end of `s`. */
  lemma {:induction false} ChunkAt<T>(s: seq<T>, size: nat, k: nat)
    requires size > 0 && k < |Chunks(s, size)|
    ensures k * size < |s|
    ensures Chunks(s, size)[k] == s[k * size..Min(k * size + size, |s|)]
    decreases k
  {
    var n := Min(size, |s|);
    if k > 0 {
      var t := s[n..];
      var rest := Chunks(t, size);
      ChunksCons(s, size);
      assert Chunks(s[..0], size) == [];
      assert t != [] && n == size;
      ChunkAt(t, size, k - 1);
      MulNat(k - 1, size);
      ChunkAtStep(s, t, size, k);
    }
  }

  lemma ChunksCons<T>(s: seq<T>, size: nat)
    requires size > 0 && s != []
    ensures Chunks(s, size) == [s[..Min(size, |s|)]] + Chunks(s[Min(size, |s|)..], size)
  {
  }

  /** Chunk `k - 1` of `s` without its first chunk is chunk `k` of `s`. */
  lemma ChunkAtStep<T>(s: seq<T>, t: seq<T>, size: nat, k: nat)
    requires 0 < size < |s| && t == s[size..] && k > 0
    requires 0 <= (k - 1) * size < |t|
    ensures k * size < |s|
    ensures t[(k - 1) * size..Min((k - 1) * size + size, |t|)] == s[k * size..Min(k * size + size, |s|)]
  {
    var b := (k - 1) * size;
    MulStep(k, size);
    ChunkShift(|s|, size, k * size, b);
    SliceOfSuffix(s, size, b, Min(b + size, |s| - size));
  }

  /** The bounds of chunk `k` of `s` are those of chunk `k - 1` of `s`
      without its first chunk, moved by `size`. */
  lemma ChunkShift(len: nat, size: nat, a: nat, b: nat)
    requires size < len && a == b + size
    ensures Min(b + size, len - size) + size == Min(a + size, len)
  {
  }

  function Sum(xs: seq<real>): real {
    if xs == [] then 0.0 else xs[0] + Sum(xs[1..])
  }

  /** The arithmetic mean; `None` for no values. */
  function Mean(xs: seq<real>): (m: Option<real>)
    ensures m.None? <==> xs == []
  {
    if xs == [] then None else Some(Sum(xs) / |xs| as real)
  }

  lemma {:induction false} SumBounds(xs: seq<real>, lo: real, hi: real)
    requires forall i :: 0 <= i < |xs| ==> lo <= xs[i] <= hi
    ensures lo * |xs| as real <= Sum(xs) <= hi * |xs| as real
  {
    if xs != [] {
      SumBounds(xs[1..], lo, hi);
    }
  }

  /** The mean lies between any lower and upper bound of the values. */
  lemma MeanBounds(xs: seq<real>, lo: real, hi: real)
    requires xs != []
    requires forall i :: 0 <= i < |xs| ==> lo <= xs[i] <= hi
    ensures lo <= Mean(xs).value <= hi
  {
    SumBounds(xs, lo, hi);
    var n := |xs| as real;
    assert Mean(xs).value * n == Sum(xs);
  }
}

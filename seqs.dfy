/** Sequence helpers: concatenation of a list of frames, first-appearance
    de-duplication (pandas `unique`) and the ordered cartesian product
    (`itertools.product`). */
module Seqs {

  /** Concatenates a list of sequences in order (pandas `concat` of frames). */
  function Flatten<T(!new)>(ss: seq<seq<T>>): (r: seq<T>)
    ensures forall x :: x in r <==> exists i :: 0 <= i < |ss| && x in ss[i]
  {
    if ss == [] then []
    else
      var n := |ss| - 1;
      var r := Flatten(ss[..n]) + ss[n];
      assert forall x :: x in Flatten(ss[..n]) <==> exists i :: 0 <= i < n && x in ss[..n][i];
      r
  }

  lemma IndexBound(i: nat, j: nat, n: nat, m: nat)
    requires i < n && j < m
    ensures i * m + j < n * m
  {
    assert (i + 1) * m <= n * m by {
      assert n * m == (i + 1) * m + (n - i - 1) * m;
    }
  }

  /** When every part has length m, the concatenation has |ss| * m elements. */
  lemma {:induction false} FlattenLength<T(!new)>(ss: seq<seq<T>>, m: nat)
    requires forall k :: 0 <= k < |ss| ==> |ss[k]| == m
    ensures |Flatten(ss)| == |ss| * m
  {
    if ss != [] {
      var n := |ss| - 1;
      FlattenLength(ss[..n], m);
      assert |ss| * m == n * m + m;
    }
  }

  /** When every part has length m, concatenation lays part i at offset i * m. */
  lemma {:induction false} FlattenAt<T(!new)>(ss: seq<seq<T>>, m: nat, i: nat, j: nat)
    requires forall k :: 0 <= k < |ss| ==> |ss[k]| == m
    requires i < |ss| && j < m
    ensures i * m + j < |Flatten(ss)| && Flatten(ss)[i * m + j] == ss[i][j]
  {
    var n := |ss| - 1;
    var front := Flatten(ss[..n]);
    FlattenLength(ss[..n], m);
    FlattenLength(ss, m);
    if i < n {
      IndexBound(i, j, n, m);
      FlattenAt(ss[..n], m, i, j);
      assert Flatten(ss) == front + ss[n];
      assert ss[..n][i] == ss[i];
    } else {
      assert i * m + j == |front| + j;
    }
  }

  /** The values of `s` without repetitions, in order of first appearance. */
  function Unique<T(==,!new)>(s: seq<T>): (r: seq<T>)
    ensures forall x :: x in r <==> x in s
    ensures forall a, b :: 0 <= a < b < |r| ==> r[a] != r[b]
    ensures forall a, b :: 0 <= a < b < |r| ==>
      exists k :: 0 <= k < |s| && s[k] == r[a] && r[b] !in s[..k + 1]
  {
    if s == [] then []
    else
      var n := |s| - 1;
      var u := Unique(s[..n]);
      var r := if s[n] in u then u else u + [s[n]];
      assert forall a, b :: 0 <= a < b < |r| ==>
        exists k :: 0 <= k < |s| && s[k] == r[a] && r[b] !in s[..k + 1] by {
        forall a, b | 0 <= a < b < |r|
          ensures exists k :: 0 <= k < |s| && s[k] == r[a] && r[b] !in s[..k + 1]
        {
          if b < |u| {
            var k :| 0 <= k < n && s[..n][k] == u[a] && u[b] !in s[..n][..k + 1];
            assert s[..n][..k + 1] == s[..k + 1];
          } else {
            assert r[a] in s[..n];
            var k :| 0 <= k < n && s[..n][k] == r[a];
            assert s[..k + 1] == s[..n][..k + 1];
          }
        }
      }
      r
  }

  /** All pairs, the first component varying slowest. */
  function Pairs<A(!new), B(!new)>(xs: seq<A>, ys: seq<B>): seq<(A, B)>
  {
    Flatten(seq(|xs|, i requires 0 <= i < |xs| =>
      seq(|ys|, j requires 0 <= j < |ys| => (xs[i], ys[j]))))
  }

  lemma PairsLength<A(!new), B(!new)>(xs: seq<A>, ys: seq<B>)
    ensures |Pairs(xs, ys)| == |xs| * |ys|
  {
    FlattenLength(seq(|xs|, i requires 0 <= i < |xs| =>
      seq(|ys|, j requires 0 <= j < |ys| => (xs[i], ys[j]))), |ys|);
  }

  /** Pair (xs[i], ys[j]) sits at position i * |ys| + j. */
  lemma PairsAt<A(!new), B(!new)>(xs: seq<A>, ys: seq<B>, i: nat, j: nat)
    requires i < |xs| && j < |ys|
    ensures i * |ys| + j < |Pairs(xs, ys)| && Pairs(xs, ys)[i * |ys| + j] == (xs[i], ys[j])
  {
    var rows := seq(|xs|, i requires 0 <= i < |xs| =>
      seq(|ys|, j requires 0 <= j < |ys| => (xs[i], ys[j])));
    FlattenAt(rows, |ys|, i, j);
  }

  /** A pair is in the product exactly when each component is in its list. */
  lemma PairsMember<A(!new), B(!new)>(xs: seq<A>, ys: seq<B>, p: (A, B))
    ensures p in Pairs(xs, ys) <==> p.0 in xs && p.1 in ys
  {
    var rows := seq(|xs|, i requires 0 <= i < |xs| =>
      seq(|ys|, j requires 0 <= j < |ys| => (xs[i], ys[j])));
    if p.0 in xs && p.1 in ys {
      var i :| 0 <= i < |xs| && xs[i] == p.0;
      var j :| 0 <= j < |ys| && ys[j] == p.1;
      PairsAt(xs, ys, i, j);
    }
    if p in Pairs(xs, ys) {
      var i :| 0 <= i < |rows| && p in rows[i];
      var j :| 0 <= j < |ys| && rows[i][j] == p;
    }
  }
}

/**
 * The partition of the loaded documents into consecutive batches of `batchSize` documents
 * (`docs.slice(i, i + batchSize)` for `i = 0, batchSize, 2 * batchSize, ...`).
 */
module Batching {

  function Min(a: int, b: int): int {
    if a <= b then a else b
  }

  /** The batches laid end to end. */
  function Concat<T>(batches: seq<seq<T>>): seq<T> {
    if batches == [] then [] else batches[0] + Concat(batches[1..])
  }

  /** Laying out all the batches is laying out all but the last, then the last. */
  lemma {:induction false} ConcatLast<T>(batches: seq<seq<T>>)
    requires batches != []
    ensures Concat(batches) == Concat(batches[..|batches| - 1]) + batches[|batches| - 1]
    decreases |batches|
  {
    var n := |batches|;
    if n == 1 {
      assert batches[1..] == [];
      assert batches[..0] == [];
      assert batches[0] + [] == batches[0];
    } else {
      var tail := batches[1..];
      ConcatLast(tail);
      assert tail[..|tail| - 1] == batches[..n - 1][1..];
      assert tail[|tail| - 1] == batches[n - 1];
      assert batches[..n - 1][0] == batches[0];
    }
  }

  /** The batches of `docs`: a slice of `k` documents, then the batches of the rest. */
  function Batches<T>(docs: seq<T>, k: nat): (r: seq<seq<T>>)
    requires k > 0
    ensures |r| <= |docs|
    ensures r == [] <==> docs == []
    decreases |docs|
  {
    if docs == [] then [] else [docs[..Min(k, |docs|)]] + Batches(docs[Min(k, |docs|)..], k)
  }

  /** Laying the batches end to end gives back the documents, in order. */
  lemma {:induction false} BatchesConcat<T>(docs: seq<T>, k: nat)
    requires k > 0
    ensures Concat(Batches(docs, k)) == docs
    decreases |docs|
  {
    if docs != [] {
      var cut := Min(k, |docs|);
      BatchesConcat(docs[cut..], k);
      assert Batches(docs, k)[1..] == Batches(docs[cut..], k);
      assert docs[..cut] + docs[cut..] == docs;
    }
  }

  /** Every batch is non-empty and at most `k` long; all but the last are exactly `k` long. */
  lemma {:induction false} BatchesSizes<T>(docs: seq<T>, k: nat)
    requires k > 0
    ensures forall j :: 0 <= j < |Batches(docs, k)| ==> 0 < |Batches(docs, k)[j]| <= k
    ensures forall j :: 0 <= j < |Batches(docs, k)| - 1 ==> |Batches(docs, k)[j]| == k
    decreases |docs|
  {
    if docs != [] {
      var cut := Min(k, |docs|);
      var rest := Batches(docs[cut..], k);
      BatchesSizes(docs[cut..], k);
      assert Batches(docs, k) == [docs[..cut]] + rest;
      if cut < k {
        assert rest == [];
      }
    }
  }

  /** There are `ceil(|docs| / k)` batches. */
  lemma {:induction false} BatchesCount<T>(docs: seq<T>, k: nat)
    requires k > 0
    ensures |Batches(docs, k)| == (|docs| + k - 1) / k
    decreases |docs|
  {
    if docs != [] {
      var cut := Min(k, |docs|);
      BatchesCount(docs[cut..], k);
      assert |Batches(docs, k)| == 1 + |Batches(docs[cut..], k)|;
      if |docs| <= k {
        assert Batches(docs[cut..], k) == [];
        DivisionBetweenMultiples(|docs| + k - 1, k, 1);
      } else {
        DivPlusDivisor(|docs| - k + k - 1, k);
      }
    }
  }

  lemma DivisionBetweenMultiples(x: nat, k: nat, m: nat)
    requires k > 0
    requires m * k <= x < m * k + k
    ensures x / k == m
  {
    var q := x / k;
    assert x == q * k + x % k;
    if q < m {
      MultiplyMonotone(q + 1, m, k);
    } else if q > m {
      MultiplyMonotone(m + 1, q, k);
    }
  }

  lemma DivPlusDivisor(x: nat, k: nat)
    requires k > 0
    ensures (x + k) / k == x / k + 1
  {
    var q := x / k;
    assert x == q * k + x % k;
    assert (q + 1) * k == q * k + k;
    DivisionBetweenMultiples(x + k, k, q + 1);
  }

  lemma MultiplyMonotone(a: nat, b: nat, k: nat)
    requires a <= b
    ensures a * k <= b * k
  {
  }

  /** With batches of one document, batch `j` is exactly document `j`. */
  lemma {:induction false} SingletonBatches<T>(docs: seq<T>)
    ensures |Batches(docs, 1)| == |docs|
    ensures forall j :: 0 <= j < |docs| ==> Batches(docs, 1)[j] == [docs[j]]
    decreases |docs|
  {
    if docs != [] {
      SingletonBatches(docs[1..]);
      assert docs[..1] == [docs[0]];
    }
  }

  /** The batches from offset `i` on: the slice at `i`, then the batches from `i + k` on. */
  lemma BatchesFrom<T>(docs: seq<T>, k: nat, i: nat)
    requires k > 0 && i < |docs|
    ensures Batches(docs[i..], k) == [docs[i..Min(i + k, |docs|)]] + Batches(docs[Min(i + k, |docs|)..], k)
  {
    assert docs[i..][..Min(k, |docs| - i)] == docs[i..Min(i + k, |docs|)];
    assert docs[i..][Min(k, |docs| - i)..] == docs[Min(i + k, |docs|)..];
  }

  /** The batching loop of `indexGithubRepo`. */
  method MakeBatches<T>(docs: seq<T>, batchSize: nat) returns (batches: seq<seq<T>>)
    requires batchSize > 0
    ensures batches == Batches(docs, batchSize)
  {
    batches := [];
    var i := 0;
    while i < |docs|
      invariant 0 <= i
      invariant batches + Batches(docs[Min(i, |docs|)..], batchSize) == Batches(docs, batchSize)
    {
      var batch := docs[i..Min(i + batchSize, |docs|)];
      BatchesFrom(docs, batchSize, i);
      batches := batches + [batch];
      i := i + batchSize;
    }
    assert docs[Min(i, |docs|)..] == [];
  }
}

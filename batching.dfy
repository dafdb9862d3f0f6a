/**
 * The batching loop that SearchManager.UpdateContent (batches of 1000
 * sections) and OpenAIEmbeddings.CreateEmbeddings (batches of 16 texts) both
 * run: consecutive slices of the input, each of the given size except
 * possibly the last, which takes what remains.
 */
module Batching {
  import opened Text

  /** Consecutive slices of `xs` of length `size`, the last one possibly shorter. */
  function Chunks<T>(xs: seq<T>, size: nat): (r: seq<seq<T>>)
    requires size > 0
    ensures forall j :: 0 <= j < |r| ==> 0 < |r[j]| <= size
    ensures forall j :: 0 <= j < |r| - 1 ==> |r[j]| == size
    decreases |xs|
  {
    if xs == [] then []
    else if |xs| <= size then [xs]
    else
      [xs[..size]] + Chunks(xs[size..], size)
  }

  /** Concatenating the batches gives back the input. */
  lemma {:induction false} ChunksFlatten<T>(xs: seq<T>, size: nat)
    requires size > 0
    ensures Flatten(Chunks(xs, size)) == xs
    decreases |xs|
  {
    if |xs| > size {
      var rest := Chunks(xs[size..], size);
      ChunksFlatten(xs[size..], size);
      assert ([xs[..size]] + rest)[1..] == rest;
      assert xs == xs[..size] + xs[size..];
    } else if xs != [] {
      assert [xs][1..] == [];
    }
  }

  /** There are ceil(|xs| / size) batches: the last one starts below |xs| and ends at or after it. */
  lemma {:induction false} ChunkCount<T>(xs: seq<T>, size: nat)
    requires size > 0
    ensures xs == [] <==> Chunks(xs, size) == []
    ensures (|Chunks(xs, size)| - 1) * size < |xs| <= |Chunks(xs, size)| * size
    decreases |xs|
  {
    if |xs| > size {
      var n := |Chunks(xs[size..], size)|;
      ChunkCount(xs[size..], size);
      assert (n + 1) * size == n * size + size;
      assert n * size == (n - 1) * size + size;
    }
  }

  /** Element `i` of batch `j` is element `j * size + i` of the input. */
  lemma {:induction false} ChunkElement<T>(xs: seq<T>, size: nat, j: nat, i: nat)
    requires size > 0
    requires j < |Chunks(xs, size)| && i < |Chunks(xs, size)[j]|
    ensures j * size + i < |xs|
    ensures Chunks(xs, size)[j][i] == xs[j * size + i]
    decreases j
  {
    if j > 0 {
      assert |xs| > size;
      var rest := Chunks(xs[size..], size);
      assert Chunks(xs, size) == [xs[..size]] + rest;
      assert Chunks(xs, size)[j] == rest[j - 1];
      ChunkElement(xs[size..], size, j - 1, i);
      var k := (j - 1) * size + i;
      MulNext(j - 1, size);
      assert xs[size..][k] == xs[k + size];
    } else if |xs| > size {
      assert Chunks(xs, size)[0] == xs[..size];
    }
  }

  /** Element k of the input is element k % size of batch k / size. */
  lemma {:induction false} ChunkOf<T>(xs: seq<T>, size: nat, k: nat)
    requires size > 0 && k < |xs|
    ensures k / size < |Chunks(xs, size)| && k % size < |Chunks(xs, size)[k / size]|
    ensures Chunks(xs, size)[k / size][k % size] == xs[k]
    decreases k
  {
    var j, i := k / size, k % size;
    if k < size {
      DivUnique(k, size, 0, k);
      assert j == 0 && i == k;
      if |xs| > size {
        assert Chunks(xs, size)[0] == xs[..size];
      }
    } else {
      DivStep(k, size);
      var rest := Chunks(xs[size..], size);
      assert Chunks(xs, size) == [xs[..size]] + rest;
      ChunkOf(xs[size..], size, k - size);
      assert (k - size) / size == j - 1 && (k - size) % size == i;
      assert Chunks(xs, size)[j] == rest[j - 1];
      assert rest[j - 1][i] == xs[size..][k - size] == xs[k];
    }
  }

  lemma DivStep(k: nat, size: nat)
    requires 0 < size <= k
    ensures (k - size) / size == k / size - 1 && (k - size) % size == k % size
  {
    var q, r := (k - size) / size, (k - size) % size;
    DivUnique(k - size, size, q, r);
    MulNext(q, size);
    DivUnique(k, size, q + 1, r);
  }

  /** Division with remainder has one answer. */
  lemma DivUnique(k: nat, size: nat, q: nat, r: nat)
    requires size > 0 && r < size && k == q * size + r
    ensures k / size == q && k % size == r
  {
    var q', r' := k / size, k % size;
    assert k == q' * size + r';
    if q' < q {
      MulNext(q', size);
      MulMono(q' + 1, q, size);
    } else if q < q' {
      MulNext(q, size);
      MulMono(q + 1, q', size);
    }
  }

  lemma MulNext(a: nat, c: nat)
    ensures (a + 1) * c == a * c + c
  {
  }

  lemma MulMono(a: nat, b: nat, c: nat)
    requires a <= b
    ensures a * c <= b * c
  {
  }

  /** A non-empty input splits into its first batch and the batches of the rest. */
  lemma ChunksStep<T>(ys: seq<T>, size: nat, count: nat)
    requires size > 0 && ys != []
    requires count == if size < |ys| then size else |ys|
    ensures Chunks(ys, size) == [ys[..count]] + Chunks(ys[count..], size)
  {
    if |ys| <= size {
      assert ys[..count] == ys && ys[count..] == [];
    }
  }

  /** The source's loop: slices of at most `size` elements taken at i = 0, size, 2*size, ... */
  method SplitIntoBatches<T>(xs: seq<T>, size: nat) returns (batches: seq<seq<T>>)
    requires size > 0
    ensures batches == Chunks(xs, size)
  {
    batches := [];
    var i := 0;
    while i < |xs|
      invariant batches + Chunks(xs[Min(i, |xs|)..], size) == Chunks(xs, size)
      decreases |xs| - i
    {
      var count := Min(size, |xs| - i);
      var batch := xs[i..i + count];
      SplitStep(xs, size, i, count, batches);
      batches := batches + [batch];
      i := i + size;
    }
    assert xs[|xs|..] == [];
  }

  function Min(a: int, b: int): int
  {
    if a < b then a else b
  }

  /** One turn of the loop: the slice at i is the next batch, and the rest starts at i + size. */
  lemma SplitStep<T>(xs: seq<T>, size: nat, i: nat, count: nat, batches: seq<seq<T>>)
    requires size > 0 && i < |xs| && count == Min(size, |xs| - i)
    requires batches + Chunks(xs[i..], size) == Chunks(xs, size)
    ensures (batches + [xs[i..i + count]]) + Chunks(xs[Min(i + size, |xs|)..], size) == Chunks(xs, size)
  {
    ChunksStep(xs[i..], size, count);
    assert xs[i..][..count] == xs[i..i + count];
    assert xs[i..][count..] == xs[Min(i + size, |xs|)..];
    AppendAssoc(batches, [xs[i..i + count]], Chunks(xs[Min(i + size, |xs|)..], size));
  }
}

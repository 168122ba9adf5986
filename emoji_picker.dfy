/** `chunkArray`, the helper the emoji picker uses to lay a set's emoji out
    in rows (src/components/common/CustomEmojiPicker.tsx:117-123): a
    `reduce` over the indices that pushes the slice starting at every
    multiple of `size`. */
module EmojiPicker {

  function Min(a: int, b: int): int {
    if a <= b then a else b
  }

  /** The accumulator after the `reduce` callback has seen indices
      `0 .. m - 1`. With `size` zero, `i % size` is `NaN` and nothing is
      pushed. */
  function ChunkFold<T>(xs: seq<T>, size: nat, m: nat): seq<seq<T>>
    requires m <= |xs|
  {
    if m == 0 then []
    else
      var acc := ChunkFold(xs, size, m - 1);
      var i := m - 1;
      if size != 0 && i % size == 0 then acc + [xs[i..Min(|xs|, i + size)]] else acc
  }

  function ChunkArray<T>(xs: seq<T>, size: nat): seq<seq<T>> {
    ChunkFold(xs, size, |xs|)
  }

  /** The chunks laid end to end. */
  function Flatten<T>(chunks: seq<seq<T>>): seq<T> {
    if chunks == [] then [] else Flatten(chunks[..|chunks| - 1]) + chunks[|chunks| - 1]
  }

  /** The number of chunks `m` elements need: the ceiling of `m / size`. */
  function ChunkCount(m: nat, size: nat): nat
    requires size > 0
  {
    (m + size - 1) / size
  }

  // ---------------------------------------------------------------------
  // Arithmetic about the chunk count
  // ---------------------------------------------------------------------

  lemma {:induction false} MulMonotone(a: nat, b: nat, size: nat)
    requires a <= b
    ensures a * size <= b * size
    decreases b - a
  {
    if a < b {
      MulMonotone(a, b - 1, size);
      assert b * size == (b - 1) * size + size;
    }
  }

  /** A strictly larger factor gives a product at least `size` larger. */
  lemma MulStrict(a: nat, b: nat, size: nat)
    ensures a < b ==> a * size + size <= b * size
  {
    if a < b {
      MulMonotone(a + 1, b, size);
      assert (a + 1) * size == a * size + size;
    }
  }

  /** The quotient and remainder of `a` by `size` are the `q` with
      `q * size <= a < (q + 1) * size` and what is left over. */
  lemma DivUnique(a: nat, size: nat, q: nat)
    requires size > 0 && q * size <= a < q * size + size
    ensures a / size == q && a % size == a - q * size
  {
    var d: nat := a / size;
    assert a == d * size + a % size;
    MulStrict(d, q, size);
    MulStrict(q, d, size);
  }

  /** `c` chunks of `size` are needed for `m` elements exactly when they
      cover `m` and one fewer would not. */
  predicate Covers(c: nat, size: nat, m: nat) {
    && c * size >= m
    && (c > 0 ==> (c - 1) * size < m)
  }

  lemma CoversIsChunkCount(c: nat, size: nat, m: nat)
    requires size > 0 && Covers(c, size, m)
    ensures c == ChunkCount(m, size)
  {
    if c > 0 {
      assert c * size == (c - 1) * size + size;
    }
    DivUnique(m + size - 1, size, c);
  }

  /** Index `i` of the fold opens a chunk exactly when the chunks so far
      end at `i`; either way the chunks then just cover `i + 1`
      elements. */
  lemma CoversStep(c: nat, size: nat, i: nat)
    requires size > 0 && Covers(c, size, i)
    ensures i % size == 0 ==> c * size == i && (c + 1) * size == i + size && Covers(c + 1, size, i + 1)
    ensures i % size != 0 ==> Covers(c, size, i + 1)
  {
    if i % size == 0 {
      var t: nat := i / size;
      assert i == t * size;
      MulStrict(c, t, size);
      MulStrict(t, c, size);
    } else {
      DivUnique(c * size, size, c);
    }
  }

  /** Under covering chunk counts, a chunk before the last ends inside the
      array, and the last one starts inside it. */
  lemma ChunkBounds(k: nat, c: nat, size: nat, n: nat)
    requires size > 0 && Covers(c, size, n) && k < c
    ensures k * size <= n && (k + 1) * size == k * size + size
    ensures k < c - 1 ==> (k + 1) * size <= n
    ensures k == c - 1 ==> k * size < n <= k * size + size
  {
    MulMonotone(k, c - 1, size);
    if k < c - 1 {
      MulMonotone(k + 1, c - 1, size);
    }
  }

  // ---------------------------------------------------------------------
  // Properties
  // ---------------------------------------------------------------------

  /** After indices `0 .. m - 1` the chunks just cover `m` elements, and
      chunk `k` is the slice of `xs` from `k * size`, `size` long or cut at
      the end of `xs`. */
  lemma {:induction false} ChunkFoldShape<T>(xs: seq<T>, size: nat, m: nat)
    requires size > 0 && m <= |xs|
    ensures Covers(|ChunkFold(xs, size, m)|, size, m)
    ensures forall k :: 0 <= k < |ChunkFold(xs, size, m)| ==>
      k * size <= |xs| && ChunkFold(xs, size, m)[k] == xs[k * size..Min(|xs|, (k + 1) * size)]
  {
    if m > 0 {
      var i := m - 1;
      var acc := ChunkFold(xs, size, i);
      var c := |acc|;
      ChunkFoldShape(xs, size, i);
      CoversStep(c, size, i);
    }
  }

  /** `chunkArray(xs, size)` holds ⌈|xs| / size⌉ chunks, chunk `k` being
      `xs.slice(k * size, (k + 1) * size)`; an empty input gives no
      chunks. */
  lemma ChunkArrayShape<T>(xs: seq<T>, size: nat)
    requires size > 0
    ensures |ChunkArray(xs, size)| == ChunkCount(|xs|, size)
    ensures xs == [] <==> ChunkArray(xs, size) == []
    ensures forall k :: 0 <= k < |ChunkArray(xs, size)| ==>
      k * size <= |xs| && ChunkArray(xs, size)[k] == xs[k * size..Min(|xs|, (k + 1) * size)]
  {
    ChunkFoldShape(xs, size, |xs|);
    CoversIsChunkCount(|ChunkArray(xs, size)|, size, |xs|);
  }

  /** Every chunk but the last is `size` long; the last holds between one
      and `size` elements. */
  lemma ChunkSizes<T>(xs: seq<T>, size: nat)
    requires size > 0
    ensures var r := ChunkArray(xs, size);
      && (forall k :: 0 <= k < |r| - 1 ==> |r[k]| == size)
      && (|r| > 0 ==> 0 < |r[|r| - 1]| <= size)
  {
    var r := ChunkArray(xs, size);
    ChunkArrayShape(xs, size);
    ChunkFoldShape(xs, size, |xs|);
    forall k | 0 <= k < |r|
      ensures k < |r| - 1 ==> |r[k]| == size
      ensures k == |r| - 1 ==> 0 < |r[k]| <= size
    {
      ChunkBounds(k, |r|, size, |xs|);
    }
  }

  /** The first `k` chunks laid end to end are the first `k * size`
      elements, cut at the end of `xs`. */
  lemma {:induction false} FlattenPrefix<T>(xs: seq<T>, size: nat, k: nat)
    requires size > 0 && k <= |ChunkArray(xs, size)|
    ensures Flatten(ChunkArray(xs, size)[..k]) == xs[..Min(|xs|, k * size)]
  {
    var r := ChunkArray(xs, size);
    ChunkArrayShape(xs, size);
    if k > 0 {
      FlattenPrefix(xs, size, k - 1);
      assert r[..k][..k - 1] == r[..k - 1];
      assert (k - 1) * size + size == k * size;
      assert xs[..Min(|xs|, k * size)] == xs[..(k - 1) * size] + xs[(k - 1) * size..Min(|xs|, k * size)];
    }
  }

  /** Concatenating the chunks gives back the array. */
  lemma ChunksConcatenateToInput<T>(xs: seq<T>, size: nat)
    requires size > 0
    ensures Flatten(ChunkArray(xs, size)) == xs
  {
    var r := ChunkArray(xs, size);
    FlattenPrefix(xs, size, |r|);
    ChunkFoldShape(xs, size, |xs|);
    assert r[..|r|] == r;
  }

  /** With `size` zero no index is a multiple and no chunk is made. */
  lemma {:induction false} ZeroSizeGivesNoChunks<T>(xs: seq<T>, m: nat)
    requires m <= |xs|
    ensures ChunkFold(xs, 0, m) == []
  {
    if m > 0 {
      ZeroSizeGivesNoChunks(xs, m - 1);
    }
  }
}

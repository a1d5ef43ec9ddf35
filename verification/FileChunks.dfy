/** Splitting a file into chunks for upload, and hashing it chunk by chunk. */
module FileChunks {
  import opened Ecma

  /** `Blob.slice`: the end is clamped to the size. */
  function Slice(file: seq<Byte>, start: nat, end: nat): seq<Byte>
    requires start <= |file| && start <= end
  {
    file[start..if end <= |file| then end else |file|]
  }

  function Flat(chunks: seq<seq<Byte>>): seq<Byte> {
    if chunks == [] then [] else var n := |chunks| - 1; Flat(chunks[..n]) + chunks[n]
  }

  function CeilDiv(a: nat, b: nat): nat
    requires b > 0
  {
    (a + b - 1) / b
  }

  lemma CeilIs(a: nat, b: nat, k: nat)
    requires b > 0 && k * b >= a && (k == 0 || (k - 1) * b < a)
    ensures CeilDiv(a, b) == k
  {
    var r := a + b - 1 - k * b;
    if k > 0 { assert (k - 1) * b == k * b - b; }
    assert a + b - 1 == k * b + r && 0 <= r < b;
    QuotientIs(a + b - 1, b, k, r);
  }

  lemma ProductGrows(p: int, q: int, d: int)
    requires p > q && d > 0
    ensures p * d >= q * d + d
  {
    var m := p - q - 1;
    assert m * d >= 0;
    assert p * d == m * d + q * d + d;
  }

  /** Multiples of `d` are as far apart as their factors. */
  lemma FactorsCompare(p: int, q: int, d: int, pd: int, qd: int)
    requires d > 0 && pd == p * d && qd == q * d
    ensures p > q ==> pd >= qd + d
    ensures q > p ==> qd >= pd + d
  {
    if p > q { ProductGrows(p, q, d); }
    if q > p { ProductGrows(q, p, d); }
  }

  lemma QuotientIs(a: int, b: int, k: int, r: int)
    requires b > 0 && a == k * b + r && 0 <= r < b
    ensures a / b == k
  {
    FactorsCompare(k, a / b, b, a - r, a - a % b);
  }

  /** The chunks make up the file, all but the last are full, and there are as many as the size divided by theirs, rounded up. */
  method CreateFileChunks(file: seq<Byte>, chunkSize: nat) returns (chunks: seq<seq<Byte>>)
    requires chunkSize > 0
    ensures Flat(chunks) == file
    ensures |chunks| == CeilDiv(|file|, chunkSize)
    ensures forall k :: 0 <= k < |chunks| ==> 0 < |chunks[k]| <= chunkSize && (k < |chunks| - 1 ==> |chunks[k]| == chunkSize)
  {
    chunks := [];
    var current := 0;
    while current < |file|
      invariant current == |chunks| * chunkSize
      invariant |chunks| > 0 ==> current - chunkSize < |file|
      invariant Flat(chunks) == Slice(file, 0, current)
      invariant forall k :: 0 <= k < |chunks| ==>
        0 < |chunks[k]| <= chunkSize && (k < |chunks| - 1 || current <= |file| ==> |chunks[k]| == chunkSize)
      decreases |file| - current
    {
      var chunk := Slice(file, current, current + chunkSize);
      assert (chunks + [chunk])[..|chunks|] == chunks;
      assert Slice(file, 0, current) + chunk == Slice(file, 0, current + chunkSize);
      assert (|chunks| + 1) * chunkSize == current + chunkSize;
      chunks := chunks + [chunk];
      current := current + chunkSize;
    }
    if |chunks| > 0 { assert (|chunks| - 1) * chunkSize == current - chunkSize; }
    CeilIs(|file|, chunkSize, |chunks|);
  }

  // Hashing.

  const HASH_CHUNK: nat := 2 * 1024 * 1024

  /** A hash is a fold over bytes; updating it with a chunk continues the fold. */
  function Fold<H>(h: H, bytes: seq<Byte>, absorb: (H, Byte) -> H): H {
    if bytes == [] then h else var n := |bytes| - 1; absorb(Fold(h, bytes[..n], absorb), bytes[n])
  }

  lemma {:induction false} FoldConcat<H>(h: H, a: seq<Byte>, b: seq<Byte>, absorb: (H, Byte) -> H)
    ensures Fold(h, a + b, absorb) == Fold(Fold(h, a, absorb), b, absorb)
    decreases |b|
  {
    if b == [] {
      assert a + b == a;
    } else {
      var n := |b| - 1;
      assert (a + b)[..|a| + n] == a + b[..n];
      FoldConcat(h, a, b[..n], absorb);
    }
  }

  lemma NextChunk<H>(h: H, file: seq<Byte>, start: nat, end: nat, absorb: (H, Byte) -> H)
    requires start <= end <= |file|
    ensures Fold(Fold(h, file[..start], absorb), file[start..end], absorb) == Fold(h, file[..end], absorb)
  {
    FoldConcat(h, file[..start], file[start..end], absorb);
    assert file[..start] + file[start..end] == file[..end];
  }

  /** JavaScript's `Math.round(processed / size * 100)`, which rounds halves up. */
  function Percent(processed: nat, size: nat): int
    requires size > 0
  {
    (200 * processed + size) / (2 * size)
  }

  /** The percentage is the nearest whole one, and of two the greater. */
  lemma PercentIsNearest(processed: nat, size: nat)
    requires size > 0
    ensures 0 - size < 2 * (Percent(processed, size) * size - 100 * processed) <= size
  {
    var n := 200 * processed + size;
    assert n == Percent(processed, size) * (2 * size) + n % (2 * size);
    assert Percent(processed, size) * (2 * size) == 2 * (Percent(processed, size) * size);
  }

  lemma DivisionIsMonotone(a: int, b: int, d: int)
    requires a <= b && d > 0
    ensures a / d <= b / d
  {
    FactorsCompare(a / d, b / d, d, a - a % d, b - b % d);
  }

  lemma PercentIsMonotone(p: nat, q: nat, size: nat)
    requires size > 0 && p <= q <= size
    ensures 0 <= Percent(p, size) <= Percent(q, size) <= 100
  {
    DivisionIsMonotone(0, 200 * p + size, 2 * size);
    DivisionIsMonotone(200 * p + size, 200 * q + size, 2 * size);
    DivisionIsMonotone(200 * q + size, 201 * size, 2 * size);
    QuotientIs(201 * size, 2 * size, 100, size);
  }

  predicate NeverDecreases(progress: seq<int>) {
    forall i, j :: 0 <= i < j < |progress| ==> progress[i] <= progress[j]
  }

  /** How much has been read after `n` chunks. */
  function Position(n: nat, size: nat): nat {
    if n * 2_097_152 <= size then n * 2_097_152 else size
  }

  lemma NextPosition(n: nat, size: nat)
    requires Position(n, size) < size
    ensures Position(n, size) == n * 2_097_152 && Position(n + 1, size) == Min(Position(n, size) + 2_097_152, size)
  {
  }

  /** The progress that the first `n` chunks report. */
  function Shares(n: nat, size: nat): (progress: seq<int>)
    requires size > 0
    ensures |progress| == n
  {
    if n == 0 then [] else Shares(n - 1, size) + [Percent(Position(n - 1, size), size)]
  }

  lemma {:induction false} ShareAt(n: nat, size: nat, i: nat)
    requires size > 0 && i < n
    ensures Shares(n, size)[i] == Percent(Position(i, size), size)
  {
    if i < n - 1 { ShareAt(n - 1, size, i); }
  }

  lemma SharesGrow(n: nat, size: nat)
    requires size > 0 && (n == 0 || (n - 1) * 2_097_152 < size)
    ensures forall i :: 0 <= i < n ==> Shares(n, size)[i] == Percent(i * 2_097_152, size) && 0 <= Shares(n, size)[i] <= 100
    ensures NeverDecreases(Shares(n, size))
  {
    forall i | 0 <= i < n
      ensures Shares(n, size)[i] == Percent(i * 2_097_152, size) && 0 <= Shares(n, size)[i] <= 100
    {
      ShareAt(n, size, i);
      PercentIsMonotone(i * 2_097_152, i * 2_097_152, size);
    }
    forall i, j | 0 <= i < j < n ensures Shares(n, size)[i] <= Shares(n, size)[j] {
      PercentIsMonotone(i * 2_097_152, j * 2_097_152, size);
    }
  }

  /** What stands in the progress after `n` chunks, the last ones. */
  lemma WholeProgress(n: nat, size: nat)
    requires if size == 0 then n == 0 else n > 0 && (n - 1) * 2_097_152 < size <= n * 2_097_152
    ensures var progress := (if size == 0 then [] else Shares(n, size)) + [100];
            && n == CeilDiv(size, 2_097_152)
            && (forall i :: 0 <= i < n ==> size > 0 && progress[i] == Percent(i * 2_097_152, size))
            && NeverDecreases(progress) && forall i :: 0 <= i < |progress| ==> 0 <= progress[i] <= 100
  {
    CeilIs(size, 2_097_152, n);
    if size > 0 { SharesGrow(n, size); }
  }

  /** The handler of a loaded slice. */
  method OnLoadEnd<H>(file: seq<Byte>, initial: H, absorb: (H, Byte) -> H, hash: H, processedSize: nat)
    returns (hash': H, processedSize': nat)
    requires processedSize <= |file| && hash == Fold(initial, file[..processedSize], absorb)
    ensures processedSize' == Min(processedSize + 2_097_152, |file|)
    ensures hash' == Fold(initial, file[..processedSize'], absorb)
  {
    var slice := Slice(file, processedSize, processedSize + HASH_CHUNK);
    NextChunk(initial, file, processedSize, processedSize + |slice|, absorb);
    hash' := Fold(hash, slice, absorb);
    processedSize' := processedSize + |slice|;
  }

  /**
   The hash is that of the file's bytes, each absorbed once and in order, whatever the hash function. The progress never
   decreases, stays within 0 and 100 and ends with 100.
   */
  method CalculateSHA256<H>(file: seq<Byte>, initial: H, absorb: (H, Byte) -> H) returns (hash: H, progress: seq<int>)
    ensures hash == Fold(initial, file, absorb)
    ensures |progress| == CeilDiv(|file|, 2_097_152) + 1
    ensures forall i :: 0 <= i < |progress| - 1 ==> file != [] && progress[i] == Percent(i * 2_097_152, |file|)
    ensures NeverDecreases(progress)
    ensures (forall i :: 0 <= i < |progress| ==> 0 <= progress[i] <= 100) && progress[|progress| - 1] == 100
  {
    hash, progress := initial, [];
    var processedSize := 0;
    while processedSize < |file|
      invariant processedSize <= |file| && hash == Fold(initial, file[..processedSize], absorb)
      invariant processedSize == Position(|progress|, |file|)
      invariant |progress| > 0 ==> (|progress| - 1) * 2_097_152 < |file|
      invariant progress == if file == [] then [] else Shares(|progress|, |file|)
      decreases |file| - processedSize
    {
      NextPosition(|progress|, |file|);
      progress := progress + [Percent(processedSize, |file|)];
      hash, processedSize := OnLoadEnd(file, initial, absorb, hash, processedSize);
    }
    assert file[..processedSize] == file;
    WholeProgress(|progress|, |file|);
    progress := progress + [100];
  }
}

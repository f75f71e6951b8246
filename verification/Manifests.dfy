/** Image manifests: a list of hashes, one for each chunk of an image. */
module Manifests {
  import opened Bytes
  import opened DiskLayout
  import opened Utf8

  type Digest = d: bytes | |d| == 32 witness Zeros(32)

  /** The hash is any function: nothing is assumed of it, in particular not that it has no collisions. */
  type Hash = bytes -> Digest

  datatype Manifest = Manifest(name: text, totalSize: u64, chunkSize: u64, chunks: seq<Digest>)

  function Times(i: nat, n: nat): nat {
    i * n
  }

  lemma TimesNext(i: nat, n: nat)
    ensures Times(0, n) == 0 && Times(1, n) == n && Times(i + 1, n) == Times(i, n) + n
  {
  }

  /** Where chunk `i` begins, and where the last one ends. */
  function Bound(m: Manifest, i: nat): nat {
    Min(Times(i, m.chunkSize), m.totalSize)
  }

  /** `chunk_len`: every chunk is full but possibly the last. */
  function ChunkLen(m: Manifest, i: nat): int {
    Min(m.totalSize - Times(i, m.chunkSize), m.chunkSize)
  }

  /** The number of chunks is what the sizes say: the second check of `verify`. */
  predicate Consistent(m: Manifest) {
    m.chunkSize > 0 && |m.chunks| == DivCeil(m.totalSize, m.chunkSize)
  }

  lemma DivCeilBounds(a: nat, b: nat)
    requires b > 0
    ensures var n := DivCeil(a, b); a <= Times(n, b) < a + b && (n > 0 ==> Times(n - 1, b) < a)
  {
    var n := DivCeil(a, b);
    FloorBounds(a + b - 1, b);
    assert n > 0 ==> (n - 1) * b == n * b - b;
  }

  /** Only one number of chunks covers a size without an empty chunk at the end. */
  lemma DivCeilUnique(a: nat, b: nat, n: nat)
    requires b > 0 && a <= Times(n, b) && (n > 0 ==> Times(n - 1, b) < a)
    ensures n == DivCeil(a, b)
  {
    DivCeilBounds(a, b);
    var k: int := DivCeil(a, b);
    var n: int := n;
    MulMonotone(n, k - 1, b);
    MulMonotone(k, n - 1, b);
  }

  /**
   The arithmetic of a consistent manifest: no chunk is empty or longer than the chunk size, no start passes the end
   of the image, and each chunk ends where the next begins, the last at the total size.
   */
  lemma ChunkArithmetic(m: Manifest, i: nat)
    requires Consistent(m) && i <= |m.chunks|
    ensures i < |m.chunks| ==>
              && Times(i, m.chunkSize) < m.totalSize && Bound(m, i) == Times(i, m.chunkSize)
              && 0 < ChunkLen(m, i) <= m.chunkSize && Bound(m, i) + ChunkLen(m, i) == Bound(m, i + 1)
    ensures i == |m.chunks| ==> Bound(m, i) == m.totalSize
  {
    DivCeilBounds(m.totalSize, m.chunkSize);
    MulMonotone(i, |m.chunks| - 1, m.chunkSize);
    assert Times(i + 1, m.chunkSize) == Times(i, m.chunkSize) + m.chunkSize;
  }

  function SumOfLengths(m: Manifest, k: nat): int {
    if k == 0 then 0 else SumOfLengths(m, k - 1) + ChunkLen(m, k - 1)
  }

  /** The chunk lengths add up to the size of the image. */
  lemma {:induction false} LengthsAddUp(m: Manifest, k: nat)
    requires Consistent(m) && k <= |m.chunks|
    ensures SumOfLengths(m, k) == Bound(m, k)
    ensures k == |m.chunks| ==> SumOfLengths(m, k) == m.totalSize
  {
    hide Consistent, Times;
    ChunkArithmetic(m, k);
    if k > 0 {
      LengthsAddUp(m, k - 1);
      ChunkArithmetic(m, k - 1);
    } else {
      TimesNext(0, m.chunkSize);
    }
  }

  // ---------------------------------------------------------------- building

  /** The slices of `data.chunks(n)`. */
  function Pieces(data: bytes, n: nat): seq<bytes>
    requires n > 0
    decreases |data|
  {
    if data == [] then [] else if |data| <= n then [data] else [data[..n]] + Pieces(data[n..], n)
  }

  function Hashes(h: Hash, ps: seq<bytes>): (r: seq<Digest>)
    ensures |r| == |ps| && forall i :: 0 <= i < |ps| ==> r[i] == h(ps[i])
  {
    if ps == [] then [] else [h(ps[0])] + Hashes(h, ps[1..])
  }

  /** `build`: refuses a chunk size of zero. */
  function Build(h: Hash, name: text, data: bytes, chunkSize: u64): Option<Manifest>
    requires |data| < U64
  {
    if chunkSize == 0 then None
    else Some(Manifest(name, |data|, chunkSize, Hashes(h, Pieces(data, chunkSize))))
  }

  lemma {:induction false} PiecesAt(data: bytes, n: nat, i: nat)
    requires n > 0
    ensures var k := |Pieces(data, n)|;
            && |data| <= Times(k, n) && (k > 0 ==> Times(k - 1, n) < |data|)
            && (i < k ==> Times(i, n) < |data| && Pieces(data, n)[i] == data[Times(i, n)..Min(Times(i + 1, n), |data|)])
    decreases |data|
  {
    hide Times;
    var ps := Pieces(data, n);
    TimesNext(i, n);
    if |data| > n {
      var rest := data[n..];
      PiecesAt(rest, n, if i == 0 then 0 else i - 1);
      var k := |ps| - 1;
      TimesNext(k, n);
      if k > 0 {
        TimesNext(k - 1, n);
      }
      if 0 < i < |ps| {
        TimesNext(i - 1, n);
        assert ps[i] == Pieces(rest, n)[i - 1];
      }
    }
  }

  /** A chunk of the image a manifest was built from. */
  function ImageChunk(m: Manifest, image: bytes, i: nat): bytes
    requires |image| == m.totalSize && Bound(m, i) <= Bound(m, i + 1)
  {
    image[Bound(m, i)..Bound(m, i + 1)]
  }

  ghost predicate BuiltFrom(h: Hash, m: Manifest, image: bytes) {
    && Consistent(m) && |image| == m.totalSize
    && forall i :: 0 <= i < |m.chunks| ==>
         Bound(m, i) <= Bound(m, i + 1) && m.chunks[i] == h(ImageChunk(m, image, i))
  }

  /** A built manifest is consistent, and describes the data chunk by chunk. */
  lemma BuildIsConsistent(h: Hash, name: text, data: bytes, chunkSize: u64)
    requires |data| < U64
    ensures Build(h, name, data, chunkSize).None? <==> chunkSize == 0
    ensures chunkSize > 0 ==>
              var m := Build(h, name, data, chunkSize).value;
              m.name == name && m.chunkSize == chunkSize && BuiltFrom(h, m, data)
  {
    if chunkSize > 0 {
      hide Times, Pieces, Hashes, DivCeil;
      var m := Build(h, name, data, chunkSize).value;
      var ps := Pieces(data, chunkSize);
      PiecesAt(data, chunkSize, 0);
      DivCeilUnique(|data|, chunkSize, |ps|);
      forall i | 0 <= i < |m.chunks|
        ensures Bound(m, i) <= Bound(m, i + 1) && m.chunks[i] == h(ImageChunk(m, data, i))
      {
        PiecesAt(data, chunkSize, i);
        ChunkArithmetic(m, i);
        assert ps[i] == ImageChunk(m, data, i);
      }
    }
  }
}

/** The canonical byte string of a manifest, which is what gets signed. */
module ImageCodec {
  import opened Bytes
  import opened DiskLayout
  import opened Manifests
  import opened Utf8

  const MAGIC: bytes := [0x53, 0x41, 0x52, 0x41, 0x49, 0x4D, 0x47, 0x31]
  const MAX_NAME: nat := 256
  const MAX_CHUNKS: nat := 65536

  datatype Error =
    | Truncated
    | BadMagic
    | NameTooLong(length: nat)
    | BadUtf8
    | ZeroChunkSize
    | TooManyChunks(count: nat)
    | Trailing(extra: nat)

  datatype Result = Decoded(manifest: Manifest) | Rejected(error: Error)

  /** What the decoder takes. */
  predicate InLimits(m: Manifest) {
    |m.name| <= MAX_NAME && m.chunkSize > 0 && |m.chunks| <= MAX_CHUNKS
  }

  /** What the fields for the two lengths hold without loss. The encoder does not check it. */
  predicate FieldsHold(m: Manifest) {
    |m.name| < U16 && |m.chunks| < U32
  }

  function Join(chunks: seq<Digest>): (b: bytes)
    ensures |b| == 32 * |chunks|
  {
    if chunks == [] then [] else chunks[0] + Join(chunks[1..])
  }

  function Split(b: bytes): (chunks: seq<Digest>)
    requires |b| % 32 == 0
    ensures 32 * |chunks| == |b|
    decreases |b|
  {
    if b == [] then [] else [b[..32]] + Split(b[32..])
  }

  function EncodeSizes(m: Manifest): (b: bytes)
    ensures |b| == 20 + 32 * |m.chunks|
  {
    Le(m.totalSize, 8) + Le(m.chunkSize, 8) + Le(|m.chunks|, 4) + Join(m.chunks)
  }

  function Encode(m: Manifest): (b: bytes)
    ensures |b| == 30 + |m.name| + 32 * |m.chunks|
  {
    MAGIC + Le(|m.name|, 2) + m.name + EncodeSizes(m)
  }

  /** What decoding answers, with the first check that fails. */
  function Decode(b: bytes): Result {
    if |b| < 8 then Rejected(Truncated)
    else if b[..8] != MAGIC then Rejected(BadMagic)
    else if |b| < 10 then Rejected(Truncated)
    else
      var n := FromLe(b[8..10]);
      if n > MAX_NAME then Rejected(NameTooLong(n))
      else if |b| < 10 + n then Rejected(Truncated)
      else if !Valid(b[10..10 + n]) then Rejected(BadUtf8)
      else DecodeSizes(b[10..10 + n], b[10 + n..])
  }

  function DecodeSizes(name: text, b: bytes): Result {
    if |b| < 16 then Rejected(Truncated)
    else
      PowersOf256();
      var totalSize, chunkSize := FromLe(b[..8]), FromLe(b[8..16]);
      if chunkSize == 0 then Rejected(ZeroChunkSize)
      else if |b| < 20 then Rejected(Truncated)
      else
        var n := FromLe(b[16..20]);
        if n > MAX_CHUNKS then Rejected(TooManyChunks(n))
        else if |b| < 20 + 32 * n then Rejected(Truncated)
        else if |b| > 20 + 32 * n then Rejected(Trailing(|b| - 20 - 32 * n))
        else Decoded(Manifest(name, totalSize, chunkSize, Split(b[20..])))
  }

  // ---------------------------------------------------------------- a bijection

  lemma {:induction false} SplitJoin(chunks: seq<Digest>)
    ensures Split(Join(chunks)) == chunks
    decreases |chunks|
  {
    if chunks != [] {
      assert Join(chunks)[..32] == chunks[0] && Join(chunks)[32..] == Join(chunks[1..]);
      SplitJoin(chunks[1..]);
    }
  }

  lemma {:induction false} JoinSplit(b: bytes)
    requires |b| % 32 == 0
    ensures Join(Split(b)) == b
    decreases |b|
  {
    if b != [] {
      JoinSplit(b[32..]);
    }
  }

  lemma SizesRoundTrip(name: text, m: Manifest)
    requires InLimits(m) && m.name == name
    ensures DecodeSizes(name, EncodeSizes(m)) == Decoded(m)
  {
    hide Le, FromLe, Join, Split, Pow256;
    PowersOf256();
    LeRoundTrip(m.totalSize, 8);
    LeRoundTrip(m.chunkSize, 8);
    LeRoundTrip(|m.chunks|, 4);
    SplitJoin(m.chunks);
    var b := EncodeSizes(m);
    assert b[..8] == Le(m.totalSize, 8) && b[8..16] == Le(m.chunkSize, 8) && b[16..20] == Le(|m.chunks|, 4);
    assert b[20..] == Join(m.chunks);
  }

  /** What was encoded within the limits is decoded. */
  lemma DecodeEncode(m: Manifest)
    requires InLimits(m)
    ensures Decode(Encode(m)) == Decoded(m)
  {
    hide Le, FromLe, Pow256, EncodeSizes, DecodeSizes, Valid;
    PowersOf256();
    LeRoundTrip(|m.name|, 2);
    SizesRoundTrip(m.name, m);
    var b, n := Encode(m), |m.name|;
    assert b[..8] == MAGIC && b[8..10] == Le(n, 2) && b[10..10 + n] == m.name && b[10 + n..] == EncodeSizes(m);
  }

  lemma EncodeDecodeSizes(name: text, b: bytes)
    requires DecodeSizes(name, b).Decoded?
    ensures var m := DecodeSizes(name, b).manifest;
            EncodeSizes(m) == b && m.name == name && m.chunkSize > 0 && |m.chunks| <= MAX_CHUNKS
  {
    hide Le, FromLe, Join, Split, Pow256;
    PowersOf256();
    FromLeRoundTrip(b[..8]);
    FromLeRoundTrip(b[8..16]);
    FromLeRoundTrip(b[16..20]);
    JoinSplit(b[20..]);
    assert b == b[..8] + b[8..16] + b[16..20] + b[20..];
  }

  /** Only the encoding of a manifest decodes to it: no two byte strings denote one manifest. */
  lemma EncodeDecode(b: bytes)
    requires Decode(b).Decoded?
    ensures InLimits(Decode(b).manifest) && Encode(Decode(b).manifest) == b
  {
    hide Le, FromLe, Pow256, EncodeSizes, DecodeSizes, Valid;
    var n := FromLe(b[8..10]);
    FromLeRoundTrip(b[8..10]);
    EncodeDecodeSizes(b[10..10 + n], b[10 + n..]);
    assert b == b[..8] + b[8..10] + b[10..10 + n] + b[10 + n..];
  }

  /** Encoding can be undone exactly within the limits. */
  lemma RoundTripIff(m: Manifest)
    ensures Decode(Encode(m)) == Decoded(m) <==> |m.name| <= 256 && m.chunkSize > 0 && |m.chunks| <= 65536
  {
    if InLimits(m) {
      DecodeEncode(m);
    } else if Decode(Encode(m)).Decoded? {
      EncodeDecode(Encode(m));
    }
  }

  // ---------------------------------------------------------------- sharing an encoding

  /** Two manifests of one shape, with names of one length and as many chunks, are told apart by every field. */
  lemma FieldsTellApart(a: Manifest, b: Manifest)
    requires Encode(a) == Encode(b) && |a.name| == |b.name|
    ensures a == b
  {
    hide Le, FromLe, Join, Pow256;
    PowersOf256();
    var x, y, n := Encode(a), Encode(b), |a.name|;
    assert a.name == x[10..10 + n] == y[10..10 + n] == b.name;
    assert Le(a.totalSize, 8) == x[10 + n..18 + n] == y[10 + n..18 + n] == Le(b.totalSize, 8);
    assert Le(a.chunkSize, 8) == x[18 + n..26 + n] == y[18 + n..26 + n] == Le(b.chunkSize, 8);
    assert Join(a.chunks) == x[30 + n..] == y[30 + n..] == Join(b.chunks);
    LeRoundTrip(a.totalSize, 8);
    LeRoundTrip(b.totalSize, 8);
    LeRoundTrip(a.chunkSize, 8);
    LeRoundTrip(b.chunkSize, 8);
    SplitJoin(a.chunks);
    SplitJoin(b.chunks);
  }

  /** What one field of the encoding says of the length of the name. */
  lemma NameField(a: Manifest, b: Manifest)
    requires Encode(a)[8..10] == Encode(b)[8..10]
    ensures |a.name| % U16 == |b.name| % U16
  {
    hide Le, EncodeSizes;
    assert Encode(a)[8..10] == Le(|a.name|, 2) && Encode(b)[8..10] == Le(|b.name|, 2);
    EqualLengthFields(|a.name|, |b.name|);
  }

  /**
   Two different manifests with one encoding have names whose lengths differ by a multiple of 65536, one of them
   taking for its name what are hashes of the other.
   */
  lemma SharedEncoding(a: Manifest, b: Manifest)
    requires Encode(a) == Encode(b)
    ensures |a.name| % U16 == |b.name| % U16 && |a.name| - |b.name| == 32 * (|b.chunks| - |a.chunks|)
    ensures a == b <==> |a.name| == |b.name|
  {
    hide Encode;
    NameField(a, b);
    if |a.name| == |b.name| {
      FieldsTellApart(a, b);
    }
  }

  /** As long as the cast loses nothing of either name, no two manifests share an encoding. */
  lemma EncodeInjective(a: Manifest, b: Manifest)
    requires |a.name| < U16 && |b.name| < U16 && Encode(a) == Encode(b)
    ensures a == b
  {
    hide Encode;
    SharedEncoding(a, b);
  }

  /** And only as long: names of fewer than `n` bytes keep encodings apart if and only if `n` is at most 65536. */
  lemma InjectiveIff(h: Hash, n: nat)
    ensures (forall a: Manifest, b: Manifest :: |a.name| < n && |b.name| < n && Encode(a) == Encode(b) ==> a == b)
       <==> n <= U16
  {
    hide Encode;
    if n <= U16 {
      forall a: Manifest, b: Manifest | |a.name| < n && |b.name| < n && Encode(a) == Encode(b) ensures a == b {
        EncodeInjective(a, b);
      }
    } else {
      var a, b := LongNameCollides(h);
    }
  }

  /** The two length fields, which decide the length of the whole. */
  lemma LengthFields(m: Manifest)
    requires FieldsHold(m)
    ensures var b := Encode(m);
            && |b| == 30 + |m.name| + 32 * |m.chunks|
            && FromLe(b[8..10]) == |m.name| && FromLe(b[26 + |m.name|..30 + |m.name|]) == |m.chunks|
  {
    hide Le, FromLe, Pow256, Join;
    PowersOf256();
    LeRoundTrip(|m.name|, 2);
    LeRoundTrip(|m.chunks|, 4);
    var b, n := Encode(m), |m.name|;
    assert b[8..10] == Le(n, 2) && b[26 + n..30 + n] == Le(|m.chunks|, 4);
  }

  /** Where the fields hold the lengths no encoding is the beginning of another one. */
  lemma PrefixFree(a: Manifest, b: Manifest)
    requires FieldsHold(a) && FieldsHold(b) && Encode(a) <= Encode(b)
    ensures a == b
  {
    hide Encode, FromLe;
    LengthFields(a);
    LengthFields(b);
    var x, y, n := Encode(a), Encode(b), |a.name|;
    assert x[8..10] == y[8..10];
    assert x[26 + n..30 + n] == y[26 + n..30 + n];
    assert x == y;
    EncodeInjective(a, b);
  }

  /** The format, field by field: where each one is and how it reads. */
  lemma FormatOf(m: Manifest)
    requires FieldsHold(m)
    ensures var b, n := Encode(m), |m.name|;
            && |b| == 30 + n + 32 * |m.chunks|
            && (forall i :: 0 <= i < 8 ==> b[i] == "SARAIMG1"[i] as int)
            && FromLe(b[8..10]) == n && b[10..10 + n] == m.name
            && FromLe(b[10 + n..18 + n]) == m.totalSize && FromLe(b[18 + n..26 + n]) == m.chunkSize
            && FromLe(b[26 + n..30 + n]) == |m.chunks|
  {
    HeadOf(m);
    SizesOf(m);
    hide FromLe, Encode, EncodeSizes;
    var b, n := Encode(m), |m.name|;
    SizesInside(m, 0, 8, 10 + n, 18 + n);
    SizesInside(m, 8, 16, 18 + n, 26 + n);
    SizesInside(m, 16, 20, 26 + n, 30 + n);
    MagicIff(b);
  }

  /** Behind the fields come the hashes. */
  lemma FormatChunks(m: Manifest, i: nat)
    requires FieldsHold(m) && i < |m.chunks|
    ensures var b, n := Encode(m), |m.name|; b[30 + n + 32 * i..62 + n + 32 * i] == m.chunks[i]
  {
    hide Encode, EncodeSizes;
    ChunkField(m, i);
    SizesInside(m, 20 + 32 * i, 52 + 32 * i, 30 + |m.name| + 32 * i, 62 + |m.name| + 32 * i);
  }

  lemma SizesInside(m: Manifest, x: nat, y: nat, from: nat, to: nat)
    requires FieldsHold(m) && x <= y <= |EncodeSizes(m)| && from == 10 + |m.name| + x && to == 10 + |m.name| + y
    ensures Encode(m)[from..to] == EncodeSizes(m)[x..y]
  {
    hide EncodeSizes, FromLe;
    HeadOf(m);
    hide Encode;
    var b, n, e := Encode(m), |m.name|, EncodeSizes(m);
    assert b[10 + n..] == b[10 + n..10 + n + |e|];
    SliceOfSlice(b, 10 + n, |e|, x, y);
  }

  lemma ChunkField(m: Manifest, i: nat)
    requires i < |m.chunks|
    ensures EncodeSizes(m)[20 + 32 * i..52 + 32 * i] == m.chunks[i]
  {
    hide Le, Join;
    JoinAt(m.chunks, i);
    var e := EncodeSizes(m);
    assert e[20..20 + 32 * |m.chunks|] == Join(m.chunks);
    hide EncodeSizes;
    SliceOfSlice(e, 20, 32 * |m.chunks|, 32 * i, 32 * i + 32);
  }

  lemma {:induction false} JoinAt(chunks: seq<Digest>, i: nat)
    requires i < |chunks|
    ensures Join(chunks)[32 * i..32 * i + 32] == chunks[i]
    decreases i
  {
    if i > 0 {
      JoinAt(chunks[1..], i - 1);
      assert Join(chunks)[32..] == Join(chunks[1..]);
      SliceOfSlice(Join(chunks), 32, 32 * (|chunks| - 1), 32 * (i - 1), 32 * i);
      assert Join(chunks)[32..] == Join(chunks)[32..32 + 32 * (|chunks| - 1)];
    }
  }

  lemma HeadOf(m: Manifest)
    requires FieldsHold(m)
    ensures var b, n := Encode(m), |m.name|;
            && b[..8] == MAGIC && FromLe(b[8..10]) == n && b[10..10 + n] == m.name && b[10 + n..] == EncodeSizes(m)
  {
    hide Le, FromLe, Pow256, EncodeSizes;
    PowersOf256();
    LeRoundTrip(|m.name|, 2);
    assert Encode(m)[8..10] == Le(|m.name|, 2);
  }

  lemma SizesOf(m: Manifest)
    requires FieldsHold(m)
    ensures var e := EncodeSizes(m);
            FromLe(e[..8]) == m.totalSize && FromLe(e[8..16]) == m.chunkSize && FromLe(e[16..20]) == |m.chunks|
  {
    hide Le, FromLe, Pow256, Join;
    PowersOf256();
    LeRoundTrip(m.totalSize, 8);
    LeRoundTrip(m.chunkSize, 8);
    LeRoundTrip(|m.chunks|, 4);
    var e := EncodeSizes(m);
    assert e[..8] == Le(m.totalSize, 8) && e[8..16] == Le(m.chunkSize, 8) && e[16..20] == Le(|m.chunks|, 4);
  }

  /** An encoding cut short is reported as truncated, wherever it is cut. */
  lemma PrefixTruncated(m: Manifest, b: bytes)
    requires InLimits(m) && b < Encode(m)
    ensures Decode(b) == Rejected(Truncated)
  {
    hide Encode, FromLe, Valid, DecodeSizes, EncodeSizes;
    HeadOf(m);
    var e, n := Encode(m), |m.name|;
    assert b == e[..|b|];
    if |b| >= 8 {
      assert b[..8] == e[..8];
      if |b| >= 10 {
        assert b[8..10] == e[8..10];
        if |b| >= 10 + n {
          assert b[10..10 + n] == e[10..10 + n];
          assert b[10 + n..] == e[10 + n..][..|b| - 10 - n];
          SizesTruncated(m, b[10 + n..]);
        }
      }
    }
  }

  lemma SizesTruncated(m: Manifest, r: bytes)
    requires InLimits(m) && r < EncodeSizes(m)
    ensures DecodeSizes(m.name, r) == Rejected(Truncated)
  {
    hide FromLe, Split, EncodeSizes;
    SizesOf(m);
    var e := EncodeSizes(m);
    assert r == e[..|r|];
    if |r| >= 16 {
      assert r[..8] == e[..8] && r[8..16] == e[8..16];
      if |r| >= 20 {
        assert r[16..20] == e[16..20];
      }
    }
  }

  /** What follows an encoding is counted. */
  lemma ExtensionTrails(m: Manifest, b: bytes)
    requires InLimits(m) && Encode(m) < b
    ensures Decode(b) == Rejected(Trailing(|b| - |Encode(m)|))
  {
    hide Encode, FromLe, Valid, DecodeSizes, EncodeSizes;
    HeadOf(m);
    var e, n := Encode(m), |m.name|;
    assert e == b[..|e|];
    assert b[..8] == e[..8] && b[8..10] == e[8..10] && b[10..10 + n] == e[10..10 + n];
    var r := b[10 + n..];
    assert e[10 + n..] == r[..|e| - 10 - n];
    SizesTrail(m, r);
  }

  lemma SizesTrail(m: Manifest, r: bytes)
    requires InLimits(m) && EncodeSizes(m) < r
    ensures DecodeSizes(m.name, r) == Rejected(Trailing(|r| - |EncodeSizes(m)|))
  {
    hide FromLe, Split, EncodeSizes;
    SizesOf(m);
    var e := EncodeSizes(m);
    assert e == r[..|e|];
    assert r[..8] == e[..8] && r[8..16] == e[8..16] && r[16..20] == e[16..20];
  }

  /** The other refusals, each with its exact condition. */
  lemma RefusedFor(b: bytes)
    ensures var r := Decode(b);
            && (r == Rejected(BadMagic) <==> |b| >= 8 && exists i :: 0 <= i < 8 && b[i] != "SARAIMG1"[i] as int)
            && (forall k :: r == Rejected(NameTooLong(k)) <==> Named(b) && k == FromLe(b[8..10]) && k > 256)
            && (r == Rejected(BadUtf8) <==>
                  Named(b) && FromLe(b[8..10]) <= 256 && |b| >= 10 + FromLe(b[8..10])
                  && !Valid(b[10..10 + FromLe(b[8..10])]))
            && (r == Rejected(ZeroChunkSize) <==>
                  Sized(b) && FromLe(b[18 + FromLe(b[8..10])..26 + FromLe(b[8..10])]) == 0)
            && (forall k :: r == Rejected(TooManyChunks(k)) <==>
                  && Sized(b) && |b| >= 30 + FromLe(b[8..10])
                  && FromLe(b[18 + FromLe(b[8..10])..26 + FromLe(b[8..10])]) > 0
                  && k == FromLe(b[26 + FromLe(b[8..10])..30 + FromLe(b[8..10])]) && k > 65536)
  {
    hide FromLe, Valid, Split;
    MagicIff(b);
    if Named(b) && |b| >= 10 + FromLe(b[8..10]) {
      var n := FromLe(b[8..10]);
      var s := b[10 + n..];
      if |s| >= 16 {
        assert s[8..16] == b[18 + n..26 + n];
      }
      if |s| >= 20 {
        assert s[16..20] == b[26 + n..30 + n];
      }
    }
  }

  lemma MagicIff(b: bytes)
    ensures |b| >= 8 ==> (b[..8] == MAGIC <==> forall i :: 0 <= i < 8 ==> b[i] == "SARAIMG1"[i] as int)
  {
    assert forall i :: 0 <= i < 8 ==> MAGIC[i] == "SARAIMG1"[i] as int;
    if |b| >= 8 {
      assert forall i :: 0 <= i < 8 ==> b[..8][i] == b[i];
    }
  }

  /** The magic and the length of a name are there. */
  predicate Named(b: bytes) {
    |b| >= 10 && b[..8] == MAGIC
  }

  /** A well-formed name and both sizes are there. */
  predicate Sized(b: bytes) {
    Named(b) && var n := FromLe(b[8..10]); n <= 256 && |b| >= 26 + n && Valid(b[10..10 + n])
  }

  /** Cutting off the end of an encoding or adding to it makes it undecodable. */
  lemma StrictPrefixOrExtensionRejected(m: Manifest, b: bytes)
    requires FieldsHold(m) && (b < Encode(m) || Encode(m) < b)
    ensures Decode(b).Rejected?
  {
    if Decode(b).Decoded? {
      hide Encode, Decode;
      EncodeDecode(b);
      if b < Encode(m) {
        PrefixFree(Decode(b).manifest, m);
      } else {
        PrefixFree(m, Decode(b).manifest);
      }
    }
  }

  // ---------------------------------------------------------------- the encoder and the decoder

  /** Append field after field, then chunk after chunk. */
  method EncodeLoop(m: Manifest) returns (out: bytes)
    ensures out == Encode(m)
  {
    hide Le;
    out := MAGIC;
    out := out + Le(|m.name|, 2);
    out := out + m.name;
    out := out + Le(m.totalSize, 8);
    out := out + Le(m.chunkSize, 8);
    out := out + Le(|m.chunks|, 4);
    ghost var head := out;
    assert m.chunks[0..] == m.chunks;
    for i := 0 to |m.chunks|
      invariant out + Join(m.chunks[i..]) == head + Join(m.chunks)
    {
      assert m.chunks[i..][1..] == m.chunks[i + 1..];
      out := out + m.chunks[i];
    }
    assert head + Join(m.chunks) == Encode(m);
  }

  /** The next `n` bytes behind the cursor, if there are that many. */
  method Take(b: bytes, i: nat, n: nat) returns (ok: bool, s: bytes, j: nat)
    requires i <= |b|
    ensures ok <==> i + n <= |b|
    ensures ok ==> s == b[i..i + n] && j == i + n
  {
    if i + n > |b| {
      return false, [], i;
    }
    return true, b[i..i + n], i + n;
  }

  /** codec.rs: a cursor moves over the input, field by field, then chunk by chunk, and must end at its end. */
  method DecodeLoop(b: bytes) returns (r: Result)
    ensures r == Decode(b)
  {
    hide FromLe, Split, Valid, Pow256;
    PowersOf256();
    var i := 0;
    var ok, s;
    ok, s, i := Take(b, i, 8);
    if !ok { return Rejected(Truncated); }
    if s != MAGIC { return Rejected(BadMagic); }
    ok, s, i := Take(b, i, 2);
    if !ok { return Rejected(Truncated); }
    var nameLength := FromLe(s);
    if nameLength > MAX_NAME { return Rejected(NameTooLong(nameLength)); }
    ok, s, i := Take(b, i, nameLength);
    if !ok { return Rejected(Truncated); }
    if !Valid(s) { return Rejected(BadUtf8); }
    var name: text := s;
    ghost var rest := b[i..];
    ok, s, i := Take(b, i, 8);
    if !ok { return Rejected(Truncated); }
    assert s == rest[..8];
    var totalSize := FromLe(s);
    ok, s, i := Take(b, i, 8);
    if !ok { return Rejected(Truncated); }
    assert s == rest[8..16];
    var chunkSize := FromLe(s);
    if chunkSize == 0 { return Rejected(ZeroChunkSize); }
    ok, s, i := Take(b, i, 4);
    if !ok { return Rejected(Truncated); }
    assert s == rest[16..20];
    var n := FromLe(s);
    if n > MAX_CHUNKS { return Rejected(TooManyChunks(n)); }
    ghost var start := i;
    var chunks: seq<Digest> := [];
    for k := 0 to n
      invariant i == start + 32 * k <= |b| && |chunks| == k
      invariant Join(chunks) == b[start..i]
    {
      ok, s, i := Take(b, i, 32);
      if !ok { return Rejected(Truncated); }
      JoinAppend(chunks, s);
      assert b[start..i] == b[start..i - 32] + s;
      chunks := chunks + [s];
    }
    if i != |b| { return Rejected(Trailing(|b| - i)); }
    SplitJoin(chunks);
    assert b[start..i] == rest[20..];
    r := Decoded(Manifest(name, totalSize, chunkSize, chunks));
  }

  lemma {:induction false} JoinAppend(chunks: seq<Digest>, c: Digest)
    ensures Join(chunks + [c]) == Join(chunks) + c
    decreases |chunks|
  {
    if chunks == [] {
      assert chunks + [c] == [c];
      assert Join([c]) == c + Join([]);
    } else {
      assert (chunks + [c])[1..] == chunks[1..] + [c];
      JoinAppend(chunks[1..], c);
    }
  }

  // ---------------------------------------------------------------- beyond the fields

  /**
   A manifest built with a name of 65536 bytes has the encoding of another one: the length field reads zero, and the
   name is taken for sizes and hashes. The signature of either is the signature of both.
   */
  lemma LongNameCollides(h: Hash) returns (a: Manifest, b: Manifest)
    ensures a != b && |a.name| == U16 && Build(h, a.name, [], 1) == Some(a) && InLimits(b)
    ensures Encode(a) == Encode(b) && Decode(Encode(a)) == Decoded(b)
  {
    var fields := Le(0, 8) + Le(1, 8) + Le(2048, 4);
    FieldsAscii();
    AsciiValid(fields + Zeros(65516));
    LengthWraps();
    hide Le, Join, Split, Valid, Zeros, Encode, EncodeSizes;
    a, b := NameTakenForSizes(fields, Zeros(65516), 2048);
    DecodeEncode(b);
  }

  /** With 4294967296 chunks the count reads zero, and an encoding without chunks is the beginning of the encoding. */
  lemma ManyChunksExtend() returns (a: Manifest, b: Manifest)
    ensures a != b && |a.name| == |b.name| == |a.chunks| == 0 && |b.chunks| == U32
    ensures Encode(a) <= Encode(b)
  {
    CountWraps();
    hide Le, Join;
    a, b := Manifest([], 0, 1, []), Manifest([], 0, 1, seq(U32, _ => Zeros(32)));
    assert Join(a.chunks) == [] by { EmptyJoin(); }
    var head := MAGIC + Le(0, 2) + [] + (Le(0, 8) + Le(1, 8) + Le(0, 4));
    assert Encode(a) == head + [];
    assert Encode(b) == head + Join(b.chunks);
  }

  lemma EmptyJoin()
    ensures Join([]) == []
  {
  }

  /** The number of chunks keeps encodings from extending each other exactly as long as it fits its field. */
  lemma PrefixFreeIff(k: nat)
    ensures (forall a: Manifest, b: Manifest ::
              |a.name| < U16 && |b.name| < U16 && |a.chunks| < k && |b.chunks| < k && Encode(a) <= Encode(b) ==> a == b)
       <==> k <= U32
  {
    hide Encode;
    if k <= U32 {
      forall a: Manifest, b: Manifest
        | |a.name| < U16 && |b.name| < U16 && |a.chunks| < k && |b.chunks| < k && Encode(a) <= Encode(b)
        ensures a == b
      {
        PrefixFree(a, b);
      }
    } else {
      var a, b := ManyChunksExtend();
    }
  }

  lemma NameTakenForSizes(fields: bytes, tail: bytes, n: nat) returns (a: Manifest, b: Manifest)
    requires fields == Le(0, 8) + Le(1, 8) + Le(n, 4) && 20 + |tail| == 32 * n && n > 0
    requires Valid(fields + tail) && Le(20 + |tail|, 2) == Le(0, 2)
    ensures a == Manifest(fields + tail, 0, 1, []) && |b.chunks| == n && b == Manifest([], 0, 1, b.chunks)
    ensures Encode(a) == Encode(b)
  {
    hide Le, Join, Split;
    a := Manifest(fields + tail, 0, 1, []);
    var hashes := tail + EncodeSizes(a);
    b := Manifest([], 0, 1, Split(hashes));
    JoinSplit(hashes);
    assert EncodeSizes(b) == fields + hashes;
    assert Encode(a) == MAGIC + Le(0, 2) + (fields + tail) + EncodeSizes(a);
    assert Encode(b) == MAGIC + Le(0, 2) + [] + (fields + (tail + EncodeSizes(a)));
  }

  lemma FieldsAscii()
    ensures forall i :: 0 <= i < 8 ==> Le(0, 8)[i] < 0x80 && Le(1, 8)[i] < 0x80
    ensures forall i :: 0 <= i < 4 ==> Le(2048, 4)[i] < 0x80
  {
    assert Le(0, 8) == [0, 0, 0, 0, 0, 0, 0, 0] && Le(1, 8) == [1, 0, 0, 0, 0, 0, 0, 0];
    assert Le(2048, 4) == [0, 8, 0, 0];
  }

  lemma LengthWraps()
    ensures Le(65536, 2) == Le(0, 2)
  {
  }

  lemma CountWraps()
    ensures Le(U32, 4) == Le(0, 4)
  {
  }
}

/** Writing an image while checking it: every chunk is read, hashed and compared before it is written. */
module Ingest {
  import opened Bytes
  import opened Device
  import opened DiskLayout
  import opened Manifests
  import Utf8

  datatype Error = BadResume | ReadFailed(index: nat) | HashMismatch(index: nat) | DeviceFailed

  datatype Stats = Stats(chunksWritten: nat, bytesWritten: nat, chunksSkipped: nat)

  /** `chunks` were finished and `sent` bytes reached the device before the end or the failure. */
  datatype Ingested = Ingested(dev: Dev, chunks: nat, sent: nat, error: Option<Error>)
  {
    /** The same, with `c` chunks of `n` bytes in all finished before. */
    function After(c: nat, n: nat): Ingested {
      this.(chunks := c + this.chunks, sent := n + this.sent)
    }
  }

  /** From chunk `i` on, with `src` what the source still has to give before it ends or fails, writing at `at`. */
  function Continue(h: Hash, m: Manifest, src: bytes, d: Dev, hi: nat, at: nat, i: nat): (r: Ingested)
    requires Consistent(m) && i <= |m.chunks| && hi <= |d.bytes|
    ensures |r.dev.bytes| == |d.bytes|
    decreases |m.chunks| - i
  {
    if i == |m.chunks| then
      var f := Credit(d, 1);
      Ingested(f.dev, 0, 0, if f.ok then None else Some(DeviceFailed))
    else
      ChunkArithmetic(m, i);
      var n := ChunkLen(m, i);
      if |src| < n then Ingested(d, 0, 0, Some(ReadFailed(i)))
      else if h(src[..n]) != m.chunks[i] then Ingested(d, 0, 0, Some(HashMismatch(i)))
      else
        var w := Write(d, hi, at, src[..n]);
        if !w.ok then Ingested(w.dev, 0, d.budget - w.dev.budget, Some(DeviceFailed))
        else Continue(h, m, src[n..], w.dev, hi, at + n, i + 1).After(1, n)
  }

  /** `verify_and_write`. */
  function VerifyAndWriteOf(h: Hash, m: Manifest, src: bytes, d: Dev, hi: nat, at: nat, from: nat): Ingested
    requires Consistent(m) && hi <= |d.bytes|
  {
    if from > |m.chunks| then Ingested(d, 0, 0, Some(BadResume)) else Continue(h, m, src, d, hi, at, from)
  }

  // ---------------------------------------------------------------- verify before write

  /** The part of the source that chunk `i` is read from when reading began with chunk `from`. */
  function SourceChunk(m: Manifest, src: bytes, from: nat, i: nat): bytes
    requires Bound(m, from) <= Bound(m, i) <= Bound(m, i + 1) && Bound(m, i + 1) - Bound(m, from) <= |src|
  {
    src[Bound(m, i) - Bound(m, from)..Bound(m, i + 1) - Bound(m, from)]
  }

  /** Chunk `i` of the source is there and hashes to its entry. */
  ghost predicate ChunkVerified(h: Hash, m: Manifest, src: bytes, from: nat, i: nat) {
    && i < |m.chunks|
    && Bound(m, from) <= Bound(m, i) <= Bound(m, i + 1) && Bound(m, i + 1) - Bound(m, from) <= |src|
    && h(SourceChunk(m, src, from, i)) == m.chunks[i]
  }

  /** The bytes of `a` between `at` and `at + n` are `b`, and elsewhere `a` is as `before`. */
  ghost predicate OnlyWrote(a: bytes, before: bytes, at: nat, b: bytes) {
    SameOutside(a, before, at, at + |b|) && (b != [] ==> at + |b| <= |a| && a[at..at + |b|] == b)
  }

  /**
   What a run has sent to the device, for every source, every place the device fails and every answer: the source
   bytes of `chunks` whole verified chunks, and behind them, only when the device failed, a part of one more verified
   chunk.
   */
  ghost predicate Outcome(h: Hash, m: Manifest, src: bytes, before: Dev, at: nat, from: nat, r: Ingested)
    requires Consistent(m) && from <= |m.chunks|
  {
    && from + r.chunks <= |m.chunks|
    && Bound(m, from) <= Bound(m, from + r.chunks)
    && (forall i :: from <= i < from + r.chunks ==> ChunkVerified(h, m, src, from, i))
    && Bound(m, from + r.chunks) - Bound(m, from) <= r.sent <= |src|
    && (r.sent > Bound(m, from + r.chunks) - Bound(m, from) ==>
          && r.error == Some(DeviceFailed)
          && ChunkVerified(h, m, src, from, from + r.chunks)
          && r.sent < Bound(m, from + r.chunks + 1) - Bound(m, from))
    && OnlyWrote(r.dev.bytes, before.bytes, at, src[..r.sent])
    && (r.error == None ==> from + r.chunks == |m.chunks| && r.sent == m.totalSize - Bound(m, from))
  }

  lemma BoundsOrdered(m: Manifest, i: nat, j: nat)
    requires i <= j
    ensures Bound(m, i) <= Bound(m, j)
  {
    MulMonotone(i, j, m.chunkSize);
  }

  lemma WriteOutcome(d: Dev, hi: nat, at: nat, b: bytes)
    requires hi <= |d.bytes|
    ensures var w := Write(d, hi, at, b);
            var k := d.budget - w.dev.budget;
            0 <= k <= |b| && (w.ok <==> k == |b|) && OnlyWrote(w.dev.bytes, d.bytes, at, b[..k])
  {
  }

  lemma WroteTwice(a: bytes, b: bytes, c: bytes, at: nat, x: bytes, y: bytes)
    requires OnlyWrote(b, a, at, x) && OnlyWrote(c, b, at + |x|, y)
    ensures OnlyWrote(c, a, at, x + y)
  {
    if x != [] {
      assert c[at..at + |x|] == b[at..at + |x|];
    }
    if y != [] {
      assert c[at..at + |x| + |y|] == c[at..at + |x|] + c[at + |x|..at + |x| + |y|];
    }
  }

  /** Shifting the start of reading by one chunk shifts the source by its length. */
  lemma ShiftVerified(h: Hash, m: Manifest, src: bytes, from: nat, i: nat)
    requires Consistent(m) && from < |m.chunks| && from + 1 <= i && ChunkLen(m, from) <= |src|
    requires Bound(m, from) + ChunkLen(m, from) == Bound(m, from + 1)
    requires ChunkLen(m, from) > 0
    ensures ChunkVerified(h, m, src[ChunkLen(m, from)..], from + 1, i) ==> ChunkVerified(h, m, src, from, i)
  {
    hide Consistent, Bound, ChunkLen;
    var n := ChunkLen(m, from);
    if ChunkVerified(h, m, src[n..], from + 1, i) {
      assert SourceChunk(m, src[n..], from + 1, i) == SourceChunk(m, src, from, i);
    }
  }

  lemma NothingSent(h: Hash, m: Manifest, src: bytes, d: Dev, at: nat, from: nat, r: Ingested)
    requires Consistent(m) && from <= |m.chunks|
    requires r.chunks == 0 && r.sent == 0 && r.dev.bytes == d.bytes && (r.error == None ==> from == |m.chunks|)
    ensures Outcome(h, m, src, d, at, from, r)
  {
    hide Consistent, ChunkLen;
    ChunkArithmetic(m, from);
    assert src[..0] == [];
  }

  lemma PartSent(h: Hash, m: Manifest, src: bytes, d: Dev, w: Dev, at: nat, from: nat, n: nat, k: nat)
    requires Consistent(m) && from < |m.chunks| && n == ChunkLen(m, from) && k < n <= |src|
    requires h(src[..n]) == m.chunks[from] && OnlyWrote(w.bytes, d.bytes, at, src[..k])
    ensures Outcome(h, m, src, d, at, from, Ingested(w, 0, k, Some(DeviceFailed)))
  {
    hide Consistent, ChunkLen;
    ChunkArithmetic(m, from);
    hide Bound, OnlyWrote;
    assert SourceChunk(m, src, from, from) == src[..n];
  }

  /** Verify before write. */
  lemma {:induction false} VerifiedOnly(h: Hash, m: Manifest, src: bytes, d: Dev, hi: nat, at: nat, from: nat)
    requires Consistent(m) && from <= |m.chunks| && hi <= |d.bytes|
    ensures Outcome(h, m, src, d, at, from, Continue(h, m, src, d, hi, at, from))
    decreases |m.chunks| - from
  {
    hide Consistent, Bound, ChunkLen, Outcome, Write, Credit;
    var r := Continue(h, m, src, d, hi, at, from);
    ChunkArithmetic(m, from);
    var n := ChunkLen(m, from);
    if from == |m.chunks| || |src| < n || h(src[..n]) != m.chunks[from] {
      CreditKeeps(d);
      NothingSent(h, m, src, d, at, from, r);
    } else {
      var w := Write(d, hi, at, src[..n]);
      WriteOutcome(d, hi, at, src[..n]);
      if !w.ok {
        assert src[..n][..r.sent] == src[..r.sent];
        PartSent(h, m, src, d, w.dev, at, from, n, r.sent);
      } else {
        assert src[..n][..n] == src[..n] == SourceChunk(m, src, from, from);
        VerifiedOnly(h, m, src[n..], w.dev, hi, at + n, from + 1);
        Extend(h, m, src, d, w.dev, at, from, Continue(h, m, src[n..], w.dev, hi, at + n, from + 1));
      }
    }
  }

  lemma CreditKeeps(d: Dev)
    ensures Credit(d, 1).dev.bytes == d.bytes
  {
  }

  lemma Extend(h: Hash, m: Manifest, src: bytes, d: Dev, w: Dev, at: nat, from: nat, rest: Ingested)
    requires Consistent(m) && from < |m.chunks| && 0 < ChunkLen(m, from) <= |src|
    requires Bound(m, from) + ChunkLen(m, from) == Bound(m, from + 1)
    requires ChunkVerified(h, m, src, from, from)
    requires OnlyWrote(w.bytes, d.bytes, at, src[..ChunkLen(m, from)])
    requires Outcome(h, m, src[ChunkLen(m, from)..], w, at + ChunkLen(m, from), from + 1, rest)
    ensures Outcome(h, m, src, d, at, from, rest.After(1, ChunkLen(m, from)))
  {
    hide Consistent, Bound, ChunkLen, ChunkVerified;
    var n := ChunkLen(m, from);
    var r := rest.After(1, n);
    forall i | from + 1 <= i <= from + r.chunks
      ensures ChunkVerified(h, m, src[n..], from + 1, i) ==> ChunkVerified(h, m, src, from, i)
    {
      ShiftVerified(h, m, src, from, i);
    }
    forall i | from <= i < from + r.chunks ensures ChunkVerified(h, m, src, from, i) {
      assert i > from ==> ChunkVerified(h, m, src[n..], from + 1, i);
    }
    WroteTwice(d.bytes, w.bytes, r.dev.bytes, at, src[..n], src[n..][..rest.sent]);
    assert src[..n] + src[n..][..rest.sent] == src[..r.sent];
  }

  /** Nothing outside the window is touched, whatever the manifest announces and the source sends. */
  lemma {:induction false} StaysInWindow(h: Hash, m: Manifest, src: bytes, d: Dev, hi: nat, at: nat, from: nat)
    requires Consistent(m) && from <= |m.chunks| && hi <= |d.bytes|
    ensures SameOutside(Continue(h, m, src, d, hi, at, from).dev.bytes, d.bytes, at, hi)
    decreases |m.chunks| - from
  {
    hide Consistent, ChunkLen, Write, Credit;
    CreditKeeps(d);
    if from < |m.chunks| {
      ContinueStep(h, m, src, d, hi, at, from);
      var n := ChunkLen(m, from);
      if |src| >= n && h(src[..n]) == m.chunks[from] {
        var w := Write(d, hi, at, src[..n]);
        if w.ok {
          StaysInWindow(h, m, src[n..], w.dev, hi, at + n, from + 1);
        }
      }
    }
  }

  /** What success has cost. */
  lemma {:induction false} SuccessCosts(h: Hash, m: Manifest, src: bytes, d: Dev, hi: nat, at: nat, from: nat)
    requires Consistent(m) && from <= |m.chunks| && hi <= |d.bytes|
    ensures var r := Continue(h, m, src, d, hi, at, from);
            r.error == None ==> r.dev.budget == d.budget - (m.totalSize - Bound(m, from)) - 1
    decreases |m.chunks| - from
  {
    hide Consistent, Bound, ChunkLen, Write;
    ChunkArithmetic(m, from);
    if from < |m.chunks| {
      ContinueStep(h, m, src, d, hi, at, from);
      var n := ChunkLen(m, from);
      if |src| >= n && h(src[..n]) == m.chunks[from] {
        WriteSucceedsIff(d, hi, at, src[..n]);
        var w := Write(d, hi, at, src[..n]);
        if w.ok {
          SuccessCosts(h, m, src[n..], w.dev, hi, at + n, from + 1);
        }
      }
    }
  }

  // ---------------------------------------------------------------- the answer, exactly

  /**
   Chunk `k` is the first from `from` on that the source does not have whole and right; there is none if it is the
   number of chunks.
   */
  ghost predicate FirstBad(h: Hash, m: Manifest, src: bytes, from: nat, k: nat) {
    && from <= k <= |m.chunks|
    && (forall i :: from <= i < k ==> ChunkVerified(h, m, src, from, i))
    && (k < |m.chunks| ==> !ChunkVerified(h, m, src, from, k))
  }

  /** There always is one. */
  lemma FirstBadExists(h: Hash, m: Manifest, src: bytes, from: nat) returns (k: nat)
    requires from <= |m.chunks|
    ensures FirstBad(h, m, src, from, k)
  {
    hide ChunkVerified;
    k := from;
    while k < |m.chunks| && ChunkVerified(h, m, src, from, k)
      invariant from <= k <= |m.chunks|
      invariant forall i :: from <= i < k ==> ChunkVerified(h, m, src, from, i)
    {
      k := k + 1;
    }
  }

  /** What ends a run whose first bad chunk is `k`. */
  function AnswerOf(m: Manifest, src: bytes, d: Dev, hi: nat, at: nat, from: nat, k: nat): Option<Error> {
    var need := Bound(m, k) - Bound(m, from);
    if need > 0 && (at + need > hi || need > d.budget) then Some(DeviceFailed)
    else if k == |m.chunks| then (if need < d.budget then None else Some(DeviceFailed))
    else if |src| < Bound(m, k + 1) - Bound(m, from) then Some(ReadFailed(k))
    else Some(HashMismatch(k))
  }

  lemma ShiftBoth(h: Hash, m: Manifest, src: bytes, from: nat, i: nat)
    requires Consistent(m) && from < |m.chunks| && from + 1 <= i && 0 < ChunkLen(m, from) <= |src|
    requires Bound(m, from) + ChunkLen(m, from) == Bound(m, from + 1)
    ensures ChunkVerified(h, m, src[ChunkLen(m, from)..], from + 1, i) <==> ChunkVerified(h, m, src, from, i)
  {
    BoundsOrdered(m, from + 1, i);
    hide Consistent, Bound, ChunkLen;
    var n, x, y, b := ChunkLen(m, from), Bound(m, i), Bound(m, i + 1), Bound(m, from);
    if i < |m.chunks| && b + n <= x <= y && y - b <= |src| {
      assert src[n..][x - b - n..y - b - n] == src[x - b..y - b];
    }
  }

  lemma WriteSucceedsIff(d: Dev, hi: nat, at: nat, b: bytes)
    requires hi <= |d.bytes| && b != []
    ensures var w := Write(d, hi, at, b);
            && (w.ok <==> at + |b| <= hi && |b| <= d.budget)
            && (w.ok ==> w.dev.budget == d.budget - |b|)
  {
  }

  lemma ChunkIs(h: Hash, m: Manifest, src: bytes, from: nat)
    requires Consistent(m) && from < |m.chunks|
    ensures 0 < ChunkLen(m, from) && Bound(m, from) + ChunkLen(m, from) == Bound(m, from + 1)
    ensures ChunkVerified(h, m, src, from, from)
       <==> ChunkLen(m, from) <= |src| && h(src[..ChunkLen(m, from)]) == m.chunks[from]
  {
    ChunkArithmetic(m, from);
    hide Consistent, Bound, ChunkLen;
    if ChunkLen(m, from) <= |src| {
      assert SourceChunk(m, src, from, from) == src[..ChunkLen(m, from)];
    }
  }

  lemma ShiftFirstBad(h: Hash, m: Manifest, src: bytes, from: nat, k: nat)
    requires Consistent(m) && from < k && FirstBad(h, m, src, from, k) && 0 < ChunkLen(m, from) <= |src|
    requires Bound(m, from) + ChunkLen(m, from) == Bound(m, from + 1)
    ensures FirstBad(h, m, src[ChunkLen(m, from)..], from + 1, k)
  {
    hide Consistent, Bound, ChunkLen, ChunkVerified;
    var rest, next := src[ChunkLen(m, from)..], from + 1;
    forall i | next <= i < k ensures ChunkVerified(h, m, rest, next, i) {
      ShiftBoth(h, m, src, from, i);
    }
    if k < |m.chunks| {
      ShiftBoth(h, m, src, from, k);
    }
  }

  /**
   The answer of a run, for every source, device and place to begin, and how much was written when no device failed.
   */
  lemma {:induction false} AnswerIs(h: Hash, m: Manifest, src: bytes, d: Dev, hi: nat, at: nat, from: nat, k: nat)
    requires Consistent(m) && hi <= |d.bytes| && FirstBad(h, m, src, from, k)
    ensures var r := Continue(h, m, src, d, hi, at, from);
            && r.error == AnswerOf(m, src, d, hi, at, from, k)
            && (r.error != Some(DeviceFailed) ==> r.chunks == k - from && r.sent == Bound(m, k) - Bound(m, from))
    decreases |m.chunks| - from
  {
    hide Consistent, Bound, ChunkLen, Write, ChunkVerified, SourceChunk;
    if from == |m.chunks| {
      ContinueEnd(h, m, src, d, hi, at);
    } else {
      ContinueStep(h, m, src, d, hi, at, from);
      ChunkIs(h, m, src, from);
      var n := ChunkLen(m, from);
      if from < k {
        var w := Write(d, hi, at, src[..n]);
        WriteSucceedsIff(d, hi, at, src[..n]);
        BoundsOrdered(m, from + 1, k);
        if w.ok {
          ShiftFirstBad(h, m, src, from, k);
          AnswerIs(h, m, src[n..], w.dev, hi, at + n, from + 1, k);
        }
      }
    }
  }

  /** A place to begin is refused exactly when it is behind the last chunk. */
  lemma BadResumeIff(h: Hash, m: Manifest, src: bytes, d: Dev, hi: nat, at: nat, from: nat)
    requires Consistent(m) && hi <= |d.bytes|
    ensures VerifyAndWriteOf(h, m, src, d, hi, at, from).error == Some(BadResume) <==> from > |m.chunks|
    ensures from <= |m.chunks| ==>
              VerifyAndWriteOf(h, m, src, d, hi, at, from) == Continue(h, m, src, d, hi, at, from)
  {
    hide Consistent, Continue;
    if from <= |m.chunks| {
      var k := FirstBadExists(h, m, src, from);
      AnswerIs(h, m, src, d, hi, at, from, k);
    }
  }

  // ---------------------------------------------------------------- the image itself

  lemma WriteFits(d: Dev, hi: nat, at: nat, b: bytes)
    requires hi <= |d.bytes| && at + |b| <= hi && |b| <= d.budget
    ensures var w := Write(d, hi, at, b); w.ok && w.dev.budget == d.budget - |b|
  {
  }

  /** Reading the image from the start of a chunk on, every chunk is as announced. */
  lemma {:induction false} OwnImageIsAccepted(h: Hash, m: Manifest, image: bytes, d: Dev, hi: nat, at: nat, from: nat)
    requires BuiltFrom(h, m, image) && from <= |m.chunks| && hi <= |d.bytes|
    requires at + m.totalSize - Bound(m, from) <= hi && d.budget > m.totalSize - Bound(m, from)
    ensures var r := Continue(h, m, image[Bound(m, from)..], d, hi, at, from);
            r.error == None && r.dev.budget == d.budget - (m.totalSize - Bound(m, from)) - 1
    decreases |m.chunks| - from
  {
    hide Consistent, Bound, ChunkLen, Write;
    ChunkArithmetic(m, from);
    if from < |m.chunks| {
      BoundsOrdered(m, from, from + 1);
      BoundsOrdered(m, from + 1, |m.chunks|);
      ChunkArithmetic(m, |m.chunks|);
      var n, src := ChunkLen(m, from), image[Bound(m, from)..];
      assert src[..n] == ImageChunk(m, image, from);
      assert src[n..] == image[Bound(m, from + 1)..];
      var w := Write(d, hi, at, src[..n]);
      WriteFits(d, hi, at, src[..n]);
      OwnImageIsAccepted(h, m, image, w.dev, hi, at + n, from + 1);
    }
  }

  /** The whole image, on a device that lasts, arrives byte for byte. */
  lemma WholeImageArrives(h: Hash, m: Manifest, image: bytes, d: Dev, hi: nat, at: nat)
    requires BuiltFrom(h, m, image) && at + |image| <= hi <= |d.bytes| && d.budget > |image|
    ensures Consistent(m)
    ensures var r := VerifyAndWriteOf(h, m, image, d, hi, at, 0);
            r == Ingested(Dev(Splice(d.bytes, at, image), d.budget - |image| - 1), |m.chunks|, |image|, None)
  {
    BoundZero(m);
    hide Bound, ChunkLen;
    assert image[0..] == image;
    OwnImageIsAccepted(h, m, image, d, hi, at, 0);
    VerifiedOnly(h, m, image, d, hi, at, 0);
    hide Consistent, Continue, ChunkVerified, OnlyWrote;
    var r := VerifyAndWriteOf(h, m, image, d, hi, at, 0);
    assert image[..r.sent] == image;
    SpliceOfOnlyWrote(r.dev.bytes, d.bytes, at, image);
  }

  lemma BoundZero(m: Manifest)
    ensures Bound(m, 0) == 0
  {
    TimesNext(0, m.chunkSize);
  }

  /**
   Ingesting, from its first chunk, the very data a manifest was built from succeeds on a device that lasts, and puts
   the data on it byte for byte.
   */
  lemma IngestReproduces(h: Hash, name: Utf8.text, data: bytes, chunkSize: u64, d: Dev, hi: nat, at: nat)
    requires 0 < chunkSize && |data| < U64 && at + |data| <= hi <= |d.bytes| && d.budget > |data|
    ensures var m := Build(h, name, data, chunkSize).value;
            && Consistent(m)
            && var r := VerifyAndWriteOf(h, m, data, d, hi, at, 0);
            r.error == None && r.chunks == |m.chunks| && r.sent == |data| && r.dev.bytes == Splice(d.bytes, at, data)
  {
    BuildIsConsistent(h, name, data, chunkSize);
    hide Consistent, Build, VerifyAndWriteOf, BuiltFrom;
    WholeImageArrives(h, Build(h, name, data, chunkSize).value, data, d, hi, at);
  }

  lemma SpliceOfOnlyWrote(a: bytes, before: bytes, at: nat, b: bytes)
    requires at + |b| <= |before| && OnlyWrote(a, before, at, b)
    ensures a == Splice(before, at, b)
  {
    var s := Splice(before, at, b);
    forall i | 0 <= i < |a| ensures a[i] == s[i] {
      if at <= i < at + |b| {
        assert a[at..at + |b|][i - at] == s[at..at + |b|][i - at];
      }
    }
  }

  // ---------------------------------------------------------------- the loop

  /** A source that gives `data` and then ends or fails. */
  class Source {
    const data: bytes
    var pos: nat

    constructor (data: bytes)
      ensures this.data == data && pos == 0
    {
      this.data := data;
      pos := 0;
    }

    ghost predicate Valid()
      reads this
    {
      pos <= |data|
    }

    ghost function Rest(): bytes
      reads this
      requires Valid()
    {
      data[pos..]
    }

    /** `read_exact` into the front of a buffer. */
    method ReadExact(buf: array<byte>, n: nat) returns (ok: bool)
      requires Valid() && n <= buf.Length
      modifies this, buf
      ensures Valid() && (ok <==> n <= |old(Rest())|)
      ensures ok ==> Rest() == old(Rest())[n..] && buf[..n] == old(Rest())[..n]
    {
      if pos + n > |data| {
        pos := |data|;
        return false;
      }
      for i := 0 to n
        invariant pos == old(pos)
        invariant forall j :: 0 <= j < i ==> buf[j] == data[pos + j]
      {
        buf[i] := data[pos + i];
      }
      pos := pos + n;
      ok := true;
    }
  }

  lemma AfterBoth(r: Ingested, c: nat, n: nat, want: nat)
    ensures r.After(1, want).After(c, n) == r.After(c + 1, n + want) && r.After(0, 0) == r
  {
  }

  /** One turn of the loop. */
  lemma ContinueStep(h: Hash, m: Manifest, src: bytes, d: Dev, hi: nat, at: nat, i: nat)
    requires Consistent(m) && i < |m.chunks| && hi <= |d.bytes|
    ensures 0 < ChunkLen(m, i) <= m.chunkSize
    ensures var n, r := ChunkLen(m, i), Continue(h, m, src, d, hi, at, i);
            if |src| < n then r.dev == d && r.error == Some(ReadFailed(i))
            else if h(src[..n]) != m.chunks[i] then r.dev == d && r.error == Some(HashMismatch(i))
            else var w := Write(d, hi, at, src[..n]);
              if !w.ok then r.dev == w.dev && r.error == Some(DeviceFailed)
              else r == Continue(h, m, src[n..], w.dev, hi, at + n, i + 1).After(1, n)
  {
    hide Consistent, ChunkLen, Write;
    ChunkArithmetic(m, i);
  }

  lemma ContinueEnd(h: Hash, m: Manifest, src: bytes, d: Dev, hi: nat, at: nat)
    requires Consistent(m) && hi <= |d.bytes|
    ensures var r, f := Continue(h, m, src, d, hi, at, |m.chunks|), Credit(d, 1);
            r == Ingested(f.dev, 0, 0, if f.ok then None else Some(DeviceFailed))
  {
  }

  /** lib.rs: one buffer, one pass over the chunks, each compared before it is written. */
  method VerifyAndWrite(h: Hash, m: Manifest, src: Source, disk: Disk, hi: nat, at: nat, from: nat)
    returns (stats: Stats, error: Option<Error>)
    requires Consistent(m) && src.Valid() && hi <= disk.data.Length
    modifies src, disk, disk.data
    ensures var r := VerifyAndWriteOf(h, m, old(src.Rest()), old(disk.State()), hi, at, from);
            && disk.State() == r.dev && error == r.error && (error == Some(BadResume) <==> from > |m.chunks|)
            && (error == None ==> stats == Stats(r.chunks, r.sent, from))
  {
    hide Consistent, ChunkLen, Write, Credit, Continue;
    BadResumeIff(h, m, src.Rest(), disk.State(), hi, at, from);
    stats := Stats(0, 0, from);
    if from > |m.chunks| {
      return stats, Some(BadResume);
    }
    var buf := new byte[m.chunkSize](_ => 0);
    ghost var goal := Continue(h, m, src.Rest(), disk.State(), hi, at, from);
    AfterBoth(goal, 0, 0, 0);
    for index := from to |m.chunks|
      invariant fresh(buf) && buf.Length == m.chunkSize && src.Valid()
      invariant stats.chunksSkipped == from
      invariant goal == Continue(h, m, src.Rest(), disk.State(), hi, at + stats.bytesWritten, index)
                        .After(stats.chunksWritten, stats.bytesWritten)
    {
      ghost var rest := src.Rest();
      ContinueStep(h, m, rest, disk.State(), hi, at + stats.bytesWritten, index);
      var want := ChunkLen(m, index);
      var ok := src.ReadExact(buf, want);
      if !ok {
        return stats, Some(ReadFailed(index));
      }
      if h(buf[..want]) != m.chunks[index] {
        return stats, Some(HashMismatch(index));
      }
      ok := disk.WriteAll(hi, at + stats.bytesWritten, buf[..want]);
      if !ok {
        return stats, Some(DeviceFailed);
      }
      AfterBoth(Continue(h, m, rest[want..], disk.State(), hi, at + stats.bytesWritten + want, index + 1),
                stats.chunksWritten, stats.bytesWritten, want);
      stats := Stats(stats.chunksWritten + 1, stats.bytesWritten + want, from);
    }
    ContinueEnd(h, m, src.Rest(), disk.State(), hi, at + stats.bytesWritten);
    var flushed := disk.Touch();
    error := if flushed then None else Some(DeviceFailed);
  }
}

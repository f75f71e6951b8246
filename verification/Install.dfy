/** Installing an image onto a raw device, possibly over many interrupted sessions. */
module Install {
  import opened Bytes
  import opened Device
  import opened DiskLayout
  import opened Manifests
  import opened SignedManifests
  import opened Signing
  import ImageCodec
  import Ingest

  const MANIFEST_LIMIT: nat := 4 * MIB

  /** What a server gave, unless it is too long to be a manifest. */
  function GetAll(served: Option<bytes>): Option<bytes> {
    if served.Some? && |served.value| <= MANIFEST_LIMIT then served else None
  }

  /** How a manifest that was asked for turns out. */
  datatype ManifestResult = Trusted(manifest: Manifest) | Unavailable | Undecodable | Untrusted(verdict: Verdict)

  /** Fetch, decode, verify. */
  function TrustedManifest(valid: Verifier, key: bytes, served: Option<bytes>): (r: ManifestResult)
    ensures r.Trusted? ==>
              && served.Some? && |served.value| >= 64
              && Consistent(r.manifest)
              && ImageCodec.Encode(r.manifest) == served.value[..|served.value| - 64]
              && valid(key, served.value[..|served.value| - 64], served.value[|served.value| - 64..])
  {
    match GetAll(served)
    case None => Unavailable
    case Some(raw) =>
      match SignedManifests.Decode(raw)
      case TooShort => Undecodable
      case Malformed(_) => Undecodable
      case Received(s) =>
        AcceptedWasSigned(valid, key, raw);
        SignedManifests.EncodeDecode(raw);
        var v := Verify(valid, key, s);
        if v == Accepted then Trusted(s.manifest) else Untrusted(v)
  }

  /** Which answers make a manifest trusted: short enough, of an accepted form, signed as received, and consistent. */
  lemma TrustedIff(valid: Verifier, key: bytes, served: Option<bytes>)
    ensures var r := TrustedManifest(valid, key, served);
            && (r == Unavailable <==> served.None? || |served.value| > 4194304)
            && (r.Trusted? <==>
                  && served.Some? && 64 <= |served.value| <= 4194304
                  && var n := |served.value| - 64;
                  && ImageCodec.Decode(served.value[..n]).Decoded?
                  && valid(key, served.value[..n], served.value[n..])
                  && Consistent(ImageCodec.Decode(served.value[..n]).manifest))
            && (r.Trusted? ==> ImageCodec.Decode(served.value[..|served.value| - 64]) == ImageCodec.Decoded(r.manifest))
  {
    hide ImageCodec.Decode, ImageCodec.Encode, Consistent, Verify;
    if served.Some? && |served.value| <= 4194304 && SignedManifests.Decode(served.value).Received? {
      AcceptedWasSigned(valid, key, served.value);
    }
  }

  // ---------------------------------------------------------------- one session

  /** What a session meets: where it resumes, the stream the server sends and whether it honours Range, and how long the
      device lasts. */
  datatype Session = Session(resumeFrom: nat, fetched: Option<bytes>, ranged: bool, budget: nat)

  datatype Outcome = Installed | FetchFailed | RangeIgnored | DeviceFailed | IngestFailed(error: Ingest.Error)

  /** The device afterwards and the chunks that were finished. */
  datatype Done = Done(disk: bytes, chunks: nat, outcome: Outcome)

  function SessionOf(h: Hash, m: Manifest, disk: bytes, s: Session): (r: Done)
    requires Consistent(m)
    ensures |r.disk| == |disk|
  {
    var at := Times(s.resumeFrom, m.chunkSize);
    if s.fetched.None? then Done(disk, 0, FetchFailed)
    else if s.resumeFrom > 0 && !s.ranged then Done(disk, 0, RangeIgnored)
    else
      // open, then seek
      var c := Credit(Dev(disk, s.budget), 2);
      if !c.ok then Done(disk, 0, DeviceFailed)
      else
        var r := Ingest.VerifyAndWriteOf(h, m, s.fetched.value, c.dev, |disk|, at, s.resumeFrom);
        match r.error
        case Some(e) => Done(r.dev.bytes, r.chunks, IngestFailed(e))
        case None => Done(r.dev.bytes, r.chunks, if Credit(r.dev, 1).ok then Installed else DeviceFailed)
  }

  datatype Result =
    | NoManifest
    | BadManifest
    | NotVerified(verdict: Verdict)
    | DryRun
    | Ran(outcome: Outcome)

  /** install.rs: nothing is fetched or opened before the manifest is trusted. */
  method Run(h: Hash, valid: Verifier, key: bytes, served: Option<bytes>, commit: bool, resumeFrom: nat,
             image: Ingest.Source?, ranged: bool, disk: Disk)
    returns (r: Result)
    requires image != null ==> image.Valid()
    modifies image, disk, disk.data
    ensures match TrustedManifest(valid, key, served)
            case Unavailable => r == NoManifest && disk.State() == old(disk.State())
            case Undecodable => r == BadManifest && disk.State() == old(disk.State())
            case Untrusted(v) => r == NotVerified(v) && disk.State() == old(disk.State())
            case Trusted(m) =>
              if !commit then r == DryRun && disk.State() == old(disk.State())
              else
                var fetched := if image == null then None else Some(old(image.Rest()));
                var d := SessionOf(h, m, old(disk.data[..]), Session(resumeFrom, fetched, ranged, old(disk.budget)));
                r == Ran(d.outcome) && disk.data[..] == d.disk
  {
    hide Consistent, Times, Ingest.VerifyAndWriteOf, SignedManifests.Decode, Verify;
    if served.None? || |served.value| > MANIFEST_LIMIT {
      return NoManifest;
    }
    var m: Manifest;
    match SignedManifests.Decode(served.value) {
      case TooShort => return BadManifest;
      case Malformed(_) => return BadManifest;
      case Received(s) =>
        AcceptedWasSigned(valid, key, served.value);
        var v := Verify(valid, key, s);
        if v != Accepted {
          return NotVerified(v);
        }
        m := s.manifest;
    }
    if !commit {
      return DryRun;
    }
    var offset := Times(resumeFrom, m.chunkSize);
    if image == null {
      return Ran(FetchFailed);
    }
    if resumeFrom > 0 && !ranged {
      return Ran(RangeIgnored);
    }
    var ok := disk.Touch();
    if !ok { return Ran(DeviceFailed); }
    ok := disk.Touch();
    if !ok { return Ran(DeviceFailed); }
    var stats, error := Ingest.VerifyAndWrite(h, m, image, disk, disk.data.Length, offset, resumeFrom);
    if error.Some? {
      return Ran(IngestFailed(error.value));
    }
    ok := disk.Touch();
    r := Ran(if ok then Installed else DeviceFailed);
  }

  // ---------------------------------------------------------------- forgeries

  /**
   Some session was sent, in place of chunk `i` of the image, other bytes with the same hash. This is the only way the
   theorems below can fail, and it exhibits the two byte strings.
   */
  ghost predicate Forged(h: Hash, m: Manifest, image: bytes, s: Session, i: nat)
    requires |image| == m.totalSize
  {
    && s.fetched.Some? && s.resumeFrom <= i
    && Ingest.ChunkVerified(h, m, s.fetched.value, s.resumeFrom, i)
    && Ingest.SourceChunk(m, s.fetched.value, s.resumeFrom, i) != ImageChunk(m, image, i)
  }

  lemma ForgedIsCollision(h: Hash, m: Manifest, image: bytes, s: Session, i: nat)
    requires BuiltFrom(h, m, image) && Forged(h, m, image, s, i)
    ensures var a, b := Ingest.SourceChunk(m, s.fetched.value, s.resumeFrom, i), ImageChunk(m, image, i);
            a != b && |a| == |b| && h(a) == h(b)
  {
  }

  ghost predicate Genuine(h: Hash, m: Manifest, image: bytes, s: Session)
    requires |image| == m.totalSize
  {
    forall i :: 0 <= i < |m.chunks| ==> !Forged(h, m, image, s, i)
  }

  // ---------------------------------------------------------------- one session keeps what is verified

  ghost predicate Holds(disk: bytes, image: bytes, n: nat) {
    n <= |disk| && n <= |image| && disk[..n] == image[..n]
  }

  /** Whole verified chunks of a genuine source are the image. */
  lemma {:induction false} ChunksAreImage(h: Hash, m: Manifest, image: bytes, s: Session, k: nat)
    requires BuiltFrom(h, m, image) && Genuine(h, m, image, s) && s.fetched.Some?
    requires s.resumeFrom + k <= |m.chunks|
    requires forall i :: s.resumeFrom <= i < s.resumeFrom + k ==>
               Ingest.ChunkVerified(h, m, s.fetched.value, s.resumeFrom, i)
    ensures var (b, e, src) := (Bound(m, s.resumeFrom), Bound(m, s.resumeFrom + k), s.fetched.value);
            b <= e <= |image| && e - b <= |src| && src[..e - b] == image[b..e]
    decreases k
  {
    hide Bound, Consistent, BuiltFrom;
    assert |image| == m.totalSize && Consistent(m) by { BuiltFacts(h, m, image); }
    var f := s.resumeFrom;
    BoundInside(m, f + k);
    if k > 0 {
      ChunksAreImage(h, m, image, s, k - 1);
      assert Ingest.ChunkVerified(h, m, s.fetched.value, f, f + k - 1) && !Forged(h, m, image, s, f + k - 1);
      var b, c, e, src := Bound(m, f), Bound(m, f + k - 1), Bound(m, f + k), s.fetched.value;
      assert src[..e - b] == src[..c - b] + src[c - b..e - b];
      assert image[b..e] == image[b..c] + image[c..e];
    }
  }

  lemma BuiltFacts(h: Hash, m: Manifest, image: bytes)
    requires BuiltFrom(h, m, image)
    ensures |image| == m.totalSize && Consistent(m)
  {
  }

  lemma BoundInside(m: Manifest, i: nat)
    ensures Bound(m, i) <= m.totalSize
  {
  }

  /** Everything a genuine source has sent is the image, even a part of a chunk. */
  lemma SentIsImage(h: Hash, m: Manifest, image: bytes, s: Session, before: Dev, at: nat, r: Ingest.Ingested)
    requires BuiltFrom(h, m, image) && Genuine(h, m, image, s) && s.fetched.Some? && s.resumeFrom <= |m.chunks|
    requires Ingest.Outcome(h, m, s.fetched.value, before, at, s.resumeFrom, r)
    ensures var b := Bound(m, s.resumeFrom);
            b + r.sent <= |image| && s.fetched.value[..r.sent] == image[b..b + r.sent]
            && Bound(m, s.resumeFrom + r.chunks) <= b + r.sent
  {
    hide Bound, Consistent, BuiltFrom;
    BuiltFacts(h, m, image);
    ChunksAreImage(h, m, image, s, r.chunks);
    var f, src := s.resumeFrom, s.fetched.value;
    var b, e := Bound(m, f), Bound(m, f + r.chunks);
    if r.sent > e - b {
      var next := Bound(m, f + r.chunks + 1);
      BoundInside(m, f + r.chunks + 1);
      assert !Forged(h, m, image, s, f + r.chunks);
      Prolonged(src, image, b, e - b, r.sent, next - b);
    } else {
      Prolonged(src, image, b, 0, r.sent, e - b);
    }
  }

  /** Two strings that agree on two adjoining pieces agree up to any place in the second. */
  lemma Prolonged(src: bytes, image: bytes, b: nat, m: nat, n: nat, end: nat)
    requires m <= n <= end && n <= |src| && end <= |src| && b + end <= |image|
    requires src[..m] == image[b..b + m] && src[m..end] == image[b + m..b + end]
    ensures src[..n] == image[b..b + n]
  {
    forall i | 0 <= i < n ensures src[i] == image[b + i] {
      if i < m {
        assert src[..m][i] == image[b..b + m][i];
      } else {
        assert src[m..end][i - m] == image[b + m..b + end][i - m];
      }
    }
  }

  /** Writing part of the image in its place cannot lose any of it. */
  lemma ImageOverDisk(a: bytes, before: bytes, image: bytes, have: nat, b: nat, sent: nat)
    requires Holds(before, image, have) && b <= have && b + sent <= |image| && b + sent <= |before|
    requires Ingest.OnlyWrote(a, before, b, image[b..b + sent])
    ensures forall n :: 0 <= n <= have || (0 <= n <= b + sent) ==> Holds(a, image, n)
    ensures SameOutside(a, before, 0, |image|)
  {
    forall i | 0 <= i < |a| && (i < have || i < b + sent) ensures i < |image| && a[i] == image[i] {
      if b <= i < b + sent {
        assert a[b..b + sent][i - b] == image[b..b + sent][i - b];
      } else {
        assert before[..have][i] == image[..have][i];
      }
    }
  }

  function Max(a: nat, b: nat): nat {
    if a < b then b else a
  }

  /**
   A session that resumes no later than the verified prefix reaches keeps that prefix, extends it by the chunks it
   finishes, and touches nothing behind the image.
   */
  lemma SessionKeeps(h: Hash, m: Manifest, image: bytes, disk: bytes, progress: nat, s: Session)
    requires BuiltFrom(h, m, image) && Genuine(h, m, image, s)
    requires s.resumeFrom <= progress <= |m.chunks| && Holds(disk, image, Bound(m, progress))
    ensures var d := SessionOf(h, m, disk, s);
            var p := Max(progress, s.resumeFrom + d.chunks);
            && p <= |m.chunks| && Holds(d.disk, image, Bound(m, p)) && SameOutside(d.disk, disk, 0, |image|)
            && (d.outcome == Installed ==> p == |m.chunks| && s.resumeFrom + d.chunks == |m.chunks|)
  {
    hide Consistent, Bound, BuiltFrom, Genuine, Ingest.Continue, Ingest.Outcome, Ingest.ChunkVerified, Times;
    BuiltFacts(h, m, image);
    if s.fetched.Some? && (s.resumeFrom == 0 || s.ranged) && s.budget >= 2 {
      var at, dev := Times(s.resumeFrom, m.chunkSize), Dev(disk, s.budget - 2);
      var r := Ingest.VerifyAndWriteOf(h, m, s.fetched.value, dev, |disk|, at, s.resumeFrom);
      Ingest.VerifiedOnly(h, m, s.fetched.value, dev, |disk|, at, s.resumeFrom);
      SentIsImage(h, m, image, s, dev, at, r);
      OutcomeKeeps(h, m, image, disk, progress, s, dev, at, r);
    }
  }

  lemma OutcomeKeeps(h: Hash, m: Manifest, image: bytes, disk: bytes, progress: nat, s: Session, dev: Dev, at: nat,
                     r: Ingest.Ingested)
    requires Consistent(m) && |image| == m.totalSize && s.fetched.Some? && dev.bytes == disk
    requires s.resumeFrom <= progress <= |m.chunks| && Holds(disk, image, Bound(m, progress))
    requires at == Times(s.resumeFrom, m.chunkSize)
    requires Ingest.Outcome(h, m, s.fetched.value, dev, at, s.resumeFrom, r)
    requires var b := Bound(m, s.resumeFrom);
             b + r.sent <= |image| && s.fetched.value[..r.sent] == image[b..b + r.sent]
             && Bound(m, s.resumeFrom + r.chunks) <= b + r.sent
    ensures var p := Max(progress, s.resumeFrom + r.chunks);
            && p <= |m.chunks| && Holds(r.dev.bytes, image, Bound(m, p)) && SameOutside(r.dev.bytes, disk, 0, |image|)
            && (r.error == None ==> p == s.resumeFrom + r.chunks == |m.chunks|)
  {
    hide Consistent, Bound, Ingest.ChunkVerified;
    var f := s.resumeFrom;
    var b := Bound(m, f);
    ChunkArithmetic(m, f);
    Ingest.BoundsOrdered(m, f, progress);
    if r.sent == 0 {
      assert r.dev.bytes == disk;
      Ingest.BoundsOrdered(m, f + r.chunks, progress + r.chunks);
      var p := Max(progress, f + r.chunks);
      assert Bound(m, f + r.chunks) <= b;
    } else {
      assert f < |m.chunks|;
      assert b == at;
      ImageOverDisk(r.dev.bytes, disk, image, Bound(m, progress), b, r.sent);
    }
  }

  // ---------------------------------------------------------------- any number of sessions

  datatype Progress = Progress(disk: bytes, chunks: nat, last: Option<Outcome>)

  /** Run one session after the other; `chunks` counts the verified chunks at the front of the disk. */
  function Sessions(h: Hash, m: Manifest, start: Progress, ss: seq<Session>): Progress
    requires Consistent(m)
    decreases |ss|
  {
    if ss == [] then start else
    var before := Sessions(h, m, start, ss[..|ss| - 1]);
    var s := ss[|ss| - 1];
    var d := SessionOf(h, m, before.disk, s);
    Progress(d.disk, Max(before.chunks, if d.chunks > 0 then s.resumeFrom + d.chunks else 0), Some(d.outcome))
  }

  /** Every session resumes at or before the end of what is verified by then. */
  ghost predicate Respectful(h: Hash, m: Manifest, start: Progress, ss: seq<Session>)
    requires Consistent(m)
  {
    forall k :: 0 <= k < |ss| ==> ss[k].resumeFrom <= Sessions(h, m, start, ss[..k]).chunks
  }

  /**
   Resuming is safe. Start anywhere with nothing verified, and let any sequence of sessions run against any streams
   and any device failures, each resuming no later than what is verified: unless a forged chunk was sent, the verified
   prefix is the image, nothing behind the image has changed, and a session that reports success has left exactly the
   image.
   */
  lemma {:induction false} ResumeIsSafe(h: Hash, m: Manifest, image: bytes, disk: bytes, ss: seq<Session>)
    requires BuiltFrom(h, m, image) && Respectful(h, m, Progress(disk, 0, None), ss)
    ensures (exists k, i :: 0 <= k < |ss| && 0 <= i < |m.chunks| && Forged(h, m, image, ss[k], i)) ||
            var p := Sessions(h, m, Progress(disk, 0, None), ss);
            && p.chunks <= |m.chunks|
            && Holds(p.disk, image, Bound(m, p.chunks))
            && SameOutside(p.disk, disk, 0, |image|)
            && (p.last == Some(Installed) ==> |image| <= |disk| && p.disk == image + disk[|image|..])
            && (ss != [] ==> Sessions(h, m, Progress(disk, 0, None), ss[..|ss| - 1]).chunks <= p.chunks)
    decreases |ss|
  {
    hide Bound, SessionOf, Holds, Consistent, BuiltFrom, Forged;
    BuiltFacts(h, m, image);
    var start := Progress(disk, 0, None);
    if ss == [] {
      StartHolds(m, disk, image);
    } else {
      var init, s := ss[..|ss| - 1], ss[|ss| - 1];
      assert Respectful(h, m, start, init) by {
        forall k | 0 <= k < |init| ensures init[k].resumeFrom <= Sessions(h, m, start, init[..k]).chunks {
          assert init[..k] == ss[..k] && init[k] == ss[k];
        }
      }
      ResumeIsSafe(h, m, image, disk, init);
      if exists k, i :: 0 <= k < |init| && 0 <= i < |m.chunks| && Forged(h, m, image, init[k], i) {
        var k, i :| 0 <= k < |init| && 0 <= i < |m.chunks| && Forged(h, m, image, init[k], i);
        assert Forged(h, m, image, ss[k], i);
      } else if !Genuine(h, m, image, s) {
        var i :| 0 <= i < |m.chunks| && Forged(h, m, image, s, i);
        assert Forged(h, m, image, ss[|ss| - 1], i);
      } else {
        var before := Sessions(h, m, start, init);
        SessionKeeps(h, m, image, before.disk, before.chunks, s);
        var p := Sessions(h, m, start, ss);
        if p.last == Some(Installed) {
          WholeImage(m, image, p.disk, disk, p.chunks);
        }
      }
    }
  }

  lemma StartHolds(m: Manifest, disk: bytes, image: bytes)
    ensures Holds(disk, image, Bound(m, 0))
  {
    TimesNext(0, m.chunkSize);
  }

  lemma WholeImage(m: Manifest, image: bytes, a: bytes, disk: bytes, k: nat)
    requires Consistent(m) && |image| == m.totalSize && k == |m.chunks|
    requires Holds(a, image, Bound(m, k)) && SameOutside(a, disk, 0, |image|)
    ensures |image| <= |disk| && a == image + disk[|image|..]
  {
    hide Consistent, Bound;
    ChunkArithmetic(m, k);
    assert a == a[..|image|] + a[|image|..];
  }

  /** One session from the start that nothing interrupts leaves the same disk. */
  lemma Uninterrupted(h: Hash, m: Manifest, image: bytes, disk: bytes, ranged: bool, budget: nat)
    requires BuiltFrom(h, m, image) && |image| <= |disk| && budget >= |image| + 4
    ensures SessionOf(h, m, disk, Session(0, Some(image), ranged, budget))
         == Done(image + disk[|image|..], |m.chunks|, Installed)
  {
    hide Consistent, BuiltFrom, Ingest.VerifyAndWriteOf;
    BuiltFacts(h, m, image);
    TimesNext(0, m.chunkSize);
    Ingest.WholeImageArrives(h, m, image, Dev(disk, budget - 2), |disk|, 0);
    assert Splice(disk, 0, image) == image + disk[|image|..];
  }

  // ---------------------------------------------------------------- resuming gets there

  /** Every chunk of the rest of the image is the image's. */
  lemma OwnChunk(h: Hash, m: Manifest, image: bytes, from: nat, i: nat)
    requires BuiltFrom(h, m, image) && from <= i < |m.chunks| && Bound(m, from) <= |image|
    ensures var src := image[Bound(m, from)..];
            && Ingest.ChunkVerified(h, m, src, from, i)
            && Ingest.SourceChunk(m, src, from, i) == ImageChunk(m, image, i)
  {
    Ingest.BoundsOrdered(m, from, i);
    Ingest.BoundsOrdered(m, i, i + 1);
    BoundInside(m, i + 1);
    hide Bound, Consistent;
    var b, x, y := Bound(m, from), Bound(m, i), Bound(m, i + 1);
    assert image[b..][x - b..y - b] == image[x..y];
  }

  /** The image's own bytes are no forgery. */
  lemma OwnIsGenuine(h: Hash, m: Manifest, image: bytes, s: Session)
    requires BuiltFrom(h, m, image) && s.resumeFrom <= |m.chunks|
    requires Bound(m, s.resumeFrom) <= |image| && s.fetched == Some(image[Bound(m, s.resumeFrom)..])
    ensures Genuine(h, m, image, s)
  {
    hide Bound, Consistent, BuiltFrom, Ingest.ChunkVerified;
    BuiltFacts(h, m, image);
    forall i | 0 <= i < |m.chunks| ensures !Forged(h, m, image, s, i) {
      if s.resumeFrom <= i {
        OwnChunk(h, m, image, s.resumeFrom, i);
      }
    }
  }

  lemma OwnIsRight(h: Hash, m: Manifest, image: bytes, from: nat)
    requires BuiltFrom(h, m, image) && from <= |m.chunks| && Bound(m, from) <= |image|
    ensures Ingest.FirstBad(h, m, image[Bound(m, from)..], from, |m.chunks|)
  {
    hide Bound, Consistent, BuiltFrom, Ingest.ChunkVerified;
    forall i | from <= i < |m.chunks| ensures Ingest.ChunkVerified(h, m, image[Bound(m, from)..], from, i) {
      OwnChunk(h, m, image, from, i);
    }
  }

  /**
   Resuming gets there. With the rest of the right image from any chunk on, a session installs exactly when the server
   honours the range, or none was needed, the image fits if anything is left to write, and the device lasts; and if
   what was skipped is on the disk, the whole image is afterwards.
   */
  lemma SessionInstallsIff(h: Hash, m: Manifest, image: bytes, disk: bytes, s: Session)
    requires BuiltFrom(h, m, image) && s.resumeFrom <= |m.chunks|
    requires Bound(m, s.resumeFrom) <= |image| && s.fetched == Some(image[Bound(m, s.resumeFrom)..])
    ensures Consistent(m)
    ensures var d, b := SessionOf(h, m, disk, s), Bound(m, s.resumeFrom);
            && (d.outcome == Installed <==>
                  && (s.resumeFrom == 0 || s.ranged)
                  && (s.resumeFrom == |m.chunks| || |image| <= |disk|)
                  && s.budget >= |image| - b + 4)
            && (d.outcome == Installed && Holds(disk, image, b) ==>
                  |image| <= |disk| && d.disk == image + disk[|image|..])
  {
    hide Consistent, Bound, BuiltFrom, Genuine, Ingest.Continue, Ingest.FirstBad, Times;
    BuiltFacts(h, m, image);
    var from, src := s.resumeFrom, s.fetched.value;
    var b, at := Bound(m, from), Times(from, m.chunkSize);
    OwnIsRight(h, m, image, from);
    OwnIsGenuine(h, m, image, s);
    ChunkArithmetic(m, |m.chunks|);
    ChunkArithmetic(m, from);
    if from < |m.chunks| {
      Ingest.BoundsOrdered(m, from + 1, |m.chunks|);
    }
    if s.budget >= 2 {
      var dev := Dev(disk, s.budget - 2);
      Ingest.AnswerIs(h, m, src, dev, |disk|, at, from, |m.chunks|);
      Ingest.SuccessCosts(h, m, src, dev, |disk|, at, from);
    }
    if Holds(disk, image, b) {
      SessionKeeps(h, m, image, disk, from, s);
      if SessionOf(h, m, disk, s).outcome == Installed {
        WholeImage(m, image, SessionOf(h, m, disk, s).disk, disk, |m.chunks|);
      }
    }
  }

  /** The other answers of a session, for any manifest and any stream. */
  lemma SessionRefusesIff(h: Hash, m: Manifest, disk: bytes, s: Session)
    requires Consistent(m)
    ensures var r := SessionOf(h, m, disk, s).outcome;
            && (r == FetchFailed <==> s.fetched.None?)
            && (r == RangeIgnored <==> s.fetched.Some? && s.resumeFrom > 0 && !s.ranged)
            && (r == IngestFailed(Ingest.BadResume) <==>
                  s.fetched.Some? && (s.resumeFrom == 0 || s.ranged) && s.budget >= 2 && s.resumeFrom > |m.chunks|)
  {
    hide Consistent, Times, Ingest.VerifyAndWriteOf;
    if s.fetched.Some? && s.budget >= 2 {
      Ingest.BadResumeIff(h, m, s.fetched.value, Dev(disk, s.budget - 2), |disk|, Times(s.resumeFrom, m.chunkSize),
                          s.resumeFrom);
    }
  }
}

/** What provisioning guarantees, whichever part of the world fails and wherever the disk stops. */
module ProvisionProofs {
  import opened Bytes
  import opened Crypt
  import opened Device
  import opened DiskLayout
  import opened Gpt
  import opened GptOnDisk
  import opened Manifests
  import opened Provision
  import opened Wipe
  import Ingest
  import Install

  // ---------------------------------------------------------------- order

  function CheckEvents(t: Trust, w: World, q: Request): seq<Event> {
    CheckEvent(t, w, q, Esp) + CheckEvent(t, w, q, Recovery) + CheckEvent(t, w, q, Root)
  }

  function CheckEvent(t: Trust, w: World, q: Request, role: Role): seq<Event> {
    var m := ManifestFor(t, w, role);
    if q.Wants(role) && m.Trusted? then [Checked(role, m.manifest)] else []
  }

  function FillEvent(q: Request, role: Role): seq<Event> {
    if q.Wants(role) then [FillBegun(role)] else []
  }

  function RootEvents(w: World, q: Request): seq<Event> {
    var k := if w.newKey.Some? then w.newKey.value else [];
    [Escrowed(q.deviceId, k), FormatBegun(k), OpenBegun(k), FillBegun(Root), Closed]
  }

  /** The one order in which things happen: every check, the table, the open partitions, escrow, format, open, root. */
  function FullLog(t: Trust, w: World, q: Request): seq<Event> {
    CheckEvents(t, w, q) + [TableBegun] + FillEvent(q, Esp) + FillEvent(q, Recovery) + RootEvents(w, q)
  }

  lemma CheckLog(t: Trust, w: World, q: Request, role: Role, s: Stage)
    requires LegalSector(q.ss) && s.error.None?
    ensures var r := Check(t, w, q, role, s);
            r.state.log <= s.state.log + CheckEvent(t, w, q, role)
            && (r.error.None? ==> r.state.log == s.state.log + CheckEvent(t, w, q, role))
  {
    hide Hi, Install.TrustedManifest;
  }

  lemma ChecksLog(t: Trust, w: World, q: Request, s: Stage)
    requires LegalSector(q.ss) && s.error.None? && s.state.log == []
    ensures CheckAll(t, w, q, s).state.log <= CheckEvents(t, w, q)
    ensures CheckAll(t, w, q, s).error.None? ==> CheckAll(t, w, q, s).state.log == CheckEvents(t, w, q)
  {
    hide Check, CheckEvent;
    var a, b := Check(t, w, q, Esp, s), Check(t, w, q, Recovery, Check(t, w, q, Esp, s));
    ChecksStop(t, w, q, s);
    CheckLog(t, w, q, Esp, s);
    if a.error.None? {
      CheckLog(t, w, q, Recovery, a);
      if b.error.None? {
        CheckLog(t, w, q, Root, b);
      }
    }
  }

  lemma ChecksStop(t: Trust, w: World, q: Request, s: Stage)
    requires LegalSector(q.ss)
    ensures var a := Check(t, w, q, Esp, s);
            var b := Check(t, w, q, Recovery, a);
            && (a.error.Some? ==> CheckAll(t, w, q, s) == a) && (b.error.Some? ==> CheckAll(t, w, q, s) == b)
  {
    hide CheckRole;
  }

  lemma RootLog(t: Trust, w: World, q: Request, s: Stage)
    requires Ready(t, w, q) && Sized(s, q) && s.error.None?
    ensures var r := RootStage(t, w, q, s);
            && r.state.log <= s.state.log + RootEvents(w, q)
            && (r.error.None? <==> r.state.log == s.state.log + RootEvents(w, q))
  {
    hide FillOf, Hi, Overlay, ManifestFor, CheckRole, EscrowStores;
    RoleReady(t, w, q, Root);
    var log, tail, r := s.state.log, RootEvents(w, q), RootStage(t, w, q, s).state.log;
    assert r == log || r == log + tail[..2] || r == log + tail[..3] || r == log + tail[..4] || r == log + tail[..5];
  }

  lemma FillLog(t: Trust, w: World, q: Request, role: Role, s: Stage)
    requires Ready(t, w, q) && Sized(s, q) && role != Root && s.error.None?
    ensures var r := FillStage(t, w, q, role, s);
            && r.state.log <= s.state.log + FillEvent(q, role)
            && (r.error.None? ==> r.state.log == s.state.log + FillEvent(q, role))
            && r.state.container == s.state.container
  {
    hide FillOf, Hi, ManifestFor, CheckRole;
    if q.Wants(role) {
      RoleReady(t, w, q, role);
    }
  }

  lemma StagesLog(t: Trust, w: World, q: Request, s: Stage)
    requires Ready(t, w, q) && Sized(s, q) && s.error.None?
    ensures var r := CommitStages(t, w, q, s);
            var tail := [TableBegun] + FillEvent(q, Esp) + FillEvent(q, Recovery) + RootEvents(w, q);
            r.state.log <= s.state.log + tail && (r.error.None? <==> r.state.log == s.state.log + tail)
  {
    hide FillStage, RootStage, AllChecked, WriteTable, FillEvent, RootEvents, LayoutOf;
    StagesStop(t, w, q, s);
    var a := TableStage(q, s);
    assert a.state.log == s.state.log + [TableBegun];
    hide TableStage;
    var e1, e2, e3 := FillEvent(q, Esp), FillEvent(q, Recovery), RootEvents(w, q);
    assert s.state.log + ([TableBegun] + e1 + e2 + e3) == a.state.log + e1 + e2 + e3;
    assert |e3| == 5 by { RootEventsLength(w, q); }
    if a.error.None? {
      var b := FillStage(t, w, q, Esp, a);
      FillLog(t, w, q, Esp, a);
      if b.error.None? {
        var c := FillStage(t, w, q, Recovery, b);
        FillLog(t, w, q, Recovery, b);
        if c.error.None? {
          RootLog(t, w, q, c);
        }
      }
    }
  }

  lemma RootEventsLength(w: World, q: Request)
    ensures |RootEvents(w, q)| == 5
  {
  }

  /**
   The log of every run, however it ends, is a beginning of the one full log, and exactly the runs that succeed have
   it whole. So nothing is written before every wanted manifest has passed, and a key is escrowed before the format
   with that same key, which comes before the open with that same key.
   */
  lemma OrderIsFixed(t: Trust, w: World, q: Request, d: Dev)
    requires |d.bytes| == q.totalBytes
    ensures var (s, r) := ProvisionOf(t, w, q, d);
            && s.log <= FullLog(t, w, q)
            && (r == Provisioned <==> s.log == FullLog(t, w, q))
            && (r == DryRun ==> s.log == CheckEvents(t, w, q))
  {
    hide CheckAll, CommitStages, CheckEvents, FillEvent, RootEvents, PlannedLayout;
    var e, tail := CheckEvents(t, w, q), [TableBegun] + FillEvent(q, Esp) + FillEvent(q, Recovery) + RootEvents(w, q);
    assert FullLog(t, w, q) == e + tail;
    if Fits(q.totalBytes, q.ss) {
      var c := CheckAll(t, w, q, Start(d, w));
      ChecksLog(t, w, q, Start(d, w));
      CheckedWhenNoError(t, w, q, Start(d, w));
      if c.error.None? && q.commit {
        StagesLog(t, w, q, c);
      }
    }
  }

  // ---------------------------------------------------------------- effects of the stages

  /** Chunk after chunk, what is on the device from `at` on hashes to the manifest's entries. */
  ghost predicate ImageAt(h: Hash, m: Manifest, disk: bytes, at: nat) {
    at + m.totalSize <= |disk| && forall i :: 0 <= i < |m.chunks| ==> ChunkAt(h, m, disk, at, i)
  }

  ghost predicate ChunkAt(h: Hash, m: Manifest, disk: bytes, at: nat, i: nat)
    requires at + m.totalSize <= |disk| && i < |m.chunks|
  {
    Bound(m, i) <= Bound(m, i + 1) && h(disk[at + Bound(m, i)..at + Bound(m, i + 1)]) == m.chunks[i]
  }

  /** An image survives what happens elsewhere. */
  lemma ImageStays(h: Hash, m: Manifest, a: bytes, b: bytes, at: nat)
    requires ImageAt(h, m, a, at) && at + m.totalSize <= |b| && a[at..at + m.totalSize] == b[at..at + m.totalSize]
    ensures ImageAt(h, m, b, at)
  {
    forall i | 0 <= i < |m.chunks| ensures ChunkAt(h, m, b, at, i) {
      assert ChunkAt(h, m, a, at, i);
      var x, y := Bound(m, i), Bound(m, i + 1);
      hide Bound;
      Install.BoundInside(m, i + 1);
      SliceOfSlice(a, at, m.totalSize, x, y);
      SliceOfSlice(b, at, m.totalSize, x, y);
    }
  }

  lemma OutcomeArrives(h: Hash, m: Manifest, src: bytes, d: Dev, lo: nat, r: Ingest.Ingested)
    requires Consistent(m) && lo <= |d.bytes| && Ingest.Outcome(h, m, src, d, lo, 0, r) && r.error == None
    ensures ImageAt(h, m, r.dev.bytes, lo)
  {
    Ingest.BoundZero(m);
    hide Bound, Consistent, Ingest.ChunkVerified;
    var a := r.dev.bytes;
    assert r.sent == m.totalSize;
    assert m.totalSize > 0 ==> lo + r.sent <= |a| && a[lo..lo + r.sent] == src[..r.sent];
    hide Ingest.OnlyWrote;
    forall i | 0 <= i < |m.chunks| ensures ChunkAt(h, m, a, lo, i) {
      Install.BoundInside(m, i + 1);
      assert Ingest.ChunkVerified(h, m, src, 0, i);
      VerifiedIsAt(h, m, src, a, lo, i);
    }
  }

  lemma VerifiedIsAt(h: Hash, m: Manifest, src: bytes, a: bytes, lo: nat, i: nat)
    requires Ingest.ChunkVerified(h, m, src, 0, i) && lo + m.totalSize <= |a| && m.totalSize <= |src|
    requires Bound(m, 0) == 0 && Bound(m, i + 1) <= m.totalSize
    requires m.totalSize > 0 ==> a[lo..lo + m.totalSize] == src[..m.totalSize]
    ensures ChunkAt(h, m, a, lo, i)
  {
    hide Bound;
    var x, y := Bound(m, i), Bound(m, i + 1);
    if m.totalSize > 0 {
      SliceOfSlice(a, lo, m.totalSize, x, y);
      SliceOfSlice(src, 0, m.totalSize, x, y);
      assert a[lo + x..lo + y] == src[x..y];
    } else {
      assert a[lo + x..lo + y] == src[x..y];
    }
  }

  /** Filling touches nothing outside its window, and whenever it succeeds the image is there, chunk by chunk. */
  lemma FillEffect(h: Hash, m: Manifest, image: Option<bytes>, d: Dev, lo: nat, hi: nat)
    requires Consistent(m) && lo <= hi <= |d.bytes|
    ensures var (after, why) := FillOf(h, m, image, d, lo, hi);
            && SameOutside(after.bytes, d.bytes, lo, hi)
            && (why == None ==> ImageAt(h, m, after.bytes, lo))
  {
    hide Consistent, Ingest.Continue, Ingest.Outcome, ImageAt;
    if image.Some? && d.budget >= 1 {
      var c := Credit(d, 1).dev;
      var r := Ingest.VerifyAndWriteOf(h, m, image.value, c, hi, lo, 0);
      Ingest.StaysInWindow(h, m, image.value, c, hi, lo, 0);
      if r.error == None {
        Ingest.VerifiedOnly(h, m, image.value, c, hi, lo, 0);
        OutcomeArrives(h, m, image.value, c, lo, r);
      }
    }
  }

  lemma FillStageEffect(t: Trust, w: World, q: Request, role: Role, s: Stage)
    requires Ready(t, w, q) && Sized(s, q) && role != Root && s.error.None?
    ensures 0 <= Hi(role, q.totalBytes, q.ss)
    ensures var r := FillStage(t, w, q, role, s);
            && SameOutside(r.state.dev.bytes, s.state.dev.bytes, Lo(role), Hi(role, q.totalBytes, q.ss))
            && (!q.Wants(role) ==> r.state.dev == s.state.dev)
            && (q.Wants(role) && r.error.None? ==>
                  ImageAt(t.h, ManifestFor(t, w, role).manifest, r.state.dev.bytes, Lo(role)))
  {
    hide CheckRole, FillOf, Hi, ManifestFor, ImageAt;
    WindowsOrdered(q.totalBytes, q.ss);
    if q.Wants(role) && w.appears(role) {
      RoleReady(t, w, q, role);
      FillEffect(t.h, ManifestFor(t, w, role).manifest, w.image(role), s.state.dev, Lo(role),
                 Hi(role, q.totalBytes, q.ss));
    }
  }

  lemma RootStageEffect(t: Trust, w: World, q: Request, s: Stage)
    requires Ready(t, w, q) && Sized(s, q) && s.error.None? && s.state.container == w.container
    ensures 0 <= Lo(Root) <= Hi(Root, q.totalBytes, q.ss) <= q.totalBytes
    ensures var r := RootStage(t, w, q, s);
            && SameOutside(r.state.dev.bytes, s.state.dev.bytes, Lo(Root), Hi(Root, q.totalBytes, q.ss))
            && (r.state.dev != s.state.dev || r.state.container != s.state.container ==>
                  EscrowStores(w, q) && w.newKey.Some? && Escrowed(q.deviceId, w.newKey.value) in r.state.log)
  {
    hide CheckRole, FillOf, Hi, ManifestFor, EscrowStores, Overlay;
    WindowsOrdered(q.totalBytes, q.ss);
    RoleReady(t, w, q, Root);
    if w.appears(Root) && w.newKey.Some? && EscrowStores(w, q) {
      var e, r := Escrowed(q.deviceId, w.newKey.value), RootStage(t, w, q, s).state;
      assert r.log[|s.state.log|] == e;
    }
  }

  /** When the run has succeeded the root image is in the container, so it fitted, whatever was judged beforehand. */
  lemma ContainerEffect(t: Trust, w: World, q: Request, s: Stage)
    requires Ready(t, w, q) && Sized(s, q) && s.error.None? && RootStage(t, w, q, s).error.None?
    ensures ManifestFor(t, w, Root).Trusted?
    ensures ImageAt(t.h, ManifestFor(t, w, Root).manifest, RootStage(t, w, q, s).state.container.bytes, 0)
  {
    hide CheckRole, Hi, ManifestFor, EscrowStores, Overlay, ImageAt;
    RoleReady(t, w, q, Root);
    FillEffect(t.h, ManifestFor(t, w, Root).manifest, w.image(Root), w.container, 0, |w.container.bytes|);
    hide FillOf;
  }

  /** The table stage touches only the table, and when it succeeds both copies are there. */
  lemma TableStageEffect(q: Request, s: Stage, from: nat, to: nat)
    requires Fits(q.totalBytes, q.ss) && Sized(s, q) && s.error.None? && from <= to <= q.totalBytes
    ensures var r := TableStage(q, s);
            && r.state.container == s.state.container
            && (ClearOfTable(from, to, LayoutOf(q)) ==> r.state.dev.bytes[from..to] == s.state.dev.bytes[from..to])
            && Writable(LayoutOf(q))
            && (r.error.None? ==>
                  PrimaryPresent(r.state.dev.bytes, LayoutOf(q)) && BackupPresent(r.state.dev.bytes, LayoutOf(q)))
  {
    hide PlannedLayout, WriteGptOf, PrimaryPresent, BackupPresent, ClearOfTable, TableFits, Storable;
    var l := LayoutOf(q);
    PlannedIsWritable(q.totalBytes, q.ss, q.kind, q.ids);
    FitsIsWritable(l, q.totalBytes);
    var d := s.state.dev;
    var o := Credit(d, 1);
    if o.ok {
      if ClearOfTable(from, to, l) {
        WriterKeeps(o.dev, l, from, to);
      }
      if WriteGptOf(o.dev, l).1 == Written {
        WrittenIsPresent(o.dev, l);
      }
    }
  }
}

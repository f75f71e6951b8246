/**
 Wiping a disk: destroy the key, and at the last level every trace of the table, the recovery system and the
 container.
 */
module Wipe {
  import opened Bytes
  import opened Crypt
  import opened Device
  import opened DiskLayout
  import opened OrderCodec
  import opened Gpt
  import opened GptOnDisk
  import opened GptReader

  const HEAD: nat := 4 * MIB

  datatype Report = Report(cryptoErased: bool, gptDestroyed: bool, recoveryDestroyed: bool)

  datatype Result =
    | Completed(report: Report)
    | PlanRefused(error: PlanError)
    | NoKeyOnDisk
    | EraseFailed
    | OverwriteFailed

  // ---------------------------------------------------------------- the destructive writes

  /** Open, seek, overwrite with zeros, flush. */
  function ZeroOps(at: nat, n: nat): seq<Op> {
    [Op(2, at, Zeros(n)), Op(1, 0, [])]
  }

  /** The first and, on disks over 2 MiB, the last mebibyte. */
  function GptDestroyOps(totalBytes: nat): seq<Op> {
    if totalBytes > 2 * MIB then
      [Op(2, 0, Zeros(MIB)), Op(1, totalBytes - MIB, Zeros(MIB)), Op(1, 0, [])]
    else
      [Op(2, 0, Zeros(MIB)), Op(1, 0, [])]
  }

  function DestroyOps(root: nat, recovery: nat, totalBytes: nat): seq<Op> {
    HeadOps(root, recovery) + GptDestroyOps(totalBytes)
  }

  /** The beginnings of root and recovery. */
  function HeadOps(root: nat, recovery: nat): seq<Op> {
    ZeroOps(root, HEAD) + ZeroOps(recovery, HEAD)
  }

  method Zero(disk: Disk, at: nat, n: nat) returns (ok: bool)
    modifies disk, disk.data
    ensures Io(disk.State(), ok) == Exec(old(disk.State()), disk.data.Length, ZeroOps(at, n))
  {
    hide Write, Credit;
    var a, b := Op(2, at, Zeros(n)), Op(1, 0, []);
    assert ZeroOps(at, n) == [a] + [b] && [b] == [b] + [];
    ExecStep(disk.State(), disk.data.Length, a, [b]);
    ok := Perform(disk, a);
    if !ok { return; }
    ExecStep(disk.State(), disk.data.Length, b, []);
    ok := Perform(disk, b);
  }

  /** wipe.rs, `destroy_gpt`. */
  method DestroyGpt(disk: Disk, totalBytes: nat) returns (ok: bool)
    modifies disk, disk.data
    ensures Io(disk.State(), ok) == Exec(old(disk.State()), disk.data.Length, GptDestroyOps(totalBytes))
  {
    hide Step, Zeros;
    var head, sync := Op(2, 0, Zeros(MIB)), Op(1, 0, []);
    var hi := disk.data.Length;
    ghost var big := totalBytes > 2 * MIB;
    ghost var tail := Op(1, if big then totalBytes - MIB else 0, Zeros(MIB));
    assert GptDestroyOps(totalBytes) == if big then [head] + ([tail] + [sync]) else [head] + [sync];
    assert [sync] == [sync] + [];
    ExecStep(disk.State(), hi, head, if big then [tail] + [sync] else [sync]);
    ok := Perform(disk, head);
    if !ok { return; }
    if totalBytes > 2 * MIB {
      ExecStep(disk.State(), hi, tail, [sync]);
      ok := Perform(disk, Op(1, totalBytes - MIB, Zeros(MIB)));
      if !ok { return; }
    }
    ExecStep(disk.State(), hi, sync, []);
    ok := Perform(disk, sync);
  }

  method DestroyTraces(disk: Disk, root: nat, recovery: nat, totalBytes: nat) returns (ok: bool)
    modifies disk, disk.data
    ensures Io(disk.State(), ok) == Exec(old(disk.State()), disk.data.Length, DestroyOps(root, recovery, totalBytes))
  {
    hide Exec, ZeroOps, GptDestroyOps;
    ghost var a, b, c := ZeroOps(root, HEAD), ZeroOps(recovery, HEAD), GptDestroyOps(totalBytes);
    ExecAppend(disk.State(), disk.data.Length, a + b, c);
    ExecAppend(disk.State(), disk.data.Length, a, b);
    ok := Zero(disk, root, HEAD);
    if !ok { return; }
    ok := Zero(disk, recovery, HEAD);
    if !ok { return; }
    ok := DestroyGpt(disk, totalBytes);
  }

  // ---------------------------------------------------------------- the whole

  /** The window of a partition of a planned disk, in bytes. */
  function Lo(role: Role): nat {
    StartMib(role) * MIB
  }

  function Hi(role: Role, totalBytes: nat, ss: nat): int
    requires LegalSector(ss)
  {
    EndMib(role, totalBytes, ss) * MIB
  }

  lemma WindowsOrdered(totalBytes: nat, ss: nat)
    requires Fits(totalBytes, ss)
    ensures MIB <= Lo(Esp) < Hi(Esp, totalBytes, ss) == Lo(Recovery) < Hi(Recovery, totalBytes, ss) == Lo(Root)
    ensures Lo(Root) + 4094 * MIB <= Hi(Root, totalBytes, ss) && Hi(Root, totalBytes, ss) + 33 * ss <= totalBytes
  {
    RootEndBounds(totalBytes, ss);
  }

  /** What a committed wipe makes of the disk, once planning has succeeded. */
  function CommitOf(d: Dev, totalBytes: u64, ss: u64, kind: RootKind, level: Level, tools: Tools): (Dev, Result)
    requires Fits(totalBytes, ss) && |d.bytes| == totalBytes
  {
    WindowsOrdered(totalBytes, ss);
    var layer, lo, hi := ForKind(kind), Lo(Root), Hi(Root, totalBytes, ss);
    if !layer.HasOnDiskKey() then (d, NoKeyOnDisk)
    else
      var container := IsContainer(layer, tools, d.bytes, lo, hi);
      var e := if container then Erase(layer, tools, d, lo, hi) else Io(d, true);
      if !e.ok then (e.dev, EraseFailed)
      else if level.KeepsRecovery() then (e.dev, Completed(Report(container, false, false)))
      else
        var r := Exec(e.dev, totalBytes, DestroyOps(lo, Lo(Recovery), totalBytes));
        (r.dev, if r.ok then Completed(Report(container, true, true)) else OverwriteFailed)
  }

  function WipeOf(d: Dev, totalBytes: u64, ss: u64, kind: RootKind, level: Level, commit: bool, tools: Tools): (Dev,
                  Result)
    requires |d.bytes| == totalBytes
  {
    if !LegalSector(ss) then (d, PlanRefused(BadSectorSize))
    else if totalBytes < REQUIRED_BYTES then (d, PlanRefused(DiskTooSmall))
    else if !commit then (d, Completed(Report(false, false, false)))
    else CommitOf(d, totalBytes, ss, kind, level, tools)
  }

  /** What an outside tool leaves in the window `[lo, hi)`. */
  method RunTool(disk: Disk, lo: nat, hi: nat, image: bytes)
    requires lo <= hi <= disk.data.Length
    modifies disk.data
    ensures disk.data[..] == Overlay(old(disk.data[..]), lo, hi, image)
  {
    Put(disk.data, lo, image[..Min(|image|, hi - lo)]);
  }

  method EraseContainer(disk: Disk, layer: Layer, tools: Tools, lo: nat, hi: nat) returns (ok: bool)
    requires lo <= hi <= disk.data.Length
    modifies disk, disk.data
    ensures Io(disk.State(), ok) == Erase(layer, tools, old(disk.State()), lo, hi)
  {
    match layer {
      case Cgd => ok := false;
      case Softraid =>
        hide Write, Zeros;
        var d := disk;
        var a, b := Op(1, lo, Zeros(SR_DATA_OFFSET)), Op(1, 0, []);
        assert [a, b] == [a] + [b] && [b] == [b] + [];
        ExecStep(disk.State(), hi, a, [b]);
        ok := disk.Touch();
        if !ok { return; }
        ok := disk.WriteAll(hi, lo, a.data);
        if !ok { return; }
        ExecStep(disk.State(), hi, b, []);
        SyncStep(disk.State(), hi, b);
        ok := disk.Touch();
      case Luks | Geli =>
        RunTool(disk, lo, hi, tools.eraseImage);
        ok := tools.eraseOk;
    }
  }

  lemma SyncStep(d: Dev, hi: nat, op: Op)
    requires hi <= |d.bytes| && op.credits == 1 && op.data == []
    ensures Step(d, hi, op) == Credit(d, 1)
  {
  }

  /** wipe.rs, `run`. */
  method Run(disk: Disk, totalBytes: u64, ss: u64, kind: RootKind, ids: Identifiers, level: Level, commit: bool,
             tools: Tools)
    returns (r: Result)
    requires disk.data.Length == totalBytes
    modifies disk, disk.data
    ensures (disk.State(), r) == WipeOf(old(disk.State()), totalBytes, ss, kind, level, commit, tools)
  {
    hide Exec, DestroyOps, Erase, IsContainer, PlannedLayout, ByteOf, EndMib;
    var planned := Plan(totalBytes, ss, kind, ids);
    if planned.Refused? {
      return PlanRefused(planned.error);
    }
    var l := planned.layout;
    if !commit {
      return Completed(Report(false, false, false));
    }
    GetWindow(totalBytes, ss, kind, ids, Root);
    GetWindow(totalBytes, ss, kind, ids, Recovery);
    WindowsOrdered(totalBytes, ss);
    var root, recovery := l.Get(Root).value, l.Get(Recovery).value;
    var lo, hi := root.Start(ss), root.End(ss);
    var layer := ForKind(kind);
    if !layer.HasOnDiskKey() {
      return NoKeyOnDisk;
    }
    var report := Report(false, false, false);
    if IsContainer(layer, tools, disk.data[..], lo, hi) {
      var erased := EraseContainer(disk, layer, tools, lo, hi);
      if !erased { return EraseFailed; }
      report := report.(cryptoErased := true);
    }
    if !level.KeepsRecovery() {
      var ok := DestroyTraces(disk, lo, recovery.Start(ss), totalBytes);
      if !ok { return OverwriteFailed; }
      report := report.(recoveryDestroyed := true, gptDestroyed := true);
    }
    r := Completed(report);
  }

  lemma GetWindow(totalBytes: u64, ss: u64, kind: RootKind, ids: Identifiers, role: Role)
    requires Fits(totalBytes, ss)
    ensures var p := PlannedLayout(totalBytes, ss, kind, ids).Get(role);
            p.Some? && p.value.Start(ss) == Lo(role) && p.value.End(ss) == Hi(role, totalBytes, ss)
            && p.value.Sectors() * ss == Hi(role, totalBytes, ss) - Lo(role)
  {
    GetPlanned(totalBytes, ss, kind, ids, role);
    PlannedBytes(totalBytes, ss, kind, ids, role);
    hide PlannedPartition, PlannedLayout, EndMib, StartMib;
    var p := PlannedPartition(role, totalBytes, ss, kind, ids);
    MulMinus(p.lastLba + 1, p.firstLba, ss);
  }

  // ---------------------------------------------------------------- what survives

  /** Without commit, on a refused plan and where no key is on the disk, nothing is written at all. */
  lemma NothingWritten(d: Dev, totalBytes: u64, ss: u64, kind: RootKind, level: Level, commit: bool, tools: Tools)
    requires |d.bytes| == totalBytes
    requires !commit || !Fits(totalBytes, ss) || kind == NetBsdCgd || kind == NetBsdFfs
    ensures WipeOf(d, totalBytes, ss, kind, level, commit, tools).0 == d
  {
  }

  /**
   Reset and Factory change nothing outside root, wherever the wipe stops and whatever the tools do to root, and never
   report that they destroyed the recovery system or the table.
   */
  lemma ResetKeepsTheRest(d: Dev, totalBytes: u64, ss: u64, kind: RootKind, level: Level, commit: bool, tools: Tools)
    requires Fits(totalBytes, ss) && |d.bytes| == totalBytes && (level == Reset || level == Factory)
    ensures var (after, r) := WipeOf(d, totalBytes, ss, kind, level, commit, tools);
            && SameOutside(after.bytes, d.bytes, Lo(Root), Hi(Root, totalBytes, ss))
            && (r.Completed? ==> !r.report.gptDestroyed && !r.report.recoveryDestroyed)
  {
    hide Erase, IsContainer, EndMib;
    WindowsOrdered(totalBytes, ss);
  }

  /** Whether a committed wipe finds a container to erase. */
  predicate Finds(kind: RootKind, tools: Tools, disk: bytes, lo: nat)
    requires lo + 8200 <= |disk|
  {
    tools.probes && (kind == OpenBsdData ==> forall i :: 0 <= i < 8 ==> disk[lo + 8192 + i] == "marcCRAM"[i] as int)
  }

  /**
   Reset and Factory erase what they find and nothing else. They complete exactly when the key is on the disk and a
   container that is found can be erased; they report an erasure exactly when they found one; and then a softraid root
   begins with 528 zero sectors and the others are as their tool left them.
   */
  lemma KeepingWipeIff(d: Dev, totalBytes: u64, ss: u64, kind: RootKind, level: Level, tools: Tools)
    requires Fits(totalBytes, ss) && |d.bytes| == totalBytes && (level == Reset || level == Factory)
    ensures Lo(Root) + 270336 <= Hi(Root, totalBytes, ss) <= totalBytes
    ensures var (after, r) := WipeOf(d, totalBytes, ss, kind, level, true, tools);
            var lo, hi := Lo(Root), Hi(Root, totalBytes, ss);
            var found := Finds(kind, tools, d.bytes, lo);
            && (r == NoKeyOnDisk <==> kind == NetBsdCgd || kind == NetBsdFfs)
            && (r.Completed? <==> && kind != NetBsdCgd && kind != NetBsdFfs
                                  && (found ==> if kind == OpenBsdData then d.budget >= 270338 else tools.eraseOk))
            && (r.Completed? ==>
                  && r.report == Report(found, false, false)
                  && after.bytes == if !found then d.bytes
                                    else if kind == OpenBsdData then Splice(d.bytes, lo, Zeros(270336))
                                    else Overlay(d.bytes, lo, hi, tools.eraseImage))
  {
    hide IsContainer, EndMib, EraseSoftraid, Zeros;
    WindowsOrdered(totalBytes, ss);
    var lo, hi := Lo(Root), Hi(Root, totalBytes, ss);
    ContainerIff(kind, tools, d.bytes, lo, hi);
    KeyOnDiskIff(kind);
    EraseSoftraidIff(d, lo, hi);
  }

  /** Before anything is looked at on the disk: refused plans and dry runs. */
  lemma WipeRefusals(d: Dev, totalBytes: u64, ss: u64, kind: RootKind, level: Level, commit: bool, tools: Tools)
    requires |d.bytes| == totalBytes
    ensures var r := WipeOf(d, totalBytes, ss, kind, level, commit, tools).1;
            && (r == PlanRefused(BadSectorSize) <==> ss !in {512, 1024, 2048, 4096})
            && (r == PlanRefused(DiskTooSmall) <==> ss in {512, 1024, 2048, 4096} && totalBytes < 6979321856)
            && (!commit && Fits(totalBytes, ss) ==> r == Completed(Report(false, false, false)))
  {
    hide CommitOf;
    CommitNeverRefuses(d, totalBytes, ss, kind, level, tools);
  }

  lemma CommitNeverRefuses(d: Dev, totalBytes: u64, ss: u64, kind: RootKind, level: Level, tools: Tools)
    requires |d.bytes| == totalBytes
    ensures Fits(totalBytes, ss) ==> !CommitOf(d, totalBytes, ss, kind, level, tools).1.PlanRefused?
  {
    hide Erase, IsContainer, EndMib, Exec, DestroyOps;
  }

  // ---------------------------------------------------------------- what Destroy removes

  predicate ZeroAt(disk: bytes, at: nat, n: nat) {
    at + n <= |disk| && disk[at..at + n] == Zeros(n)
  }

  /** Everything the last level overwrites. */
  predicate Destroyed(disk: bytes, totalBytes: nat)
    requires totalBytes >= MIB
  {
    && ZeroAt(disk, Lo(Root), HEAD) && ZeroAt(disk, Lo(Recovery), HEAD)
    && ZeroAt(disk, 0, MIB) && ZeroAt(disk, totalBytes - MIB, MIB)
  }

  /** The two heads lie inside their partitions. */
  lemma HeadsInside(totalBytes: nat, ss: nat)
    requires Fits(totalBytes, ss)
    ensures Lo(Root) + HEAD <= Hi(Root, totalBytes, ss) && Lo(Recovery) + HEAD <= Hi(Recovery, totalBytes, ss)
  {
    WindowsOrdered(totalBytes, ss);
  }

  lemma DestroyLeavesZeros(d: Dev, totalBytes: nat)
    requires totalBytes >= REQUIRED_BYTES && |d.bytes| == totalBytes
    requires Exec(d, totalBytes, DestroyOps(Lo(Root), Lo(Recovery), totalBytes)).ok
    ensures Destroyed(Exec(d, totalBytes, DestroyOps(Lo(Root), Lo(Recovery), totalBytes)).dev.bytes, totalBytes)
  {
    hide HeadOps, GptDestroyOps, Exec, Zeros, ZeroAt;
    var heads, ends := HeadOps(Lo(Root), Lo(Recovery)), GptDestroyOps(totalBytes);
    ExecAppend(d, totalBytes, heads, ends);
    HeadsOnly(d, totalBytes, 0);
    EndsOnly(Exec(d, totalBytes, heads).dev, totalBytes);
  }

  /** A sector that begins with a zero is no table header. */
  lemma ZeroIsNoHeader(disk: bytes, ss: nat, lba: nat)
    requires ByteOf(lba, ss) < |disk| && disk[ByteOf(lba, ss)] == 0 && ss > 0
    ensures ReadTable(disk, ss, lba) == None
  {
    hide ParseEntries, FromLe;
    var at := ByteOf(lba, ss);
    if at + ss <= |disk| {
      var h := disk[at..at + ss];
      assert h[0] == 0;
      if |h| >= 8 {
        assert h[..8] != SIGNATURE by {
          assert h[..8][0] == 0;
        }
      }
    }
  }

  /** Destruction leaves neither copy of a table, whatever tables were there. */
  lemma DestroyedIsUnreadable(disk: bytes, totalBytes: u64, ss: u64)
    requires Fits(totalBytes, ss) && |disk| == totalBytes && Destroyed(disk, totalBytes)
    ensures NoTable(disk, ss, totalBytes / ss)
  {
    PlannedPositions(totalBytes, ss);
    hide RootEndMib, EntryArraySectors, ReadTable, Zeros;
    var last := ByteOf(totalBytes / ss - 1, ss);
    assert ByteOf(1, ss) == ss;
    ZeroByte(disk, 0, MIB, ss);
    ZeroByte(disk, totalBytes - MIB, MIB, last);
    ZeroIsNoHeader(disk, ss, 1);
    ZeroIsNoHeader(disk, ss, totalBytes / ss - 1);
  }

  lemma ZeroByte(disk: bytes, at: nat, n: nat, i: nat)
    requires ZeroAt(disk, at, n) && at <= i < at + n
    ensures disk[i] == 0
  {
    assert disk[at..at + n][i - at] == 0;
  }

  /**
   A mebibyte at either end is enough: it covers everything the writer puts on a planned disk, at every sector size
   and also when the disk is not a whole number of sectors.
   */
  lemma DestroyCoversTable(totalBytes: u64, ss: u64, kind: RootKind, ids: Identifiers)
    requires Fits(totalBytes, ss)
    ensures var l := PlannedLayout(totalBytes, ss, kind, ids);
            Writable(l) && forall i :: 0 <= i < |GptOps(l)| ==>
              var op := GptOps(l)[i];
              op.at + |op.data| <= MIB || (totalBytes - MIB <= op.at && op.at + |op.data| <= totalBytes)
  {
    PlannedIsWritable(totalBytes, ss, kind, ids);
    PlannedPositions(totalBytes, ss);
    PlannedHead(totalBytes, ss, kind, ids);
    hide PlannedLayout, RootEndMib, EntryArraySectors, ByteOf, Storable, TableFits;
    EndsCoverTable(PlannedLayout(totalBytes, ss, kind, ids), totalBytes);
  }

  lemma EndsCoverTable(l: Layout, totalBytes: nat)
    requires TableFits(l, totalBytes) && l.sectorSize <= 4096
    requires totalBytes < WholeBytes(l) + l.sectorSize && 2 * MIB <= totalBytes
    ensures forall i :: 0 <= i < |GptOps(l)| ==>
              var op := GptOps(l)[i];
              op.at + |op.data| <= MIB || (totalBytes - MIB <= op.at && op.at + |op.data| <= totalBytes)
  {
    hide GptOps, Header, EntryArray, ProtectiveMbr, ByteOf, Zeros, EntryArraySectors, PrimaryFields, BackupFields;
    GptOpsAre(l);
  }

  /** Neither copy is readable, whatever legal sector size the disk is read with. */
  ghost predicate NoTableAtAll(disk: bytes, totalBytes: nat) {
    forall ss: nat :: LegalSector(ss) ==> NoTable(disk, ss, totalBytes / ss)
  }

  /**
   A completed wipe at the last level has removed everything it says, and both copies of the table, whatever sector
   size the disk is read with.
   */
  lemma DestroyIsThorough(d: Dev, totalBytes: u64, ss: u64, kind: RootKind, tools: Tools)
    requires Fits(totalBytes, ss) && |d.bytes| == totalBytes
    requires WipeOf(d, totalBytes, ss, kind, Destroy, true, tools).1.Completed?
    ensures var (after, r) := WipeOf(d, totalBytes, ss, kind, Destroy, true, tools);
            && r.report.gptDestroyed && r.report.recoveryDestroyed && |after.bytes| == totalBytes
            && Destroyed(after.bytes, totalBytes)
            && NoTableAtAll(after.bytes, totalBytes)
  {
    hide DestroyOps, Erase, IsContainer, Destroyed, NoTable, EndMib, Exec;
    WindowsOrdered(totalBytes, ss);
    var layer, lo, hi := ForKind(kind), Lo(Root), Hi(Root, totalBytes, ss);
    var e := if IsContainer(layer, tools, d.bytes, lo, hi) then Erase(layer, tools, d, lo, hi) else Io(d, true);
    DestroyLeavesZeros(e.dev, totalBytes);
    var after := WipeOf(d, totalBytes, ss, kind, Destroy, true, tools).0.bytes;
    forall s: nat | LegalSector(s) ensures NoTable(after, s, totalBytes / s) {
      DestroyedIsUnreadable(after, totalBytes, s);
    }
  }

  /**
   The key goes first and the table last: at every point where the last level can stop, if anything outside root and
   recovery has changed, then the beginnings of both are zero already, and a container that was found has been erased.
   */
  lemma TableGoesLast(d: Dev, totalBytes: u64, ss: u64, kind: RootKind, tools: Tools, i: nat)
    requires Fits(totalBytes, ss) && |d.bytes| == totalBytes && i < totalBytes
    requires !(Lo(Recovery) <= i < Hi(Root, totalBytes, ss))
    requires WipeOf(d, totalBytes, ss, kind, Destroy, true, tools).0.bytes[i] != d.bytes[i]
    ensures Lo(Root) <= Hi(Root, totalBytes, ss) <= totalBytes
    ensures var after := WipeOf(d, totalBytes, ss, kind, Destroy, true, tools).0.bytes;
            && ZeroAt(after, Lo(Root), HEAD) && ZeroAt(after, Lo(Recovery), HEAD)
            && (IsContainer(ForKind(kind), tools, d.bytes, Lo(Root), Hi(Root, totalBytes, ss)) ==>
                  Erase(ForKind(kind), tools, d, Lo(Root), Hi(Root, totalBytes, ss)).ok)
  {
    hide DestroyOps, Erase, IsContainer, EndMib, Exec, Zeros;
    WindowsOrdered(totalBytes, ss);
    var layer, lo, hi := ForKind(kind), Lo(Root), Hi(Root, totalBytes, ss);
    var e := if IsContainer(layer, tools, d.bytes, lo, hi) then Erase(layer, tools, d, lo, hi) else Io(d, true);
    if e.ok {
      HeadsInside(totalBytes, ss);
      HeadsBeforeTable(e.dev, totalBytes, i);
    }
  }

  /**
   And root before recovery: if anything outside root has changed, the beginning of root is zero already, and a
   container that was found has been erased.
   */
  lemma RootGoesFirst(d: Dev, totalBytes: u64, ss: u64, kind: RootKind, tools: Tools, i: nat)
    requires Fits(totalBytes, ss) && |d.bytes| == totalBytes && i < totalBytes
    requires !(Lo(Root) <= i < Hi(Root, totalBytes, ss))
    requires WipeOf(d, totalBytes, ss, kind, Destroy, true, tools).0.bytes[i] != d.bytes[i]
    ensures Lo(Root) <= Hi(Root, totalBytes, ss) <= totalBytes
    ensures var after := WipeOf(d, totalBytes, ss, kind, Destroy, true, tools).0.bytes;
            && ZeroAt(after, Lo(Root), HEAD)
            && (IsContainer(ForKind(kind), tools, d.bytes, Lo(Root), Hi(Root, totalBytes, ss)) ==>
                  Erase(ForKind(kind), tools, d, Lo(Root), Hi(Root, totalBytes, ss)).ok)
  {
    hide DestroyOps, Erase, IsContainer, EndMib, Exec, Zeros;
    WindowsOrdered(totalBytes, ss);
    var layer, lo, hi := ForKind(kind), Lo(Root), Hi(Root, totalBytes, ss);
    var e := if IsContainer(layer, tools, d.bytes, lo, hi) then Erase(layer, tools, d, lo, hi) else Io(d, true);
    if e.ok {
      HeadsInside(totalBytes, ss);
      RootBeforeRest(e.dev, totalBytes, i);
    }
  }

  lemma RootBeforeRest(d: Dev, totalBytes: nat, i: nat)
    requires totalBytes >= REQUIRED_BYTES && |d.bytes| == totalBytes && i < totalBytes
    requires !(Lo(Root) <= i < Lo(Root) + HEAD)
    requires Exec(d, totalBytes, DestroyOps(Lo(Root), Lo(Recovery), totalBytes)).dev.bytes[i] != d.bytes[i]
    ensures ZeroAt(Exec(d, totalBytes, DestroyOps(Lo(Root), Lo(Recovery), totalBytes)).dev.bytes, Lo(Root), HEAD)
  {
    hide HeadOps, GptDestroyOps, Exec, Zeros, ZeroAt;
    var heads, ends := HeadOps(Lo(Root), Lo(Recovery)), GptDestroyOps(totalBytes);
    ExecAppend(d, totalBytes, heads, ends);
    RootHeadFirst(d, totalBytes, i);
    EndsOnly(Exec(d, totalBytes, heads).dev, totalBytes);
  }

  /** Of the first two overwrites, that of root comes first, and the other one leaves it alone. */
  lemma RootHeadFirst(d: Dev, totalBytes: nat, i: nat)
    requires totalBytes >= REQUIRED_BYTES && |d.bytes| == totalBytes && i < totalBytes
    requires !(Lo(Root) <= i < Lo(Root) + HEAD)
    ensures var h := Exec(d, totalBytes, HeadOps(Lo(Root), Lo(Recovery)));
            h.ok || h.dev.bytes[i] != d.bytes[i] ==> ZeroAt(h.dev.bytes, Lo(Root), HEAD)
  {
    hide Zeros, Exec;
    var a, b := ZeroOps(Lo(Root), HEAD), ZeroOps(Lo(Recovery), HEAD);
    assert a[0] == Op(2, Lo(Root), Zeros(HEAD)) && a[1] == Op(1, 0, []) && |a| == 2;
    assert b[0] == Op(2, Lo(Recovery), Zeros(HEAD)) && b[1] == Op(1, 0, []) && |b| == 2;
    hide ZeroOps;
    ExecAppend(d, totalBytes, a, b);
    ExecAvoids(d, totalBytes, a, i, i + 1);
    var m := Exec(d, totalBytes, a);
    assert m.dev.bytes[i..i + 1][0] == d.bytes[i..i + 1][0];
    if m.ok {
      ExecHolds(d, totalBytes, a, 0);
      ExecAvoids(m.dev, totalBytes, b, Lo(Root), Lo(Root) + HEAD);
    }
  }

  lemma HeadsBeforeTable(d: Dev, totalBytes: nat, i: nat)
    requires totalBytes >= REQUIRED_BYTES && |d.bytes| == totalBytes && i < totalBytes
    requires !(Lo(Recovery) <= i < Lo(Recovery) + HEAD) && !(Lo(Root) <= i < Lo(Root) + HEAD)
    requires Exec(d, totalBytes, DestroyOps(Lo(Root), Lo(Recovery), totalBytes)).dev.bytes[i] != d.bytes[i]
    ensures var after := Exec(d, totalBytes, DestroyOps(Lo(Root), Lo(Recovery), totalBytes)).dev.bytes;
            ZeroAt(after, Lo(Root), HEAD) && ZeroAt(after, Lo(Recovery), HEAD)
  {
    hide HeadOps, GptDestroyOps, Exec, Zeros, ZeroAt;
    var heads, ends := HeadOps(Lo(Root), Lo(Recovery)), GptDestroyOps(totalBytes);
    ExecAppend(d, totalBytes, heads, ends);
    HeadsOnly(d, totalBytes, i);
    EndsOnly(Exec(d, totalBytes, heads).dev, totalBytes);
  }

  /** The first two overwrites reach nothing else, and once both are through both heads are zero. */
  lemma HeadsOnly(d: Dev, totalBytes: nat, i: nat)
    requires |d.bytes| == totalBytes && i < totalBytes
    requires !(Lo(Recovery) <= i < Lo(Recovery) + HEAD) && !(Lo(Root) <= i < Lo(Root) + HEAD)
    ensures var h := Exec(d, totalBytes, HeadOps(Lo(Root), Lo(Recovery)));
            && h.dev.bytes[i] == d.bytes[i]
            && (h.ok ==> ZeroAt(h.dev.bytes, Lo(Root), HEAD) && ZeroAt(h.dev.bytes, Lo(Recovery), HEAD))
  {
    hide Zeros, Exec;
    var heads := HeadOps(Lo(Root), Lo(Recovery));
    assert heads[0] == Op(2, Lo(Root), Zeros(HEAD)) && heads[2] == Op(2, Lo(Recovery), Zeros(HEAD));
    assert |heads| == 4 && heads[1] == heads[3] == Op(1, 0, []);
    hide HeadOps;
    ExecAvoids(d, totalBytes, heads, i, i + 1);
    var a := Exec(d, totalBytes, heads).dev.bytes;
    assert a[i..i + 1][0] == d.bytes[i..i + 1][0];
    if Exec(d, totalBytes, heads).ok {
      ExecHolds(d, totalBytes, heads, 0);
      ExecHolds(d, totalBytes, heads, 2);
    }
  }

  /** The last two overwrite both ends and leave the heads alone. */
  lemma EndsOnly(d: Dev, totalBytes: nat)
    requires totalBytes >= REQUIRED_BYTES && |d.bytes| == totalBytes
    ensures var e := Exec(d, totalBytes, GptDestroyOps(totalBytes));
            && (ZeroAt(d.bytes, Lo(Root), HEAD) ==> ZeroAt(e.dev.bytes, Lo(Root), HEAD))
            && (ZeroAt(d.bytes, Lo(Recovery), HEAD) ==> ZeroAt(e.dev.bytes, Lo(Recovery), HEAD))
            && (e.ok ==> ZeroAt(e.dev.bytes, 0, MIB) && ZeroAt(e.dev.bytes, totalBytes - MIB, MIB))
  {
    hide Zeros, Exec;
    var ends := GptDestroyOps(totalBytes);
    assert ends[0] == Op(2, 0, Zeros(MIB)) && ends[1] == Op(1, totalBytes - MIB, Zeros(MIB));
    assert |ends| == 3 && ends[2] == Op(1, 0, []);
    hide GptDestroyOps;
    if Exec(d, totalBytes, ends).ok {
      ExecHolds(d, totalBytes, ends, 0);
      ExecHolds(d, totalBytes, ends, 1);
    }
    ExecAvoids(d, totalBytes, ends, Lo(Root), Lo(Root) + HEAD);
    ExecAvoids(d, totalBytes, ends, Lo(Recovery), Lo(Recovery) + HEAD);
  }

  // ---------------------------------------------------------------- no container is left

  /** Zeros at the front of a partition hold no softraid magic. */
  lemma ZeroHeadIsNoContainer(disk: bytes, later: Tools, lo: nat, hi: nat)
    requires ZeroAt(disk, lo, HEAD) && lo <= hi <= |disk|
    ensures !IsContainer(Softraid, later, disk, lo, hi)
  {
    hide Zeros;
    ZeroByte(disk, lo, HEAD, lo + SR_META_OFFSET);
  }

  /**
   After a completed wipe of an OpenBSD root, whoever looks finds a container in exactly one case: there was one
   before, the level keeps the recovery system, and the probe of the wipe could not read that far, so that it erased
   nothing.
   */
  lemma ContainerLeftIff(d: Dev, totalBytes: u64, ss: u64, level: Level, tools: Tools, later: Tools)
    requires Fits(totalBytes, ss) && |d.bytes| == totalBytes
    requires WipeOf(d, totalBytes, ss, OpenBsdData, level, true, tools).1.Completed?
    ensures 0 <= Lo(Root) <= Hi(Root, totalBytes, ss) <= totalBytes
    ensures var after := WipeOf(d, totalBytes, ss, OpenBsdData, level, true, tools).0.bytes;
            var lo, hi := Lo(Root), Hi(Root, totalBytes, ss);
            |after| == totalBytes &&
            (IsContainer(Softraid, later, after, lo, hi)
             <==> && (level == Reset || level == Factory) && !tools.probes
                  && IsContainer(Softraid, later, d.bytes, lo, hi))
  {
    WindowsOrdered(totalBytes, ss);
    if level != Destroy {
      hide Erase, EndMib, DestroyOps, Exec;
      var lo, hi := Lo(Root), Hi(Root, totalBytes, ss);
      if IsContainer(Softraid, tools, d.bytes, lo, hi) {
        ErasedIsNoContainer(d, tools, later, lo, hi);
      }
    } else {
      hide Erase, EndMib, DestroyOps, Exec, IsContainer, ZeroAt, NoTable;
      DestroyIsThorough(d, totalBytes, ss, OpenBsdData, tools);
      var after := WipeOf(d, totalBytes, ss, OpenBsdData, level, true, tools).0.bytes;
      ZeroHeadIsNoContainer(after, later, Lo(Root), Hi(Root, totalBytes, ss));
    }
  }
}

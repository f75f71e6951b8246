/** Planner, writer and reader together: what is on a disk after the table of a layout was written to it. */
module GptOnDisk {
  import opened Bytes
  import opened Crc32
  import opened Device
  import opened DiskLayout
  import opened Gpt
  import opened GptReader

  // ---------------------------------------------------------------- where the table goes

  /** The bytes of the whole sectors of a disk. A last partial sector is never used. */
  function WholeBytes(l: Layout): nat {
    ByteOf(l.totalSectors, l.sectorSize)
  }

  /** Both copies have their place: one right behind the first sector, one right at the end of the whole sectors. */
  predicate TableFits(l: Layout, totalBytes: nat) {
    var ss, e := l.sectorSize, WholeBytes(l);
    && Writable(l)
    && ByteOf(1, ss) == ss && ByteOf(2, ss) == 2 * ss
    && ByteOf(BackupEntryLba(l), ss) == e - ss - ARRAY_BYTES
    && ByteOf(l.totalSectors - 1, ss) == e - ss
    && 3 * ss + 2 * ARRAY_BYTES <= e <= totalBytes
    && 512 <= ss
  }

  /** Every number fits its field and the partitions are numbered from one. */
  predicate Storable(l: Layout) {
    && Writable(l) && FieldsFit(PrimaryFields(l)) && FieldsFit(BackupFields(l))
    && Numbered(l.partitions, 0) && |l.partitions| <= ENTRY_COUNT
  }

  /** Bytes `[from, to)` lie between the end of the first array and the start of the second. */
  predicate ClearOfTable(from: nat, to: nat, l: Layout) {
    2 * l.sectorSize + ARRAY_BYTES <= from && to + l.sectorSize + ARRAY_BYTES <= WholeBytes(l)
  }

  /** The writes of a table lie inside the disk, do not overlap one another, and meet nothing between the arrays. */
  lemma TableRegions(l: Layout, totalBytes: nat)
    requires TableFits(l, totalBytes)
    ensures var ops := GptOps(l);
            && |ops| == 8
            && (forall i :: 0 <= i < 8 ==> ops[i].at + |ops[i].data| <= totalBytes)
            && Disjoint(ops)
            && (forall i, from, to :: 0 <= i < 8 && ClearOfTable(from, to, l) ==> ops[i].Avoids(from, to))
  {
    hide GptOps, Header, EntryArray, ProtectiveMbr, ByteOf, Zeros, EntryArraySectors, PrimaryFields, BackupFields;
    GptOpsAre(l);
  }

  /** Whatever happens while the table is written, nothing between the two arrays changes. */
  lemma WriterKeeps(d: Dev, l: Layout, from: nat, to: nat)
    requires TableFits(l, |d.bytes|) && from <= to <= |d.bytes| && ClearOfTable(from, to, l)
    ensures WriteGptOf(d, l).0.bytes[from..to] == d.bytes[from..to]
  {
    TableRegions(l, |d.bytes|);
    hide GptOps, TableFits, Writable, Exec;
    ExecAvoids(d, |d.bytes|, GptOps(l), from, to);
  }

  lemma UsableBytes(l: Layout, totalBytes: nat)
    requires TableFits(l, totalBytes)
    ensures Writable(l) && l.sectorSize > 0 && LastUsable(l) >= FirstUsable(l) - 1
    ensures FirstUsable(l) * l.sectorSize == 2 * l.sectorSize + ARRAY_BYTES
    ensures (LastUsable(l) + 1) * l.sectorSize == WholeBytes(l) - l.sectorSize - ARRAY_BYTES
  {
    hide EntryArraySectors;
    UsableArithmetic(l.totalSectors, EntryArraySectors(l.sectorSize), l.sectorSize);
  }

  lemma UsableArithmetic(t: int, n: int, ss: nat)
    requires ss > 0 && (t - 1 - n) * ss == t * ss - ss - ARRAY_BYTES && 3 * ss + 2 * ARRAY_BYTES <= t * ss
    ensures (2 + n) * ss == 2 * ss + ARRAY_BYTES && 2 + n <= t - 1 - n
  {
    MulMinus(t, 1 + n, ss);
    var x, y := (1 + n) * ss, (t - 1 - n) * ss;
    assert x == ss + ARRAY_BYTES;
    MulMinus(2 + n, 1, ss);
    MulOrder(2 + n, t - 1 - n, ss);
  }

  /** The usable range both headers declare is exactly what lies between the two arrays. */
  lemma UsableIsBetween(l: Layout, totalBytes: nat)
    requires TableFits(l, totalBytes)
    ensures |GptOps(l)| == 8
    ensures ByteOf(FirstUsable(l), l.sectorSize) == GptOps(l)[3].at + ARRAY_BYTES
    ensures ByteOf(LastUsable(l) + 1, l.sectorSize) == GptOps(l)[4].at
  {
    hide GptOps, Header, EntryArray, ProtectiveMbr, Zeros, EntryArraySectors, PrimaryFields, BackupFields, FirstUsable,
         LastUsable;
    GptOpsAre(l);
    UsableBytes(l, totalBytes);
  }

  /** A layout is refused exactly when some partition meets one of the arrays or what is behind them. */
  lemma RefusedIff(d: Dev, l: Layout)
    requires TableFits(l, |d.bytes|)
    ensures WriteGptOf(d, l).1.OutsideUsable?
       <==> exists p :: p in l.partitions && !ClearOfTable(p.Start(l.sectorSize), p.End(l.sectorSize), l)
    ensures WriteGptOf(d, l).1.OutsideUsable? ==> WriteGptOf(d, l).0 == d
  {
    hide GptOps, Exec, EntryArraySectors, TableFits, Writable, WholeBytes;
    FitsIsWritable(l, |d.bytes|);
    var ps := l.partitions;
    forall p | p in ps
      ensures ClearOfTable(p.Start(l.sectorSize), p.End(l.sectorSize), l)
         <==> FirstUsable(l) <= p.firstLba && p.lastLba <= LastUsable(l)
    {
      ClearIff(l, |d.bytes|, p);
    }
    assert forall i :: 0 <= i < |ps| ==> ps[i] in ps;
  }

  lemma ClearIff(l: Layout, totalBytes: nat, p: Partition)
    requires TableFits(l, totalBytes)
    ensures ClearOfTable(p.Start(l.sectorSize), p.End(l.sectorSize), l)
       <==> FirstUsable(l) <= p.firstLba && p.lastLba <= LastUsable(l)
  {
    UsableBytes(l, totalBytes);
    hide TableFits, EntryArraySectors, FirstUsable, LastUsable, WholeBytes, Writable;
    MulOrder(FirstUsable(l), p.firstLba, l.sectorSize);
    MulOrder(p.lastLba + 1, LastUsable(l) + 1, l.sectorSize);
  }

  lemma MulOrder(x: int, y: int, z: nat)
    requires z > 0
    ensures x <= y <==> x * z <= y * z
  {
    MulMonotone(x, y, z);
    MulMonotone(y + 1, x, z);
    MulMinus(y + 1, 1, z);
  }

  lemma FitsIsWritable(l: Layout, totalBytes: nat)
    requires TableFits(l, totalBytes)
    ensures Writable(l)
  {
  }

  // ---------------------------------------------------------------- round trip

  ghost predicate PrimaryPresent(disk: bytes, l: Layout)
    requires Writable(l)
  {
    var ss := l.sectorSize;
    && 2 * ss + ARRAY_BYTES <= |disk|
    && disk[ss..ss + HEADER_SIZE] == Header(PrimaryFields(l))
    && disk[2 * ss..2 * ss + ARRAY_BYTES] == EntryArray(l.partitions)
  }

  ghost predicate BackupPresent(disk: bytes, l: Layout)
    requires Writable(l)
  {
    var ss := l.sectorSize;
    var header, entries := ByteOf(l.totalSectors - 1, ss), ByteOf(BackupEntryLba(l), ss);
    && header + ss <= |disk| && entries + ARRAY_BYTES <= |disk|
    && disk[header..header + HEADER_SIZE] == Header(BackupFields(l))
    && disk[entries..entries + ARRAY_BYTES] == EntryArray(l.partitions)
  }

  /** The table a reader should find in the copy whose other copy is in sector `alternate`. */
  function TableOf(l: Layout, alternate: nat): Table
    requires Writable(l)
  {
    Table(l.diskGuid, alternate, FirstUsable(l), LastUsable(l), EntriesOf(l.partitions))
  }

  lemma CopyReads(disk: bytes, l: Layout, f: HeaderFields)
    requires Writable(l) && FieldsFit(f) && Numbered(l.partitions, 0) && |l.partitions| <= ENTRY_COUNT
    requires f == PrimaryFields(l) || f == BackupFields(l)
    requires var (ss, at, from) := (l.sectorSize, ByteOf(f.myLba, l.sectorSize), ByteOf(f.entryLba, l.sectorSize));
             && at + ss <= |disk| && disk[at..at + HEADER_SIZE] == Header(f)
             && from + ARRAY_BYTES <= |disk| && disk[from..from + ARRAY_BYTES] == EntryArray(l.partitions)
    ensures ReadTable(disk, l.sectorSize, f.myLba) == Some(TableOf(l, f.alternateLba))
  {
    hide Header, EntryArray, ParseEntries, HeaderValid, ParseHeader, CrcNat, PutEntries, Numbered;
    var ss, at := l.sectorSize, ByteOf(f.myLba, l.sectorSize);
    var h := disk[at..at + ss];
    assert h[..HEADER_SIZE] == disk[at..at + HEADER_SIZE];
    HeaderReads(h, f);
    EntryArrayReads(l.partitions);
    assert EntrySizeValid(ENTRY_SIZE) by {
      assert IsPowerOfTwo(1);
    }
    assert ByteOf(ENTRY_COUNT, ENTRY_SIZE) == ARRAY_BYTES;
  }

  /** The primary copy alone is enough to read the layout back. */
  lemma PrimaryReads(disk: bytes, l: Layout)
    requires Storable(l) && TableFits(l, |disk|) && PrimaryPresent(disk, l)
    ensures ReadTable(disk, l.sectorSize, 1) == Some(TableOf(l, l.totalSectors - 1))
  {
    hide Numbered, Header, EntryArray, ReadTable, FieldsFit, EntryArraySectors, ByteOf;
    CopyReads(disk, l, PrimaryFields(l));
  }

  /** So is the backup copy. */
  lemma BackupReads(disk: bytes, l: Layout)
    requires Storable(l) && BackupPresent(disk, l)
    ensures ReadTable(disk, l.sectorSize, l.totalSectors - 1) == Some(TableOf(l, 1))
  {
    hide Numbered, Header, EntryArray, ReadTable, FieldsFit, EntryArraySectors, ByteOf;
    CopyReads(disk, l, BackupFields(l));
  }

  /** Each copy by itself reads as the layout. */
  ghost predicate ReadsBack(disk: bytes, l: Layout)
    requires Writable(l)
  {
    && ReadTable(disk, l.sectorSize, 1) == Some(TableOf(l, l.totalSectors - 1))
    && ReadTable(disk, l.sectorSize, l.totalSectors - 1) == Some(TableOf(l, 1))
  }

  /** Neither copy is readable as any table. */
  ghost predicate NoTable(disk: bytes, ss: nat, totalSectors: nat) {
    totalSectors >= 1 && ReadTable(disk, ss, 1) == None && ReadTable(disk, ss, totalSectors - 1) == None
  }

  /** Changes confined to a stretch between the arrays leave both copies. */
  lemma CopiesStay(a: bytes, b: bytes, l: Layout, from: nat, to: nat)
    requires TableFits(l, |a|) && ClearOfTable(from, to, l) && SameOutside(b, a, from, to)
    requires PrimaryPresent(a, l) && BackupPresent(a, l)
    ensures PrimaryPresent(b, l) && BackupPresent(b, l)
  {
    hide ByteOf, Header, EntryArray, PrimaryFields, BackupFields, EntryArraySectors;
    var ss := l.sectorSize;
    var header, entries := ByteOf(l.totalSectors - 1, ss), ByteOf(BackupEntryLba(l), ss);
    SameOutsideSlice(b, a, from, to, ss, ss + HEADER_SIZE);
    SameOutsideSlice(b, a, from, to, 2 * ss, 2 * ss + ARRAY_BYTES);
    SameOutsideSlice(b, a, from, to, header, header + HEADER_SIZE);
    SameOutsideSlice(b, a, from, to, entries, entries + ARRAY_BYTES);
  }

  /** After the writer reported success both copies are on the disk. */
  lemma WrittenIsPresent(d: Dev, l: Layout)
    requires TableFits(l, |d.bytes|) && WriteGptOf(d, l).1 == Written
    ensures PrimaryPresent(WriteGptOf(d, l).0.bytes, l) && BackupPresent(WriteGptOf(d, l).0.bytes, l)
  {
    hide GptOps, Header, EntryArray, ByteOf, ProtectiveMbr, Zeros, EntryArraySectors, PrimaryFields, BackupFields, Exec;
    TableRegions(l, |d.bytes|);
    GptOpsAre(l);
    hide Disjoint;
    var ops := GptOps(l);
    assert Exec(d, |d.bytes|, ops).ok && WriteGptOf(d, l).0 == Exec(d, |d.bytes|, ops).dev;
    ExecHoldsAll(d, |d.bytes|, ops, 1);
    ExecHoldsAll(d, |d.bytes|, ops, 3);
    ExecHoldsAll(d, |d.bytes|, ops, 4);
    ExecHoldsAll(d, |d.bytes|, ops, 5);
  }

  /** And sector 0 keeps software that knows no GPT away from the whole disk. */
  lemma WrittenIsProtected(d: Dev, l: Layout)
    requires TableFits(l, |d.bytes|) && WriteGptOf(d, l).1 == Written
    ensures MbrProtects(WriteGptOf(d, l).0.bytes, l.totalSectors)
  {
    hide GptOps, Header, EntryArray, ByteOf, ProtectiveMbr, Zeros, EntryArraySectors, PrimaryFields, BackupFields,
         Exec, MbrProtects;
    TableRegions(l, |d.bytes|);
    GptOpsAre(l);
    hide Disjoint;
    ExecHoldsAll(d, |d.bytes|, GptOps(l), 0);
    var a := WriteGptOf(d, l).0.bytes;
    assert a[0..512] == a[..512];
    MbrReads(a, l.totalSectors);
  }

  /**
   The round trip: the writer succeeds exactly when the device lasts, and then each copy by itself reads as the layout:
   identifiers, addresses and labels of every partition, and nothing else.
   */
  lemma RoundTrip(d: Dev, l: Layout)
    requires TableFits(l, |d.bytes|) && Storable(l)
    requires Outside(l.partitions, FirstUsable(l), LastUsable(l)) == None
    ensures var (after, r) := WriteGptOf(d, l);
            && r == (if Cost(GptOps(l)) <= d.budget then Written else DeviceFailed)
            && (r == Written ==> ReadsBack(after.bytes, l))
  {
    hide GptOps, PrimaryPresent, BackupPresent, ReadTable, Exec, Cost, Outside, TableOf, WholeBytes, ClearOfTable,
         Disjoint, FieldsFit, Numbered, EntryArraySectors, PrimaryFields, BackupFields;
    TableRegions(l, |d.bytes|);
    ExecSucceedsIff(d, |d.bytes|, GptOps(l));
    if WriteGptOf(d, l).1 == Written {
      WrittenIsPresent(d, l);
      PrimaryReads(WriteGptOf(d, l).0.bytes, l);
      BackupReads(WriteGptOf(d, l).0.bytes, l);
    }
  }

  // ---------------------------------------------------------------- one copy at a time

  /** Where the backup copy begins: its entry array, then its header, up to the end of the whole sectors. */
  function BackupStart(l: Layout): int {
    WholeBytes(l) - l.sectorSize - ARRAY_BYTES
  }

  /** The first four writes are the first sector and the primary copy, the others the backup copy and the flush. */
  lemma PrimaryFirst(l: Layout, totalBytes: nat)
    requires TableFits(l, totalBytes)
    ensures var ops, ss := GptOps(l), l.sectorSize;
            && |ops| == 8 && Disjoint(ops[..4])
            && ops[1] == Op(1, ss, Header(PrimaryFields(l)))
            && ops[3] == Op(1, 2 * ss, EntryArray(l.partitions))
            && (forall i :: 0 <= i < 4 ==> ops[..4][i].Avoids(BackupStart(l), WholeBytes(l)))
            && (forall i :: 0 <= i < 4 ==> ops[4..][i].Avoids(ss, ss + HEADER_SIZE))
            && (forall i :: 0 <= i < 4 ==> ops[4..][i].Avoids(2 * ss, 2 * ss + ARRAY_BYTES))
  {
    hide GptOps, Header, EntryArray, ProtectiveMbr, ByteOf, Zeros, EntryArraySectors, PrimaryFields, BackupFields;
    GptOpsAre(l);
  }

  /** Wherever writing stops, the new primary copy is whole or the old backup copy is untouched. */
  lemma OneCopyAtATime(d: Dev, l: Layout)
    requires TableFits(l, |d.bytes|)
    ensures var after := WriteGptOf(d, l).0.bytes;
            && |after| == |d.bytes| && 0 <= BackupStart(l) <= WholeBytes(l) <= |d.bytes|
            && (|| after[BackupStart(l)..WholeBytes(l)] == d.bytes[BackupStart(l)..WholeBytes(l)]
                || PrimaryPresent(after, l))
  {
    hide GptOps, Header, EntryArray, ByteOf, PrimaryFields, BackupFields, EntryArraySectors, Exec, Disjoint, Outside;
    PrimaryFirst(l, |d.bytes|);
    var ops, ss, hi := GptOps(l), l.sectorSize, |d.bytes|;
    var first := Exec(d, hi, ops[..4]);
    assert ops == ops[..4] + ops[4..];
    ExecAppend(d, hi, ops[..4], ops[4..]);
    ExecAvoids(d, hi, ops[..4], BackupStart(l), WholeBytes(l));
    if first.ok {
      ExecHoldsAll(d, hi, ops[..4], 1);
      ExecHoldsAll(d, hi, ops[..4], 3);
      ExecAvoids(first.dev, hi, ops[4..], ss, ss + HEADER_SIZE);
      ExecAvoids(first.dev, hi, ops[4..], 2 * ss, 2 * ss + ARRAY_BYTES);
    }
  }

  /** A backup copy lies in the stretch `OneCopyAtATime` speaks of. */
  lemma BackupCarries(a: bytes, b: bytes, l: Layout)
    requires TableFits(l, |a|) && |a| == |b| && BackupPresent(a, l)
    requires b[BackupStart(l)..WholeBytes(l)] == a[BackupStart(l)..WholeBytes(l)]
    ensures BackupPresent(b, l)
  {
    hide Header, EntryArray, BackupFields, EntryArraySectors, ByteOf;
    var from, n, ss := BackupStart(l), ARRAY_BYTES + l.sectorSize, l.sectorSize;
    SliceOfSlice(a, from, n, 0, ARRAY_BYTES);
    SliceOfSlice(b, from, n, 0, ARRAY_BYTES);
    SliceOfSlice(a, from, n, ARRAY_BYTES, ARRAY_BYTES + HEADER_SIZE);
    SliceOfSlice(b, from, n, ARRAY_BYTES, ARRAY_BYTES + HEADER_SIZE);
  }

  /**
   Writing a new table over an old one never leaves the disk without a table: wherever it stops, the new layout is
   read from the primary copy or the old one from the backup copy.
   */
  lemma NeverWithoutTable(d: Dev, was: Layout, l: Layout)
    requires TableFits(was, |d.bytes|) && Storable(was) && BackupPresent(d.bytes, was)
    requires TableFits(l, |d.bytes|) && Storable(l)
    requires l.sectorSize == was.sectorSize && l.totalSectors == was.totalSectors
    ensures var after := WriteGptOf(d, l).0.bytes;
            || ReadTable(after, l.sectorSize, 1) == Some(TableOf(l, l.totalSectors - 1))
            || ReadTable(after, l.sectorSize, l.totalSectors - 1) == Some(TableOf(was, 1))
  {
    hide TableFits, Storable, WriteGptOf, BackupPresent, PrimaryPresent, ReadTable, TableOf, ByteOf, Writable;
    StorableIsWritable(l);
    StorableIsWritable(was);
    OneCopyAtATime(d, l);
    var after := WriteGptOf(d, l).0.bytes;
    SameEnds(l, was);
    if PrimaryPresent(after, l) {
      PrimaryReads(after, l);
    } else {
      BackupCarries(d.bytes, after, was);
      BackupReads(after, was);
    }
  }

  lemma SameEnds(l: Layout, k: Layout)
    requires l.sectorSize == k.sectorSize && l.totalSectors == k.totalSectors
    ensures BackupStart(l) == BackupStart(k) && WholeBytes(l) == WholeBytes(k)
  {
  }

  lemma StorableIsWritable(l: Layout)
    requires Storable(l)
    ensures Writable(l)
  {
  }

  // ---------------------------------------------------------------- planned layouts

  /** The array is 16 KiB, which every legal sector size divides. */
  lemma ArraySectors(ss: nat)
    requires LegalSector(ss)
    ensures EntryArraySectors(ss) * ss == ARRAY_BYTES && 4 <= EntryArraySectors(ss) <= 32
  {
    if ss == 512 {
    } else if ss == 1024 {
    } else if ss == 2048 {
    } else {
    }
  }

  lemma {:induction false} PlainText(s: string)
    requires forall i :: 0 <= i < |s| ==> 0 < s[i] as int < 0x1_0000
    ensures |Utf16(s)| == |s| && forall i :: 0 <= i < |s| ==> Utf16(s)[i] == s[i] as int
    decreases |s|
  {
    if s != [] {
      PlainText(s[1..]);
    }
  }

  lemma LabelFits(role: Role)
    ensures NameFits(role.Label())
  {
    hide Utf16;
    PlainText(role.Label());
  }

  lemma TypesNonZero(role: Role, kind: RootKind)
    ensures role.TypeGuid(kind) != Zeros(16)
  {
    assert role.TypeGuid(kind)[0] != 0;
  }

  lemma PlannedNumbered(totalBytes: u64, ss: u64, kind: RootKind, ids: Identifiers)
    requires Fits(totalBytes, ss)
    ensures Numbered(PlannedLayout(totalBytes, ss, kind, ids).partitions, 0)
  {
    hide NameFits, StartMib, EndMib, Role.Label, Role.TypeGuid, Align;
    LabelFits(Esp);
    LabelFits(Recovery);
    LabelFits(Root);
    TypesNonZero(Esp, kind);
    TypesNonZero(Recovery, kind);
    TypesNonZero(Root, kind);
  }

  /** Where the copies go on a planned disk. */
  lemma PlannedPositions(totalBytes: u64, ss: u64)
    requires Fits(totalBytes, ss)
    ensures var t, eas := totalBytes / ss, EntryArraySectors(ss);
            var e := ByteOf(t, ss);
            && t >= 2 + eas && 4 <= eas <= 32
            && ByteOf(t - 1 - eas, ss) == e - ss - ARRAY_BYTES && ByteOf(t - 1, ss) == e - ss
            && e <= totalBytes < e + ss
            && RootEndMib(totalBytes, ss) * MIB + GPT_SECONDARY_SECTORS * ss <= e
            && 6655 <= RootEndMib(totalBytes, ss) && RootEndMib(totalBytes, ss) * Align(ss) <= t - GPT_SECONDARY_SECTORS
  {
    RootEndBounds(totalBytes, ss);
    ArraySectors(ss);
    hide RootEndMib, EntryArraySectors;
    var t, eas, k, a := totalBytes / ss, EntryArraySectors(ss), RootEndMib(totalBytes, ss), Align(ss);
    FloorBounds(totalBytes, ss);
    MulMinus(t, 1, ss);
    MulMinus(t, 1 + eas, ss);
    assert (1 + eas) * ss == ss + ARRAY_BYTES;
    MulMinus(t, GPT_SECONDARY_SECTORS, ss);
    MulMonotone(k * a, t - GPT_SECONDARY_SECTORS, ss);
    MulMonotone(6655, k, a);
  }

  /** Every layout the planner makes can be written and stored. */
  lemma PlannedIsWritable(totalBytes: u64, ss: u64, kind: RootKind, ids: Identifiers)
    requires Fits(totalBytes, ss)
    ensures var l := PlannedLayout(totalBytes, ss, kind, ids); TableFits(l, totalBytes) && Storable(l)
  {
    PlannedPositions(totalBytes, ss);
    PlannedNumbered(totalBytes, ss, kind, ids);
    hide PlannedPartition, RootEndMib, EntryArraySectors, EntryFits, EntryArray, CrcNat, Align;
    var l := PlannedLayout(totalBytes, ss, kind, ids);
    assert IndicesInRange(l.partitions);
    assert ByteOf(1, ss) == ss && ByteOf(2, ss) == 2 * ss;
  }

  /**
   The planner keeps a fixed 34 and 33 sectors, the writer needs 2 + 16384 / ss at one end and one less at the other:
   the writer never turns a planned layout away.
   */
  lemma PlannedIsUsable(totalBytes: u64, ss: u64, kind: RootKind, ids: Identifiers)
    requires Fits(totalBytes, ss)
    ensures var l := PlannedLayout(totalBytes, ss, kind, ids);
            Writable(l) && Outside(l.partitions, FirstUsable(l), LastUsable(l)) == None
  {
    hide PlannedLayout, EntryArraySectors, Storable, ByteOf, RootEndMib, Align;
    PlannedIsWritable(totalBytes, ss, kind, ids);
    PlannedPositions(totalBytes, ss);
    PlannedHead(totalBytes, ss, kind, ids);
    Geometry(totalBytes, ss, kind, ids);
  }

  lemma PlannedHead(totalBytes: u64, ss: u64, kind: RootKind, ids: Identifiers)
    requires Fits(totalBytes, ss)
    ensures var l := PlannedLayout(totalBytes, ss, kind, ids);
            |l.partitions| == 3 && l.sectorSize == ss && l.totalSectors == totalBytes / ss && l.diskGuid == ids.disk
  {
    hide PlannedPartition;
  }

  /** No write of the table meets a partition. */
  lemma PartitionsAreClear(totalBytes: u64, ss: u64, kind: RootKind, ids: Identifiers, role: Role)
    requires Fits(totalBytes, ss)
    ensures ClearOfTable(StartMib(role) * MIB, EndMib(role, totalBytes, ss) * MIB,
                         PlannedLayout(totalBytes, ss, kind, ids))
  {
    PlannedPositions(totalBytes, ss);
    PlannedHead(totalBytes, ss, kind, ids);
    hide PlannedLayout, RootEndMib, EntryArraySectors, ByteOf;
  }
}

/**
 A reader of GUID partition tables after UEFI 2.10, sections 5.2.3 (protective MBR), 5.3.2 (header) and 5.3.3 (entry
 array). It serves as the specification of the writer: it takes any disk, trusts nothing in it, and needs only one of
 the two copies.
 */
module GptReader {
  import opened Bytes
  import opened Crc32
  import opened DiskLayout
  import opened Gpt

  datatype Entry = Entry(
    slot: nat, typeGuid: Guid, uniqueGuid: Guid, firstLba: nat, lastLba: nat, attributes: nat, name: seq<unit>)

  datatype Table = Table(
    diskGuid: Guid, alternateLba: nat, firstUsable: nat, lastUsable: nat, entries: seq<Entry>)

  /** Little-endian number in a field. */
  function Field(b: bytes, at: nat, w: nat): nat
    requires at + w <= |b|
  {
    FromLe(b[at..at + w])
  }

  /**
   The header of section 5.3.2 in a sector: signature, revision, a size between 92 and the sector, a checksum taken
   with its own field zero, a reserved field of zeros, and the address the sector was read from.
   */
  predicate HeaderValid(h: bytes, lba: nat) {
    && |h| >= 92
    && h[..8] == [0x45, 0x46, 0x49, 0x20, 0x50, 0x41, 0x52, 0x54]
    && Field(h, 8, 4) == 0x1_0000
    && 92 <= Field(h, 12, 4) <= |h|
    && Field(h, 20, 4) == 0
    && Field(h, 24, 8) == lba
    && Field(h, 16, 4) == CrcNat(h[..16] + Zeros(4) + h[20..Field(h, 12, 4)])
  }

  datatype HeaderInfo = HeaderInfo(
    alternateLba: nat, firstUsable: nat, lastUsable: nat, diskGuid: Guid, entryLba: nat, count: nat, size: nat,
    entriesCrc: nat)

  function ParseHeader(h: bytes): HeaderInfo
    requires |h| >= 92
  {
    HeaderInfo(Field(h, 32, 8), Field(h, 40, 8), Field(h, 48, 8), GuidLe(h[56..72]), Field(h, 72, 8), Field(h, 80, 4),
               Field(h, 84, 4), Field(h, 88, 4))
  }

  function UnitsOf(b: bytes): seq<unit> {
    if |b| < 2 then [] else [Unit(b[0], b[1])] + UnitsOf(b[2..])
  }

  function Unit(low: int, high: int): (u: unit)
    requires 0 <= low < 256 && 0 <= high < 256
  {
    low + 256 * high
  }

  function UntilZero(u: seq<unit>): seq<unit> {
    if u == [] || u[0] == 0 then [] else [u[0]] + UntilZero(u[1..])
  }

  function ParseEntry(b: bytes, slot: nat): Entry
    requires |b| >= 128
  {
    Entry(slot, GuidLe(b[..16]), GuidLe(b[16..32]), Field(b, 32, 8), Field(b, 40, 8), Field(b, 48, 8),
          UntilZero(UnitsOf(b[56..128])))
  }

  /** The entries in use from slot `slot` on: an entry is unused when its type is zero. */
  function ParseEntries(slots: bytes, size: nat, slot: nat): seq<Entry>
    requires size >= 128
    decreases |slots|
  {
    if |slots| < size then []
    else if slots[..16] == Zeros(16) then ParseEntries(slots[size..], size, slot + 1)
    else [ParseEntry(slots[..size], slot)] + ParseEntries(slots[size..], size, slot + 1)
  }

  /** 128 times a power of two. */
  predicate EntrySizeValid(n: nat) {
    n % 128 == 0 && IsPowerOfTwo(n / 128)
  }

  /** `n` bytes at `at`, if the disk reaches that far. */
  function ReadAt(disk: bytes, at: nat, n: nat): Option<bytes> {
    if at + n <= |disk| then Some(disk[at..at + n]) else None
  }

  /** The table whose header is in sector `lba`, if there is a valid one. */
  function ReadTable(disk: bytes, ss: nat, lba: nat): Option<Table> {
    match ReadAt(disk, ByteOf(lba, ss), ss)
    case None => None
    case Some(h) => if HeaderValid(h, lba) then ReadEntries(disk, ss, ParseHeader(h)) else None
  }

  function ReadEntries(disk: bytes, ss: nat, h: HeaderInfo): Option<Table> {
    if !EntrySizeValid(h.size) then None else
    match ReadAt(disk, ByteOf(h.entryLba, ss), ByteOf(h.count, h.size))
    case None => None
    case Some(slots) =>
      if CrcNat(slots) != h.entriesCrc then None else
      EntrySizeAtLeast(h.size);
      Some(Table(h.diskGuid, h.alternateLba, h.firstUsable, h.lastUsable, ParseEntries(slots, h.size, 0)))
  }

  lemma EntrySizeAtLeast(n: nat)
    requires EntrySizeValid(n)
    ensures n >= 128
  {
  }

  // ---------------------------------------------------------------- what the writer's structures read as

  function EntryOf(p: Partition): Entry
    requires p.index >= 1
  {
    Entry(p.index - 1, p.typeGuid, p.uniqueGuid, p.firstLba, p.lastLba, 0, Utf16(p.name))
  }

  predicate FieldsFit(f: HeaderFields) {
    && f.myLba < U64 && f.alternateLba < U64 && f.entryLba < U64 && f.firstUsable < U64 && f.lastUsable < U64
    && f.entriesCrc < U32
  }

  function InfoOf(f: HeaderFields): HeaderInfo {
    HeaderInfo(f.alternateLba, f.firstUsable, f.lastUsable, f.diskGuid, f.entryLba, ENTRY_COUNT, ENTRY_SIZE,
               f.entriesCrc)
  }

  /** Every field of a header the writer built reads back, and the header is valid where it says it is. */
  lemma HeaderReads(h: bytes, f: HeaderFields)
    requires FieldsFit(f) && |h| >= HEADER_SIZE && h[..HEADER_SIZE] == Header(f)
    ensures HeaderValid(h, f.myLba) && ParseHeader(h) == InfoOf(f)
  {
    hide Le, FromLe, CrcNat, GuidLe, Pow256;
    PowersOf256();
    var crc := CrcNat(HeaderStart() + Zeros(4) + HeaderRest(f));
    var r := HeaderRest(f);
    assert h[..16] == Header(f)[..16] == HeaderStart();
    assert h[16..20] == Header(f)[16..20] == Le(crc, 4);
    assert h[20..92] == Header(f)[20..92] == r;
    HeaderStartReads(h);
    LeRoundTrip(crc, 4);
    HeaderRestReads(h, f);
  }

  lemma HeaderStartReads(h: bytes)
    requires |h| >= 16 && h[..16] == HeaderStart()
    ensures h[..8] == SIGNATURE && Field(h, 8, 4) == REVISION && Field(h, 12, 4) == HEADER_SIZE
  {
    hide Le, FromLe, Pow256;
    PowersOf256();
    LeRoundTrip(REVISION, 4);
    LeRoundTrip(HEADER_SIZE, 4);
    assert h[8..12] == h[..16][8..12] == Le(REVISION, 4);
    assert h[12..16] == h[..16][12..16] == Le(HEADER_SIZE, 4);
    assert h[..8] == h[..16][..8];
  }

  /** Bytes `[a, b)` behind the first twenty. */
  function Cut(h: bytes, a: nat, b: nat): (c: bytes)
    requires |h| >= HEADER_SIZE && a <= b <= 72
    ensures c == h[20..92][a..b]
  {
    SliceOfSlice(h, 20, 72, a, b);
    h[20 + a..20 + b]
  }

  lemma HeaderRestReads(h: bytes, f: HeaderFields)
    requires FieldsFit(f) && |h| >= HEADER_SIZE && h[20..92] == HeaderRest(f)
    ensures Field(h, 20, 4) == 0 && Field(h, 24, 8) == f.myLba && ParseHeader(h) == InfoOf(f)
  {
    hide Le, FromLe, GuidLe, Pow256;
    PowersOf256();
    var r := HeaderRest(f);
    LeRoundTrip(f.myLba, 8); LeRoundTrip(f.alternateLba, 8); LeRoundTrip(f.firstUsable, 8);
    LeRoundTrip(f.lastUsable, 8); LeRoundTrip(f.entryLba, 8);
    LeRoundTrip(ENTRY_COUNT, 4); LeRoundTrip(ENTRY_SIZE, 4); LeRoundTrip(f.entriesCrc, 4);
    GuidLeInvolution(f.diskGuid);
    FromLeZeros(4);
    assert Cut(h, 0, 4) == r[0..4] == Zeros(4);
    assert Cut(h, 4, 12) == r[4..12] == Le(f.myLba, 8);
    assert Cut(h, 12, 20) == r[12..20] == Le(f.alternateLba, 8);
    assert Cut(h, 20, 28) == r[20..28] == Le(f.firstUsable, 8);
    assert Cut(h, 28, 36) == r[28..36] == Le(f.lastUsable, 8);
    assert Cut(h, 36, 52) == r[36..52] == GuidLe(f.diskGuid);
    assert Cut(h, 52, 60) == r[52..60] == Le(f.entryLba, 8);
    assert Cut(h, 60, 64) == r[60..64] == Le(ENTRY_COUNT, 4);
    assert Cut(h, 64, 68) == r[64..68] == Le(ENTRY_SIZE, 4);
    assert Cut(h, 68, 72) == r[68..72] == Le(f.entriesCrc, 4);
  }

  lemma {:induction false} FromLeZeros(n: nat)
    ensures FromLe(Zeros(n)) == 0
    decreases n
  {
    if n > 0 {
      assert Zeros(n)[1..] == Zeros(n - 1);
      FromLeZeros(n - 1);
    }
  }

  // ---------------------------------------------------------------- protective MBR

  /**
   The protective MBR of section 5.2.3: signature, no boot code, one record of type 0xEE from sector 1 over the whole
   disk, as far as 32 bits can say, and three empty records.
   */
  predicate MbrProtects(b: bytes, totalSectors: nat) {
    && |b| >= 512 && b[510] == 0x55 && b[511] == 0xAA
    && (forall i :: 0 <= i < 446 ==> b[i] == 0)
    && b[446] == 0 && b[447..450] == [0x00, 0x02, 0x00] && b[450] == 0xEE && b[451..454] == [0xFF, 0xFF, 0xFF]
    && Field(b, 454, 4) == 1
    && Field(b, 458, 4) == (if totalSectors - 1 <= 0xFFFF_FFFF then totalSectors - 1 else 0xFFFF_FFFF)
    && (forall i :: 462 <= i < 510 ==> b[i] == 0)
  }

  lemma MbrReads(b: bytes, totalSectors: nat)
    requires totalSectors >= 1 && |b| >= 512 && b[..512] == ProtectiveMbr(totalSectors)
    ensures MbrProtects(b, totalSectors)
  {
    hide Le, FromLe, Pow256;
    PowersOf256();
    var n := Min(totalSectors - 1, U32 - 1);
    LeRoundTrip(1, 4);
    LeRoundTrip(n, 4);
    var m := ProtectiveMbr(totalSectors);
    assert b[454..458] == m[454..458] == Le(1, 4);
    assert b[458..462] == m[458..462] == Le(n, 4);
    assert b[446..454] == m[446..454] == [0x00, 0x00, 0x02, 0x00, 0xEE, 0xFF, 0xFF, 0xFF];
    assert b[447..450] == b[446..454][1..4] && b[451..454] == b[446..454][5..8];
    assert b[446] == b[446..454][0] && b[450] == b[446..454][4];
    assert b[510] == m[510] && b[511] == m[511];
    assert forall i :: 0 <= i < 446 || 462 <= i < 510 ==> b[i] == m[i] == 0;
  }

  // ---------------------------------------------------------------- entries

  lemma {:induction false} UnitsRead(u: seq<unit>, n: nat)
    requires forall i :: 0 <= i < |u| ==> u[i] != 0
    ensures UntilZero(UnitsOf(UnitBytes(u) + Zeros(n))) == u
    decreases |u|
  {
    if u == [] {
      assert UnitBytes(u) + Zeros(n) == Zeros(n);
    } else {
      hide Zeros;
      var b := UnitBytes(u) + Zeros(n);
      assert b[2..] == UnitBytes(u[1..]) + Zeros(n);
      assert Unit(b[0], b[1]) == u[0];
      UnitsRead(u[1..], n);
    }
  }

  /** A name that fits the field and holds no NUL survives. */
  predicate NameFits(name: string) {
    |Utf16(name)| <= NAME_UNITS && forall i :: 0 <= i < |Utf16(name)| ==> Utf16(name)[i] != 0
  }

  predicate EntryFits(p: Partition) {
    1 <= p.index <= ENTRY_COUNT && NameFits(p.name) && p.typeGuid != Zeros(16)
  }

  /** The slot of a partition in an array that was zero before. */
  function Slot(p: Partition): (b: bytes)
    ensures |b| == ENTRY_SIZE
  {
    EntryData(p) + Zeros(ENTRY_SIZE - |EntryData(p)|)
  }

  lemma GuidLeNonZero(g: Guid)
    requires g != Zeros(16)
    ensures GuidLe(g) != Zeros(16)
  {
    var i :| 0 <= i < 16 && g[i] != 0;
    assert GuidLe(GuidLe(g))[i] != 0;
  }

  lemma SlotSlices(p: Partition)
    requires EntryFits(p)
    ensures var b, u := Slot(p), Utf16(p.name);
            && b[..16] == GuidLe(p.typeGuid) && b[16..32] == GuidLe(p.uniqueGuid)
            && b[32..40] == Le(p.firstLba, 8) && b[40..48] == Le(p.lastLba, 8) && b[48..56] == Le(0, 8)
            && b[56..128] == UnitBytes(u) + Zeros(72 - 2 * |u|)
  {
    hide Le, Utf16, UnitBytes, GuidLe;
    var u := Utf16(p.name);
    assert u[..Min(|u|, NAME_UNITS)] == u;
  }

  /** Every name is stored up to its thirty-sixth unit, and zeros fill the field behind a shorter one. */
  lemma NameStored(p: Partition, i: nat)
    requires i < 36
    ensures var u, b := Utf16(p.name), Slot(p);
            Unit(b[56 + 2 * i], b[57 + 2 * i]) == if i < |u| then u[i] else 0
  {
    hide Utf16, UnitBytes, Le, GuidLe;
    var u, b := Utf16(p.name), Slot(p);
    var kept := u[..Min(|u|, NAME_UNITS)];
    var s := NameBytes(p.name);
    assert b[56..56 + |s|] == s;
    if i < |u| {
      UnitAt(kept, i);
      assert b[56 + 2 * i] == s[2 * i] && b[57 + 2 * i] == s[2 * i + 1];
    }
  }

  lemma {:induction false} UnitAt(u: seq<unit>, i: nat)
    requires i < |u|
    ensures Unit(UnitBytes(u)[2 * i], UnitBytes(u)[2 * i + 1]) == u[i]
    decreases i
  {
    if i > 0 {
      UnitAt(u[1..], i - 1);
      assert UnitBytes(u)[2..] == UnitBytes(u[1..]);
    }
  }

  lemma SlotReads(p: Partition)
    requires EntryFits(p)
    ensures Slot(p)[..16] != Zeros(16)
    ensures ParseEntry(Slot(p), p.index - 1) == EntryOf(p)
  {
    hide Le, FromLe, Pow256, Utf16, UnitsOf, UntilZero, UnitBytes, Slot, GuidLe;
    PowersOf256();
    SlotSlices(p);
    LeRoundTrip(p.firstLba, 8);
    LeRoundTrip(p.lastLba, 8);
    LeRoundTrip(0, 8);
    GuidLeInvolution(p.typeGuid);
    GuidLeInvolution(p.uniqueGuid);
    GuidLeNonZero(p.typeGuid);
    UnitsRead(Utf16(p.name), 72 - 2 * |Utf16(p.name)|);
  }

  lemma {:induction false} EmptySlots(n: nat, slot: nat)
    ensures ParseEntries(Zeros(n * ENTRY_SIZE), ENTRY_SIZE, slot) == []
    decreases n
  {
    if n > 0 {
      var z := Zeros(n * ENTRY_SIZE);
      assert z[..16] == Zeros(16) && z[ENTRY_SIZE..] == Zeros((n - 1) * ENTRY_SIZE);
      EmptySlots(n - 1, slot + 1);
    }
  }

  /** Consecutive entries from slot `from` on. */
  predicate Numbered(ps: seq<Partition>, from: nat) {
    forall i :: 0 <= i < |ps| ==> ps[i].index == from + i + 1 && EntryFits(ps[i])
  }

  function Slots(ps: seq<Partition>): (b: bytes)
    ensures |b| == ENTRY_SIZE * |ps|
  {
    if ps == [] then [] else Slot(ps[0]) + Slots(ps[1..])
  }

  function EntriesOf(ps: seq<Partition>): seq<Entry>
    requires IndicesInRange(ps)
  {
    if ps == [] then [] else [EntryOf(ps[0])] + EntriesOf(ps[1..])
  }

  lemma {:induction false} PutNumbered(done: bytes, ps: seq<Partition>, from: nat)
    requires Numbered(ps, from) && |done| == ENTRY_SIZE * from && from + |ps| <= ENTRY_COUNT && IndicesInRange(ps)
    ensures PutEntries(done + Zeros(ARRAY_BYTES - |done|), ps)
         == done + Slots(ps) + Zeros(ARRAY_BYTES - |done| - ENTRY_SIZE * |ps|)
    decreases |ps|
  {
    hide EntryData, EntryFits;
    if ps == [] {
    } else {
      var b := done + Zeros(ARRAY_BYTES - |done|);
      var done' := done + Slot(ps[0]);
      assert Splice(b, |done|, EntryData(ps[0])) == done' + Zeros(ARRAY_BYTES - |done'|);
      PutNumbered(done', ps[1..], from + 1);
      assert done + (Slot(ps[0]) + Slots(ps[1..])) == done' + Slots(ps[1..]);
    }
  }

  /** A slot in use is read, and then the rest. */
  lemma ParseSlot(p: Partition, rest: bytes, slot: nat)
    requires EntryFits(p) && slot == p.index - 1
    ensures ParseEntries(Slot(p) + rest, ENTRY_SIZE, slot) == [EntryOf(p)] + ParseEntries(rest, ENTRY_SIZE, slot + 1)
  {
    hide ParseEntry, EntryOf, Slot, EntryData, Zeros;
    SlotReads(p);
    var b := Slot(p) + rest;
    assert b[..ENTRY_SIZE] == Slot(p) && b[..16] == Slot(p)[..16] && b[ENTRY_SIZE..] == rest;
  }

  lemma {:induction false} SlotsRead(ps: seq<Partition>, from: nat, n: nat)
    requires Numbered(ps, from) && IndicesInRange(ps)
    ensures ParseEntries(Slots(ps) + Zeros(n * ENTRY_SIZE), ENTRY_SIZE, from) == EntriesOf(ps)
    decreases |ps|
  {
    hide ParseEntry, EntryOf, Slot, EntryData, EntryFits, ParseEntries, Zeros;
    if ps == [] {
      assert Slots(ps) + Zeros(n * ENTRY_SIZE) == Zeros(n * ENTRY_SIZE);
      EmptySlots(n, from);
    } else {
      var rest := Slots(ps[1..]) + Zeros(n * ENTRY_SIZE);
      assert Slots(ps) + Zeros(n * ENTRY_SIZE) == Slot(ps[0]) + rest;
      ParseSlot(ps[0], rest, from);
      SlotsRead(ps[1..], from + 1, n);
    }
  }

  /** An array written for consecutively numbered partitions reads as exactly these. */
  lemma EntryArrayReads(ps: seq<Partition>)
    requires Numbered(ps, 0) && |ps| <= ENTRY_COUNT
    ensures IndicesInRange(ps) && ParseEntries(EntryArray(ps), ENTRY_SIZE, 0) == EntriesOf(ps)
  {
    PutNumbered([], ps, 0);
    assert [] + Zeros(ARRAY_BYTES) == Zeros(ARRAY_BYTES);
    assert [] + Slots(ps) == Slots(ps);
    SlotsRead(ps, 0, ENTRY_COUNT - |ps|);
  }
}

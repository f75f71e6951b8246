/** Writing a GUID partition table: protective MBR, and header and entry array at both ends of the disk. */
module Gpt {
  import opened Bytes
  import opened Crc32
  import opened Device
  import opened DiskLayout

  const SIGNATURE: bytes := [0x45, 0x46, 0x49, 0x20, 0x50, 0x41, 0x52, 0x54]
  const REVISION: nat := 0x1_0000
  const HEADER_SIZE: nat := 92
  const ENTRY_COUNT: nat := 128
  const ENTRY_SIZE: nat := 128
  const ARRAY_BYTES: nat := 16384
  const NAME_UNITS: nat := 36

  // ---------------------------------------------------------------- encodings

  /** `to_bytes_le` of a UUID: the first three fields little endian, the rest as printed. */
  function GuidLe(g: Guid): (r: Guid) {
    [g[3], g[2], g[1], g[0], g[5], g[4], g[7], g[6]] + g[8..]
  }

  lemma GuidLeInvolution(g: Guid)
    ensures GuidLe(GuidLe(g)) == g
  {
  }

  /**
   On the disk the first three fields of an identifier are little-endian numbers, the other eight bytes stay in order.
   */
  lemma GuidFields(g: Guid)
    ensures FromLe(GuidLe(g)[..4]) == FromBe(g[..4])
    ensures FromLe(GuidLe(g)[4..6]) == FromBe(g[4..6]) && FromLe(GuidLe(g)[6..8]) == FromBe(g[6..8])
    ensures GuidLe(g)[8..] == g[8..]
  {
    ReversedNumber(g[..4]);
    ReversedNumber(g[4..6]);
    ReversedNumber(g[6..8]);
    hide FromLe, FromBe;
    assert GuidLe(g)[..4] == Reversed(g[..4]) && GuidLe(g)[4..6] == Reversed(g[4..6]);
    assert GuidLe(g)[6..8] == Reversed(g[6..8]);
  }

  function Reversed(s: bytes): (r: bytes)
    ensures |r| == |s|
  {
    seq(|s|, i requires 0 <= i < |s| => s[|s| - 1 - i])
  }

  lemma {:induction false} ReversedNumber(s: bytes)
    ensures FromLe(Reversed(s)) == FromBe(s)
    decreases |s|
  {
    if s != [] {
      var init := s[..|s| - 1];
      ReversedNumber(init);
      assert Reversed(s)[0] == s[|s| - 1] && Reversed(s)[1..] == Reversed(init);
    }
  }

  type unit = u: int | 0 <= u < 0x1_0000

  function CharUnits(c: char): seq<unit> {
    var n := c as int;
    if n < 0x1_0000 then [n] else [0xD800 + (n - 0x1_0000) / 0x400, 0xDC00 + (n - 0x1_0000) % 0x400]
  }

  /** `encode_utf16`. */
  function Utf16(s: string): seq<unit> {
    if s == [] then [] else CharUnits(s[0]) + Utf16(s[1..])
  }

  /** Reading UTF-16: surrogates in pairs make one character. */
  function FromUtf16(u: seq<unit>): string
    decreases |u|
  {
    if u == [] then ""
    else if |u| >= 2 && 0xD800 <= u[0] < 0xDC00 && 0xDC00 <= u[1] < 0xE000 then
      var high: int, low: int := u[0] - 0xD800, u[1] - 0xDC00;
      [(0x1_0000 + 0x400 * high + low) as char] + FromUtf16(u[2..])
    else if 0xD800 <= u[0] < 0xE000 then ['?'] + FromUtf16(u[1..])
    else [u[0] as char] + FromUtf16(u[1..])
  }

  /** Every string is read back from its UTF-16 form. */
  lemma {:induction false} Utf16RoundTrip(s: string)
    ensures FromUtf16(Utf16(s)) == s
    decreases |s|
  {
    if s != [] {
      Utf16RoundTrip(s[1..]);
      CharRoundTrip(s[0], Utf16(s[1..]));
      hide FromUtf16, CharUnits;
      assert s == [s[0]] + s[1..];
    }
  }

  lemma CharRoundTrip(c: char, rest: seq<unit>)
    ensures FromUtf16(CharUnits(c) + rest) == [c] + FromUtf16(rest)
  {
    var u := CharUnits(c) + rest;
    if c as int < 0x1_0000 {
      assert u[1..] == rest;
    } else {
      SurrogatesBack(c as int - 0x1_0000);
      assert u[2..] == rest;
    }
  }

  lemma SurrogatesBack(n: nat)
    requires n < 0x10_0000
    ensures 0 <= n / 0x400 < 0x400 && 0 <= n % 0x400 < 0x400 && 0x400 * (n / 0x400) + n % 0x400 == n
  {
  }

  /** UTF-16LE, cut off after `NAME_UNITS` units. */
  function UnitBytes(u: seq<unit>): (b: bytes)
    ensures |b| == 2 * |u|
  {
    if u == [] then [] else [u[0] % 256, u[0] / 256] + UnitBytes(u[1..])
  }

  function NameBytes(name: string): (b: bytes)
    ensures |b| <= 2 * NAME_UNITS
  {
    var u := Utf16(name);
    UnitBytes(u[..Min(|u|, NAME_UNITS)])
  }

  function EntryArraySectors(ss: nat): nat
    requires ss > 0
  {
    DivCeil(ENTRY_COUNT * ENTRY_SIZE, ss)
  }

  // ---------------------------------------------------------------- structures as byte strings

  function ProtectiveMbr(totalSectors: nat): (b: bytes)
    requires totalSectors >= 1
    ensures |b| == 512
  {
    Zeros(446) + [0x00, 0x00, 0x02, 0x00, 0xEE, 0xFF, 0xFF, 0xFF] + Le(1, 4) + Le(Min(totalSectors - 1, U32 - 1), 4)
    + Zeros(48) + [0x55, 0xAA]
  }

  /** What the writer puts down for a partition: the fixed fields and as many name bytes as there are. */
  function EntryData(p: Partition): (b: bytes)
    ensures 56 <= |b| <= ENTRY_SIZE
  {
    GuidLe(p.typeGuid) + GuidLe(p.uniqueGuid) + Le(p.firstLba, 8) + Le(p.lastLba, 8) + Le(0, 8) + NameBytes(p.name)
  }

  predicate IndicesInRange(ps: seq<Partition>) {
    forall i :: 0 <= i < |ps| ==> 1 <= ps[i].index <= ENTRY_COUNT
  }

  function PutEntries(buf: bytes, ps: seq<Partition>): (r: bytes)
    requires |buf| == ARRAY_BYTES && IndicesInRange(ps)
    ensures |r| == ARRAY_BYTES
    decreases |ps|
  {
    if ps == [] then buf
    else PutEntries(Splice(buf, (ps[0].index - 1) * ENTRY_SIZE, EntryData(ps[0])), ps[1..])
  }

  function EntryArray(ps: seq<Partition>): (r: bytes)
    requires IndicesInRange(ps)
    ensures |r| == ARRAY_BYTES
  {
    PutEntries(Zeros(ARRAY_BYTES), ps)
  }

  datatype HeaderFields = HeaderFields(
    myLba: nat, alternateLba: nat, entryLba: nat, firstUsable: nat, lastUsable: nat, diskGuid: Guid, entriesCrc: nat)

  function HeaderStart(): (b: bytes)
    ensures |b| == 16
  {
    SIGNATURE + Le(REVISION, 4) + Le(HEADER_SIZE, 4)
  }

  function HeaderRest(f: HeaderFields): (b: bytes)
    ensures |b| == 72
  {
    Zeros(4) + Le(f.myLba, 8) + Le(f.alternateLba, 8) + Le(f.firstUsable, 8) + Le(f.lastUsable, 8)
    + GuidLe(f.diskGuid) + Le(f.entryLba, 8) + Le(ENTRY_COUNT, 4) + Le(ENTRY_SIZE, 4) + Le(f.entriesCrc, 4)
  }

  /** The header; its checksum is taken with the checksum field zero. */
  function Header(f: HeaderFields): (b: bytes)
    ensures |b| == HEADER_SIZE
  {
    HeaderStart() + Le(CrcNat(HeaderStart() + Zeros(4) + HeaderRest(f)), 4) + HeaderRest(f)
  }

  // ---------------------------------------------------------------- the table as a program of writes

  /** What the writer asks of a layout: otherwise its unsigned arithmetic or its slices fail. */
  predicate Writable(l: Layout) {
    && l.sectorSize >= HEADER_SIZE
    && l.totalSectors >= 2 + EntryArraySectors(l.sectorSize)
    && IndicesInRange(l.partitions)
  }

  function FirstUsable(l: Layout): nat
    requires l.sectorSize > 0
  {
    2 + EntryArraySectors(l.sectorSize)
  }

  function LastUsable(l: Layout): nat
    requires Writable(l)
  {
    l.totalSectors - 2 - EntryArraySectors(l.sectorSize)
  }

  function BackupEntryLba(l: Layout): nat
    requires Writable(l)
  {
    l.totalSectors - 1 - EntryArraySectors(l.sectorSize)
  }

  function PrimaryFields(l: Layout): HeaderFields
    requires Writable(l)
  {
    HeaderFields(1, l.totalSectors - 1, 2, FirstUsable(l), LastUsable(l), l.diskGuid, CrcNat(EntryArray(l.partitions)))
  }

  function BackupFields(l: Layout): HeaderFields
    requires Writable(l)
  {
    HeaderFields(l.totalSectors - 1, 1, BackupEntryLba(l), FirstUsable(l), LastUsable(l), l.diskGuid,
                 CrcNat(EntryArray(l.partitions)))
  }

  function ByteOf(lba: nat, ss: nat): nat {
    lba * ss
  }

  function GptOps(l: Layout): seq<Op>
    requires Writable(l)
  {
    var ss, last := l.sectorSize, ByteOf(l.totalSectors - 1, l.sectorSize);
    [ Op(1, 0, ProtectiveMbr(l.totalSectors)),
      Op(1, ss, Header(PrimaryFields(l))),
      Op(0, ss + HEADER_SIZE, Zeros(ss - HEADER_SIZE)),
      Op(1, ByteOf(2, ss), EntryArray(l.partitions)),
      Op(1, ByteOf(BackupEntryLba(l), ss), EntryArray(l.partitions)),
      Op(1, last, Header(BackupFields(l))),
      Op(0, last + HEADER_SIZE, Zeros(ss - HEADER_SIZE)),
      Op(1, 0, []) ]
  }

  datatype GptResult = Written | OutsideUsable(role: Role) | DeviceFailed

  /** The first partition outside the usable range, if any. */
  function Outside(ps: seq<Partition>, first: nat, last: nat): (r: Option<Role>)
    ensures r.None? <==> forall i :: 0 <= i < |ps| ==> first <= ps[i].firstLba && ps[i].lastLba <= last
  {
    if ps == [] then None
    else if ps[0].firstLba < first || ps[0].lastLba > last then Some(ps[0].role)
    else Outside(ps[1..], first, last)
  }

  /** What writing the table of `l` makes of a device. */
  function WriteGptOf(d: Dev, l: Layout): (Dev, GptResult)
    requires Writable(l)
  {
    match Outside(l.partitions, FirstUsable(l), LastUsable(l))
    case Some(role) => (d, OutsideUsable(role))
    case None =>
      var r := Exec(d, |d.bytes|, GptOps(l));
      (r.dev, if r.ok then Written else DeviceFailed)
  }

  // ---------------------------------------------------------------- the writer

  /** `copy_from_slice` into part of an array. */
  method Put(a: array<byte>, at: nat, s: bytes)
    requires at + |s| <= a.Length
    modifies a
    ensures a[..] == Splice(old(a[..]), at, s)
  {
    for i := 0 to |s|
      invariant forall j :: 0 <= j < i ==> a[at + j] == s[j]
      invariant forall j :: 0 <= j < a.Length && !(at <= j < at + i) ==> a[j] == old(a[j])
    {
      a[at + i] := s[i];
    }
  }

  /** Fill in the next field of an array that is still zero behind what has been written. */
  method PutField(a: array<byte>, at: nat, s: bytes, ghost start: bytes, ghost done: bytes)
    requires at == |start| + |done| && at + |s| <= a.Length
    requires a[..] == start + done + Zeros(a.Length - at)
    modifies a
    ensures a[..] == start + (done + s) + Zeros(a.Length - at - |s|)
  {
    Put(a, at, s);
    assert Splice(start + done + Zeros(a.Length - at), at, s) == start + (done + s) + Zeros(a.Length - at - |s|);
  }

  lemma SpliceMiddle(a: bytes, b: bytes, c: bytes, m: bytes)
    requires |m| == |b|
    ensures Splice(a + b + c, |a|, m) == a + m + c
  {
  }

  method BuildHeader(f: HeaderFields) returns (h: array<byte>)
    ensures fresh(h) && h[..] == Header(f)
  {
    hide Le, CrcNat, Crc, FromBits, GuidLe;
    h := new byte[HEADER_SIZE](_ => 0);
    ghost var r: bytes := [];
    assert h[..] == [] + r + Zeros(92);
    PutField(h, 0, SIGNATURE, [], r);
    r := r + SIGNATURE;
    PutField(h, 8, Le(REVISION, 4), [], r);
    r := r + Le(REVISION, 4);
    PutField(h, 12, Le(HEADER_SIZE, 4), [], r);
    ghost var start := HeaderStart();
    assert r + Le(HEADER_SIZE, 4) == start;
    // bytes 16..20 are the checksum of the header itself, filled in last
    start := start + Zeros(4);
    r := Zeros(4);
    assert h[..] == start + r + Zeros(68);
    PutField(h, 24, Le(f.myLba, 8), start, r);
    r := r + Le(f.myLba, 8);
    PutField(h, 32, Le(f.alternateLba, 8), start, r);
    r := r + Le(f.alternateLba, 8);
    PutField(h, 40, Le(f.firstUsable, 8), start, r);
    r := r + Le(f.firstUsable, 8);
    PutField(h, 48, Le(f.lastUsable, 8), start, r);
    r := r + Le(f.lastUsable, 8);
    PutField(h, 56, GuidLe(f.diskGuid), start, r);
    r := r + GuidLe(f.diskGuid);
    PutField(h, 72, Le(f.entryLba, 8), start, r);
    r := r + Le(f.entryLba, 8);
    PutField(h, 80, Le(ENTRY_COUNT, 4), start, r);
    r := r + Le(ENTRY_COUNT, 4);
    PutField(h, 84, Le(ENTRY_SIZE, 4), start, r);
    r := r + Le(ENTRY_SIZE, 4);
    PutField(h, 88, Le(f.entriesCrc, 4), start, r);
    r := r + Le(f.entriesCrc, 4);
    assert r == HeaderRest(f);
    assert h[..] == HeaderStart() + Zeros(4) + HeaderRest(f);
    var crc := ChecksumOf(h);
    Put(h, 16, Le(crc, 4));
    SpliceMiddle(HeaderStart(), Zeros(4), HeaderRest(f), Le(crc, 4));
  }

  method ChecksumOf(a: array<byte>) returns (crc: nat)
    ensures crc == CrcNat(a[..])
  {
    var w := TableCrc(a[..]);
    crc := FromBits(w);
  }

  method BuildMbr(totalSectors: u64) returns (mbr: array<byte>)
    requires totalSectors >= 1
    ensures fresh(mbr) && mbr[..] == ProtectiveMbr(totalSectors)
  {
    hide Le;
    mbr := new byte[512](_ => 0);
    var n := if totalSectors - 1 < U32 then totalSectors - 1 else U32 - 1;
    ghost var r := Zeros(446);
    assert mbr[..] == [] + r + Zeros(66);
    PutField(mbr, 446, [0x00, 0x00, 0x02, 0x00], [], r);
    r := r + [0x00, 0x00, 0x02, 0x00];
    PutField(mbr, 450, [0xEE], [], r);
    r := r + [0xEE];
    PutField(mbr, 451, [0xFF, 0xFF, 0xFF], [], r);
    r := Zeros(446) + [0x00, 0x00, 0x02, 0x00, 0xEE, 0xFF, 0xFF, 0xFF];
    PutField(mbr, 454, Le(1, 4), [], r);
    r := r + Le(1, 4);
    PutField(mbr, 458, Le(n, 4), [], r);
    r := r + Le(n, 4);
    assert mbr[..] == [] + (r + Zeros(48)) + Zeros(2);
    r := r + Zeros(48);
    PutField(mbr, 510, [0x55, 0xAA], [], r);
  }

  /** One entry: fixed fields, then the name. */
  method PutEntry(buf: array<byte>, p: Partition)
    requires buf.Length == ARRAY_BYTES && 1 <= p.index <= ENTRY_COUNT
    modifies buf
    ensures buf[..] == Splice(old(buf[..]), (p.index - 1) * ENTRY_SIZE, EntryData(p))
  {
    hide Le, GuidLe, Splice;
    var at := (p.index - 1) * ENTRY_SIZE;
    ghost var before := buf[..];
    SpliceNothing(before, at);
    ghost var r := PutNext(buf, at, GuidLe(p.typeGuid), before, at, []);
    r := PutNext(buf, at + 16, GuidLe(p.uniqueGuid), before, at, r);
    r := PutNext(buf, at + 32, Le(p.firstLba, 8), before, at, r);
    r := PutNext(buf, at + 40, Le(p.lastLba, 8), before, at, r);
    r := PutNext(buf, at + 48, Le(0, 8), before, at, r);
    PutName(buf, at, p.name, before, r);
    assert [] + GuidLe(p.typeGuid) == GuidLe(p.typeGuid);
  }

  lemma SpliceNothing(s: bytes, at: nat)
    requires at <= |s|
    ensures Splice(s, at, []) == s
  {
  }

  /** The name, two bytes at a time. */
  method PutName(buf: array<byte>, at: nat, name: string, ghost before: bytes, ghost fixed: bytes)
    requires |fixed| == 56 && at + ENTRY_SIZE <= buf.Length == |before|
    requires buf[..] == Splice(before, at, fixed)
    modifies buf
    ensures buf[..] == Splice(before, at, fixed + NameBytes(name))
  {
    hide Utf16, Splice;
    var units := Utf16(name);
    ghost var r := fixed;
    assert fixed + UnitBytes(units[..0]) == r;
    for i := 0 to Min(|units|, NAME_UNITS)
      invariant r == fixed + UnitBytes(units[..i]) && |r| == 56 + 2 * i
      invariant buf[..] == Splice(before, at, r)
    {
      UnitBytesAppend(units[..i], units[i]);
      assert units[..i + 1] == units[..i] + [units[i]];
      r := PutNext(buf, at + 56 + 2 * i, [units[i] % 256, units[i] / 256], before, at, r);
      assert r == fixed + UnitBytes(units[..i + 1]);
    }
  }

  /** Extend what has been written from `start` on by another field. */
  method PutNext(a: array<byte>, at: nat, s: bytes, ghost before: bytes, ghost start: nat, ghost done: bytes)
    returns (ghost now: bytes)
    requires at == start + |done| && at + |s| <= a.Length == |before|
    requires a[..] == Splice(before, start, done)
    modifies a
    ensures now == done + s && a[..] == Splice(before, start, now)
  {
    Put(a, at, s);
    now := done + s;
    SpliceJoin(before, start, done, s);
  }

  lemma {:induction false} UnitBytesAppend(u: seq<unit>, x: unit)
    ensures UnitBytes(u + [x]) == UnitBytes(u) + [x % 256, x / 256]
    decreases |u|
  {
    if u == [] {
      assert u + [x] == [x];
      assert UnitBytes([x]) == [x % 256, x / 256] + UnitBytes([]);
    } else {
      assert (u + [x])[1..] == u[1..] + [x];
      UnitBytesAppend(u[1..], x);
    }
  }

  method BuildEntryArray(ps: seq<Partition>) returns (buf: array<byte>)
    requires IndicesInRange(ps)
    ensures fresh(buf) && buf[..] == EntryArray(ps)
  {
    hide EntryData;
    buf := new byte[ARRAY_BYTES](_ => 0);
    assert buf[..] == Zeros(ARRAY_BYTES);
    for i := 0 to |ps|
      invariant PutEntries(buf[..], ps[i..]) == EntryArray(ps)
    {
      PutEntry(buf, ps[i]);
      assert ps[i..][1..] == ps[i + 1..];
    }
  }

  /** gpt.rs: check the usable range, then write both copies of the table, stopping at the first failure. */
  method WriteGpt(disk: Disk, l: Layout) returns (r: GptResult)
    requires Writable(l)
    modifies disk, disk.data
    ensures (disk.State(), r) == WriteGptOf(old(disk.State()), l)
  {
    hide Header, EntryArray, ProtectiveMbr, CrcNat, Outside, ByteOf, GptOps, Exec, Step, EntryArraySectors, Zeros;
    GptOpsAre(l);
    var ss, total := l.sectorSize, l.totalSectors;
    var eas := EntryArraySectors(ss);
    var firstUsable := 2 + eas;
    var lastUsable := total - 1 - 1 - eas;
    var outside := FindOutside(l.partitions, firstUsable, lastUsable);
    if outside.Some? {
      return OutsideUsable(outside.value);
    }
    var entries := BuildEntryArray(l.partitions);
    var ecrc := ChecksumOf(entries);
    var hi := disk.data.Length;
    ghost var d0 := disk.State();
    ghost var ops := GptOps(l);
    assert ops[0..] == ops;

    var mbr := BuildMbr(total);
    var ok := PerformNext(disk, 1, 0, mbr[..], ops, 0);
    if !ok { return DeviceFailed; }
    var ph := BuildHeader(HeaderFields(1, total - 1, 2, firstUsable, lastUsable, l.diskGuid, ecrc));
    ok := PerformNext(disk, 1, ss, ph[..], ops, 1);
    if !ok { return DeviceFailed; }
    ok := PerformNext(disk, 0, ss + HEADER_SIZE, Zeros(ss - ph.Length), ops, 2);
    if !ok { return DeviceFailed; }
    ok := PerformNext(disk, 1, ByteOf(2, ss), entries[..], ops, 3);
    if !ok { return DeviceFailed; }
    ok := PerformNext(disk, 1, ByteOf(total - 1 - eas, ss), entries[..], ops, 4);
    if !ok { return DeviceFailed; }
    var bh := BuildHeader(HeaderFields(total - 1, 1, total - 1 - eas, firstUsable, lastUsable, l.diskGuid, ecrc));
    ok := PerformNext(disk, 1, ByteOf(total - 1, ss), bh[..], ops, 5);
    if !ok { return DeviceFailed; }
    ok := PerformNext(disk, 0, ByteOf(total - 1, ss) + HEADER_SIZE, Zeros(ss - bh.Length), ops, 6);
    if !ok { return DeviceFailed; }
    ok := PerformNext(disk, 1, 0, [], ops, 7);
    if !ok { return DeviceFailed; }
    ExecNothing(disk.State(), hi, ops[8..]);
    r := Written;
  }

  lemma GptOpsAre(l: Layout)
    requires Writable(l)
    ensures var ops, ss, last := GptOps(l), l.sectorSize, ByteOf(l.totalSectors - 1, l.sectorSize);
            && |ops| == 8
            && ops[0] == Op(1, 0, ProtectiveMbr(l.totalSectors))
            && ops[1] == Op(1, ss, Header(PrimaryFields(l)))
            && ops[2] == Op(0, ss + HEADER_SIZE, Zeros(ss - HEADER_SIZE))
            && ops[3] == Op(1, ByteOf(2, ss), EntryArray(l.partitions))
            && ops[4] == Op(1, ByteOf(BackupEntryLba(l), ss), EntryArray(l.partitions))
            && ops[5] == Op(1, last, Header(BackupFields(l)))
            && ops[6] == Op(0, last + HEADER_SIZE, Zeros(ss - HEADER_SIZE))
            && ops[7] == Op(1, 0, [])
  {
    hide Header, EntryArray, ProtectiveMbr, CrcNat, ByteOf, EntryArraySectors, Zeros, PrimaryFields, BackupFields;
  }

  lemma ExecNothing(d: Dev, hi: nat, ops: seq<Op>)
    requires hi <= |d.bytes| && ops == []
    ensures Exec(d, hi, ops) == Io(d, true)
  {
  }

  /** Operation `k` of a program. */
  method PerformNext(disk: Disk, credits: nat, at: nat, b: bytes, ghost ops: seq<Op>, ghost k: nat) returns (ok: bool)
    requires k < |ops| && ops[k] == Op(credits, at, b)
    modifies disk, disk.data
    ensures Exec(old(disk.State()), disk.data.Length, ops[k..])
         == if ok then Exec(disk.State(), disk.data.Length, ops[k + 1..]) else Io(disk.State(), false)
  {
    assert ops[k..] == [ops[k]] + ops[k + 1..];
    ExecStep(disk.State(), disk.data.Length, ops[k], ops[k + 1..]);
    ok := Perform(disk, Op(credits, at, b));
  }

  method FindOutside(ps: seq<Partition>, first: nat, last: nat) returns (r: Option<Role>)
    ensures r == Outside(ps, first, last)
  {
    for i := 0 to |ps|
      invariant Outside(ps, first, last) == Outside(ps[i..], first, last)
    {
      if ps[i].firstLba < first || ps[i].lastLba > last {
        return Some(ps[i].role);
      }
      assert ps[i..][1..] == ps[i + 1..];
    }
    r := None;
  }
}

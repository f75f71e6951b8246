/** Damage to a written table: what the checksums notice, and that the other copy still serves. */
module GptDamage {
  import opened Bytes
  import opened Crc32
  import opened DiskLayout
  import opened Gpt
  import opened GptReader
  import opened GptOnDisk

  /** `b` differs from `a`, but only in the `n` bytes from `c` on, at most four of them. */
  ghost predicate Burst(a: bytes, b: bytes, c: nat, n: nat) {
    n <= 4 && c + n <= |a| && SameOutside(b, a, c, c + n) && b != a
  }

  lemma BurstChangesCrc(a: bytes, b: bytes, c: nat, n: nat)
    requires Burst(a, b, c, n)
    ensures CrcNat(a) != CrcNat(b)
  {
    hide CrcNat, Crc;
    var p, x, y, s := a[..c], a[c..c + n], b[c..c + n], a[c + n..];
    assert a == p + x + s && b == p + y + s;
    FourByteBurstDetected(p, x, y, s);
  }

  /** A burst seen through a window it lies in. */
  lemma BurstInside(a: bytes, b: bytes, c: nat, n: nat, lo: nat, hi: nat)
    requires Burst(a, b, c, n) && lo <= c && c + n <= hi <= |a|
    ensures Burst(a[lo..hi], b[lo..hi], c - lo, n)
  {
    var i :| 0 <= i < |a| && a[i] != b[i];
    assert a[lo..hi][i - lo] != b[lo..hi][i - lo];
  }

  // ---------------------------------------------------------------- one copy

  /** The bytes of a header that its reader has a reason to check: all but the size the checksum is taken over. */
  predicate Checked(c: nat, n: nat) {
    c + n <= 12 || (16 <= c && c + n <= HEADER_SIZE)
  }

  lemma NumbersDiffer(a: bytes, b: bytes)
    requires |a| == |b| && FromLe(a) == FromLe(b)
    ensures a == b
  {
    FromLeRoundTrip(a);
    FromLeRoundTrip(b);
  }

  /** Signature and revision. */
  lemma FrontDamaged(h: bytes, k: bytes, lba: nat, c: nat, n: nat)
    requires Burst(h, k, c, n) && c + n <= 12 && HeaderValid(h, lba)
    ensures !HeaderValid(k, lba)
  {
    hide FromLe, CrcNat;
    if HeaderValid(k, lba) {
      NumbersDiffer(h[8..12], k[8..12]);
      forall i | 0 <= i < |h| ensures h[i] == k[i] {
        if i < 8 {
          assert h[i] == h[..8][i] && k[i] == k[..8][i];
        } else if i < 12 {
          assert h[i] == h[8..12][i - 8] && k[i] == k[8..12][i - 8];
        }
      }
    }
  }

  /** The checksum and the reserved field, which holds zeros. */
  lemma ChecksumDamaged(h: bytes, k: bytes, lba: nat, c: nat, n: nat)
    requires Burst(h, k, c, n) && 16 <= c && c + n <= 24 && HeaderValid(h, lba)
    ensures !HeaderValid(k, lba)
  {
    hide FromLe, CrcNat;
    assert k[..16] == h[..16] && k[12..16] == h[12..16];
    var size := Field(h, 12, 4);
    assert k[24..size] == h[24..size];
    if HeaderValid(k, lba) {
      NumbersDiffer(h[20..24], k[20..24]);
      assert h[20..size] == h[20..24] + h[24..size] && k[20..size] == k[20..24] + k[24..size];
      NumbersDiffer(h[16..20], k[16..20]);
      forall i | 0 <= i < |h| ensures h[i] == k[i] {
        if 16 <= i < 20 {
          assert h[i] == h[16..20][i - 16] && k[i] == k[16..20][i - 16];
        } else if 20 <= i < 24 {
          assert h[i] == h[20..24][i - 20] && k[i] == k[20..24][i - 20];
        }
      }
    }
  }

  /** Everything the checksum is taken over behind it. */
  lemma RestDamaged(h: bytes, k: bytes, lba: nat, c: nat, n: nat)
    requires Burst(h, k, c, n) && 20 <= c && c + n <= HEADER_SIZE && HeaderValid(h, lba)
    ensures !HeaderValid(k, lba)
  {
    hide FromLe, CrcNat;
    assert k[..16] == h[..16] && k[12..16] == h[12..16] && k[16..20] == h[16..20];
    var size := Field(h, 12, 4);
    MaskedBurst(h, k, c, n, size);
    BurstChangesCrc(Masked(h, size), Masked(k, size), c, n);
  }

  /** What the checksum is taken over. */
  function Masked(h: bytes, size: nat): (b: bytes)
    requires HEADER_SIZE <= size <= |h|
    ensures |b| == size
    ensures forall i :: 0 <= i < size ==> b[i] == if 16 <= i < 20 then 0 else h[i]
  {
    h[..16] + Zeros(4) + h[20..size]
  }

  lemma MaskedBurst(h: bytes, k: bytes, c: nat, n: nat, size: nat)
    requires Burst(h, k, c, n) && 20 <= c && c + n <= HEADER_SIZE <= size <= |h|
    ensures |k| == |h| && Burst(Masked(h, size), Masked(k, size), c, n)
  {
    hide Masked;
    var i :| 0 <= i < |h| && h[i] != k[i];
    assert Masked(h, size)[i] != Masked(k, size)[i];
  }

  lemma HeaderDamaged(h: bytes, k: bytes, lba: nat, c: nat, n: nat)
    requires Burst(h, k, c, n) && Checked(c, n) && HeaderValid(h, lba)
    ensures !HeaderValid(k, lba)
  {
    hide HeaderValid, Burst;
    BurstLength(h, k, c, n);
    if c + n <= 12 {
      FrontDamaged(h, k, lba, c, n);
    } else if c + n <= 24 {
      ChecksumDamaged(h, k, lba, c, n);
    } else {
      RestDamaged(h, k, lba, c, n);
    }
  }

  /** The copy with the fields `f` is on the disk. */
  ghost predicate CopyPresent(disk: bytes, ss: nat, f: HeaderFields, entries: bytes) {
    var at, from := ByteOf(f.myLba, ss), ByteOf(f.entryLba, ss);
    && ss >= HEADER_SIZE && at + ss <= |disk| && disk[at..at + HEADER_SIZE] == Header(f)
    && |entries| == ARRAY_BYTES && from + ARRAY_BYTES <= |disk| && disk[from..from + ARRAY_BYTES] == entries
    && FieldsFit(f) && f.entriesCrc == CrcNat(entries)
    && (at + ss <= from || from + ARRAY_BYTES <= at)
  }

  /** The burst lies in the entry array, or in the checked part of the header, of that copy. */
  predicate Hits(ss: nat, f: HeaderFields, c: nat, n: nat) {
    var at, from := ByteOf(f.myLba, ss), ByteOf(f.entryLba, ss);
    || (from <= c && c + n <= from + ARRAY_BYTES)
    || (at <= c && c + n <= at + HEADER_SIZE && Checked(c - at, n))
  }

  lemma HeaderHit(a: bytes, b: bytes, ss: nat, f: HeaderFields, entries: bytes, c: nat, n: nat)
    requires CopyPresent(a, ss, f, entries) && Burst(a, b, c, n)
    requires var at := ByteOf(f.myLba, ss); at <= c && c + n <= at + HEADER_SIZE && Checked(c - at, n)
    ensures ReadTable(b, ss, f.myLba) == None
  {
    hide Header, HeaderValid, ReadEntries, ParseHeader, CrcNat, ByteOf, Burst, Checked;
    var at := ByteOf(f.myLba, ss);
    assert |a| == |b| by { BurstLength(a, b, c, n); }
    var h, k := a[at..at + ss], b[at..at + ss];
    assert h[..HEADER_SIZE] == a[at..at + HEADER_SIZE];
    HeaderReads(h, f);
    BurstInside(a, b, c, n, at, at + ss);
    HeaderDamaged(h, k, f.myLba, c - at, n);
  }

  lemma BurstLength(a: bytes, b: bytes, c: nat, n: nat)
    requires Burst(a, b, c, n)
    ensures |a| == |b| && n <= 4
  {
  }

  lemma ArrayHit(a: bytes, b: bytes, ss: nat, f: HeaderFields, entries: bytes, c: nat, n: nat)
    requires CopyPresent(a, ss, f, entries) && Burst(a, b, c, n)
    requires var from := ByteOf(f.entryLba, ss); from <= c && c + n <= from + ARRAY_BYTES
    ensures ReadTable(b, ss, f.myLba) == None
  {
    hide Header, HeaderValid, ParseHeader, CrcNat, ParseEntries, EntrySizeValid, ReadTable, ByteOf;
    var at, from := ByteOf(f.myLba, ss), ByteOf(f.entryLba, ss);
    SameOutsideSlice(b, a, c, c + n, at, at + ss);
    var h := b[at..at + ss];
    assert h[..HEADER_SIZE] == a[at..at + ss][..HEADER_SIZE] == a[at..at + HEADER_SIZE];
    HeaderReads(h, f);
    BurstInside(a, b, c, n, from, from + ARRAY_BYTES);
    BurstChangesCrc(entries, b[from..from + ARRAY_BYTES], c - from, n);
    ArrayRefused(b, ss, f);
  }

  /** A valid header is of no use if its array has another checksum. */
  lemma ArrayRefused(disk: bytes, ss: nat, f: HeaderFields)
    requires var at, from := ByteOf(f.myLba, ss), ByteOf(f.entryLba, ss);
             && ss >= HEADER_SIZE && at + ss <= |disk| && from + ARRAY_BYTES <= |disk|
             && HeaderValid(disk[at..at + ss], f.myLba) && ParseHeader(disk[at..at + ss]) == InfoOf(f)
             && CrcNat(disk[from..from + ARRAY_BYTES]) != f.entriesCrc
    ensures ReadTable(disk, ss, f.myLba) == None
  {
    hide HeaderValid, ParseHeader, CrcNat, ParseEntries, EntrySizeValid;
    assert ByteOf(ENTRY_COUNT, ENTRY_SIZE) == ARRAY_BYTES;
  }

  /** A burst in what the reader checks makes that copy unreadable. */
  lemma CopyDamaged(a: bytes, b: bytes, ss: nat, f: HeaderFields, entries: bytes, c: nat, n: nat)
    requires CopyPresent(a, ss, f, entries) && Burst(a, b, c, n) && Hits(ss, f, c, n)
    ensures ReadTable(b, ss, f.myLba) == None
  {
    hide CopyPresent, Burst, ByteOf, ReadTable, Checked;
    var from := ByteOf(f.entryLba, ss);
    if from <= c && c + n <= from + ARRAY_BYTES {
      ArrayHit(a, b, ss, f, entries, c, n);
    } else {
      HeaderHit(a, b, ss, f, entries, c, n);
    }
  }

  // ---------------------------------------------------------------- both copies

  lemma CopiesArePresent(disk: bytes, l: Layout)
    requires Storable(l) && TableFits(l, |disk|) && PrimaryPresent(disk, l) && BackupPresent(disk, l)
    ensures CopyPresent(disk, l.sectorSize, PrimaryFields(l), EntryArray(l.partitions))
    ensures CopyPresent(disk, l.sectorSize, BackupFields(l), EntryArray(l.partitions))
  {
    hide Header, EntryArray, CrcNat, ByteOf, FieldsFit, Numbered, EntryArraySectors;
  }

  /** Where each copy is hit, the other is not. */
  lemma OtherCopyStays(a: bytes, b: bytes, l: Layout, c: nat, n: nat)
    requires Storable(l) && TableFits(l, |a|) && PrimaryPresent(a, l) && BackupPresent(a, l) && Burst(a, b, c, n)
    ensures |a| == |b|
    ensures Hits(l.sectorSize, PrimaryFields(l), c, n) ==> BackupPresent(b, l)
    ensures Hits(l.sectorSize, BackupFields(l), c, n) ==> PrimaryPresent(b, l)
  {
    hide TableFits, Storable, PrimaryPresent, BackupPresent, Hits, Writable;
    StorableIsWritable(l);
    if Hits(l.sectorSize, PrimaryFields(l), c, n) {
      BackupStays(a, b, l, c, n);
    }
    if Hits(l.sectorSize, BackupFields(l), c, n) {
      PrimaryStays(a, b, l, c, n);
    }
  }

  lemma BackupStays(a: bytes, b: bytes, l: Layout, c: nat, n: nat)
    requires TableFits(l, |a|) && BackupPresent(a, l) && Burst(a, b, c, n) && Hits(l.sectorSize, PrimaryFields(l), c, n)
    ensures BackupPresent(b, l)
  {
    hide Header, EntryArray, CrcNat, ByteOf, EntryArraySectors, Checked;
    var ss := l.sectorSize;
    var header, entries := ByteOf(l.totalSectors - 1, ss), ByteOf(BackupEntryLba(l), ss);
    SameOutsideSlice(b, a, c, c + n, header, header + HEADER_SIZE);
    SameOutsideSlice(b, a, c, c + n, entries, entries + ARRAY_BYTES);
  }

  lemma PrimaryStays(a: bytes, b: bytes, l: Layout, c: nat, n: nat)
    requires TableFits(l, |a|) && PrimaryPresent(a, l) && Burst(a, b, c, n) && Hits(l.sectorSize, BackupFields(l), c, n)
    ensures PrimaryPresent(b, l)
  {
    hide Header, EntryArray, CrcNat, ByteOf, EntryArraySectors, Checked;
    var ss := l.sectorSize;
    SameOutsideSlice(b, a, c, c + n, ss, ss + HEADER_SIZE);
    SameOutsideSlice(b, a, c, c + n, 2 * ss, 2 * ss + ARRAY_BYTES);
  }

  /**
   What the checksums and the second copy are for: change up to four consecutive bytes of one copy, anywhere in its
   entry array or in the checked part of its header, and that copy is refused while the other still reads as the
   layout.
   */
  lemma DamageIsNoticed(a: bytes, b: bytes, l: Layout, c: nat, n: nat)
    requires Storable(l) && TableFits(l, |a|) && PrimaryPresent(a, l) && BackupPresent(a, l) && Burst(a, b, c, n)
    ensures Hits(l.sectorSize, PrimaryFields(l), c, n) ==>
              && ReadTable(b, l.sectorSize, 1) == None
              && ReadTable(b, l.sectorSize, l.totalSectors - 1) == Some(TableOf(l, 1))
    ensures Hits(l.sectorSize, BackupFields(l), c, n) ==>
              && ReadTable(b, l.sectorSize, l.totalSectors - 1) == None
              && ReadTable(b, l.sectorSize, 1) == Some(TableOf(l, l.totalSectors - 1))
  {
    hide Storable, TableFits, Burst, Hits, ReadTable, TableOf, PrimaryPresent, BackupPresent, Writable, PrimaryFields,
         BackupFields;
    StorableIsWritable(l);
    OtherCopyStays(a, b, l, c, n);
    OneRefused(a, b, l, c, n);
    if Hits(l.sectorSize, PrimaryFields(l), c, n) {
      BackupReads(b, l);
    }
    if Hits(l.sectorSize, BackupFields(l), c, n) {
      PrimaryReads(b, l);
    }
  }

  lemma OneRefused(a: bytes, b: bytes, l: Layout, c: nat, n: nat)
    requires Storable(l) && TableFits(l, |a|) && PrimaryPresent(a, l) && BackupPresent(a, l) && Burst(a, b, c, n)
    ensures Hits(l.sectorSize, PrimaryFields(l), c, n) ==> ReadTable(b, l.sectorSize, 1) == None
    ensures Hits(l.sectorSize, BackupFields(l), c, n) ==> ReadTable(b, l.sectorSize, l.totalSectors - 1) == None
  {
    hide CopyPresent, Burst, Hits, ReadTable, PrimaryPresent, BackupPresent, TableFits, EntryArray, Numbered, FieldsFit,
         CrcNat, ByteOf, EntryArraySectors;
    CopiesArePresent(a, l);
    if Hits(l.sectorSize, PrimaryFields(l), c, n) {
      CopyDamaged(a, b, l.sectorSize, PrimaryFields(l), EntryArray(l.partitions), c, n);
    }
    if Hits(l.sectorSize, BackupFields(l), c, n) {
      CopyDamaged(a, b, l.sectorSize, BackupFields(l), EntryArray(l.partitions), c, n);
    }
  }
}

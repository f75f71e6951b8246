/** The encryption layers a root partition may have, as far as they show on the disk. */
module Crypt {
  import opened Bytes
  import opened Device
  import opened DiskLayout

  datatype Layer = Luks | Geli | Cgd | Softraid
  {
    /** cgd keeps no key material on the disk, so nothing there can be destroyed. */
    predicate HasOnDiskKey() {
      this != Cgd
    }
  }

  function ForKind(kind: RootKind): Layer {
    match kind
    case LinuxLuks | DragonFlyLuks => Luks
    case FreeBsdZfs | FreeBsdUfs => Geli
    case NetBsdCgd | NetBsdFfs => Cgd
    case OpenBsdData => Softraid
  }

  const SR_SECTOR: nat := 512
  const SR_META_OFFSET: nat := 16 * SR_SECTOR
  const SR_DATA_OFFSET: nat := 528 * SR_SECTOR
  /** SR_MAGIC, little endian. */
  const SR_MAGIC: bytes := [0x6D, 0x61, 0x72, 0x63, 0x43, 0x52, 0x41, 0x4D]

  /** What the tools outside the program do: what they answer, and what they leave in the root partition. */
  datatype Tools = Tools(probes: bool, eraseOk: bool, eraseImage: bytes)

  /** `image` written over the window `[lo, hi)`, cut off at its end: with a suitable image, any change inside it. */
  function Overlay(disk: bytes, lo: nat, hi: nat, image: bytes): (r: bytes)
    requires lo <= hi <= |disk|
    ensures SameOutside(r, disk, lo, hi)
  {
    Splice(disk, lo, image[..Min(|image|, hi - lo)])
  }

  /** Any change inside a window is an overlay. */
  lemma OverlayReaches(disk: bytes, after: bytes, lo: nat, hi: nat)
    requires lo <= hi <= |disk| && SameOutside(after, disk, lo, hi)
    ensures Overlay(disk, lo, hi, after[lo..hi]) == after
  {
    assert after == after[..lo] + after[lo..hi] + after[hi..];
    assert after[lo..hi][..hi - lo] == after[lo..hi];
  }

  /**
   Whether the partition at `[lo, hi)` holds a container of the layer. LUKS and geli ask their tool; softraid looks
   for its magic, if it can read that far.
   */
  predicate IsContainer(layer: Layer, tools: Tools, disk: bytes, lo: nat, hi: nat)
    requires lo <= hi <= |disk|
  {
    if layer == Softraid then
      tools.probes && lo + SR_META_OFFSET + 8 <= hi && disk[lo + SR_META_OFFSET..lo + SR_META_OFFSET + 8] == SR_MAGIC
    else tools.probes
  }

  /**
   What a kind of root looks like: an OpenBSD root carries the softraid magic in its seventeenth sector, the others are
   what their tool says.
   */
  lemma ContainerIff(kind: RootKind, tools: Tools, disk: bytes, lo: nat, hi: nat)
    requires lo <= hi <= |disk|
    ensures IsContainer(ForKind(kind), tools, disk, lo, hi)
       <==> && tools.probes
            && (kind == OpenBsdData ==>
                  lo + 8200 <= hi && forall i :: 0 <= i < 8 ==> disk[lo + 8192 + i] == "marcCRAM"[i] as int)
  {
    if lo + 8200 <= hi {
      var b := disk[lo + 8192..lo + 8200];
      assert forall i :: 0 <= i < 8 ==> SR_MAGIC[i] == "marcCRAM"[i] as int;
      assert forall i :: 0 <= i < 8 ==> b[i] == disk[lo + 8192 + i];
      if b != SR_MAGIC {
        var i :| 0 <= i < 8 && b[i] != SR_MAGIC[i];
        assert disk[lo + 8192 + i] != "marcCRAM"[i] as int;
      }
    }
  }

  /** The NetBSD kinds, and no others, have no key on the disk. */
  lemma KeyOnDiskIff(kind: RootKind)
    ensures ForKind(kind).HasOnDiskKey() <==> kind != NetBsdCgd && kind != NetBsdFfs
  {
  }

  /** Destroy the key material of a container. Only softraid is erased by the program itself: open, overwrite, sync. */
  function Erase(layer: Layer, tools: Tools, d: Dev, lo: nat, hi: nat): (r: Io)
    requires lo <= hi <= |d.bytes|
    ensures SameOutside(r.dev.bytes, d.bytes, lo, hi)
  {
    match layer
    case Cgd => Io(d, false)
    case Softraid => EraseSoftraid(d, lo, hi)
    case Luks | Geli => Io(Dev(Overlay(d.bytes, lo, hi, tools.eraseImage), d.budget), tools.eraseOk)
  }

  function EraseSoftraid(d: Dev, lo: nat, hi: nat): (r: Io)
    requires lo <= hi <= |d.bytes|
    ensures SameOutside(r.dev.bytes, d.bytes, lo, hi)
    ensures r.ok ==> lo + SR_DATA_OFFSET <= hi && r.dev.bytes[lo..lo + SR_DATA_OFFSET] == Zeros(SR_DATA_OFFSET)
  {
    var r := Exec(d, hi, [Op(1, lo, Zeros(SR_DATA_OFFSET)), Op(1, 0, [])]);
    EraseEffect(d, lo, hi);
    r
  }

  lemma EraseEffect(d: Dev, lo: nat, hi: nat)
    requires lo <= hi <= |d.bytes|
    ensures var r := Exec(d, hi, [Op(1, lo, Zeros(SR_DATA_OFFSET)), Op(1, 0, [])]);
            && SameOutside(r.dev.bytes, d.bytes, lo, hi)
            && (r.ok ==> lo + SR_DATA_OFFSET <= hi && r.dev.bytes[lo..lo + SR_DATA_OFFSET] == Zeros(SR_DATA_OFFSET))
  {
    hide Write, Zeros;
    var a, b := Op(1, lo, Zeros(SR_DATA_OFFSET)), Op(1, 0, []);
    assert [a, b] == [a] + [b] && [b] == [b] + [];
    ExecStep(d, hi, a, [b]);
    var s := Step(d, hi, a);
    if s.ok {
      ExecStep(s.dev, hi, b, []);
      SyncKeeps(s.dev, hi, b);
    }
  }

  /**
   Erasing a softraid partition that reaches that far succeeds exactly when the device lasts, and zeroes its first 528
   sectors of 512 bytes, where the key is, and nothing else.
   */
  lemma EraseSoftraidIff(d: Dev, lo: nat, hi: nat)
    requires lo + 270336 <= hi <= |d.bytes|
    ensures var r := EraseSoftraid(d, lo, hi);
            && (r.ok <==> d.budget >= 270338)
            && (r.ok ==> r.dev.budget == d.budget - 270338 && r.dev.bytes == Splice(d.bytes, lo, Zeros(270336)))
  {
    hide Exec, Zeros;
    var z := Zeros(SR_DATA_OFFSET);
    var ops := [Op(1, lo, z), Op(1, 0, [])];
    ExecSucceedsIff(d, hi, ops);
    assert Cost(ops) == 1 + |z| + (1 + 0 + Cost([])) by {
      assert ops[1..] == [Op(1, 0, [])] && ops[1..][1..] == [];
    }
    if Exec(d, hi, ops).ok {
      var a := Exec(d, hi, ops).dev.bytes;
      ExecHolds(d, hi, ops, 0);
      ExecAvoids(d, hi, ops, 0, lo);
      ExecAvoids(d, hi, ops, lo + 270336, |d.bytes|);
      assert a == a[0..lo] + a[lo..lo + 270336] + a[lo + 270336..|d.bytes|];
      assert Splice(d.bytes, lo, z) == d.bytes[0..lo] + z + d.bytes[lo + 270336..|d.bytes|];
    }
  }

  lemma SyncKeeps(d: Dev, hi: nat, op: Op)
    requires hi <= |d.bytes| && op.data == []
    ensures Step(d, hi, op).dev.bytes == d.bytes
    ensures Exec(Step(d, hi, op).dev, hi, []).dev.bytes == d.bytes
  {
  }

  /** Once softraid is erased it is no container any more, whoever looks: its magic lay in what was overwritten. */
  lemma ErasedIsNoContainer(d: Dev, tools: Tools, later: Tools, lo: nat, hi: nat)
    requires lo <= hi <= |d.bytes| && Erase(Softraid, tools, d, lo, hi).ok
    ensures !IsContainer(Softraid, later, Erase(Softraid, tools, d, lo, hi).dev.bytes, lo, hi)
  {
    hide EraseSoftraid;
    var a := Erase(Softraid, tools, d, lo, hi).dev.bytes;
    assert a[lo..lo + SR_DATA_OFFSET][SR_META_OFFSET] == 0;
    assert a[lo + SR_META_OFFSET] == 0;
  }
}

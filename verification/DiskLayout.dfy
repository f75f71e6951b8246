/** Where the partitions of a disk go. Planning writes nothing. */
module DiskLayout {
  import opened Bytes

  type Guid = g: bytes | |g| == 16 witness Zeros(16)

  const GPT_PRIMARY_SECTORS: nat := 34
  const GPT_SECONDARY_SECTORS: nat := 33
  const ESP_BYTES: nat := 512 * MIB
  const RECOVERY_BYTES: nat := 2 * GIB
  const ROOT_MIN_BYTES: nat := 4 * GIB
  const REQUIRED_BYTES: nat := ESP_BYTES + RECOVERY_BYTES + ROOT_MIN_BYTES

  datatype Option<+T> = None | Some(value: T)

  /** What goes into the root partition. */
  datatype RootKind = LinuxLuks | FreeBsdZfs | DragonFlyLuks | FreeBsdUfs | NetBsdCgd | NetBsdFfs | OpenBsdData

  datatype Role = Esp | Recovery | Root
  {
    function Label(): string {
      match this
      case Esp => "ESP"
      case Recovery => "SARACHI-RECOVERY"
      case Root => "SARACHI-ROOT"
    }

    function TypeGuid(kind: RootKind): Guid {
      match this
      case Esp => [0xc1, 0x2a, 0x73, 0x28, 0xf8, 0x1f, 0x11, 0xd2, 0xba, 0x4b, 0x00, 0xa0, 0xc9, 0x3e, 0xc9, 0x3b]
      case Recovery => [0x5f, 0x9a, 0x1c, 0x7e, 0x4b, 0x2d, 0x4e, 0x8a, 0x9c, 0x3f, 0x1d, 0x6b, 0x8e, 0x0a, 0x7c, 0x24]
      case Root => RootTypeGuid(kind)
    }
  }

  function RootTypeGuid(kind: RootKind): Guid {
    match kind
    case LinuxLuks | DragonFlyLuks =>
      [0xca, 0x7d, 0x7c, 0xcb, 0x63, 0xed, 0x4c, 0x53, 0x86, 0x1c, 0x17, 0x42, 0x53, 0x60, 0x59, 0xcc]
    case FreeBsdZfs | FreeBsdUfs =>
      [0x51, 0x6e, 0x7c, if kind.FreeBsdZfs? then 0xba else 0xb6, 0x6e, 0xcf, 0x11, 0xd6,
       0x8f, 0xf8, 0x00, 0x02, 0x2d, 0x09, 0x71, 0x2b]
    case NetBsdCgd =>
      [0x2d, 0xb5, 0x19, 0xec, 0xb1, 0x0f, 0x11, 0xdc, 0xb9, 0x9b, 0x00, 0x19, 0xd1, 0x87, 0x96, 0x48]
    case NetBsdFfs =>
      [0x49, 0xf4, 0x8d, 0x5a, 0xb1, 0x0e, 0x11, 0xdc, 0xb9, 0x9b, 0x00, 0x19, 0xd1, 0x87, 0x96, 0x48]
    case OpenBsdData =>
      [0x82, 0x4c, 0xc7, 0xa0, 0x36, 0xa8, 0x11, 0xe3, 0x89, 0x0a, 0x95, 0x25, 0x19, 0xad, 0x3f, 0x61]
  }

  datatype Partition = Partition(
    index: nat,
    role: Role,
    typeGuid: Guid,
    uniqueGuid: Guid,
    name: string,
    firstLba: u64,
    /** Inclusive. */
    lastLba: u64)
  {
    function Sectors(): int {
      lastLba - firstLba + 1
    }

    /** The bytes of the disk the partition covers: `[Start, End)`. */
    function Start(ss: nat): nat {
      firstLba * ss
    }

    function End(ss: nat): nat {
      (lastLba + 1) * ss
    }
  }

  datatype Layout = Layout(
    sectorSize: u64,
    totalSectors: u64,
    rootKind: RootKind,
    diskGuid: Guid,
    partitions: seq<Partition>)
  {
    /** The first partition with the given role. */
    function Get(role: Role): (p: Option<Partition>)
      ensures p.Some? ==> p.value in partitions && p.value.role == role
      ensures p.None? ==> forall q :: q in partitions ==> q.role != role
    {
      Find(partitions, role)
    }
  }

  function Find(ps: seq<Partition>, role: Role): (p: Option<Partition>)
    ensures p.Some? ==> p.value in ps && p.value.role == role
    ensures p.None? ==> forall q :: q in ps ==> q.role != role
  {
    if ps == [] then None
    else if ps[0].role == role then Some(ps[0])
    else Find(ps[1..], role)
  }

  datatype PlanError =
    | BadSectorSize
    | SectorDoesNotDivideAlignment
    | DiskTooSmall
    | PastEndOfDisk(role: Role)

  datatype PlanResult = Planned(layout: Layout) | Refused(error: PlanError)

  /** The identifiers drawn afresh for every plan. */
  datatype Identifiers = Identifiers(disk: Guid, esp: Guid, recovery: Guid, root: Guid)
  {
    function Of(role: Role): Guid {
      match role
      case Esp => esp
      case Recovery => recovery
      case Root => root
    }
  }

  predicate IsPowerOfTwo(n: nat) {
    n == 1 || (n > 0 && n % 2 == 0 && IsPowerOfTwo(n / 2))
  }

  predicate LegalSector(ss: nat) {
    ss == 512 || ss == 1024 || ss == 2048 || ss == 4096
  }

  function DivCeil(a: nat, b: nat): nat
    requires b > 0
  {
    (a + b - 1) / b
  }

  // ---------------------------------------------------------------- the layout in closed form

  /** The whole mebibytes in front of the reserved tail: root ends there. */
  function RootEndMib(totalBytes: nat, ss: nat): int
    requires LegalSector(ss)
  {
    (totalBytes / ss - GPT_SECONDARY_SECTORS) / Align(ss)
  }

  /** Partition boundaries in mebibytes. */
  function StartMib(role: Role): nat {
    match role
    case Esp => 1
    case Recovery => 513
    case Root => 2561
  }

  function EndMib(role: Role, totalBytes: nat, ss: nat): int
    requires LegalSector(ss)
  {
    match role
    case Esp => 513
    case Recovery => 2561
    case Root => RootEndMib(totalBytes, ss)
  }

  predicate Fits(totalBytes: nat, ss: nat) {
    LegalSector(ss) && totalBytes >= REQUIRED_BYTES
  }

  /** The sectors of a mebibyte. */
  function Align(ss: nat): (a: nat)
    requires LegalSector(ss)
    ensures a * ss == MIB && 256 <= a <= 2048
  {
    MIB / ss
  }

  lemma FloorBounds(n: nat, d: nat)
    requires d > 0
    ensures n / d * d <= n < (n / d + 1) * d
  {
  }

  lemma RootEndBounds(totalBytes: nat, ss: nat)
    requires Fits(totalBytes, ss)
    ensures var e, a, n := RootEndMib(totalBytes, ss), Align(ss), totalBytes / ss - GPT_SECONDARY_SECTORS;
            6655 <= e && e * a <= n < (e + 1) * a
            && e * a * ss == e * MIB && e * MIB + GPT_SECONDARY_SECTORS * ss <= totalBytes
  {
    var a, n := Align(ss), totalBytes / ss - GPT_SECONDARY_SECTORS;
    FloorBounds(totalBytes, ss);
    assert totalBytes / ss >= 6656 * a by {
      assert totalBytes >= 6656 * a * ss;
    }
    var e := n / a;
    FloorBounds(n, a);
    assert e * a * ss == e * MIB;
    assert e * a * ss <= n * ss;
  }

  function PlannedPartition(role: Role, totalBytes: u64, ss: u64, kind: RootKind, ids: Identifiers): Partition
    requires Fits(totalBytes, ss)
  {
    RootEndBounds(totalBytes, ss);
    Partition(
      match role case Esp => 1 case Recovery => 2 case Root => 3,
      role, role.TypeGuid(kind), ids.Of(role), role.Label(),
      StartMib(role) * Align(ss),
      EndMib(role, totalBytes, ss) * Align(ss) - 1)
  }

  function PlannedLayout(totalBytes: u64, ss: u64, kind: RootKind, ids: Identifiers): Layout
    requires Fits(totalBytes, ss)
  {
    Layout(ss, totalBytes / ss, kind, ids.disk, [
      PlannedPartition(Esp, totalBytes, ss, kind, ids),
      PlannedPartition(Recovery, totalBytes, ss, kind, ids),
      PlannedPartition(Root, totalBytes, ss, kind, ids)])
  }

  /** What planning answers: the sector size is judged before the size of the disk. */
  function PlanOf(totalBytes: u64, ss: u64, kind: RootKind, ids: Identifiers): PlanResult {
    if !LegalSector(ss) then Refused(BadSectorSize)
    else if totalBytes < REQUIRED_BYTES then Refused(DiskTooSmall)
    else Planned(PlannedLayout(totalBytes, ss, kind, ids))
  }

  /** Which disks are planned and which refused, and what of the request a plan carries. */
  lemma PlanAnswers(totalBytes: u64, ss: u64, kind: RootKind, ids: Identifiers)
    ensures var r := PlanOf(totalBytes, ss, kind, ids);
            && (r == Refused(BadSectorSize) <==> ss !in {512, 1024, 2048, 4096})
            && (r == Refused(DiskTooSmall) <==> ss in {512, 1024, 2048, 4096} && totalBytes < 6979321856)
            && (r.Planned? <==> ss in {512, 1024, 2048, 4096} && totalBytes >= 6979321856)
            && (r.Planned? ==>
                  && r.layout.sectorSize == ss && r.layout.totalSectors == totalBytes / ss
                  && r.layout.rootKind == kind && r.layout.diskGuid == ids.disk)
  {
    hide PlannedPartition;
  }

  /** The labels and identifiers of a plan: each partition carries the identifier drawn for it. */
  lemma PlannedNames(totalBytes: u64, ss: u64, kind: RootKind, ids: Identifiers)
    requires Fits(totalBytes, ss)
    ensures var ps := PlannedLayout(totalBytes, ss, kind, ids).partitions;
            && |ps| == 3
            && ps[0].name == "ESP" && ps[1].name == "SARACHI-RECOVERY" && ps[2].name == "SARACHI-ROOT"
            && ps[0].uniqueGuid == ids.esp && ps[1].uniqueGuid == ids.recovery && ps[2].uniqueGuid == ids.root
            && (forall i :: 0 <= i < 3 ==> ps[i].typeGuid == ps[i].role.TypeGuid(kind))
  {
    hide Align, Role.TypeGuid;
  }

  /** The five groups of an identifier as it is printed. */
  predicate Spells(g: Guid, a: nat, b: nat, c: nat, d: nat, e: nat) {
    FromBe(g[..4]) == a && FromBe(g[4..6]) == b && FromBe(g[6..8]) == c && FromBe(g[8..10]) == d && FromBe(g[10..]) == e
  }

  /** The types: two fixed ones, and for root the one the system on it goes by. */
  lemma TypesAre(kind: RootKind)
    ensures Spells(Esp.TypeGuid(kind), 0xc12a7328, 0xf81f, 0x11d2, 0xba4b, 0x00a0c93ec93b)
    ensures Spells(Recovery.TypeGuid(kind), 0x5f9a1c7e, 0x4b2d, 0x4e8a, 0x9c3f, 0x1d6b8e0a7c24)
    ensures var g := Role.Root.TypeGuid(kind);
            match kind
            case LinuxLuks | DragonFlyLuks => Spells(g, 0xca7d7ccb, 0x63ed, 0x4c53, 0x861c, 0x1742536059cc)
            case FreeBsdZfs => Spells(g, 0x516e7cba, 0x6ecf, 0x11d6, 0x8ff8, 0x00022d09712b)
            case FreeBsdUfs => Spells(g, 0x516e7cb6, 0x6ecf, 0x11d6, 0x8ff8, 0x00022d09712b)
            case NetBsdCgd => Spells(g, 0x2db519ec, 0xb10f, 0x11dc, 0xb99b, 0x0019d1879648)
            case NetBsdFfs => Spells(g, 0x49f48d5a, 0xb10e, 0x11dc, 0xb99b, 0x0019d1879648)
            case OpenBsdData => Spells(g, 0x824cc7a0, 0x36a8, 0x11e3, 0x890a, 0x952519ad3f61)
  {
    SpelledOut(Esp.TypeGuid(kind));
    SpelledOut(Recovery.TypeGuid(kind));
    SpelledOut(Role.Root.TypeGuid(kind));
    hide FromBe;
  }

  lemma SpelledOut(g: Guid)
    ensures FromBe(g[..4]) == Group(g[0], g[1], g[2], g[3]) && FromBe(g[4..6]) == Pair(g[4], g[5])
    ensures FromBe(g[6..8]) == Pair(g[6], g[7]) && FromBe(g[8..10]) == Pair(g[8], g[9])
    ensures FromBe(g[10..]) == 0x1_0000_0000 * Pair(g[10], g[11]) + Group(g[12], g[13], g[14], g[15])
  {
    BeTwo(g[4..6]);
    BeTwo(g[6..8]);
    BeTwo(g[8..10]);
    BeTwo(g[10..12]);
    var two, four := g[10..12], g[..4];
    BeNext(two, g[12]);
    BeNext(two + [g[12]], g[13]);
    BeNext(two + [g[12], g[13]], g[14]);
    BeNext(two + [g[12], g[13], g[14]], g[15]);
    BeTwo(g[..2]);
    BeNext(g[..2], g[2]);
    BeNext(g[..2] + [g[2]], g[3]);
    hide FromBe;
    assert two + [g[12]] + [g[13]] == two + [g[12], g[13]];
    assert two + [g[12], g[13]] + [g[14]] == two + [g[12], g[13], g[14]];
    assert two + [g[12], g[13], g[14]] + [g[15]] == g[10..];
    assert g[..2] + [g[2]] + [g[3]] == g[..4];
  }

  function Pair(a: nat, b: nat): nat {
    256 * a + b
  }

  function Group(a: nat, b: nat, c: nat, d: nat): nat {
    0x100_0000 * a + 0x1_0000 * b + 0x100 * c + d
  }

  lemma BeNext(s: bytes, b: byte)
    ensures FromBe(s + [b]) == 256 * FromBe(s) + b
  {
    assert (s + [b])[..|s|] == s;
  }

  lemma BeTwo(s: bytes)
    requires |s| == 2
    ensures FromBe(s) == Pair(s[0], s[1])
  {
    assert s[..1][..0] == [] && FromBe(s[..1]) == s[0];
  }

  // ---------------------------------------------------------------- the planner

  lemma {:induction false} PowerBetween(n: nat, p: nat)
    requires IsPowerOfTwo(n) && IsPowerOfTwo(p) && p <= n < 2 * p
    ensures n == p
    decreases p
  {
    if p > 1 {
      PowerBetween(n / 2, p / 2);
    }
  }

  /** The range check and the power-of-two check leave four sector sizes. */
  lemma LegalSectors(ss: nat)
    ensures LegalSector(ss) <==> IsPowerOfTwo(ss) && 512 <= ss <= 4096
  {
    assert IsPowerOfTwo(512) && IsPowerOfTwo(1024) && IsPowerOfTwo(2048) && IsPowerOfTwo(4096);
    if IsPowerOfTwo(ss) && 512 <= ss <= 4096 {
      PowerBetween(ss, if ss < 1024 then 512 else if ss < 2048 then 1024 else if ss < 4096 then 2048 else 4096);
    }
  }

  /** The arithmetic of the planner's loop. */
  lemma PlanArithmetic(totalBytes: nat, ss: nat)
    requires Fits(totalBytes, ss)
    ensures var a := MIB / ss;
            && MIB % ss == 0 && a == Align(ss) && DivCeil(GPT_PRIMARY_SECTORS, a) * a == a
            && ESP_BYTES / ss == 512 * a && RECOVERY_BYTES / ss == 2048 * a
  {
    if ss == 512 {
    } else if ss == 1024 {
    } else if ss == 2048 {
    } else {
    }
  }

  lemma PlannedLbas(totalBytes: u64, ss: u64, kind: RootKind, ids: Identifiers)
    requires Fits(totalBytes, ss)
    ensures var ps, a := PlannedLayout(totalBytes, ss, kind, ids).partitions, MIB / ss;
            && ps[0] == Partition(1, Esp, Esp.TypeGuid(kind), ids.Of(Esp), Esp.Label(), a, a + ESP_BYTES / ss - 1)
            && ps[1] == Partition(2, Recovery, Recovery.TypeGuid(kind), ids.Of(Recovery), Recovery.Label(),
                                  ps[0].lastLba + 1, ps[0].lastLba + 1 + RECOVERY_BYTES / ss - 1)
            && ps[2] == Partition(3, Root, Root.TypeGuid(kind), ids.Of(Root), Root.Label(), ps[1].lastLba + 1,
                                  (totalBytes / ss - GPT_SECONDARY_SECTORS) / a * a - 1)
            && ps[0].lastLba < ps[1].lastLba < ps[2].lastLba
  {
    hide Role.TypeGuid, Role.Label;
    PlanArithmetic(totalBytes, ss);
    RootEndBounds(totalBytes, ss);
  }

  /** The roles in disk order. Root, last, takes what is left. */
  const ROLES: seq<Role> := [Esp, Recovery, Root]

  /** The size of a partition that does not take what is left. */
  function FixedSize(role: Role): Option<nat> {
    match role
    case Esp => Some(ESP_BYTES)
    case Recovery => Some(RECOVERY_BYTES)
    case Root => None
  }

  function WholeSectors(size: nat, ss: nat): (n: nat)
    requires 0 < ss <= size
    ensures n >= 1
  {
    size / ss
  }

  datatype PlaceResult = Placed(partitions: seq<Partition>) | TooFar(role: Role)
  {
    function After(ps: seq<Partition>): PlaceResult {
      match this
      case TooFar(_) => this
      case Placed(rest) => Placed(ps + rest)
    }

    lemma AfterTooFar(ps: seq<Partition>)
      requires TooFar?
      ensures After(ps) == this
    {
    }

    lemma AfterEnds(ps: seq<Partition>)
      ensures After([]) == this
      ensures Placed([]).After(ps) == Placed(ps)
    {
      if Placed? {
        assert [] + partitions == partitions;
      }
    }

    lemma AfterBoth(ps: seq<Partition>, qs: seq<Partition>)
      ensures After(qs).After(ps) == After(ps + qs)
    {
      if Placed? {
        assert ps + (qs + partitions) == ps + qs + partitions;
      }
    }
  }

  /** The partitions from position `index` of ROLES on, the first of them at `cursor`. */
  function PlaceFrom(index: nat, cursor: nat, lastUsable: nat, ss: u64, kind: RootKind, ids: Identifiers): PlaceResult
    requires index <= |ROLES| && 0 < ss <= MIB && lastUsable + 1 < U64 && cursor < U64
    decreases |ROLES| - index
  {
    if index == |ROLES| then Placed([]) else
    var role := ROLES[index];
    var last := match FixedSize(role) case Some(b) => cursor + WholeSectors(b, ss) - 1 case None => lastUsable;
    if last > lastUsable then TooFar(role) else
    PlaceFrom(index + 1, last + 1, lastUsable, ss, kind, ids).After(
      [Partition(index + 1, role, role.TypeGuid(kind), ids.Of(role), role.Label(), cursor, last)])
  }

  lemma PlacedIsPlanned(totalBytes: u64, ss: u64, kind: RootKind, ids: Identifiers)
    requires Fits(totalBytes, ss)
    ensures var a := MIB / ss;
            var lastUsable := (totalBytes / ss - GPT_SECONDARY_SECTORS) / a * a - 1;
            0 <= lastUsable && lastUsable + 1 < U64 && a < U64 &&
            PlaceFrom(0, a, lastUsable, ss, kind, ids) == Placed(PlannedLayout(totalBytes, ss, kind, ids).partitions)
  {
    hide Role.TypeGuid, Role.Label, PlannedPartition, Align, Identifiers.Of;
    PlannedLbas(totalBytes, ss, kind, ids);
    var ps := PlannedLayout(totalBytes, ss, kind, ids).partitions;
    var lastUsable := ps[2].lastLba;
    assert PlaceFrom(3, lastUsable + 1, lastUsable, ss, kind, ids) == Placed([]);
    assert PlaceFrom(2, ps[2].firstLba, lastUsable, ss, kind, ids) == Placed(ps[2..]);
    assert PlaceFrom(1, ps[1].firstLba, lastUsable, ss, kind, ids) == Placed([ps[1]] + ps[2..]);
  }

  /** The loop of the planner: a moving cursor and a growing list. */
  method Place(first: nat, lastUsable: nat, ss: u64, kind: RootKind, ids: Identifiers) returns (r: PlaceResult)
    requires 0 < ss <= MIB && lastUsable + 1 < U64 && first < U64
    ensures r == PlaceFrom(0, first, lastUsable, ss, kind, ids)
  {
    hide Role.TypeGuid, Role.Label, Identifiers.Of, WholeSectors, PlaceResult.After;
    var cursor := first;
    var partitions: seq<Partition> := [];
    PlaceFrom(0, first, lastUsable, ss, kind, ids).AfterEnds([]);
    for index := 0 to |ROLES|
      invariant 0 <= cursor < U64
      invariant PlaceFrom(0, first, lastUsable, ss, kind, ids)
             == PlaceFrom(index, cursor, lastUsable, ss, kind, ids).After(partitions)
    {
      var role := ROLES[index];
      var last := match FixedSize(role) case Some(b) => cursor + WholeSectors(b, ss) - 1 case None => lastUsable;
      if last > lastUsable {
        TooFar(role).AfterTooFar(partitions);
        return TooFar(role);
      }
      var p := Partition(index + 1, role, role.TypeGuid(kind), ids.Of(role), role.Label(), cursor, last);
      PlaceFrom(index + 1, last + 1, lastUsable, ss, kind, ids).AfterBoth(partitions, [p]);
      partitions := partitions + [p];
      cursor := last + 1;
    }
    Placed([]).AfterEnds(partitions);
    r := Placed(partitions);
  }

  /**
   The planner of layout.rs: checks, then one pass over the three roles with a moving cursor. It computes
   the closed form, so its last check, that a partition runs past the end of the disk, never fires.
   */
  method Plan(totalBytes: u64, ss: u64, kind: RootKind, ids: Identifiers) returns (r: PlanResult)
    ensures r == PlanOf(totalBytes, ss, kind, ids)
  {
    hide IsPowerOfTwo, PlaceFrom;
    LegalSectors(ss);
    if !IsPowerOfTwo(ss) || !(512 <= ss <= 4096) {
      return Refused(BadSectorSize);
    }
    if MIB % ss != 0 {
      return Refused(SectorDoesNotDivideAlignment);
    }
    var totalSectors := totalBytes / ss;
    var align := MIB / ss;
    if totalBytes < ESP_BYTES + RECOVERY_BYTES + ROOT_MIN_BYTES {
      return Refused(DiskTooSmall);
    }
    PlanArithmetic(totalBytes, ss);
    PlacedIsPlanned(totalBytes, ss, kind, ids);
    var usableEnd := totalSectors - GPT_SECONDARY_SECTORS - 1;
    var lastUsable := (usableEnd + 1) / align * align - 1;
    var placed := Place(DivCeil(GPT_PRIMARY_SECTORS, align) * align, lastUsable, ss, kind, ids);
    match placed {
      case TooFar(role) => r := Refused(PastEndOfDisk(role));
      case Placed(partitions) => r := Planned(Layout(ss, totalSectors, kind, ids.disk, partitions));
    }
  }

  // ---------------------------------------------------------------- geometry

  /** In bytes, every partition of a planned layout runs between two whole mebibytes. */
  lemma PlannedBytes(totalBytes: u64, ss: u64, kind: RootKind, ids: Identifiers, role: Role)
    requires Fits(totalBytes, ss)
    ensures var p := PlannedPartition(role, totalBytes, ss, kind, ids);
            p.Start(ss) == StartMib(role) * MIB && p.End(ss) == EndMib(role, totalBytes, ss) * MIB
  {
    var a := Align(ss);
    RootEndBounds(totalBytes, ss);
    MulSwap(StartMib(role), a, ss);
    MulSwap(EndMib(role, totalBytes, ss), a, ss);
  }

  lemma MulMinus(t: int, n: int, ss: int)
    ensures (t - n) * ss == t * ss - n * ss
  {
  }

  lemma MulMonotone(x: int, y: int, z: nat)
    ensures x <= y ==> x * z <= y * z
  {
  }

  lemma MulSwap(k: int, a: int, ss: int)
    ensures k * a * ss == k * (a * ss)
  {
  }

  /**
   The geometry of every disk that is accepted: three partitions without gaps on whole mebibytes, the first two
   of exact size, the last ending at the greatest aligned boundary in front of the sectors kept for the
   backup table.
   */
  lemma Geometry(totalBytes: u64, ss: u64, kind: RootKind, ids: Identifiers)
    requires PlanOf(totalBytes, ss, kind, ids).Planned?
    ensures var l := PlanOf(totalBytes, ss, kind, ids).layout;
            var ps, a := l.partitions, MIB / ss;
            && |ps| == 3 && ps[0].role == Esp && ps[1].role == Recovery && ps[2].role == Root
            && (forall i :: 0 <= i < 3 ==>
                  ps[i].index == i + 1 && ps[i].firstLba % a == 0 && ps[i].firstLba < ps[i].lastLba)
            && (forall i :: 0 <= i < 2 ==> ps[i].lastLba + 1 == ps[i + 1].firstLba)
            && GPT_PRIMARY_SECTORS <= ps[0].firstLba
            && ps[0].Sectors() * ss == ESP_BYTES && ps[1].Sectors() * ss == RECOVERY_BYTES
            && (ps[2].lastLba + 1) % a == 0
            && ps[2].lastLba + 1 <= l.totalSectors - GPT_SECONDARY_SECTORS < ps[2].lastLba + 1 + a
  {
    RootEndBounds(totalBytes, ss);
    var a := Align(ss);
    ModOfMultiple(1, a);
    ModOfMultiple(513, a);
    ModOfMultiple(2561, a);
    ModOfMultiple(RootEndMib(totalBytes, ss), a);
    MulSwap(512, a, ss);
    MulSwap(2048, a, ss);
  }

  lemma ModOfMultiple(k: nat, a: nat)
    requires a > 0
    ensures (k * a) % a == 0
  {
    var q, r := k * a / a, k * a % a;
    assert k * a == q * a + r;
    assert (k - q) * a == r;
    MulAtLeast(k - q, a);
  }

  lemma MulAtLeast(x: int, a: int)
    requires a > 0
    ensures x >= 1 ==> x * a >= a
    ensures x <= -1 ==> x * a <= -a
  {
  }

  /** The boundaries do not depend on what goes into root, nor on the identifiers drawn. */
  lemma BoundariesDependOnDiskOnly(totalBytes: u64, ss: u64, k1: RootKind, k2: RootKind, i1: Identifiers,
                                   i2: Identifiers)
    requires PlanOf(totalBytes, ss, k1, i1).Planned?
    ensures PlanOf(totalBytes, ss, k2, i2).Planned?
    ensures var a := PlanOf(totalBytes, ss, k1, i1).layout.partitions;
            var b := PlanOf(totalBytes, ss, k2, i2).layout.partitions;
            |a| == |b| && forall i :: 0 <= i < |a| ==> a[i].firstLba == b[i].firstLba && a[i].lastLba == b[i].lastLba
  {
    RootEndBounds(totalBytes, ss);
  }

  function RootBytes(totalBytes: u64, ss: u64): int
    requires Fits(totalBytes, ss)
  {
    (EndMib(Root, totalBytes, ss) - StartMib(Root)) * MIB
  }

  /**
   Disks are turned away so that root gets at least ROOT_MIN_BYTES, but the check ignores what alignment and
   the tables take. Root is only certain of two mebibytes less, it gets exactly that on the smallest disk, and it
   reaches the minimum exactly when the disk has another mebibyte and 33 sectors to spare.
   */
  lemma RootSize(totalBytes: u64, ss: u64)
    requires Fits(totalBytes, ss)
    ensures RootBytes(totalBytes, ss) >= ROOT_MIN_BYTES - 2 * MIB
    ensures totalBytes == REQUIRED_BYTES ==> RootBytes(totalBytes, ss) == ROOT_MIN_BYTES - 2 * MIB
    ensures RootBytes(totalBytes, ss) >= ROOT_MIN_BYTES
       <==> totalBytes >= REQUIRED_BYTES + MIB + GPT_SECONDARY_SECTORS * ss
  {
    RootEndBounds(totalBytes, ss);
    var e, a, t := RootEndMib(totalBytes, ss), Align(ss), totalBytes / ss;
    FloorBounds(totalBytes, ss);
    hide RootEndMib, Align;
    MulMonotone(6657 * a + 33, t, ss);
    MulMonotone(t + 1, 6657 * a + 33, ss);
    MulMonotone(6657, e, a);
    MulMonotone(e + 1, 6657, a);
    MulSwap(6657, a, ss);
    assert (6657 * a + 33) * ss == 6657 * MIB + 33 * ss;
    if totalBytes == REQUIRED_BYTES {
      MulSwap(6656, a, ss);
      MulMonotone(6656 * a + 1, t, ss);
      MulMonotone(6656, e, a);
    }
  }

  /** The partition of a planned layout with a given role, as `Get` finds it. */
  lemma GetPlanned(totalBytes: u64, ss: u64, kind: RootKind, ids: Identifiers, role: Role)
    requires Fits(totalBytes, ss)
    ensures PlannedLayout(totalBytes, ss, kind, ids).Get(role)
         == Some(PlannedPartition(role, totalBytes, ss, kind, ids))
  {
    var ps := PlannedLayout(totalBytes, ss, kind, ids).partitions;
    assert Find(ps, role) == if role == Esp then Some(ps[0])
                             else if role == Recovery then Find(ps[1..], role)
                             else Find(ps[2..], role);
  }
}

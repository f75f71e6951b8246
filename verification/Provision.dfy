/** Provisioning a disk from nothing: check everything, partition, fill, escrow the key, encrypt, fill root. */
module Provision {
  import opened Bytes
  import opened Crypt
  import opened Device
  import opened DiskLayout
  import opened Gpt
  import opened GptOnDisk
  import opened Manifests
  import opened Signing
  import opened Utf8
  import opened Wipe
  import Ingest
  import Install

  datatype EscrowKind = File | ControlPlane(base: string, token: string) | Tpm

  datatype Request = Request(
    totalBytes: u64, ss: u64, kind: RootKind, ids: Identifiers, wantEsp: bool, wantRecovery: bool, deviceId: text,
    escrow: EscrowKind, commit: bool)
  {
    predicate Wants(role: Role) {
      match role case Esp => wantEsp case Recovery => wantRecovery case Root => true
    }
  }

  /**
   Everything outside the program, each part of which may fail: what the server gives for each role, which device
   nodes appear, the random source, the escrow, and the encryption tools with what they leave in the root partition
   and the container they open.
   */
  datatype World = World(
    manifest: Role -> Option<bytes>, image: Role -> Option<bytes>, appears: Role -> bool, newKey: Option<bytes>,
    escrowStores: bool, formatOk: bool, formatImage: bytes, openOk: bool, sessionImage: bytes, container: Dev,
    closeOk: bool)

  datatype Event =
    | Checked(role: Role, manifest: Manifest)
    | TableBegun
    | FillBegun(role: Role)
    | Escrowed(deviceId: text, key: bytes)
    | FormatBegun(key: bytes)
    | OpenBegun(key: bytes)
    | Closed

  datatype FillError = NoImage | CannotOpen | Stopped(error: Ingest.Error) | CannotSync

  datatype Error =
    | PlanError(plan: PlanError)
    | ManifestError(role: Role, got: Install.ManifestResult)
    | TooLarge(role: Role)
    | TableError(table: GptResult)
    | DiskError
    | NoDevice(role: Role)
    | FillFailed(role: Role, fill: FillError)
    | NoKey
    | EscrowFailed
    | FormatFailed
    | OpenFailed
    | CloseFailed

  datatype Result = Provisioned | DryRun | Failed(error: Error)

  datatype State = State(dev: Dev, container: Dev, log: seq<Event>)
  {
    function Log(e: Event): State {
      this.(log := log + [e])
    }
  }

  /** A state and, unless all went well so far, the error that ended the run there. */
  datatype Stage = Stage(state: State, error: Option<Error>)

  // ---------------------------------------------------------------- checks

  /** What is needed to trust and to hash. */
  datatype Trust = Trust(h: Hash, valid: Verifier, key: bytes)

  function ManifestFor(t: Trust, w: World, role: Role): Install.ManifestResult {
    Install.TrustedManifest(t.valid, t.key, w.manifest(role))
  }

  /** The partition's size in bytes bounds the image. Root is judged by its raw size as well. */
  function CheckRole(t: Trust, w: World, q: Request, role: Role): Option<Error>
    requires LegalSector(q.ss)
  {
    var m := ManifestFor(t, w, role);
    if !m.Trusted? then Some(ManifestError(role, m))
    else if m.manifest.totalSize > Hi(role, q.totalBytes, q.ss) - Lo(role) then Some(TooLarge(role))
    else None
  }

  /**
   A role passes exactly when its manifest is trusted and its image is no larger than its own partition; too large is
   said exactly of trusted manifests.
   */
  lemma CheckRoleIff(t: Trust, w: World, q: Request, role: Role)
    requires Fits(q.totalBytes, q.ss)
    ensures var m, size := ManifestFor(t, w, role), PartitionBytes(q, role);
            && (CheckRole(t, w, q, role) == None <==> m.Trusted? && m.manifest.totalSize <= size)
            && (CheckRole(t, w, q, role) == Some(TooLarge(role)) <==> m.Trusted? && m.manifest.totalSize > size)
            && (forall e :: CheckRole(t, w, q, role) == Some(ManifestError(role, e)) <==> !m.Trusted? && e == m)
  {
    hide Hi, Install.TrustedManifest;
    WindowsOrdered(q.totalBytes, q.ss);
    SizesAre(q);
  }

  /** How much fits a partition: 512 MiB, 2 GiB, and for root what is left behind 2561 MiB up to the last whole MiB. */
  function PartitionBytes(q: Request, role: Role): int
    requires Fits(q.totalBytes, q.ss)
  {
    match role
    case Esp => 536870912
    case Recovery => 2147483648
    case Root => ((q.totalBytes / q.ss - 33) * q.ss / 1048576 - 2561) * 1048576
  }

  lemma SizesAre(q: Request)
    requires Fits(q.totalBytes, q.ss)
    ensures forall role: Role :: Hi(role, q.totalBytes, q.ss) - Lo(role) == PartitionBytes(q, role)
  {
    WholeMebibytes(q.totalBytes / q.ss - 33, q.ss);
  }

  lemma WholeMebibytes(n: int, ss: nat)
    requires LegalSector(ss)
    ensures n / Align(ss) == n * ss / MIB
  {
    var a, q := Align(ss), n / Align(ss);
    var r := n - q * a;
    assert 0 <= r < a;
    MulSwap(q, a, ss);
    assert n * ss == q * MIB + r * ss;
    MulMonotone(r + 1, a, ss);
    assert 0 <= r * ss < MIB;
  }

  function Check(t: Trust, w: World, q: Request, role: Role, s: Stage): Stage
    requires LegalSector(q.ss)
  {
    if s.error.Some? || !q.Wants(role) then s
    else match CheckRole(t, w, q, role)
      case Some(e) => Stage(s.state, Some(e))
      case None => Stage(s.state.Log(Checked(role, ManifestFor(t, w, role).manifest)), None)
  }

  function CheckAll(t: Trust, w: World, q: Request, s: Stage): Stage
    requires LegalSector(q.ss)
  {
    Check(t, w, q, Root, Check(t, w, q, Recovery, Check(t, w, q, Esp, s)))
  }

  /** All wanted manifests are trusted and their images fit. */
  predicate AllChecked(t: Trust, w: World, q: Request)
    requires LegalSector(q.ss)
  {
    forall role: Role :: q.Wants(role) ==> CheckRole(t, w, q, role) == None
  }

  // ---------------------------------------------------------------- stages

  /** Fetch, open, write verified chunks, sync: into the window `[lo, hi)`. */
  function FillOf(h: Hash, m: Manifest, image: Option<bytes>, d: Dev, lo: nat, hi: nat): (r: (Dev, Option<FillError>))
    requires Consistent(m) && lo <= hi <= |d.bytes|
    ensures |r.0.bytes| == |d.bytes|
  {
    match image
    case None => (d, Some(NoImage))
    case Some(src) =>
      var c := Credit(d, 1);
      if !c.ok then (c.dev, Some(CannotOpen))
      else
        var r := Ingest.VerifyAndWriteOf(h, m, src, c.dev, hi, lo, 0);
        IngestKeepsLength(h, m, src, c.dev, hi, lo);
        if r.error.Some? then (r.dev, Some(Stopped(r.error.value)))
        else
          var f := Credit(r.dev, 1);
          (f.dev, if f.ok then None else Some(CannotSync))
  }

  lemma IngestKeepsLength(h: Hash, m: Manifest, src: bytes, d: Dev, hi: nat, at: nat)
    requires Consistent(m) && hi <= |d.bytes|
    ensures |Ingest.VerifyAndWriteOf(h, m, src, d, hi, at, 0).dev.bytes| == |d.bytes|
  {
  }

  /** The state of a run on a disk of the right size. */
  predicate Sized(s: Stage, q: Request) {
    |s.state.dev.bytes| == q.totalBytes
  }

  predicate Ready(t: Trust, w: World, q: Request) {
    Fits(q.totalBytes, q.ss) && AllChecked(t, w, q)
  }

  function LayoutOf(q: Request): Layout
    requires Fits(q.totalBytes, q.ss)
  {
    PlannedLayout(q.totalBytes, q.ss, q.kind, q.ids)
  }

  datatype TableWrite = TableWrite(dev: Dev, error: Option<Error>)

  /** Open the disk, write the table, sync. */
  function WriteTable(d: Dev, l: Layout): (r: TableWrite)
    requires Writable(l)
    ensures |r.dev.bytes| == |d.bytes|
  {
    var o := Credit(d, 1);
    if !o.ok then TableWrite(o.dev, Some(DiskError))
    else
      var (dev, got) := WriteGptOf(o.dev, l);
      if got != Written then TableWrite(dev, Some(TableError(got)))
      else
        var f := Credit(dev, 1);
        TableWrite(f.dev, if f.ok then None else Some(DiskError))
  }

  function TableStage(q: Request, s: Stage): (r: Stage)
    requires Fits(q.totalBytes, q.ss) && Sized(s, q)
    ensures Sized(r, q)
  {
    if s.error.Some? then s else
    PlannedIsWritable(q.totalBytes, q.ss, q.kind, q.ids);
    var r := WriteTable(s.state.dev, LayoutOf(q));
    Stage(s.state.Log(TableBegun).(dev := r.dev), r.error)
  }

  /** Fill the partition of a role that is not encrypted. */
  function FillStage(t: Trust, w: World, q: Request, role: Role, s: Stage): (r: Stage)
    requires Ready(t, w, q) && Sized(s, q) && role != Root
    ensures Sized(r, q)
  {
    if s.error.Some? || !q.Wants(role) then s
    else if !w.appears(role) then Stage(s.state, Some(NoDevice(role)))
    else
      WindowsOrdered(q.totalBytes, q.ss);
      assert CheckRole(t, w, q, role) == None;
      var (dev, why) := FillOf(t.h, ManifestFor(t, w, role).manifest, w.image(role), s.state.dev, Lo(role),
                               Hi(role, q.totalBytes, q.ss));
      Stage(s.state.Log(FillBegun(role)).(dev := dev), if why.None? then None else Some(FillFailed(role, why.value)))
  }

  predicate IsHttps(url: string) {
    "https://" <= url
  }

  /** Whether storing the key succeeds: TPM escrow is refused, and no key is sent without TLS. */
  predicate EscrowStores(w: World, q: Request) {
    match q.escrow
    case File => w.escrowStores
    case ControlPlane(base, _) => IsHttps(base) && w.escrowStores
    case Tpm => false
  }

  /** No key goes to a TPM, and none goes to a control plane whose address does not begin with `https://`. */
  lemma EscrowStoresIff(w: World, q: Request)
    ensures EscrowStores(w, q)
       <==> && w.escrowStores && !q.escrow.Tpm?
            && (q.escrow.ControlPlane? ==> |q.escrow.base| >= 8 && q.escrow.base[..8] == "https://")
  {
    if q.escrow.ControlPlane? && |q.escrow.base| >= 8 {
      assert "https://" <= q.escrow.base <==> q.escrow.base[..8] == "https://";
    }
  }

  /** Draw a key, escrow it, and only then format, open, fill and close the container. */
  function RootStage(t: Trust, w: World, q: Request, s: Stage): (r: Stage)
    requires Ready(t, w, q) && Sized(s, q)
    ensures Sized(r, q)
  {
    if s.error.Some? then s
    else if !w.appears(Root) then Stage(s.state, Some(NoDevice(Root)))
    else if w.newKey.None? then Stage(s.state, Some(NoKey))
    else if !EscrowStores(w, q) then Stage(s.state, Some(EscrowFailed))
    else
      WindowsOrdered(q.totalBytes, q.ss);
      assert CheckRole(t, w, q, Root) == None;
      var k, lo, hi := w.newKey.value, Lo(Root), Hi(Root, q.totalBytes, q.ss);
      var a := s.state.Log(Escrowed(q.deviceId, k)).Log(FormatBegun(k));
      var b := a.(dev := Dev(Overlay(a.dev.bytes, lo, hi, w.formatImage), a.dev.budget));
      if !w.formatOk then Stage(b, Some(FormatFailed))
      else
        var c := b.Log(OpenBegun(k)).(dev := Dev(Overlay(b.dev.bytes, lo, hi, w.sessionImage), b.dev.budget));
        if !w.openOk then Stage(c, Some(OpenFailed))
        else
          var (box, why) := FillOf(t.h, ManifestFor(t, w, Root).manifest, w.image(Root), w.container, 0,
                                   |w.container.bytes|);
          var e := c.Log(FillBegun(Root)).(container := box);
          if why.Some? then Stage(e, Some(FillFailed(Root, why.value)))
          else if !w.closeOk then Stage(e, Some(CloseFailed))
          else Stage(e.Log(Closed), None)
  }

  function CommitStages(t: Trust, w: World, q: Request, s: Stage): (r: Stage)
    requires Ready(t, w, q) && Sized(s, q)
    ensures Sized(r, q)
  {
    RootStage(t, w, q, FillStage(t, w, q, Recovery, FillStage(t, w, q, Esp, TableStage(q, s))))
  }

  /** The state a run begins in. */
  function Start(d: Dev, w: World): Stage {
    Stage(State(d, w.container, []), None)
  }

  lemma CheckedWhenNoError(t: Trust, w: World, q: Request, s: Stage)
    requires LegalSector(q.ss)
    ensures CheckAll(t, w, q, s).state.dev == s.state.dev && CheckAll(t, w, q, s).state.container == s.state.container
    ensures s.error.None? && CheckAll(t, w, q, s).error.None? ==> AllChecked(t, w, q)
  {
    hide CheckRole;
    var a := Check(t, w, q, Esp, s);
    var b := Check(t, w, q, Recovery, a);
    if s.error.None? && CheckAll(t, w, q, s).error.None? {
      forall role: Role | q.Wants(role) ensures CheckRole(t, w, q, role) == None {
        match role {
          case Esp => assert a.error.None?;
          case Recovery => assert b.error.None?;
          case Root =>
        }
      }
    }
  }

  /** `run`, for every world and every point at which the disk may fail. */
  function ProvisionOf(t: Trust, w: World, q: Request, d: Dev): (State, Result)
    requires |d.bytes| == q.totalBytes
  {
    match PlanOf(q.totalBytes, q.ss, q.kind, q.ids)
    case Refused(e) => (Start(d, w).state, Failed(PlanError(e)))
    case Planned(_) =>
      var c := CheckAll(t, w, q, Start(d, w));
      CheckedWhenNoError(t, w, q, Start(d, w));
      if c.error.Some? then (c.state, Failed(c.error.value))
      else if !q.commit then (c.state, DryRun)
      else
        var r := CommitStages(t, w, q, c);
        (r.state, if r.error.None? then Provisioned else Failed(r.error.value))
  }

  // ---------------------------------------------------------------- the program

  method RunTable(disk: Disk, l: Layout) returns (error: Option<Error>)
    requires Writable(l)
    modifies disk, disk.data
    ensures TableWrite(disk.State(), error) == WriteTable(old(disk.State()), l)
  {
    hide WriteGptOf, Writable;
    var ok := disk.Touch();
    if !ok { return Some(DiskError); }
    var got := WriteGpt(disk, l);
    if got != Written { return Some(TableError(got)); }
    ok := disk.Touch();
    error := if ok then None else Some(DiskError);
  }

  /** provision.rs, `write_into`. */
  method WriteInto(h: Hash, m: Manifest, image: Option<bytes>, disk: Disk, lo: nat, hi: nat)
    returns (why: Option<FillError>)
    requires Consistent(m) && lo <= hi <= disk.data.Length
    modifies disk, disk.data
    ensures (disk.State(), why) == FillOf(h, m, image, old(disk.State()), lo, hi)
  {
    hide Consistent, Ingest.VerifyAndWriteOf;
    if image.None? { return Some(NoImage); }
    var src := new Ingest.Source(image.value);
    var ok := disk.Touch();
    if !ok { return Some(CannotOpen); }
    assert src.Rest() == image.value;
    var stats, error := Ingest.VerifyAndWrite(h, m, src, disk, hi, lo, 0);
    if error.Some? { return Some(Stopped(error.value)); }
    ok := disk.Touch();
    why := if ok then None else Some(CannotSync);
  }

  /** The manifests of all wanted roles, before anything is touched. */
  method RunChecks(t: Trust, w: World, q: Request, l: Layout, ghost s: Stage)
    returns (error: Option<Error>, log: seq<Event>)
    requires Fits(q.totalBytes, q.ss) && l == LayoutOf(q) && s.error.None? && s.state.log == []
    ensures var c := CheckAll(t, w, q, s); error == c.error && log == c.state.log
  {
    hide PlannedLayout, Hi, Install.TrustedManifest;
    log := [];
    var roles := [Esp, Recovery, Root];
    ghost var stage := s;
    for i := 0 to 3
      invariant stage.error.None? && stage.state.log == log
      invariant CheckAll(t, w, q, s) == if i == 0 then CheckAll(t, w, q, stage)
                                        else if i == 1 then Check(t, w, q, Root, Check(t, w, q, Recovery, stage))
                                        else if i == 2 then Check(t, w, q, Root, stage) else stage
    {
      var role := roles[i];
      ghost var before := stage;
      stage := Check(t, w, q, role, stage);
      if q.Wants(role) {
        var m := ManifestFor(t, w, role);
        if !m.Trusted? {
          return Some(ManifestError(role, m)), log;
        }
        GetWindow(q.totalBytes, q.ss, q.kind, q.ids, role);
        var part := l.Get(role).value;
        if m.manifest.totalSize > part.Sectors() * q.ss {
          return Some(TooLarge(role)), log;
        }
        log := log + [Checked(role, m.manifest)];
      }
    }
    error := None;
  }

  /** ESP or recovery, if it is wanted. */
  method RunFill(t: Trust, w: World, q: Request, role: Role, disk: Disk, log: seq<Event>, ghost s: Stage)
    returns (error: Option<Error>, log': seq<Event>)
    requires Ready(t, w, q) && Sized(s, q) && role != Root && s.error.None?
    requires s.state.dev == disk.State() && s.state.log == log
    modifies disk, disk.data
    ensures FillStage(t, w, q, role, s) == Stage(State(disk.State(), s.state.container, log'), error)
  {
    hide CheckRole, FillOf, Hi, ManifestFor, Credit, Write;
    log' := log;
    if !q.Wants(role) {
      return None, log;
    }
    if !w.appears(role) {
      return Some(NoDevice(role)), log;
    }
    WindowsOrdered(q.totalBytes, q.ss);
    RoleReady(t, w, q, role);
    log' := log + [FillBegun(role)];
    var why := WriteInto(t.h, ManifestFor(t, w, role).manifest, w.image(role), disk, Lo(role),
                         Hi(role, q.totalBytes, q.ss));
    error := if why.None? then None else Some(FillFailed(role, why.value));
  }

  lemma RoleReady(t: Trust, w: World, q: Request, role: Role)
    requires Ready(t, w, q) && q.Wants(role)
    ensures ManifestFor(t, w, role).Trusted? && Consistent(ManifestFor(t, w, role).manifest)
    ensures ManifestFor(t, w, role).manifest.totalSize <= Hi(role, q.totalBytes, q.ss) - Lo(role)
  {
    hide Hi, Install.TrustedManifest;
    assert CheckRole(t, w, q, role) == None;
  }

  method RunRoot(t: Trust, w: World, q: Request, disk: Disk, mapped: Disk, log: seq<Event>, ghost s: Stage)
    returns (error: Option<Error>, log': seq<Event>)
    requires Ready(t, w, q) && Sized(s, q) && s.error.None?
    requires s.state == State(disk.State(), mapped.State(), log) && mapped.State() == w.container
    requires disk != mapped && disk.data != mapped.data
    modifies disk, disk.data, mapped, mapped.data
    ensures RootStage(t, w, q, s) == Stage(State(disk.State(), mapped.State(), log'), error)
  {
    hide CheckRole, FillOf, Hi, ManifestFor, Overlay, EscrowStores;
    log' := log;
    if !w.appears(Root) {
      return Some(NoDevice(Root)), log;
    }
    if w.newKey.None? {
      return Some(NoKey), log;
    }
    var k := w.newKey.value;
    if !EscrowStores(w, q) {
      return Some(EscrowFailed), log;
    }
    WindowsOrdered(q.totalBytes, q.ss);
    RoleReady(t, w, q, Root);
    var lo, hi := Lo(Root), Hi(Root, q.totalBytes, q.ss);
    log' := log + [Escrowed(q.deviceId, k)];
    log' := log' + [FormatBegun(k)];
    RunTool(disk, lo, hi, w.formatImage);
    if !w.formatOk {
      return Some(FormatFailed), log';
    }
    log' := log' + [OpenBegun(k)];
    RunTool(disk, lo, hi, w.sessionImage);
    if !w.openOk {
      return Some(OpenFailed), log';
    }
    log' := log' + [FillBegun(Root)];
    var why := WriteInto(t.h, ManifestFor(t, w, Root).manifest, w.image(Root), mapped, 0, mapped.data.Length);
    if why.Some? {
      return Some(FillFailed(Root, why.value)), log';
    }
    if !w.closeOk {
      return Some(CloseFailed), log';
    }
    log' := log' + [Closed];
    error := None;
  }

  /** provision.rs, `run`. */
  method Run(t: Trust, w: World, q: Request, disk: Disk, mapped: Disk) returns (r: Result, log: seq<Event>)
    requires disk.data.Length == q.totalBytes && mapped.State() == w.container
    requires disk != mapped && disk.data != mapped.data
    modifies disk, disk.data, mapped, mapped.data
    ensures (State(disk.State(), mapped.State(), log), r) == ProvisionOf(t, w, q, old(disk.State()))
  {
    hide PlannedLayout, CheckAll, Check, TableStage, FillStage, RootStage, AllChecked;
    var planned := Plan(q.totalBytes, q.ss, q.kind, q.ids);
    if planned.Refused? {
      return Failed(PlanError(planned.error)), [];
    }
    ghost var s := Start(disk.State(), w);
    CheckedWhenNoError(t, w, q, s);
    var error;
    error, log := RunChecks(t, w, q, planned.layout, s);
    if error.Some? {
      return Failed(error.value), log;
    }
    if !q.commit {
      return DryRun, log;
    }
    s := CheckAll(t, w, q, s);
    error, log := RunCommit(t, w, q, planned.layout, disk, mapped, log, s);
    r := if error.None? then Provisioned else Failed(error.value);
  }

  method RunCommit(t: Trust, w: World, q: Request, l: Layout, disk: Disk, mapped: Disk, log: seq<Event>, ghost s: Stage)
    returns (error: Option<Error>, log': seq<Event>)
    requires Ready(t, w, q) && Sized(s, q) && s.error.None? && l == LayoutOf(q)
    requires s.state == State(disk.State(), mapped.State(), log) && mapped.State() == w.container
    requires disk != mapped && disk.data != mapped.data
    modifies disk, disk.data, mapped, mapped.data
    ensures CommitStages(t, w, q, s) == Stage(State(disk.State(), mapped.State(), log'), error)
  {
    hide PlannedLayout, FillStage, RootStage, AllChecked, WriteTable, Writable;
    PlannedIsWritable(q.totalBytes, q.ss, q.kind, q.ids);
    StagesStop(t, w, q, s);
    log' := log + [TableBegun];
    error := RunTable(disk, l);
    ghost var table := TableStage(q, s);
    assert table == Stage(State(disk.State(), mapped.State(), log'), error);
    hide TableStage;
    if error.Some? { return; }
    error, log' := RunFill(t, w, q, Esp, disk, log', table);
    ghost var esp := FillStage(t, w, q, Esp, table);
    if error.Some? { return; }
    error, log' := RunFill(t, w, q, Recovery, disk, log', esp);
    if error.Some? { return; }
    error, log' := RunRoot(t, w, q, disk, mapped, log', FillStage(t, w, q, Recovery, esp));
  }

  /** A stage that follows a failure does nothing. */
  lemma StagesStop(t: Trust, w: World, q: Request, s: Stage)
    requires Ready(t, w, q) && Sized(s, q)
    ensures var a := TableStage(q, s);
            var b := FillStage(t, w, q, Esp, a);
            var c := FillStage(t, w, q, Recovery, b);
            var d := RootStage(t, w, q, c);
            && CommitStages(t, w, q, s) == d
            && (a.error.Some? ==> d == a) && (b.error.Some? ==> d == b) && (c.error.Some? ==> d == c)
  {
  }
}

/** Exactly when provisioning and wiping succeed: nothing stops them but the parts of the world that have to work. */
module Completion {
  import opened Bytes
  import opened Crypt
  import opened Device
  import opened DiskLayout
  import opened Gpt
  import opened GptOnDisk
  import opened Manifests
  import opened OrderCodec
  import opened Provision
  import opened Wipe
  import Ingest
  import Install

  // ---------------------------------------------------------------- filling

  /** Opening, every byte, flushing and syncing. */
  function FillCost(m: Manifest): nat {
    m.totalSize + 3
  }

  /** The right image fills a window exactly if it fits and the device lasts. */
  lemma FillSucceedsIff(h: Hash, m: Manifest, image: bytes, d: Dev, lo: nat, hi: nat)
    requires BuiltFrom(h, m, image) && lo <= hi <= |d.bytes|
    ensures Consistent(m)
    ensures var (after, why) := FillOf(h, m, Some(image), d, lo, hi);
            && (why == None <==> FillCost(m) <= d.budget && lo + m.totalSize <= hi)
            && (why == None ==> after.budget == d.budget - FillCost(m))
  {
    hide Consistent, BuiltFrom, Bound, Ingest.Continue;
    Install.BuiltFacts(h, m, image);
    Ingest.BoundZero(m);
    ChunkArithmetic(m, |m.chunks|);
    Install.OwnIsRight(h, m, image, 0);
    assert image[0..] == image;
    if d.budget >= 1 {
      var c := Credit(d, 1).dev;
      Ingest.AnswerIs(h, m, image, c, hi, lo, 0, |m.chunks|);
      Ingest.SuccessCosts(h, m, image, c, hi, lo, 0);
    }
  }

  /** What a fill answers, for any source whose first bad chunk is `k`. */
  lemma FillAnswerIs(h: Hash, m: Manifest, image: Option<bytes>, d: Dev, lo: nat, hi: nat, k: nat)
    requires Consistent(m) && lo <= hi <= |d.bytes|
    requires image.Some? ==> Ingest.FirstBad(h, m, image.value, 0, k)
    ensures var why, need := FillOf(h, m, image, d, lo, hi).1, Bound(m, k);
            why == if image.None? then Some(NoImage)
                   else if d.budget == 0 then Some(CannotOpen)
                   else if lo + need > hi || need + 1 > d.budget then Some(Stopped(Ingest.DeviceFailed))
                   else if k < |m.chunks| then
                     Some(Stopped(if |image.value| < Bound(m, k + 1) then Ingest.ReadFailed(k)
                                  else Ingest.HashMismatch(k)))
                   else if d.budget == need + 1 then Some(Stopped(Ingest.DeviceFailed))
                   else if d.budget == need + 2 then Some(CannotSync)
                   else None
  {
    hide Consistent, Bound, Ingest.Continue, Ingest.FirstBad;
    Ingest.BoundZero(m);
    if image.Some? && d.budget >= 1 {
      assert k <= |m.chunks| by { FirstBadInside(h, m, image.value, k); }
      var c := Credit(d, 1).dev;
      Ingest.AnswerIs(h, m, image.value, c, hi, lo, 0, k);
      Ingest.SuccessCosts(h, m, image.value, c, hi, lo, 0);
      ChunkArithmetic(m, |m.chunks|);
    }
  }

  lemma FirstBadInside(h: Hash, m: Manifest, src: bytes, k: nat)
    requires Ingest.FirstBad(h, m, src, 0, k)
    ensures k <= |m.chunks|
  {
  }

  // ---------------------------------------------------------------- stages

  function TableCost(q: Request): nat
    requires Fits(q.totalBytes, q.ss) && Writable(LayoutOf(q))
  {
    Cost(GptOps(LayoutOf(q))) + 2
  }

  lemma TableSucceedsIff(q: Request, s: Stage)
    requires Fits(q.totalBytes, q.ss) && Sized(s, q) && s.error.None?
    ensures Writable(LayoutOf(q)) && TableCost(q) >= 2
    ensures var r := TableStage(q, s);
            && r.error == (if s.state.dev.budget == 0 || s.state.dev.budget == TableCost(q) - 1 then Some(DiskError)
                           else if s.state.dev.budget < TableCost(q) then Some(TableError(GptResult.DeviceFailed))
                           else None)
            && (r.error.None? ==> r.state.dev.budget == s.state.dev.budget - TableCost(q))
            && r.state.container == s.state.container
  {
    hide PlannedLayout, GptOps, Exec, Cost, TableFits, Storable, Outside, Writable;
    PlannedIsWritable(q.totalBytes, q.ss, q.kind, q.ids);
    PlannedIsUsable(q.totalBytes, q.ss, q.kind, q.ids);
    var o := Credit(s.state.dev, 1);
    if o.ok {
      TableCosts(o.dev, LayoutOf(q));
    }
  }

  lemma TableCosts(d: Dev, l: Layout)
    requires TableFits(l, |d.bytes|) && Storable(l)
    requires Outside(l.partitions, FirstUsable(l), LastUsable(l)) == None
    ensures var (after, r) := WriteGptOf(d, l);
            && r == (if Cost(GptOps(l)) <= d.budget then Written else GptResult.DeviceFailed)
            && (r == Written ==> after.budget == d.budget - Cost(GptOps(l)))
  {
    hide GptOps, Exec, Cost, Outside, ReadsBack;
    RoundTrip(d, l);
    TableRegions(l, |d.bytes|);
    ExecSucceedsIff(d, |d.bytes|, GptOps(l));
  }

  /** Where a manifest is trusted, the server has the image it was built from. */
  ghost predicate Served(t: Trust, w: World, q: Request) {
    forall role: Role ::
      (role == Esp ==> q.wantEsp) && (role == Recovery ==> q.wantRecovery) && ManifestFor(t, w, role).Trusted? ==>
      w.image(role).Some? && BuiltFrom(t.h, ManifestFor(t, w, role).manifest, w.image(role).value)
  }

  function CostOf(t: Trust, w: World, q: Request, role: Role): nat {
    var m := ManifestFor(t, w, role);
    if q.Wants(role) && m.Trusted? then FillCost(m.manifest) else 0
  }

  predicate Appears(w: World, q: Request, role: Role) {
    q.Wants(role) ==> w.appears(role)
  }

  lemma FillStageSucceedsIff(t: Trust, w: World, q: Request, role: Role, s: Stage)
    requires Ready(t, w, q) && Sized(s, q) && role != Root && s.error.None? && Served(t, w, q)
    ensures var r := FillStage(t, w, q, role, s);
            && (r.error.None? <==> Appears(w, q, role) && CostOf(t, w, q, role) <= s.state.dev.budget)
            && (r.error.None? ==> r.state.dev.budget == s.state.dev.budget - CostOf(t, w, q, role))
            && r.state.container == s.state.container
  {
    hide FillOf, Hi, ManifestFor, CheckRole, BuiltFrom;
    WindowsOrdered(q.totalBytes, q.ss);
    if q.Wants(role) {
      RoleReady(t, w, q, role);
      if w.appears(role) {
        FillSucceedsIff(t.h, ManifestFor(t, w, role).manifest, w.image(role).value, s.state.dev, Lo(role),
                        Hi(role, q.totalBytes, q.ss));
      }
    }
  }

  /** Everything root needs from outside. */
  predicate RootWorks(t: Trust, w: World, q: Request)
    requires ManifestFor(t, w, Root).Trusted?
  {
    var m := ManifestFor(t, w, Root).manifest;
    && w.appears(Root) && w.newKey.Some? && EscrowStores(w, q) && w.formatOk && w.openOk && w.closeOk
    && m.totalSize <= |w.container.bytes| && FillCost(m) <= w.container.budget
  }

  lemma RootStageSucceedsIff(t: Trust, w: World, q: Request, s: Stage)
    requires Ready(t, w, q) && Sized(s, q) && s.error.None? && Served(t, w, q)
    ensures ManifestFor(t, w, Root).Trusted?
    ensures RootStage(t, w, q, s).error.None? <==> RootWorks(t, w, q)
  {
    hide FillOf, Hi, ManifestFor, CheckRole, BuiltFrom, EscrowStores, Overlay;
    RoleReady(t, w, q, Root);
    FillSucceedsIff(t.h, ManifestFor(t, w, Root).manifest, w.image(Root).value, w.container, 0, |w.container.bytes|);
  }

  /** Each answer of the root stage, once everything before has worked. */
  lemma RootAnswers(t: Trust, w: World, q: Request, s: Stage)
    requires Ready(t, w, q) && Sized(s, q) && s.error.None?
    ensures var r := RootStage(t, w, q, s).error;
            var keyed := w.appears(Root) && w.newKey.Some?;
            var stored := && w.escrowStores && !q.escrow.Tpm?
                          && (q.escrow.ControlPlane? ==> |q.escrow.base| >= 8 && q.escrow.base[..8] == "https://");
            && (r == Some(NoDevice(Root)) <==> !w.appears(Root))
            && (r == Some(NoKey) <==> w.appears(Root) && w.newKey.None?)
            && (r == Some(EscrowFailed) <==> keyed && !stored)
            && (r == Some(FormatFailed) <==> keyed && stored && !w.formatOk)
            && (r == Some(OpenFailed) <==> keyed && stored && w.formatOk && !w.openOk)
            && (r.Some? && r.value.FillFailed? ==> r.value.role == Root && keyed && stored && w.formatOk && w.openOk)
            && (r == Some(CloseFailed) ==> keyed && stored && w.formatOk && w.openOk && !w.closeOk)
  {
    hide FillOf, Hi, ManifestFor, CheckRole, Overlay, EscrowStores;
    RoleReady(t, w, q, Root);
    EscrowStoresIff(w, q);
  }

  /** An open partition is skipped exactly when it is not wanted, and missed exactly when its node does not appear. */
  lemma FillAnswers(t: Trust, w: World, q: Request, role: Role, s: Stage)
    requires Ready(t, w, q) && Sized(s, q) && role != Root && s.error.None?
    ensures var r, wanted := FillStage(t, w, q, role, s), if role == Esp then q.wantEsp else q.wantRecovery;
            && (!wanted ==> r == s)
            && (r.error == Some(NoDevice(role)) <==> wanted && !w.appears(role))
            && (r.error.Some? && !r.error.value.NoDevice? ==> r.error.value.FillFailed? && r.error.value.role == role)
  {
    hide FillOf, Hi, ManifestFor, CheckRole;
    if q.Wants(role) {
      RoleReady(t, w, q, role);
    }
  }

  // ---------------------------------------------------------------- the whole

  predicate Works(t: Trust, w: World, q: Request, budget: nat)
    requires Ready(t, w, q)
  {
    RoleReady(t, w, q, Root);
    PlannedIsWritable(q.totalBytes, q.ss, q.kind, q.ids);
    && Appears(w, q, Esp) && Appears(w, q, Recovery) && RootWorks(t, w, q)
    && TableCost(q) + CostOf(t, w, q, Esp) + CostOf(t, w, q, Recovery) <= budget
  }

  lemma StagesSucceedIff(t: Trust, w: World, q: Request, s: Stage)
    requires Ready(t, w, q) && Sized(s, q) && s.error.None? && Served(t, w, q)
    ensures CommitStages(t, w, q, s).error.None? <==> Works(t, w, q, s.state.dev.budget)
  {
    hide TableStage, FillStage, RootStage, AllChecked, PlannedLayout, RootWorks, Appears, CostOf, TableCost, Served,
         Writable;
    StagesStop(t, w, q, s);
    var a := TableStage(q, s);
    TableSucceedsIff(q, s);
    if a.error.None? {
      var b := FillStage(t, w, q, Esp, a);
      FillStageSucceedsIff(t, w, q, Esp, a);
      if b.error.None? {
        var c := FillStage(t, w, q, Recovery, b);
        FillStageSucceedsIff(t, w, q, Recovery, b);
        if c.error.None? {
          RootStageSucceedsIff(t, w, q, c);
        }
      }
    }
  }

  /** The checks pass exactly when every wanted manifest is trusted and fits. */
  lemma ChecksPassIff(t: Trust, w: World, q: Request, s: Stage)
    requires LegalSector(q.ss) && s.error.None?
    ensures CheckAll(t, w, q, s).error.None? <==> AllChecked(t, w, q)
  {
    hide CheckRole;
    CheckedWhenNoError(t, w, q, s);
    if AllChecked(t, w, q) {
      assert q.Wants(Esp) ==> CheckRole(t, w, q, Esp) == None;
      assert q.Wants(Recovery) ==> CheckRole(t, w, q, Recovery) == None;
      assert q.Wants(Root) && CheckRole(t, w, q, Root) == None;
    }
  }

  /** What writing the table costs: both copies, the first sector, and eight opens, seeks and flushes. */
  lemma TableCostIs(q: Request)
    requires Fits(q.totalBytes, q.ss)
    ensures Writable(LayoutOf(q)) && TableCost(q) == 33288 + 2 * q.ss
  {
    PlannedIsWritable(q.totalBytes, q.ss, q.kind, q.ids);
    hide PlannedLayout, GptOps, Storable, TableFits, Zeros, Header, EntryArray, ProtectiveMbr, PrimaryFields,
         BackupFields;
    PlannedHead(q.totalBytes, q.ss, q.kind, q.ids);
    var l := LayoutOf(q);
    GptOpsAre(l);
    CostOfEight(GptOps(l));
  }

  lemma CostOfEight(ops: seq<Op>)
    requires |ops| == 8
    ensures Cost(ops) == OpCost(ops[0]) + OpCost(ops[1]) + OpCost(ops[2]) + OpCost(ops[3]) + OpCost(ops[4])
                       + OpCost(ops[5]) + OpCost(ops[6]) + OpCost(ops[7])
  {
    CostOfSeven(ops[1..]);
  }

  /** The server has, for a role, a manifest that is trusted and an image that fits the role's partition. */
  predicate Supplied(t: Trust, w: World, q: Request, role: Role)
    requires Fits(q.totalBytes, q.ss)
  {
    var m := Install.TrustedManifest(t.valid, t.key, w.manifest(role));
    m.Trusted? && m.manifest.totalSize <= PartitionBytes(q, role)
  }

  /** Opening, writing, flushing and syncing the image of a role. */
  function ImageCost(t: Trust, w: World, role: Role): nat {
    var m := Install.TrustedManifest(t.valid, t.key, w.manifest(role));
    if m.Trusted? then m.manifest.totalSize + 3 else 0
  }

  lemma SuppliedIff(t: Trust, w: World, q: Request, role: Role)
    requires Fits(q.totalBytes, q.ss)
    ensures Supplied(t, w, q, role) <==> CheckRole(t, w, q, role) == None
  {
    hide CheckRole, Install.TrustedManifest, PartitionBytes;
    CheckRoleIff(t, w, q, role);
  }

  lemma AllCheckedIff(t: Trust, w: World, q: Request)
    requires LegalSector(q.ss)
    ensures AllChecked(t, w, q)
       <==> && CheckRole(t, w, q, Root) == None
            && (q.wantEsp ==> CheckRole(t, w, q, Esp) == None)
            && (q.wantRecovery ==> CheckRole(t, w, q, Recovery) == None)
  {
    hide CheckRole;
    assert q.Wants(Root) && (q.Wants(Esp) <==> q.wantEsp) && (q.Wants(Recovery) <==> q.wantRecovery);
    if && CheckRole(t, w, q, Root) == None
       && (q.wantEsp ==> CheckRole(t, w, q, Esp) == None) && (q.wantRecovery ==> CheckRole(t, w, q, Recovery) == None)
    {
      forall role: Role | q.Wants(role) ensures CheckRole(t, w, q, role) == None {
        match role {
          case Esp =>
          case Recovery =>
          case Root =>
        }
      }
    }
  }

  lemma ReadyIff(t: Trust, w: World, q: Request)
    ensures Ready(t, w, q)
       <==> && q.ss in {512, 1024, 2048, 4096} && q.totalBytes >= 6979321856
            && Supplied(t, w, q, Root)
            && (q.wantEsp ==> Supplied(t, w, q, Esp))
            && (q.wantRecovery ==> Supplied(t, w, q, Recovery))
  {
    hide CheckRole, Supplied, AllChecked;
    if Fits(q.totalBytes, q.ss) {
      AllCheckedIff(t, w, q);
      SuppliedIff(t, w, q, Esp);
      SuppliedIff(t, w, q, Recovery);
      SuppliedIff(t, w, q, Root);
    }
  }

  /** The checks answer for the first wanted role that does not pass. */
  lemma ChecksAnswer(t: Trust, w: World, q: Request, d: Dev)
    requires LegalSector(q.ss)
    ensures CheckAll(t, w, q, Start(d, w)).error
         == if q.wantEsp && CheckRole(t, w, q, Esp) != None then CheckRole(t, w, q, Esp)
            else if q.wantRecovery && CheckRole(t, w, q, Recovery) != None then CheckRole(t, w, q, Recovery)
            else CheckRole(t, w, q, Root)
  {
    hide CheckRole;
  }

  /** A dry run is one that would have begun: told not to commit, it ends where everything has been checked. */
  lemma DryRunIff(t: Trust, w: World, q: Request, d: Dev)
    requires |d.bytes| == q.totalBytes
    ensures ProvisionOf(t, w, q, d).1 == DryRun
       <==> && !q.commit && q.ss in {512, 1024, 2048, 4096} && q.totalBytes >= 6979321856
            && Supplied(t, w, q, Root)
            && (q.wantEsp ==> Supplied(t, w, q, Esp))
            && (q.wantRecovery ==> Supplied(t, w, q, Recovery))
    ensures ProvisionOf(t, w, q, d).1 == Provision.Result.Failed(PlanError(BadSectorSize))
       <==> q.ss !in {512, 1024, 2048, 4096}
    ensures ProvisionOf(t, w, q, d).1 == Provision.Result.Failed(PlanError(DiskTooSmall))
       <==> q.ss in {512, 1024, 2048, 4096} && q.totalBytes < 6979321856
  {
    hide CheckAll, CommitStages, AllChecked, PlannedLayout, Supplied;
    ReadyIff(t, w, q);
    if Fits(q.totalBytes, q.ss) {
      ChecksPassIff(t, w, q, Start(d, w));
      CheckedWhenNoError(t, w, q, Start(d, w));
      NoPlanErrors(t, w, q, d);
    }
  }

  lemma NoPlanErrors(t: Trust, w: World, q: Request, d: Dev)
    requires |d.bytes| == q.totalBytes && Fits(q.totalBytes, q.ss)
    ensures var e := CheckAll(t, w, q, Start(d, w)).error; e.Some? ==> !e.value.PlanError?
    ensures Ready(t, w, q) ==>
              var e := CommitStages(t, w, q, CheckAll(t, w, q, Start(d, w))).error; e.Some? ==> !e.value.PlanError?
  {
    hide PlannedLayout, FillOf, WriteTable, Install.TrustedManifest, Hi, Overlay, EscrowStores, AllChecked,
         CommitStages, TableStage, FillStage, RootStage;
    ChecksAreNoPlan(t, w, q, d);
    if Ready(t, w, q) {
      CheckedWhenNoError(t, w, q, Start(d, w));
      StagesAreNoPlan(t, w, q, CheckAll(t, w, q, Start(d, w)));
    }
  }

  lemma ChecksAreNoPlan(t: Trust, w: World, q: Request, d: Dev)
    requires LegalSector(q.ss)
    ensures var e := CheckAll(t, w, q, Start(d, w)).error; e.Some? ==> !e.value.PlanError?
  {
    hide CheckAll, Check, Hi, Install.TrustedManifest;
    ChecksAnswer(t, w, q, d);
  }

  lemma StagesAreNoPlan(t: Trust, w: World, q: Request, s: Stage)
    requires Ready(t, w, q) && Sized(s, q) && (s.error.Some? ==> !s.error.value.PlanError?)
    ensures var e := CommitStages(t, w, q, s).error; e.Some? ==> !e.value.PlanError?
  {
    hide FillStage, RootStage, AllChecked, PlannedLayout, WriteTable;
    StagesStop(t, w, q, s);
    var a := TableStage(q, s);
    assert a.error.Some? ==> !a.error.value.PlanError? by { TableIsNoPlan(q, s); }
    hide TableStage;
    var b := FillStage(t, w, q, Esp, a);
    if a.error.None? {
      FillAnswers(t, w, q, Esp, a);
      if b.error.None? {
        var c := FillStage(t, w, q, Recovery, b);
        FillAnswers(t, w, q, Recovery, b);
        if c.error.None? {
          RootIsNoPlan(t, w, q, c);
        }
      }
    }
  }

  lemma TableIsNoPlan(q: Request, s: Stage)
    requires Fits(q.totalBytes, q.ss) && Sized(s, q) && (s.error.Some? ==> !s.error.value.PlanError?)
    ensures var e := TableStage(q, s).error; e.Some? ==> !e.value.PlanError?
  {
    hide PlannedLayout, WriteGptOf, Writable;
    PlannedIsWritable(q.totalBytes, q.ss, q.kind, q.ids);
    hide Storable, TableFits;
  }

  lemma RootIsNoPlan(t: Trust, w: World, q: Request, s: Stage)
    requires Ready(t, w, q) && Sized(s, q) && s.error.None?
    ensures var e := RootStage(t, w, q, s).error; e.Some? ==> !e.value.PlanError?
  {
    hide FillOf, Hi, ManifestFor, CheckRole, Overlay, EscrowStores;
    RoleReady(t, w, q, Root);
  }

  /**
   Provisioning from a server that has the images of its manifests succeeds if and only if it was told to commit, the
   sector size is legal and the disk is large enough, every wanted manifest is trusted and its image fits its own
   partition, the nodes appear, the key is drawn and escrowed where a key may go, the tools work, the root image fits
   the opened container, and the devices last for what is to be written. Nothing else stops it; so the theorems about
   successful runs speak of runs there are.
   */
  lemma ProvisionSucceedsIff(t: Trust, w: World, q: Request, d: Dev)
    requires |d.bytes| == q.totalBytes && Served(t, w, q)
    ensures ProvisionOf(t, w, q, d).1 == Provisioned
       <==> && q.commit && q.ss in {512, 1024, 2048, 4096} && q.totalBytes >= 6979321856
            && Supplied(t, w, q, Root) && w.appears(Root)
            && (q.wantEsp ==> Supplied(t, w, q, Esp) && w.appears(Esp))
            && (q.wantRecovery ==> Supplied(t, w, q, Recovery) && w.appears(Recovery))
            && w.newKey.Some? && w.escrowStores && !q.escrow.Tpm?
            && (q.escrow.ControlPlane? ==> |q.escrow.base| >= 8 && q.escrow.base[..8] == "https://")
            && w.formatOk && w.openOk && w.closeOk
            && ImageCost(t, w, Root) <= |w.container.bytes| + 3 && ImageCost(t, w, Root) <= w.container.budget
            && 33288 + 2 * q.ss + (if q.wantEsp then ImageCost(t, w, Esp) else 0)
                                + (if q.wantRecovery then ImageCost(t, w, Recovery) else 0) <= d.budget
  {
    hide CheckAll, CommitStages, AllChecked, PlannedLayout, Works, Served, Supplied, ImageCost;
    ReadyIff(t, w, q);
    if Fits(q.totalBytes, q.ss) {
      ChecksPassIff(t, w, q, Start(d, w));
      CheckedWhenNoError(t, w, q, Start(d, w));
      if q.commit && Ready(t, w, q) {
        StagesSucceedIff(t, w, q, CheckAll(t, w, q, Start(d, w)));
        WorksIff(t, w, q, d.budget);
      }
    }
  }

  lemma WorksIff(t: Trust, w: World, q: Request, budget: nat)
    requires Ready(t, w, q)
    ensures Works(t, w, q, budget)
       <==> && w.appears(Root) && (q.wantEsp ==> w.appears(Esp)) && (q.wantRecovery ==> w.appears(Recovery))
            && w.newKey.Some? && w.escrowStores && !q.escrow.Tpm?
            && (q.escrow.ControlPlane? ==> |q.escrow.base| >= 8 && q.escrow.base[..8] == "https://")
            && w.formatOk && w.openOk && w.closeOk
            && ImageCost(t, w, Root) <= |w.container.bytes| + 3 && ImageCost(t, w, Root) <= w.container.budget
            && 33288 + 2 * q.ss + (if q.wantEsp then ImageCost(t, w, Esp) else 0)
                                + (if q.wantRecovery then ImageCost(t, w, Recovery) else 0) <= budget
  {
    hide AllChecked, PlannedLayout, EscrowStores, TableCost, Install.TrustedManifest;
    RoleReady(t, w, q, Root);
    EscrowStoresIff(w, q);
    TableCostIs(q);
    if q.wantEsp {
      RoleReady(t, w, q, Esp);
    }
    if q.wantRecovery {
      RoleReady(t, w, q, Recovery);
    }
  }

  // ---------------------------------------------------------------- wiping

  /** What the last level costs after the key: ten opens, seeks and flushes, and ten mebibytes of zeros. */
  const DESTROY_COST: nat := 10 * MIB + 10

  lemma DestroyCost(totalBytes: nat)
    requires totalBytes > 2 * MIB
    ensures Cost(DestroyOps(Lo(Root), Lo(Recovery), totalBytes)) == DESTROY_COST
  {
    hide Zeros;
    var ops := DestroyOps(Lo(Root), Lo(Recovery), totalBytes);
    var z, m := Zeros(HEAD), Zeros(MIB);
    assert ops == [Op(2, Lo(Root), z), Op(1, 0, []), Op(2, Lo(Recovery), z), Op(1, 0, []),
                   Op(2, 0, m), Op(1, totalBytes - MIB, m), Op(1, 0, [])];
    CostOfSeven(ops);
  }

  lemma CostOfSeven(ops: seq<Op>)
    requires |ops| == 7
    ensures Cost(ops) == OpCost(ops[0]) + OpCost(ops[1]) + OpCost(ops[2]) + OpCost(ops[3]) + OpCost(ops[4])
                       + OpCost(ops[5]) + OpCost(ops[6])
  {
    assert Cost(ops[7..]) == 0;
    assert Cost(ops[5..]) == OpCost(ops[5]) + OpCost(ops[6]);
    assert Cost(ops[3..]) == OpCost(ops[3]) + OpCost(ops[4]) + Cost(ops[5..]);
    assert Cost(ops[1..]) == OpCost(ops[1]) + OpCost(ops[2]) + Cost(ops[3..]);
  }

  function OpCost(op: Op): nat {
    op.credits + |op.data|
  }

  /**
   A committed wipe at the last level completes if and only if the key is on the disk, a container that is found can be
   erased, and the device then lasts for the overwrites: no geometry that planning accepts stops it. It reports an
   erasure exactly when it found a container.
   */
  lemma DestroyCompletesIff(d: Dev, totalBytes: u64, ss: u64, kind: RootKind, tools: Tools)
    requires Fits(totalBytes, ss) && |d.bytes| == totalBytes
    ensures Lo(Root) + 270336 <= Hi(Root, totalBytes, ss) <= totalBytes
    ensures var r := WipeOf(d, totalBytes, ss, kind, Destroy, true, tools).1;
            var found := Finds(kind, tools, d.bytes, Lo(Root));
            && (r == NoKeyOnDisk <==> kind == NetBsdCgd || kind == NetBsdFfs)
            && (r.Completed? <==>
                  && kind != NetBsdCgd && kind != NetBsdFfs
                  && (found && kind != OpenBsdData ==> tools.eraseOk)
                  && d.budget >= 10 * MIB + 10 + if found && kind == OpenBsdData then 270338 else 0)
            && (r.Completed? ==> r.report == Report(found, true, true))
  {
    hide DestroyOps, IsContainer, EndMib, Exec, EraseSoftraid;
    WindowsOrdered(totalBytes, ss);
    var layer, lo, hi := ForKind(kind), Lo(Root), Hi(Root, totalBytes, ss);
    ContainerIff(kind, tools, d.bytes, lo, hi);
    KeyOnDiskIff(kind);
    EraseSoftraidIff(d, lo, hi);
    var e := if IsContainer(layer, tools, d.bytes, lo, hi) then Erase(layer, tools, d, lo, hi) else Io(d, true);
    DestroyInside(totalBytes);
    DestroyCost(totalBytes);
    hide Cost;
    ExecSucceedsIff(e.dev, totalBytes, DestroyOps(lo, Lo(Recovery), totalBytes));
  }

  lemma DestroyInside(totalBytes: nat)
    requires totalBytes >= REQUIRED_BYTES
    ensures var ops := DestroyOps(Lo(Root), Lo(Recovery), totalBytes);
            forall i :: 0 <= i < |ops| ==> ops[i].at + |ops[i].data| <= totalBytes
  {
    hide Zeros;
  }
}

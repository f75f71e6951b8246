/** The life of a disk: provision it, and later wipe it at one of the three levels. */
module EndToEnd {
  import opened Bytes
  import opened Crypt
  import opened Device
  import opened DiskLayout
  import opened Gpt
  import opened GptOnDisk
  import opened GptReader
  import opened Manifests
  import opened OrderCodec
  import opened Provision
  import opened ProvisionProofs
  import opened Wipe

  // ---------------------------------------------------------------- every run

  /**
   Nothing is touched before everything has been checked: if a run has changed the disk or the container, or has gone
   beyond the checks at all, then it was told to commit, and every wanted manifest was trusted and its image fits its
   partition.
   */
  lemma ChecksComeFirst(t: Trust, w: World, q: Request, d: Dev)
    requires |d.bytes| == q.totalBytes
    requires var s := ProvisionOf(t, w, q, d).0;
             s.dev != d || s.container != w.container || !(s.log <= CheckEvents(t, w, q))
    ensures q.commit && Ready(t, w, q)
    ensures forall role: Role :: q.Wants(role) ==>
              var m := ManifestFor(t, w, role);
              m.Trusted? && Consistent(m.manifest) && m.manifest.totalSize <= Hi(role, q.totalBytes, q.ss) - Lo(role)
  {
    hide CheckAll, CommitStages, CheckEvents, Hi, AllChecked, ManifestFor, CheckRole;
    if Fits(q.totalBytes, q.ss) {
      CheckedWhenNoError(t, w, q, Start(d, w));
      ChecksLog(t, w, q, Start(d, w));
    }
    forall role: Role | q.Wants(role)
      ensures var m := ManifestFor(t, w, role);
              m.Trusted? && Consistent(m.manifest) && m.manifest.totalSize <= Hi(role, q.totalBytes, q.ss) - Lo(role)
    {
      RoleReady(t, w, q, role);
    }
  }

  predicate InWindow(i: nat, q: Request, role: Role)
    requires LegalSector(q.ss)
  {
    (match role case Esp => q.wantEsp case Recovery => q.wantRecovery case Root => true)
    && Lo(role) <= i < Hi(role, q.totalBytes, q.ss)
  }

  /** Byte `i` belongs neither to the table nor to a partition that is to be filled. */
  predicate Bystander(i: nat, q: Request)
    requires Fits(q.totalBytes, q.ss)
  {
    ClearOfTable(i, i + 1, LayoutOf(q)) && !InWindow(i, q, Esp) && !InWindow(i, q, Recovery) && !InWindow(i, q, Root)
  }

  /** Everything before root is left alone: a byte in neither the table nor an open partition that is to be filled. */
  lemma OpenStagesKeep(t: Trust, w: World, q: Request, s: Stage, i: nat)
    requires Ready(t, w, q) && Sized(s, q) && s.error.None? && i < q.totalBytes
    requires ClearOfTable(i, i + 1, LayoutOf(q)) && !InWindow(i, q, Esp) && !InWindow(i, q, Recovery)
    ensures var c := FillStage(t, w, q, Recovery, FillStage(t, w, q, Esp, TableStage(q, s)));
            c.state.dev.bytes[i] == s.state.dev.bytes[i] && c.state.container == s.state.container
  {
    hide TableStage, FillStage, RootStage, AllChecked, PlannedLayout, Hi, ClearOfTable, Writable;
    StagesStop(t, w, q, s);
    var a := TableStage(q, s);
    TableStageEffect(q, s, i, i + 1);
    assert a.state.dev.bytes[i..i + 1][0] == s.state.dev.bytes[i..i + 1][0];
    FillSkipped(t, w, q, Esp, a);
    var b := FillStage(t, w, q, Esp, a);
    FillSkipped(t, w, q, Recovery, b);
    if a.error.None? {
      FillStageEffect(t, w, q, Esp, a);
      FillLog(t, w, q, Esp, a);
      if b.error.None? {
        FillStageEffect(t, w, q, Recovery, b);
        FillLog(t, w, q, Recovery, b);
      }
    }
  }

  lemma FillSkipped(t: Trust, w: World, q: Request, role: Role, s: Stage)
    requires Ready(t, w, q) && Sized(s, q) && role != Root
    ensures s.error.Some? ==> FillStage(t, w, q, role, s) == s
  {
  }

  /** The stages leave a bystander alone, wherever they stop. */
  lemma StagesKeep(t: Trust, w: World, q: Request, s: Stage, i: nat)
    requires Ready(t, w, q) && Sized(s, q) && s.error.None? && s.state.container == w.container && i < q.totalBytes
    requires Bystander(i, q)
    ensures CommitStages(t, w, q, s).state.dev.bytes[i] == s.state.dev.bytes[i]
  {
    hide TableStage, FillStage, RootStage, AllChecked, PlannedLayout, Hi, ClearOfTable, EscrowStores;
    StagesStop(t, w, q, s);
    OpenStagesKeep(t, w, q, s, i);
    var c := FillStage(t, w, q, Recovery, FillStage(t, w, q, Esp, TableStage(q, s)));
    if c.error.None? {
      RootStageEffect(t, w, q, c);
    }
  }

  /** Root changes only after its key was escrowed. */
  lemma RootChangesLast(t: Trust, w: World, q: Request, s: Stage, i: nat)
    requires Ready(t, w, q) && Sized(s, q) && s.error.None? && s.state.container == w.container && i < q.totalBytes
    requires Lo(Root) <= i < Hi(Root, q.totalBytes, q.ss)
    requires CommitStages(t, w, q, s).state.dev.bytes[i] != s.state.dev.bytes[i]
    ensures EscrowStores(w, q) && w.newKey.Some?
    ensures Escrowed(q.deviceId, w.newKey.value) in CommitStages(t, w, q, s).state.log
  {
    hide TableStage, FillStage, RootStage, AllChecked, PlannedLayout, Hi, ClearOfTable, EscrowStores;
    WindowsOrdered(q.totalBytes, q.ss);
    StagesStop(t, w, q, s);
    RootIsClear(q, i);
    OpenStagesKeep(t, w, q, s, i);
    var c := FillStage(t, w, q, Recovery, FillStage(t, w, q, Esp, TableStage(q, s)));
    if c.error.None? {
      RootStageEffect(t, w, q, c);
    }
  }

  lemma RootIsClear(q: Request, i: nat)
    requires Fits(q.totalBytes, q.ss) && Lo(Root) <= i < Hi(Root, q.totalBytes, q.ss)
    ensures ClearOfTable(i, i + 1, LayoutOf(q))
  {
    PartitionsAreClear(q.totalBytes, q.ss, q.kind, q.ids, Root);
    hide PlannedLayout, EndMib;
  }

  /**
   Over every run: bytes outside the table and the partitions to be filled never change; and the root partition
   changes only when the very key that is used for it has been escrowed.
   */
  lemma EveryRun(t: Trust, w: World, q: Request, d: Dev, i: nat)
    requires |d.bytes| == q.totalBytes && i < q.totalBytes && Fits(q.totalBytes, q.ss)
    ensures var (s, r) := ProvisionOf(t, w, q, d);
            && |s.dev.bytes| == q.totalBytes
            && (Bystander(i, q) ==> s.dev.bytes[i] == d.bytes[i])
            && (Lo(Root) <= i < Hi(Root, q.totalBytes, q.ss) && s.dev.bytes[i] != d.bytes[i] ==>
                  w.newKey.Some? && Escrowed(q.deviceId, w.newKey.value) in s.log)
            && (r == DryRun ==> s.dev == d && s.container == w.container)
  {
    hide CheckAll, CommitStages, Bystander, Hi, AllChecked, EscrowStores, PlannedLayout;
    CheckedWhenNoError(t, w, q, Start(d, w));
    var c := CheckAll(t, w, q, Start(d, w));
    if c.error.None? && q.commit {
      if Bystander(i, q) {
        StagesKeep(t, w, q, c, i);
      }
      if Lo(Root) <= i < Hi(Root, q.totalBytes, q.ss) && CommitStages(t, w, q, c).state.dev.bytes[i] != d.bytes[i] {
        RootChangesLast(t, w, q, c, i);
      }
    }
  }

  // ---------------------------------------------------------------- a run that succeeds

  /** What a provisioned disk has on it. */
  ghost predicate ProvisionedDisk(t: Trust, w: World, q: Request, disk: bytes)
    requires Ready(t, w, q)
  {
    && |disk| == q.totalBytes
    && Writable(LayoutOf(q)) && PrimaryPresent(disk, LayoutOf(q)) && BackupPresent(disk, LayoutOf(q))
    && (q.wantEsp ==> WindowHolds(t, w, q, Esp, disk)) && (q.wantRecovery ==> WindowHolds(t, w, q, Recovery, disk))
  }

  ghost predicate WindowHolds(t: Trust, w: World, q: Request, role: Role, disk: bytes)
    requires Ready(t, w, q) && q.Wants(role)
  {
    RoleReady(t, w, q, role);
    ImageAt(t.h, ManifestFor(t, w, role).manifest, disk, Lo(role))
  }

  /** Changes confined to one partition leave both copies of the table. */
  lemma TableStays(a: bytes, b: bytes, q: Request, role: Role)
    requires Fits(q.totalBytes, q.ss) && Writable(LayoutOf(q)) && |a| == q.totalBytes
    requires 0 <= Hi(role, q.totalBytes, q.ss) && SameOutside(b, a, Lo(role), Hi(role, q.totalBytes, q.ss))
    requires PrimaryPresent(a, LayoutOf(q)) && BackupPresent(a, LayoutOf(q))
    ensures PrimaryPresent(b, LayoutOf(q)) && BackupPresent(b, LayoutOf(q))
  {
    hide PlannedLayout, EndMib, StartMib, ClearOfTable, TableFits, Storable, PrimaryPresent, BackupPresent, Writable;
    PartitionsAreClear(q.totalBytes, q.ss, q.kind, q.ids, role);
    PlannedIsWritable(q.totalBytes, q.ss, q.kind, q.ids);
    CopiesStay(a, b, LayoutOf(q), Lo(role), Hi(role, q.totalBytes, q.ss));
  }

  lemma WindowStays(t: Trust, w: World, q: Request, role: Role, a: bytes, b: bytes, from: nat, to: nat)
    requires Ready(t, w, q) && q.Wants(role) && SameOutside(b, a, from, to) && |a| == q.totalBytes
    requires Hi(role, q.totalBytes, q.ss) <= from || to <= Lo(role)
    requires WindowHolds(t, w, q, role, a)
    ensures WindowHolds(t, w, q, role, b)
  {
    hide AllChecked, ManifestFor, Hi, ImageAt;
    RoleReady(t, w, q, role);
    var m := ManifestFor(t, w, role).manifest;
    WindowsOrdered(q.totalBytes, q.ss);
    SameOutsideSlice(b, a, from, to, Lo(role), Lo(role) + m.totalSize);
    ImageStays(t.h, m, a, b, Lo(role));
  }

  lemma StagesSucceed(t: Trust, w: World, q: Request, s: Stage)
    requires Ready(t, w, q) && Sized(s, q) && s.error.None? && s.state.container == w.container
    requires CommitStages(t, w, q, s).error.None?
    ensures ProvisionedDisk(t, w, q, CommitStages(t, w, q, s).state.dev.bytes)
    ensures ManifestFor(t, w, Root).Trusted?
    ensures ImageAt(t.h, ManifestFor(t, w, Root).manifest, CommitStages(t, w, q, s).state.container.bytes, 0)
  {
    hide TableStage, FillStage, RootStage, AllChecked, PlannedLayout, Hi, PrimaryPresent, BackupPresent, ImageAt,
         Writable, ManifestFor;
    WindowsOrdered(q.totalBytes, q.ss);
    StagesStop(t, w, q, s);
    var a := TableStage(q, s);
    TableStageEffect(q, s, 0, 0);
    var b := FillStage(t, w, q, Esp, a);
    FillStageEffect(t, w, q, Esp, a);
    FillLog(t, w, q, Esp, a);
    TableStays(a.state.dev.bytes, b.state.dev.bytes, q, Esp);
    var c := FillStage(t, w, q, Recovery, b);
    FillStageEffect(t, w, q, Recovery, b);
    FillLog(t, w, q, Recovery, b);
    var lo, hi := Lo(Recovery), Hi(Recovery, q.totalBytes, q.ss);
    TableStays(b.state.dev.bytes, c.state.dev.bytes, q, Recovery);
    if q.wantEsp {
      RoleReady(t, w, q, Esp);
      WindowStays(t, w, q, Esp, b.state.dev.bytes, c.state.dev.bytes, lo, hi);
    }
    if q.wantRecovery {
      RoleReady(t, w, q, Recovery);
    }
    RootKeeps(t, w, q, c);
    ContainerEffect(t, w, q, c);
  }

  lemma RootKeeps(t: Trust, w: World, q: Request, c: Stage)
    requires Ready(t, w, q) && Sized(c, q) && c.error.None? && c.state.container == w.container
    requires ProvisionedDisk(t, w, q, c.state.dev.bytes)
    ensures ProvisionedDisk(t, w, q, RootStage(t, w, q, c).state.dev.bytes)
  {
    hide RootStage;
    RootStageEffect(t, w, q, c);
    RootChangeKeeps(t, w, q, c.state.dev.bytes, RootStage(t, w, q, c).state.dev.bytes);
  }

  /** Whatever happens inside root leaves a provisioned disk provisioned. */
  lemma RootChangeKeeps(t: Trust, w: World, q: Request, a: bytes, b: bytes)
    requires Ready(t, w, q) && ProvisionedDisk(t, w, q, a)
    requires 0 <= Lo(Root) <= Hi(Root, q.totalBytes, q.ss) && SameOutside(b, a, Lo(Root), Hi(Root, q.totalBytes, q.ss))
    ensures ProvisionedDisk(t, w, q, b)
  {
    hide AllChecked, PlannedLayout, Hi, PrimaryPresent, BackupPresent, WindowHolds, Writable;
    WindowsOrdered(q.totalBytes, q.ss);
    var lo, hi := Lo(Root), Hi(Root, q.totalBytes, q.ss);
    TableStays(a, b, q, Root);
    if q.wantEsp {
      WindowStays(t, w, q, Esp, a, b, lo, hi);
    }
    if q.wantRecovery {
      WindowStays(t, w, q, Recovery, a, b, lo, hi);
    }
  }

  /** Each copy of the table on a provisioned disk reads as the plan. */
  lemma ProvisionedReads(t: Trust, w: World, q: Request, disk: bytes)
    requires Ready(t, w, q) && ProvisionedDisk(t, w, q, disk)
    ensures Writable(LayoutOf(q)) && ReadsBack(disk, LayoutOf(q))
  {
    hide PlannedLayout, PrimaryPresent, BackupPresent, WindowHolds, ReadTable, Storable, TableFits, AllChecked,
         Writable;
    PlannedIsWritable(q.totalBytes, q.ss, q.kind, q.ids);
    StorableIsWritable(LayoutOf(q));
    PrimaryReads(disk, LayoutOf(q));
    BackupReads(disk, LayoutOf(q));
  }

  /** A run that reports success has left a provisioned disk, and in the container the verified root image. */
  lemma SuccessIsComplete(t: Trust, w: World, q: Request, d: Dev)
    requires |d.bytes| == q.totalBytes && ProvisionOf(t, w, q, d).1 == Provisioned
    ensures Ready(t, w, q) && ManifestFor(t, w, Root).Trusted?
    ensures var s := ProvisionOf(t, w, q, d).0;
            && ProvisionedDisk(t, w, q, s.dev.bytes)
            && ImageAt(t.h, ManifestFor(t, w, Root).manifest, s.container.bytes, 0)
  {
    hide CheckAll, CommitStages, AllChecked, PlannedLayout, ProvisionedDisk, ImageAt, ManifestFor;
    CheckedWhenNoError(t, w, q, Start(d, w));
    StagesSucceed(t, w, q, CheckAll(t, w, q, Start(d, w)));
  }

  /** What a committed wipe of a provisioned disk does to it. */
  ghost predicate WipeRespects(t: Trust, w: World, q: Request, disk: bytes, kind: RootKind, level: Level,
                               tools: Tools, budget: nat)
    requires Ready(t, w, q) && |disk| == q.totalBytes && Writable(LayoutOf(q))
  {
    var (after, r) := WipeOf(Dev(disk, budget), q.totalBytes, q.ss, kind, level, true, tools);
    && (level == Reset || level == Factory ==>
          && ProvisionedDisk(t, w, q, after.bytes) && ReadsBack(after.bytes, LayoutOf(q))
          && 0 <= Hi(Root, q.totalBytes, q.ss)
          && SameOutside(after.bytes, disk, Lo(Root), Hi(Root, q.totalBytes, q.ss)))
    && (level == Destroy && r.Completed? ==> NoTableAtAll(after.bytes, q.totalBytes))
  }

  /**
   From beginning to end. After a run that reported success both copies of the table read as the plan and the open
   partitions begin with images verified chunk by chunk. A later wipe at a level that keeps the recovery system, for
   whatever kind of root it believes in and wherever it stops, changes nothing of that. A completed wipe at the last
   level leaves no copy of the table.
   */
  lemma LifeOfADisk(t: Trust, w: World, q: Request, d: Dev, kind: RootKind, level: Level, tools: Tools, budget: nat)
    requires |d.bytes| == q.totalBytes && ProvisionOf(t, w, q, d).1 == Provisioned
    ensures Ready(t, w, q) && Writable(LayoutOf(q))
    ensures var disk := ProvisionOf(t, w, q, d).0.dev.bytes;
            && |disk| == q.totalBytes && ProvisionedDisk(t, w, q, disk) && ReadsBack(disk, LayoutOf(q))
            && WipeRespects(t, w, q, disk, kind, level, tools, budget)
  {
    hide ProvisionOf, ReadsBack, NoTable, WipeOf, PlannedLayout, AllChecked, PrimaryPresent, BackupPresent,
         WindowHolds, Hi;
    SuccessIsComplete(t, w, q, d);
    var disk := ProvisionOf(t, w, q, d).0.dev.bytes;
    ProvisionedReads(t, w, q, disk);
    WindowsOrdered(q.totalBytes, q.ss);
    PlannedHead(q.totalBytes, q.ss, q.kind, q.ids);
    if level != Destroy {
      ResetKeepsTheRest(Dev(disk, budget), q.totalBytes, q.ss, kind, level, true, tools);
      var after := WipeOf(Dev(disk, budget), q.totalBytes, q.ss, kind, level, true, tools).0.bytes;
      RootChangeKeeps(t, w, q, disk, after);
      ProvisionedReads(t, w, q, after);
    } else if WipeOf(Dev(disk, budget), q.totalBytes, q.ss, kind, Destroy, true, tools).1.Completed? {
      DestroyIsThorough(Dev(disk, budget), q.totalBytes, q.ss, kind, tools);
    }
  }

  // ---------------------------------------------------------------- provisioning a disk again

  /**
   A disk from which one of two plans can be read: the new one from the primary copy or the old one from the backup.
   */
  ghost predicate ReadsOldOrNew(disk: bytes, was: Request, q: Request)
    requires Fits(was.totalBytes, was.ss) && Writable(LayoutOf(was))
    requires Fits(q.totalBytes, q.ss) && Writable(LayoutOf(q))
  {
    || ReadTable(disk, q.ss, 1) == Some(TableOf(LayoutOf(q), LayoutOf(q).totalSectors - 1))
    || ReadTable(disk, q.ss, LayoutOf(q).totalSectors - 1) == Some(TableOf(LayoutOf(was), 1))
  }

  /** The old backup copy by itself. */
  lemma OldReads(disk: bytes, was: Request, q: Request)
    requires Fits(was.totalBytes, was.ss) && Writable(LayoutOf(was)) && BackupPresent(disk, LayoutOf(was))
    requires q.totalBytes == was.totalBytes && q.ss == was.ss
    ensures Writable(LayoutOf(q)) && ReadsOldOrNew(disk, was, q)
  {
    hide PlannedLayout, ReadTable, Storable, TableFits, Writable, BackupPresent, TableOf;
    PlannedIsWritable(was.totalBytes, was.ss, was.kind, was.ids);
    PlannedIsWritable(q.totalBytes, q.ss, q.kind, q.ids);
    StorableIsWritable(LayoutOf(q));
    PlannedHead(was.totalBytes, was.ss, was.kind, was.ids);
    PlannedHead(q.totalBytes, q.ss, q.kind, q.ids);
    BackupReads(disk, LayoutOf(was));
  }

  /** The new primary copy by itself. */
  lemma NewReads(disk: bytes, was: Request, q: Request)
    requires Fits(was.totalBytes, was.ss) && Writable(LayoutOf(was)) && |disk| == q.totalBytes
    requires Fits(q.totalBytes, q.ss) && Writable(LayoutOf(q)) && PrimaryPresent(disk, LayoutOf(q))
    ensures ReadsOldOrNew(disk, was, q)
  {
    hide PlannedLayout, ReadTable, Storable, TableFits, Writable, PrimaryPresent, TableOf;
    PlannedIsWritable(q.totalBytes, q.ss, q.kind, q.ids);
    PlannedHead(q.totalBytes, q.ss, q.kind, q.ids);
    PrimaryReads(disk, LayoutOf(q));
  }

  lemma TableStageKeepsOne(s: Stage, was: Request, q: Request)
    requires Sized(s, q) && s.error.None? && q.totalBytes == was.totalBytes && q.ss == was.ss
    requires Fits(was.totalBytes, was.ss) && Writable(LayoutOf(was)) && BackupPresent(s.state.dev.bytes, LayoutOf(was))
    ensures Writable(LayoutOf(q)) && ReadsOldOrNew(TableStage(q, s).state.dev.bytes, was, q)
  {
    hide PlannedLayout, ReadTable, Storable, TableFits, Writable, BackupPresent, TableOf, WriteGptOf;
    var l := LayoutOf(q);
    PlannedIsWritable(was.totalBytes, was.ss, was.kind, was.ids);
    PlannedIsWritable(q.totalBytes, q.ss, q.kind, q.ids);
    StorableIsWritable(l);
    PlannedHead(was.totalBytes, was.ss, was.kind, was.ids);
    PlannedHead(q.totalBytes, q.ss, q.kind, q.ids);
    OldReads(s.state.dev.bytes, was, q);
    var o := Credit(s.state.dev, 1);
    if o.ok {
      NeverWithoutTable(o.dev, LayoutOf(was), l);
    }
  }

  /** Once both new copies are written, filling the partitions leaves them. */
  lemma FillsKeepTable(t: Trust, w: World, q: Request, a: Stage)
    requires Ready(t, w, q) && Sized(a, q) && a.error.None? && a.state.container == w.container && Writable(LayoutOf(q))
    requires PrimaryPresent(a.state.dev.bytes, LayoutOf(q)) && BackupPresent(a.state.dev.bytes, LayoutOf(q))
    ensures var r := RootStage(t, w, q, FillStage(t, w, q, Recovery, FillStage(t, w, q, Esp, a)));
            PrimaryPresent(r.state.dev.bytes, LayoutOf(q))
  {
    hide FillStage, RootStage, AllChecked, PlannedLayout, Hi, PrimaryPresent, BackupPresent, Writable, ManifestFor;
    WindowsOrdered(q.totalBytes, q.ss);
    var b := FillStage(t, w, q, Esp, a);
    FillStageEffect(t, w, q, Esp, a);
    FillLog(t, w, q, Esp, a);
    TableStays(a.state.dev.bytes, b.state.dev.bytes, q, Esp);
    var c := FillStage(t, w, q, Recovery, b);
    FillSkipped(t, w, q, Recovery, b);
    if b.error.None? {
      FillStageEffect(t, w, q, Recovery, b);
      FillLog(t, w, q, Recovery, b);
      TableStays(b.state.dev.bytes, c.state.dev.bytes, q, Recovery);
    }
    RootSkipped(t, w, q, c);
    if c.error.None? {
      RootStageEffect(t, w, q, c);
      TableStays(c.state.dev.bytes, RootStage(t, w, q, c).state.dev.bytes, q, Root);
    }
  }

  lemma RootSkipped(t: Trust, w: World, q: Request, s: Stage)
    requires Ready(t, w, q) && Sized(s, q)
    ensures s.error.Some? ==> RootStage(t, w, q, s) == s
  {
  }

  /**
   Provisioning a disk again, for another kind of root, with other identifiers or from another server, never leaves it
   without a table: however the run ends and wherever the disk stops, the new plan is read from the primary copy or
   the old one from the backup.
   */
  lemma NeverWithoutPlan(t: Trust, w: World, was: Request, q: Request, d: Dev)
    requires |d.bytes| == q.totalBytes == was.totalBytes && q.ss == was.ss
    requires Fits(was.totalBytes, was.ss) && Writable(LayoutOf(was)) && BackupPresent(d.bytes, LayoutOf(was))
    ensures Writable(LayoutOf(q)) && ReadsOldOrNew(ProvisionOf(t, w, q, d).0.dev.bytes, was, q)
  {
    hide CheckAll, TableStage, FillStage, RootStage, AllChecked, PlannedLayout, PrimaryPresent, BackupPresent, Writable,
         ReadsOldOrNew, CommitStages;
    OldReads(d.bytes, was, q);
    var c := CheckAll(t, w, q, Start(d, w));
    CheckedWhenNoError(t, w, q, Start(d, w));
    if c.error.None? && q.commit {
      StagesStop(t, w, q, c);
      TableStageKeepsOne(c, was, q);
      var a := TableStage(q, c);
      if a.error.None? {
        TableStageEffect(q, c, 0, 0);
        StagesAre(t, w, q, c);
        FillsKeepTable(t, w, q, a);
        NewReads(CommitStages(t, w, q, c).state.dev.bytes, was, q);
      }
    }
  }

  lemma StagesAre(t: Trust, w: World, q: Request, s: Stage)
    requires Ready(t, w, q) && Sized(s, q)
    ensures CommitStages(t, w, q, s)
         == RootStage(t, w, q, FillStage(t, w, q, Recovery, FillStage(t, w, q, Esp, TableStage(q, s))))
  {
    hide TableStage, FillStage, RootStage;
  }
}

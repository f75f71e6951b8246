/** The way of a key: drawn while provisioning, printed, sent, parsed, put into the folder, and fetched again. */
module Escrow {
  import opened Bytes
  import opened Device
  import opened Provision
  import opened ProvisionProofs
  import Crypt
  import DiskLayout
  import EscrowWire
  import KeyStore

  /** Where the events of root stand in the full log. */
  lemma RootEventsAt(t: Trust, w: World, q: Request)
    ensures var log, k := FullLog(t, w, q), if w.newKey.Some? then w.newKey.value else [];
            var n := |log| - 5;
            && n >= 0 && log[n] == Escrowed(q.deviceId, k) && log[n + 1] == FormatBegun(k) && log[n + 2] == OpenBegun(k)
            && (forall i :: 0 <= i < |log| && log[i].FormatBegun? ==> i == n + 1)
            && (forall i :: 0 <= i < |log| && log[i].OpenBegun? ==> i == n + 2)
  {
    hide CheckEvents, FillEvent;
    var head := CheckEvents(t, w, q) + [TableBegun] + FillEvent(q, DiskLayout.Esp) + FillEvent(q, DiskLayout.Recovery);
    HeadIsOther(t, w, q);
    assert FullLog(t, w, q) == head + RootEvents(w, q);
    forall i | 0 <= i < |head| ensures !head[i].FormatBegun? && !head[i].OpenBegun? {
      var e := head[i];
      assert || e in CheckEvents(t, w, q) || e == TableBegun
             || e in FillEvent(q, DiskLayout.Esp) || e in FillEvent(q, DiskLayout.Recovery);
      assert e.Checked? || e == TableBegun || e.FillBegun?;
    }
  }

  lemma HeadIsOther(t: Trust, w: World, q: Request)
    ensures forall e :: e in CheckEvents(t, w, q) ==> e.Checked?
    ensures forall e, role: DiskLayout.Role :: e in FillEvent(q, role) ==> e.FillBegun?
  {
    hide ManifestFor;
  }

  /** Whatever key a container is formatted or opened with is the one drawn, and it was escrowed before. */
  lemma KeyInUseWasEscrowed(t: Trust, w: World, q: Request, d: Dev, k: bytes)
    requires |d.bytes| == q.totalBytes && k != []
    requires FormatBegun(k) in ProvisionOf(t, w, q, d).0.log || OpenBegun(k) in ProvisionOf(t, w, q, d).0.log
    ensures w.newKey == DiskLayout.Some(k) && Escrowed(q.deviceId, k) in ProvisionOf(t, w, q, d).0.log
  {
    hide ProvisionOf, FullLog;
    OrderIsFixed(t, w, q, d);
    RootEventsAt(t, w, q);
    var log, full := ProvisionOf(t, w, q, d).0.log, FullLog(t, w, q);
    var i :| 0 <= i < |log| && (log[i] == FormatBegun(k) || log[i] == OpenBegun(k));
    assert log[i] == full[i];
    assert log[|full| - 5] == full[|full| - 5];
  }

  predicate NothingEscrowed(log: seq<Event>) {
    forall i :: 0 <= i < |log| ==> !log[i].Escrowed?
  }

  /** Only the root stage escrows, and only where a key may go. */
  lemma StagesEscrow(t: Trust, w: World, q: Request, s: Stage)
    requires Ready(t, w, q) && Sized(s, q) && NothingEscrowed(s.state.log)
    ensures NothingEscrowed(TableStage(q, s).state.log)
    ensures forall role: DiskLayout.Role :: role != DiskLayout.Root ==>
              NothingEscrowed(FillStage(t, w, q, role, s).state.log)
    ensures NothingEscrowed(RootStage(t, w, q, s).state.log) || EscrowStores(w, q)
  {
    hide FillOf, WriteTable, LayoutOf, ManifestFor, CheckRole, Crypt.Overlay, EscrowStores;
    if s.error.None? {
      RoleReady(t, w, q, DiskLayout.Root);
      forall role: DiskLayout.Role | role != DiskLayout.Root
        ensures NothingEscrowed(FillStage(t, w, q, role, s).state.log)
      {
        if q.Wants(role) {
          RoleReady(t, w, q, role);
        }
      }
    }
  }

  lemma ChecksEscrowNothing(t: Trust, w: World, q: Request, d: Dev)
    requires DiskLayout.LegalSector(q.ss)
    ensures NothingEscrowed(CheckAll(t, w, q, Start(d, w)).state.log)
  {
    hide CheckRole, ManifestFor;
  }

  /**
   Over every run: a key is escrowed only where escrow works, never to a TPM, and never to an address without
   `https://`.
   */
  lemma KeyGoesNowhereElse(t: Trust, w: World, q: Request, d: Dev)
    requires |d.bytes| == q.totalBytes && !NothingEscrowed(ProvisionOf(t, w, q, d).0.log)
    ensures w.escrowStores && !q.escrow.Tpm?
    ensures q.escrow.ControlPlane? ==> |q.escrow.base| >= 8 && q.escrow.base[..8] == "https://"
  {
    hide CheckAll, TableStage, FillStage, RootStage, EscrowStores, AllChecked, NothingEscrowed,
         DiskLayout.PlannedLayout;
    assert NothingEscrowed([]) by { EmptyEscrowsNothing(); }
    EscrowStoresIff(w, q);
    if DiskLayout.Fits(q.totalBytes, q.ss) {
      ChecksEscrowNothing(t, w, q, d);
      CheckedWhenNoError(t, w, q, Start(d, w));
      var c := CheckAll(t, w, q, Start(d, w));
      if c.error.None? && q.commit {
        var a := TableStage(q, c);
        StagesEscrow(t, w, q, c);
        StagesEscrow(t, w, q, a);
        var b := FillStage(t, w, q, DiskLayout.Esp, a);
        StagesEscrow(t, w, q, b);
        StagesEscrow(t, w, q, FillStage(t, w, q, DiskLayout.Recovery, b));
      }
    }
  }

  lemma EmptyEscrowsNothing()
    ensures NothingEscrowed([])
  {
  }

  /** Process `i` of a run is a put of what a request body was parsed to, and has reported success. */
  predicate PutOfBody(s: KeyStore.State, i: nat, body: bytes) {
    && EscrowWire.ParseOf(body).Parsed? && i < |s.procs|
    && s.procs[i].call == KeyStore.Put(EscrowWire.ParseOf(body).id, EscrowWire.ParseOf(body).key)
    && s.procs[i].pc.Done? && s.procs[i].pc.outcome.Stored?
  }

  /**
   The key a container is formatted with is the key that is fetched. If the request printed for the device was parsed
   and put, and the put reported success, then the file holds that very key and the device's name leads to it until it
   is removed. Every get for the device that starts afterwards fails or returns that key, and so does one that started
   before and found the file whole, as long as no revocation opens or removes the file.
   */
  lemma EscrowedKeyIsTheKey(t: Trust, w: World, q: Request, d: Dev, k: bytes, body: bytes, before: seq<KeyStore.Move>,
                            after: seq<KeyStore.Move>, i: nat)
    requires |d.bytes| == q.totalBytes && k != [] && FormatBegun(k) in ProvisionOf(t, w, q, d).0.log
    requires KeyStore.Safe(EscrowWire.Chars(q.deviceId))
    requires EscrowWire.Chars(body) == EscrowWire.Body(EscrowWire.Chars(q.deviceId), k)
    requires PutOfBody(KeyStore.Run(KeyStore.EMPTY, before), i, body)
    ensures Escrowed(q.deviceId, k) in ProvisionOf(t, w, q, d).0.log
    ensures var id, s := EscrowWire.Chars(q.deviceId), KeyStore.Run(KeyStore.EMPTY, before);
            var ino := s.procs[i].pc.outcome.ino;
            && ino < |s.files| && s.files[ino].id == id && s.files[ino].key == k
            && (!s.files[ino].touched ==> s.files[ino].data == k)
            && ((id in s.dir && s.dir[id] == ino) || KeyStore.Removed(id, ino) in s.log)
            && (forall g :: 0 <= g < |s.procs| && Fetched(s, g, ino) && !s.files[ino].touched ==>
                  s.procs[g].pc.outcome.data == k)
    ensures var id, s := EscrowWire.Chars(q.deviceId), KeyStore.Run(KeyStore.EMPTY, before);
            var u, ino := KeyStore.Run(s, after), s.procs[i].pc.outcome.ino;
            && ino < |u.files|
            && (KeyStore.Removed(id, ino) !in u.log && !u.files[ino].touched ==>
                  forall g :: |s.procs| <= g < |u.procs| && Asked(u, g, id) ==> Serves(u, g, k))
  {
    hide ProvisionOf, KeyStore.Run, EscrowWire.Chars, EscrowWire.Body, EscrowWire.ParseOf, KeyStore.Safe;
    KeyInUseWasEscrowed(t, w, q, d, k);
    var id, s := EscrowWire.Chars(q.deviceId), KeyStore.Run(KeyStore.EMPTY, before);
    SafeIsQuoteFree(id);
    EscrowWire.BytesRoundTripIff(body, q.deviceId, k);
    KeyStore.StoredIsWhole(before, i);
    var u, ino := KeyStore.Run(s, after), s.procs[i].pc.outcome.ino;
    forall g | 0 <= g < |s.procs| && Fetched(s, g, ino) && !s.files[ino].touched
      ensures s.procs[g].pc.outcome.data == k
    {
      KeyStore.GotIsOneKey(before, g);
    }
    KeyStore.FilesStay(before, after);
    if KeyStore.Removed(id, ino) !in u.log && !u.files[ino].touched {
      forall g | |s.procs| <= g < |u.procs| && Asked(u, g, id) ensures Serves(u, g, k) {
        KeyStore.StoredIsServed(before, after, i, g);
      }
    }
  }

  /** Process `g` is a get for the device, and has ended. */
  predicate Asked(s: KeyStore.State, g: nat, id: string) {
    g < |s.procs| && s.procs[g].call == KeyStore.Get(id) && s.procs[g].pc.Done?
  }

  /** Process `g` has failed or returned the key. */
  predicate Serves(s: KeyStore.State, g: nat, k: bytes)
    requires g < |s.procs| && s.procs[g].pc.Done?
  {
    var o := s.procs[g].pc.outcome;
    o == KeyStore.Outcome.Failed || (o.Got? && o.data == k)
  }

  /** Process `g` is a get that has returned what it read from file `ino`, which was whole when it opened it. */
  predicate Fetched(s: KeyStore.State, g: nat, ino: nat) {
    && g < |s.procs| && s.procs[g].pc.Done? && s.procs[g].pc.outcome.Got?
    && s.procs[g].pc.outcome.ino == ino && s.procs[g].pc.outcome.whole
  }

  lemma SafeIsQuoteFree(id: string)
    requires KeyStore.Safe(id)
    ensures '"' !in id
  {
  }
}

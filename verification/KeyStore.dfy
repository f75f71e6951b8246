/**
 The folder of escrowed keys: any number of `put`, `get` and `revoke` calls, interleaved at every file-system
 operation, each of which may fail. A step names the call that moves and what the file system answers. A name holds
 one character for every byte.
 */
module KeyStore {
  import opened Bytes
  import opened DiskLayout
  import EscrowWire

  // ---------------------------------------------------------------- names

  predicate SafeChar(c: char) {
    'a' <= c <= 'z' || 'A' <= c <= 'Z' || '0' <= c <= '9' || c == '-' || c == '_'
  }

  /** store.rs, `safe`. */
  predicate Safe(id: string) {
    id != [] && |id| <= 128 && forall c :: c in id ==> SafeChar(c)
  }

  /** The names admitted, in ASCII codes: one to 128 digits, capitals, small letters, hyphens and underscores. */
  lemma SafeIff(id: string)
    ensures Safe(id)
       <==> && 1 <= |id| <= 128
            && forall i :: 0 <= i < |id| ==>
                 var n := id[i] as int; 48 <= n <= 57 || 65 <= n <= 90 || 97 <= n <= 122 || n == 45 || n == 95
  {
    assert forall i :: 0 <= i < |id| ==> id[i] in id;
  }

  /** A device that may have a file stays inside the folder, and its escrow request comes through the wire unchanged. */
  lemma SafeNames(id: string, key: bytes)
    requires Safe(id)
    ensures '/' !in id && id != "." && id != ".."
    ensures EscrowWire.ParseText(EscrowWire.Body(id, key)) == EscrowWire.Parsed(id, key) <==> key != []
  {
    assert '.' !in id && '"' !in id;
    assert '.' in "." && '.' in "..";
    EscrowWire.WireRoundTripIff(id, key);
  }

  // ---------------------------------------------------------------- state

  /**
   One inode. `writer` is the put that created it, `written` how much of `key` that has written (the offset of its
   handle), and `touched` says that a revocation has opened the file to overwrite it.
   */
  datatype File = File(id: string, key: bytes, data: bytes, writer: nat, written: nat, touched: bool)
  {
    predicate Whole() { written == |key| }
  }

  datatype Event = Created(id: string, ino: nat) | Removed(id: string, ino: nat)

  datatype Call = Put(id: string, key: bytes) | Get(id: string) | Revoke(id: string)

  /** What a call returned. `whole`: the put had finished writing when the get opened the file. */
  datatype Outcome = Stored(ino: nat) | Got(ino: nat, data: bytes, whole: bool) | Revoked(at: nat) | Failed

  /** Where a call stands. */
  datatype Pc =
    | PutStart
    | PutCreate
    | PutWrite(ino: nat)
    | PutSync(ino: nat)
    | GetStart
    | GetRead(ino: nat, got: bytes, whole: bool)
    | RevokeStart
    | RevokeOpen(len: nat)
    | RevokeZero(ino: nat, len: nat, done: nat)
    | RevokeRemove
    | Done(outcome: Outcome)

  datatype Process = Process(call: Call, pc: Pc)

  datatype State = State(dir: map<string, nat>, files: seq<File>, procs: seq<Process>, log: seq<Event>)

  const EMPTY := State(map[], [], [], [])

  /** The answer of the file system to one operation: an error, or success on at most `amount` bytes. */
  datatype Answer = Answer(fails: bool, amount: nat)

  datatype Move = Spawn(call: Call) | Step(i: nat, answer: Answer)

  // ---------------------------------------------------------------- steps

  /** A write at `at`: past the end of the file it leaves a hole of zeros. */
  function Patch(data: bytes, at: nat, piece: bytes): (r: bytes)
    ensures |r| == if |data| > at + |piece| then |data| else at + |piece|
  {
    seq(if |data| > at + |piece| then |data| else at + |piece|,
        i requires 0 <= i => if at <= i < at + |piece| then piece[i - at] else if i < |data| then data[i] else 0)
  }

  /** How many bytes an operation moves that could move `limit`. */
  function Amount(a: Answer, limit: nat): (n: nat)
    requires limit > 0
    ensures 0 < n <= limit
  {
    if a.amount == 0 || a.amount > limit then limit else a.amount
  }

  function Start(c: Call): Pc {
    match c
    case Put(_, _) => PutStart
    case Get(_) => GetStart
    case Revoke(_) => RevokeStart
  }

  function At(s: State, i: nat, pc: Pc): State
    requires i < |s.procs|
  {
    s.(procs := s.procs[i := s.procs[i].(pc := pc)])
  }

  /** The inode a name leads to. */
  function Lookup(s: State, id: string): (r: Option<nat>)
    ensures r.Some? ==> id in s.dir && r.value == s.dir[id] < |s.files|
  {
    if id in s.dir && s.dir[id] < |s.files| then Some(s.dir[id]) else None
  }

  function StepOf(s: State, i: nat, a: Answer): State
    requires i < |s.procs|
  {
    var id := s.procs[i].call.id;
    match s.procs[i].pc
    case PutStart => At(s, i, if !Safe(id) || (id in s.dir && !a.fails) then Done(Failed) else PutCreate)
    case PutCreate => Create(s, i, a)
    case PutWrite(ino) => WriteKey(s, i, ino, a)
    case PutSync(ino) => At(s, i, Done(if a.fails then Failed else Stored(ino)))
    case GetStart => OpenToRead(s, i, a)
    case GetRead(ino, got, whole) => Read(s, i, ino, got, whole, a)
    case RevokeStart => Stat(s, i, a)
    case RevokeOpen(len) => OpenToZero(s, i, len, a)
    case RevokeZero(ino, len, done) => Zero(s, i, ino, len, done, a)
    case RevokeRemove => Unlink(s, i, a)
    case Done(_) => s
  }

  /** `create_new`: fails if the name exists, whatever `exists` said before. */
  function Create(s: State, i: nat, a: Answer): State
    requires i < |s.procs|
  {
    var c := s.procs[i].call;
    if a.fails || c.id in s.dir || !c.Put? then At(s, i, Done(Failed))
    else
      var ino := |s.files|;
      At(s, i, PutWrite(ino)).(dir := s.dir[c.id := ino], files := s.files + [File(c.id, c.key, [], i, 0, false)],
                               log := s.log + [Created(c.id, ino)])
  }

  function WriteKey(s: State, i: nat, ino: nat, a: Answer): State
    requires i < |s.procs|
  {
    if ino >= |s.files| || s.files[ino].written >= |s.files[ino].key| then At(s, i, PutSync(ino))
    else if a.fails then At(s, i, Done(Failed))
    else
      var f := s.files[ino];
      var n := Amount(a, |f.key| - f.written);
      var g := f.(data := Patch(f.data, f.written, f.key[f.written..f.written + n]), written := f.written + n);
      s.(files := s.files[ino := g])
  }

  function OpenToRead(s: State, i: nat, a: Answer): State
    requires i < |s.procs|
  {
    var id := s.procs[i].call.id;
    match Lookup(s, id)
    case None => At(s, i, Done(Failed))
    case Some(ino) => At(s, i, if !Safe(id) || a.fails then Done(Failed) else GetRead(ino, [], s.files[ino].Whole()))
  }

  function Read(s: State, i: nat, ino: nat, got: bytes, whole: bool, a: Answer): State
    requires i < |s.procs|
  {
    if a.fails || ino >= |s.files| then At(s, i, Done(Failed))
    else
      var data := s.files[ino].data;
      if |got| >= |data| then At(s, i, Done(Got(ino, got, whole)))
      else At(s, i, GetRead(ino, got + data[|got|..|got| + Amount(a, |data| - |got|)], whole))
  }

  function Stat(s: State, i: nat, a: Answer): State
    requires i < |s.procs|
  {
    var id := s.procs[i].call.id;
    if !Safe(id) then At(s, i, Done(Failed)) else
    match Lookup(s, id)
    case None => At(s, i, RevokeRemove)
    case Some(ino) => At(s, i, if a.fails then RevokeRemove else RevokeOpen(|s.files[ino].data|))
  }

  /** The name may lead to another file by now than when its length was read. */
  function OpenToZero(s: State, i: nat, len: nat, a: Answer): State
    requires i < |s.procs|
  {
    match Lookup(s, s.procs[i].call.id)
    case None => At(s, i, RevokeRemove)
    case Some(ino) =>
      if a.fails then At(s, i, RevokeRemove)
      else At(s, i, RevokeZero(ino, len, 0)).(files := s.files[ino := s.files[ino].(touched := true)])
  }

  /** The overwriting before a removal. Its errors are ignored. */
  function Zero(s: State, i: nat, ino: nat, len: nat, done: nat, a: Answer): State
    requires i < |s.procs|
  {
    if a.fails || done >= len || ino >= |s.files| then At(s, i, RevokeRemove)
    else
      var f := s.files[ino];
      var n := Amount(a, len - done);
      At(s, i, RevokeZero(ino, len, done + n)).(files := s.files[ino := f.(data := Patch(f.data, done, Zeros(n)))])
  }

  function Unlink(s: State, i: nat, a: Answer): State
    requires i < |s.procs|
  {
    var id := s.procs[i].call.id;
    if id !in s.dir || a.fails then At(s, i, Done(Failed))
    else At(s, i, Done(Revoked(|s.log|))).(dir := s.dir - {id}, log := s.log + [Removed(id, s.dir[id])])
  }

  function Apply(s: State, m: Move): State {
    match m
    case Spawn(c) => s.(procs := s.procs + [Process(c, Start(c))])
    case Step(i, a) => if i < |s.procs| then StepOf(s, i, a) else s
  }

  /** Any finite interleaving. */
  function Run(s: State, moves: seq<Move>): State
    decreases |moves|
  {
    if moves == [] then s else Run(Apply(s, moves[0]), moves[1..])
  }

  // ---------------------------------------------------------------- what every step keeps

  /** Every byte is the one of `key` at its place, or zero: never one of another key. */
  predicate Mixed(data: bytes, key: bytes) {
    forall i :: 0 <= i < |data| ==> data[i] == 0 || (i < |key| && data[i] == key[i])
  }

  predicate FileOk(f: File) {
    && f.written <= |f.key| && Mixed(f.data, f.key)
    && (!f.touched ==> f.data == f.key[..f.written])
  }

  predicate FileOf(s: State, i: nat, ino: nat)
    requires i < |s.procs|
  {
    ino < |s.files| && s.files[ino].id == s.procs[i].call.id
  }

  predicate OwnFile(s: State, i: nat, ino: nat)
    requires i < |s.procs|
  {
    FileOf(s, i, ino) && s.procs[i].call.Put? && s.files[ino].key == s.procs[i].call.key && s.files[ino].writer == i
  }

  predicate ReadSoFar(f: File, got: bytes, whole: bool) {
    Mixed(got, f.key) && (whole ==> f.Whole()) && (whole && !f.touched ==> got <= f.key)
  }

  predicate ProcOk(s: State, i: nat)
    requires i < |s.procs|
  {
    var c := s.procs[i].call;
    match s.procs[i].pc
    case PutStart => c.Put?
    case PutCreate => c.Put? && Safe(c.id)
    case PutWrite(ino) => OwnFile(s, i, ino)
    case PutSync(ino) => OwnFile(s, i, ino) && s.files[ino].Whole()
    case GetStart => c.Get?
    case GetRead(ino, got, whole) => c.Get? && FileOf(s, i, ino) && ReadSoFar(s.files[ino], got, whole)
    case RevokeStart => c.Revoke?
    case RevokeOpen(_) => c.Revoke? && Safe(c.id)
    case RevokeZero(ino, len, done) => c.Revoke? && Safe(c.id) && FileOf(s, i, ino) && s.files[ino].touched
    case RevokeRemove => c.Revoke? && Safe(c.id)
    case Done(Stored(ino)) => OwnFile(s, i, ino) && s.files[ino].Whole()
    case Done(Got(ino, data, whole)) =>
      && c.Get? && FileOf(s, i, ino) && ReadSoFar(s.files[ino], data, whole)
      && (whole && !s.files[ino].touched ==> data == s.files[ino].key)
    case Done(Revoked(at)) => c.Revoke? && at < |s.log| && s.log[at].Removed? && s.log[at].id == c.id
    case Done(Failed) => true
  }

  /** The events of one device. */
  function Of(log: seq<Event>, id: string): (r: seq<Event>)
    decreases |log|
  {
    if log == [] then []
    else
      var r := Of(log[..|log| - 1], id);
      if log[|log| - 1].id == id then r + [log[|log| - 1]] else r
  }

  lemma OfAppend(log: seq<Event>, e: Event, id: string)
    ensures Of(log + [e], id) == if e.id == id then Of(log, id) + [e] else Of(log, id)
  {
    assert (log + [e])[..|log|] == log;
  }

  /** Creation, removal, creation, …: every removal removes what the creation before it made. */
  predicate Alternates(events: seq<Event>) {
    forall k :: 0 <= k < |events| ==>
      (events[k].Created? <==> k % 2 == 0) && (k % 2 == 1 ==> events[k].ino == events[k - 1].ino)
  }

  /** The folder is what the events of a device say: a file is there exactly after an odd number of them. */
  predicate Agrees(s: State, id: string) {
    var es := Of(s.log, id);
    && Alternates(es)
    && (id in s.dir <==> |es| % 2 == 1)
    && (id in s.dir ==> es[|es| - 1].ino == s.dir[id])
  }

  predicate DirOk(s: State) {
    forall id :: id in s.dir ==> Safe(id) && s.dir[id] < |s.files| && s.files[s.dir[id]].id == id
  }

  predicate FilesOk(s: State) {
    forall k :: 0 <= k < |s.files| ==> FileOk(s.files[k])
  }

  ghost predicate Valid(s: State) {
    && DirOk(s)
    && FilesOk(s)
    && (forall id :: Agrees(s, id))
    && (forall i :: 0 <= i < |s.procs| ==> ProcOk(s, i))
  }

  /** Between two states no file loses its name, its key or a step already taken on it. */
  predicate Later(f: File, g: File) {
    && g.id == f.id && g.key == f.key && g.writer == f.writer && g.written >= f.written
    && (f.touched ==> g.touched)
    && (f.Whole() ==> g.Whole())
    && (f.Whole() && !g.touched ==> g.data == f.data)
  }

  predicate Grown(s: State, t: State) {
    && |s.files| <= |t.files| && (forall k :: 0 <= k < |s.files| ==> Later(s.files[k], t.files[k]))
    && |s.procs| <= |t.procs| && (forall i :: 0 <= i < |s.procs| ==> t.procs[i].call == s.procs[i].call)
    && s.log <= t.log
  }

  // ---------------------------------------------------------------- proofs

  /** A process that does not move itself is not disturbed by the others. */
  lemma OthersStay(s: State, t: State, i: nat)
    requires i < |s.procs| && ProcOk(s, i) && Grown(s, t) && t.procs[i] == s.procs[i]
    ensures ProcOk(t, i)
  {
  }

  /** What a step of process `i` needs to know, and what it leaves. */
  predicate Before(s: State, i: nat) {
    DirOk(s) && FilesOk(s) && i < |s.procs| && ProcOk(s, i)
  }

  predicate Good(s: State, t: State, i: nat)
    requires i < |s.procs|
  {
    && Grown(s, t) && DirOk(t) && FilesOk(t)
    && |t.procs| == |s.procs| && (forall j :: 0 <= j < |s.procs| && j != i ==> t.procs[j] == s.procs[j])
    && ProcOk(t, i)
  }

  lemma CreateGood(s: State, i: nat, a: Answer)
    requires Before(s, i) && s.procs[i].pc.PutCreate?
    ensures Good(s, Create(s, i, a), i)
  {
  }

  lemma WriteGood(s: State, i: nat, a: Answer)
    requires Before(s, i) && s.procs[i].pc.PutWrite?
    ensures Good(s, WriteKey(s, i, s.procs[i].pc.ino, a), i)
  {
  }

  lemma OpenToReadGood(s: State, i: nat, a: Answer)
    requires Before(s, i) && s.procs[i].pc.GetStart?
    ensures Good(s, OpenToRead(s, i, a), i)
  {
  }

  lemma ReadGood(s: State, i: nat, a: Answer)
    requires Before(s, i) && s.procs[i].pc.GetRead?
    ensures Good(s, Read(s, i, s.procs[i].pc.ino, s.procs[i].pc.got, s.procs[i].pc.whole, a), i)
  {
  }

  lemma StatGood(s: State, i: nat, a: Answer)
    requires Before(s, i) && s.procs[i].pc.RevokeStart?
    ensures Good(s, Stat(s, i, a), i)
  {
  }

  lemma OpenToZeroGood(s: State, i: nat, a: Answer)
    requires Before(s, i) && s.procs[i].pc.RevokeOpen?
    ensures Good(s, OpenToZero(s, i, s.procs[i].pc.len, a), i)
  {
  }

  lemma ZeroGood(s: State, i: nat, a: Answer)
    requires Before(s, i) && s.procs[i].pc.RevokeZero?
    ensures Good(s, Zero(s, i, s.procs[i].pc.ino, s.procs[i].pc.len, s.procs[i].pc.done, a), i)
  {
  }

  lemma UnlinkGood(s: State, i: nat, a: Answer)
    requires Before(s, i) && s.procs[i].pc.RevokeRemove?
    ensures Good(s, Unlink(s, i, a), i)
  {
  }

  lemma StepGood(s: State, i: nat, a: Answer)
    requires Before(s, i)
    ensures Good(s, StepOf(s, i, a), i)
  {
    hide Create, WriteKey, OpenToRead, Read, Stat, OpenToZero, Zero, Unlink;
    match s.procs[i].pc {
      case PutStart =>
      case PutCreate => CreateGood(s, i, a);
      case PutWrite(_) => WriteGood(s, i, a);
      case PutSync(_) =>
      case GetStart => OpenToReadGood(s, i, a);
      case GetRead(_, _, _) => ReadGood(s, i, a);
      case RevokeStart => StatGood(s, i, a);
      case RevokeOpen(_) => OpenToZeroGood(s, i, a);
      case RevokeZero(_, _, _) => ZeroGood(s, i, a);
      case RevokeRemove => UnlinkGood(s, i, a);
      case Done(_) =>
    }
  }

  /** Only creating and unlinking change the folder. */
  lemma QuietSteps(s: State, i: nat, a: Answer)
    requires i < |s.procs|
    ensures var t := StepOf(s, i, a);
            && (s.procs[i].pc.PutCreate? || s.procs[i].pc.RevokeRemove? || (t.dir == s.dir && t.log == s.log))
            && (s.procs[i].pc.PutCreate? || |t.files| == |s.files|)
  {
  }

  lemma StepLog(s: State, i: nat, a: Answer, id: string)
    requires i < |s.procs| && Agrees(s, id)
    ensures Agrees(StepOf(s, i, a), id)
  {
    hide Of, WriteKey, OpenToRead, Read, Stat, OpenToZero, Zero;
    QuietSteps(s, i, a);
    OfAppend(s.log, Created(s.procs[i].call.id, |s.files|), id);
    if s.procs[i].call.id in s.dir {
      OfAppend(s.log, Removed(s.procs[i].call.id, s.dir[s.procs[i].call.id]), id);
    }
  }

  lemma ApplyKeeps(s: State, m: Move)
    requires Valid(s)
    ensures Valid(Apply(s, m)) && Grown(s, Apply(s, m))
  {
    hide StepOf, Agrees, ProcOk, FilesOk, Later;
    var t := Apply(s, m);
    match m {
      case Spawn(c) =>
        SpawnKeeps(s, c);
      case Step(i, a) =>
        if i < |s.procs| {
          StepGood(s, i, a);
          forall id ensures Agrees(t, id) { StepLog(s, i, a, id); }
          forall j | 0 <= j < |t.procs| ensures ProcOk(t, j) { if j != i { OthersStay(s, t, j); } }
        } else {
          StaysGrown(s);
        }
    }
  }

  lemma StaysGrown(s: State)
    ensures Grown(s, s)
  {
  }

  lemma SpawnKeeps(s: State, c: Call)
    requires Valid(s)
    ensures var t := Apply(s, Spawn(c)); Valid(t) && Grown(s, t)
  {
    hide Of;
    var t := Apply(s, Spawn(c));
    StaysGrown(s);
    assert Grown(s, t);
    assert t.procs[|s.procs|] == Process(c, Start(c)) && ProcOk(t, |s.procs|);
    forall j | 0 <= j < |s.procs| ensures ProcOk(t, j) { OthersStay(s, t, j); }
    forall id ensures Agrees(t, id) { assert Agrees(s, id); }
  }

  lemma GrownTrans(s: State, t: State, u: State)
    requires Grown(s, t) && Grown(t, u)
    ensures Grown(s, u)
  {
    assert u.log[..|s.log|] == t.log[..|s.log|] == s.log;
  }

  lemma {:induction false} RunKeeps(s: State, moves: seq<Move>)
    requires Valid(s)
    ensures Valid(Run(s, moves)) && Grown(s, Run(s, moves))
    decreases |moves|
  {
    hide Valid, Grown, Apply;
    if moves == [] {
      StaysGrown(s);
    } else {
      ApplyKeeps(s, moves[0]);
      RunKeeps(Apply(s, moves[0]), moves[1..]);
      GrownTrans(s, Apply(s, moves[0]), Run(s, moves));
    }
  }

  lemma EmptyIsValid()
    ensures Valid(EMPTY)
  {
    forall id ensures Agrees(EMPTY, id) { assert Of([], id) == []; }
  }

  // ---------------------------------------------------------------- names lead to files

  predicate RemovedFile(s: State, ino: nat)
    requires ino < |s.files|
  {
    Removed(s.files[ino].id, ino) in s.log
  }

  /** The name of a file leads to it until it is removed. */
  predicate Leads(s: State, ino: nat)
    requires ino < |s.files|
  {
    var id := s.files[ino].id;
    (id in s.dir && s.dir[id] == ino) || RemovedFile(s, ino)
  }

  /** A revocation of the device has been started. */
  ghost predicate Revoking(s: State, id: string) {
    exists i :: 0 <= i < |s.procs| && s.procs[i].call == Revoke(id)
  }

  /** No file is lost, and only revocations touch or remove one. */
  ghost predicate Accounted(s: State) {
    && (forall ino :: 0 <= ino < |s.files| ==> Leads(s, ino))
    && (forall ino :: 0 <= ino < |s.files| && s.files[ino].touched ==> Revoking(s, s.files[ino].id))
    && (forall k :: 0 <= k < |s.log| && s.log[k].Removed? ==> Revoking(s, s.log[k].id))
  }

  lemma CreateLeads(s: State, i: nat, a: Answer, ino: nat)
    requires i < |s.procs| && ino < |Create(s, i, a).files| && (ino < |s.files| ==> Leads(s, ino))
    ensures Leads(Create(s, i, a), ino)
  {
  }

  lemma UnlinkLeads(s: State, i: nat, a: Answer, ino: nat)
    requires i < |s.procs| && ino < |s.files| && Leads(s, ino)
    ensures Leads(Unlink(s, i, a), ino)
  {
    var t, id := Unlink(s, i, a), s.procs[i].call.id;
    if t.log != s.log {
      assert t.log[|s.log|] == Removed(id, s.dir[id]);
      assert s.log <= t.log;
    }
  }

  lemma StepLeads(s: State, i: nat, a: Answer, ino: nat)
    requires Before(s, i) && ino < |StepOf(s, i, a).files| && (ino < |s.files| ==> Leads(s, ino))
    ensures Leads(StepOf(s, i, a), ino)
  {
    hide Create, Unlink, WriteKey, OpenToRead, Read, Stat, OpenToZero, Zero, ProcOk, FilesOk, DirOk;
    QuietSteps(s, i, a);
    if s.procs[i].pc.PutCreate? {
      CreateLeads(s, i, a, ino);
    } else if s.procs[i].pc.RevokeRemove? {
      UnlinkLeads(s, i, a, ino);
    } else {
      StepGood(s, i, a);
    }
  }

  /** Who touches a file or removes one revokes its device. */
  lemma StepRevokes(s: State, i: nat, a: Answer)
    requires Before(s, i)
    ensures var t := StepOf(s, i, a);
            && (forall ino ::
                  0 <= ino < |t.files| && t.files[ino].touched && (ino < |s.files| ==> !s.files[ino].touched) ==>
                    s.procs[i].call == Revoke(t.files[ino].id))
            && (forall k :: |s.log| <= k < |t.log| && t.log[k].Removed? ==> s.procs[i].call == Revoke(t.log[k].id))
  {
    hide FileOk, Patch;
  }

  lemma RevokingStays(s: State, t: State, id: string)
    requires Grown(s, t) && Revoking(s, id)
    ensures Revoking(t, id)
  {
    hide Later;
    var i :| 0 <= i < |s.procs| && s.procs[i].call == Revoke(id);
    assert t.procs[i].call == Revoke(id);
  }

  lemma StepAccounts(s: State, i: nat, a: Answer)
    requires Before(s, i) && Accounted(s)
    ensures Accounted(StepOf(s, i, a))
  {
    hide StepOf, Leads, ProcOk, FilesOk, DirOk;
    var t := StepOf(s, i, a);
    StepGood(s, i, a);
    StepRevokes(s, i, a);
    hide Later;
    forall ino | 0 <= ino < |t.files| ensures Leads(t, ino) { StepLeads(s, i, a, ino); }
    forall ino | 0 <= ino < |t.files| && t.files[ino].touched ensures Revoking(t, t.files[ino].id) {
      if ino < |s.files| && s.files[ino].touched {
        SameId(s, t, ino);
        RevokingStays(s, t, s.files[ino].id);
      } else {
        assert t.procs[i].call == Revoke(t.files[ino].id);
      }
    }
    forall k | 0 <= k < |t.log| && t.log[k].Removed? ensures Revoking(t, t.log[k].id) {
      if k < |s.log| {
        assert s.log[k] == t.log[k];
        RevokingStays(s, t, s.log[k].id);
      } else {
        assert t.procs[i].call == Revoke(t.log[k].id);
      }
    }
  }

  lemma SameId(s: State, t: State, ino: nat)
    requires Grown(s, t) && ino < |s.files|
    ensures t.files[ino].id == s.files[ino].id
  {
  }

  lemma SpawnAccounts(s: State, c: Call)
    requires Valid(s) && Accounted(s)
    ensures Accounted(Apply(s, Spawn(c)))
  {
    hide Valid;
    var t := Apply(s, Spawn(c));
    SpawnKeeps(s, c);
    forall ino | 0 <= ino < |t.files| ensures Leads(t, ino) { assert Leads(s, ino); }
    forall id | Revoking(s, id) ensures Revoking(t, id) { RevokingStays(s, t, id); }
  }

  lemma {:induction false} RunAccounts(s: State, moves: seq<Move>)
    requires Valid(s) && Accounted(s)
    ensures Accounted(Run(s, moves))
    decreases |moves|
  {
    hide Accounted, StepOf, Agrees;
    if moves != [] {
      match moves[0] {
        case Spawn(c) => SpawnAccounts(s, c);
        case Step(i, a) => if i < |s.procs| { StepAccounts(s, i, a); }
      }
      ApplyKeeps(s, moves[0]);
      RunAccounts(Apply(s, moves[0]), moves[1..]);
    }
  }

  lemma EmptyIsAccounted()
    ensures Accounted(EMPTY)
  {
  }

  // ---------------------------------------------------------------- main results

  /**
   On every interleaving from an empty folder, the successful exclusive creations and the successful removals of one
   device strictly alternate, and its file is there exactly after a creation: no put replaces a live key.
   */
  lemma CreationsAndRemovalsAlternate(moves: seq<Move>, id: string)
    ensures var s := Run(EMPTY, moves);
            Alternates(Of(s.log, id)) && (id in s.dir <==> |Of(s.log, id)| % 2 == 1)
  {
    EmptyIsValid();
    RunKeeps(EMPTY, moves);
    assert Agrees(Run(EMPTY, moves), id);
  }

  /** Whatever else runs: a file keeps its owner and its key, and once whole its bytes, until a revocation opens it. */
  lemma KeyStaysUntilRevoked(before: seq<Move>, after: seq<Move>, ino: nat)
    requires ino < |Run(EMPTY, before).files|
    ensures var f := Run(EMPTY, before).files[ino];
            ino < |Run(Run(EMPTY, before), after).files| &&
            var g := Run(Run(EMPTY, before), after).files[ino];
            g.id == f.id && g.key == f.key && (f.Whole() && !g.touched ==> f.data == f.key && g.data == f.key)
  {
    hide Run, Agrees;
    EmptyIsValid();
    var s := Run(EMPTY, before);
    RunKeeps(EMPTY, before);
    RunKeeps(s, after);
    assert FileOk(s.files[ino]) && FileOk(Run(s, after).files[ino]) && Later(s.files[ino], Run(s, after).files[ino]);
  }

  /**
   A put that reports success has stored its own key, and wrote it into a file of its own; and the name of its device
   leads to that file until it is removed.
   */
  lemma StoredIsWhole(moves: seq<Move>, i: nat)
    requires i < |Run(EMPTY, moves).procs| && Run(EMPTY, moves).procs[i].pc.Done?
    requires Run(EMPTY, moves).procs[i].pc.outcome.Stored?
    ensures var s := Run(EMPTY, moves);
            var ino, c := s.procs[i].pc.outcome.ino, s.procs[i].call;
            c.Put? && ino < |s.files| &&
            var f := s.files[ino];
            && f.id == c.id && f.key == c.key && f.writer == i && f.Whole() && (!f.touched ==> f.data == c.key)
            && ((c.id in s.dir && s.dir[c.id] == ino) || Removed(c.id, ino) in s.log)
  {
    hide Run, Agrees;
    EmptyIsValid();
    EmptyIsAccounted();
    RunKeeps(EMPTY, moves);
    RunAccounts(EMPTY, moves);
    var s := Run(EMPTY, moves);
    assert ProcOk(s, i);
    var ino := s.procs[i].pc.outcome.ino;
    assert FileOk(s.files[ino]) && Leads(s, ino);
  }

  /**
   What a get returns: only bytes of one key of that device, or zeros where a revocation raced it; and exactly that
   key when its put had finished writing and no revocation has opened the file.
   */
  lemma GotIsOneKey(moves: seq<Move>, i: nat)
    requires i < |Run(EMPTY, moves).procs| && Run(EMPTY, moves).procs[i].pc.Done?
    requires Run(EMPTY, moves).procs[i].pc.outcome.Got?
    ensures var s := Run(EMPTY, moves);
            var o, c := s.procs[i].pc.outcome, s.procs[i].call;
            c.Get? && o.ino < |s.files| &&
            var f := s.files[o.ino];
            f.id == c.id && Mixed(o.data, f.key) && (o.whole && !f.touched ==> o.data == f.key)
  {
    hide Run, Agrees;
    EmptyIsValid();
    RunKeeps(EMPTY, moves);
    assert ProcOk(Run(EMPTY, moves), i);
  }

  // ---------------------------------------------------------------- revoked is gone

  predicate NoneCreated(log: seq<Event>, from: nat, id: string) {
    forall k :: from <= k < |log| && log[k].Created? ==> log[k].id != id
  }

  /** After a removal with no creation behind it, the events of a device end in a removal. */
  lemma {:induction false} EndsRemoved(log: seq<Event>, at: nat, id: string)
    requires at < |log| && log[at].Removed? && log[at].id == id && NoneCreated(log, at, id)
    ensures var es := Of(log, id); es != [] && es[|es| - 1].Removed?
    decreases |log|
  {
    var n := |log| - 1;
    if log[n].id != id {
      assert forall k :: at <= k < n ==> log[..n][k] == log[k];
      EndsRemoved(log[..n], at, id);
    }
  }

  lemma NotThere(s: State, at: nat, id: string)
    requires Valid(s) && at < |s.log| && s.log[at].Removed? && s.log[at].id == id && NoneCreated(s.log, at, id)
    ensures id !in s.dir
  {
    hide Of, DirOk, FilesOk, ProcOk;
    EndsRemoved(s.log, at, id);
    assert Agrees(s, id);
  }

  /** The gets started since `first` have not found a file. */
  predicate NothingFound(s: State, first: nat, id: string) {
    forall g :: first <= g < |s.procs| && s.procs[g].call == Get(id) ==>
      s.procs[g].pc == GetStart || s.procs[g].pc == Done(Failed)
  }

  lemma {:induction false} GetsFindNothing(s: State, moves: seq<Move>, first: nat, at: nat, id: string)
    requires Valid(s) && at < |s.log| && s.log[at].Removed? && s.log[at].id == id
    requires first <= |s.procs| && NothingFound(s, first, id)
    requires NoneCreated(Run(s, moves).log, at, id)
    ensures NothingFound(Run(s, moves), first, id)
    decreases |moves|
  {
    hide Valid, Apply, Later;
    if moves != [] {
      var t := Apply(s, moves[0]);
      ApplyKeeps(s, moves[0]);
      RunKeeps(s, moves);
      RunKeeps(t, moves[1..]);
      assert NoneCreated(s.log, at, id) by {
        assert forall k :: at <= k < |s.log| ==> s.log[k] == Run(s, moves).log[k];
      }
      NotThere(s, at, id);
      FindsNothing(s, moves[0], first, id);
      GetsFindNothing(t, moves[1..], first, at, id);
    }
  }

  /** A get that begins when there is no file fails. */
  lemma OpensNothing(s: State, i: nat, a: Answer)
    requires i < |s.procs| && s.procs[i].call.id !in s.dir
    requires s.procs[i].pc == GetStart || s.procs[i].pc == Done(Failed)
    ensures i < |StepOf(s, i, a).procs| && StepOf(s, i, a).procs[i].pc == Done(Failed)
  {
  }

  lemma FindsNothing(s: State, m: Move, first: nat, id: string)
    requires Valid(s) && id !in s.dir && NothingFound(s, first, id)
    ensures NothingFound(Apply(s, m), first, id)
  {
    hide Agrees, DirOk, FilesOk, ProcOk, Later, StepOf;
    if m.Step? && m.i < |s.procs| {
      StepGood(s, m.i, m.answer);
      if m.i >= first && s.procs[m.i].call == Get(id) {
        OpensNothing(s, m.i, m.answer);
      }
    }
  }

  /** Every get that starts after a successful revocation fails, until the device is given a key again. */
  lemma RevokedIsGone(before: seq<Move>, after: seq<Move>, r: nat, g: nat)
    requires var s := Run(EMPTY, before);
             r < |s.procs| && s.procs[r].call.Revoke? && s.procs[r].pc.Done? && s.procs[r].pc.outcome.Revoked?
    requires var s := Run(EMPTY, before);
             NoneCreated(Run(s, after).log, s.procs[r].pc.outcome.at, s.procs[r].call.id)
    requires var s := Run(EMPTY, before);
             var t := Run(s, after);
             |s.procs| <= g < |t.procs| && t.procs[g].call == Get(s.procs[r].call.id) && t.procs[g].pc.Done?
    ensures Run(Run(EMPTY, before), after).procs[g].pc == Done(Failed)
  {
    hide Run, Agrees, FilesOk, Later;
    EmptyIsValid();
    RunKeeps(EMPTY, before);
    var s := Run(EMPTY, before);
    assert ProcOk(s, r);
    GetsFindNothing(s, after, |s.procs|, s.procs[r].pc.outcome.at, s.procs[r].call.id);
  }

  // ---------------------------------------------------------------- stored is served

  /** The gets started since `first` have read from file `ino`, when it was whole, or failed. */
  predicate OnlyFound(s: State, first: nat, id: string, ino: nat) {
    forall g :: first <= g < |s.procs| && s.procs[g].call == Get(id) ==> HasFound(s.procs[g].pc, ino)
  }

  predicate HasFound(pc: Pc, ino: nat) {
    match pc
    case GetStart => true
    case GetRead(k, _, whole) => k == ino && whole
    case Done(Got(k, _, whole)) => k == ino && whole
    case Done(Failed) => true
    case _ => false
  }

  lemma FindsFile(s: State, i: nat, a: Answer, ino: nat)
    requires i < |s.procs| && ino < |s.files| && s.files[ino].Whole() && HasFound(s.procs[i].pc, ino)
    requires s.procs[i].call.id in s.dir && s.dir[s.procs[i].call.id] == ino
    ensures i < |StepOf(s, i, a).procs| && HasFound(StepOf(s, i, a).procs[i].pc, ino)
  {
  }

  lemma OnlyFindsFile(s: State, m: Move, first: nat, id: string, ino: nat)
    requires Valid(s) && ino < |s.files| && s.files[ino].Whole() && OnlyFound(s, first, id, ino)
    requires id in s.dir && s.dir[id] == ino
    ensures OnlyFound(Apply(s, m), first, id, ino)
  {
    hide Agrees, DirOk, FilesOk, ProcOk, Later, StepOf, HasFound;
    match m {
      case Spawn(c) =>
        assert HasFound(GetStart, ino) by { StartFinds(ino); }
      case Step(i, a) =>
        if i < |s.procs| {
          StepGood(s, i, a);
          if i >= first && s.procs[i].call == Get(id) {
            FindsFile(s, i, a, ino);
          }
        }
    }
  }

  lemma StartFinds(ino: nat)
    ensures HasFound(GetStart, ino)
  {
  }

  lemma {:induction false} GetsFindFile(s: State, moves: seq<Move>, first: nat, id: string, ino: nat)
    requires Valid(s) && Accounted(s) && ino < |s.files| && s.files[ino].id == id && s.files[ino].Whole()
    requires first <= |s.procs| && OnlyFound(s, first, id, ino)
    requires Removed(id, ino) !in Run(s, moves).log
    ensures OnlyFound(Run(s, moves), first, id, ino)
    decreases |moves|
  {
    hide Valid, Accounted, Apply, OnlyFound;
    if moves != [] {
      var t := Apply(s, moves[0]);
      ApplyKeeps(s, moves[0]);
      RunKeeps(s, moves);
      OneRun(s, moves[0]);
      RunAccounts(s, [moves[0]]);
      assert Removed(id, ino) !in s.log by {
        assert s.log <= Run(s, moves).log;
      }
      StillLeads(s, ino);
      OnlyFindsFile(s, moves[0], first, id, ino);
      assert Later(s.files[ino], t.files[ino]);
      GetsFindFile(t, moves[1..], first, id, ino);
    }
  }

  lemma OneRun(s: State, m: Move)
    ensures Run(s, [m]) == Apply(s, m)
  {
    hide Apply;
    assert Run(Apply(s, m), []) == Apply(s, m);
  }

  lemma StillLeads(s: State, ino: nat)
    requires Accounted(s) && ino < |s.files| && Removed(s.files[ino].id, ino) !in s.log
    ensures s.files[ino].id in s.dir && s.dir[s.files[ino].id] == ino
  {
    assert Leads(s, ino);
  }

  /**
   A stored key is served: every get for the device that starts after a put has reported success fails or returns
   exactly the key of that put, as long as the file is neither removed nor opened by a revocation.
   */
  lemma StoredIsServed(before: seq<Move>, after: seq<Move>, i: nat, g: nat)
    requires var s := Run(EMPTY, before);
             i < |s.procs| && s.procs[i].pc.Done? && s.procs[i].pc.outcome.Stored?
    requires var s := Run(EMPTY, before);
             var t := Run(s, after);
             |s.procs| <= g < |t.procs| && t.procs[g].call == Get(s.procs[i].call.id) && t.procs[g].pc.Done?
    ensures var s := Run(EMPTY, before);
            var t, c, ino := Run(s, after), s.procs[i].call, s.procs[i].pc.outcome.ino;
            && c.Put? && ino < |t.files|
            && (Removed(c.id, ino) !in t.log && !t.files[ino].touched ==>
                  t.procs[g].pc == Done(Failed) || t.procs[g].pc == Done(Got(ino, c.key, true)))
  {
    hide Run, Agrees, Leads, OnlyFound;
    EmptyIsValid();
    EmptyIsAccounted();
    RunKeeps(EMPTY, before);
    RunAccounts(EMPTY, before);
    StoredIsWhole(before, i);
    var s := Run(EMPTY, before);
    var t, c, ino := Run(s, after), s.procs[i].call, s.procs[i].pc.outcome.ino;
    RunKeeps(s, after);
    assert Later(s.files[ino], t.files[ino]);
    if Removed(c.id, ino) !in t.log && !t.files[ino].touched {
      assert OnlyFound(s, |s.procs|, c.id, ino) by { NoneYet(s, c.id, ino); }
      GetsFindFile(s, after, |s.procs|, c.id, ino);
      FoundAt(t, |s.procs|, c.id, ino, g);
      assert ProcOk(t, g);
    }
  }

  /** Files are never forgotten. */
  lemma FilesStay(before: seq<Move>, after: seq<Move>)
    ensures |Run(EMPTY, before).files| <= |Run(Run(EMPTY, before), after).files|
  {
    hide Run, Valid;
    EmptyIsValid();
    RunKeeps(EMPTY, before);
    RunKeeps(Run(EMPTY, before), after);
  }

  lemma NoneYet(s: State, id: string, ino: nat)
    ensures OnlyFound(s, |s.procs|, id, ino)
  {
  }

  lemma FoundAt(s: State, first: nat, id: string, ino: nat, g: nat)
    requires OnlyFound(s, first, id, ino) && first <= g < |s.procs| && s.procs[g].call == Get(id)
    ensures HasFound(s.procs[g].pc, ino)
  {
  }

  /** A device whose revocation nobody has ever asked for keeps its file, untouched, under its name. */
  lemma UnrevokedIsUntouched(moves: seq<Move>, ino: nat)
    requires ino < |Run(EMPTY, moves).files| && !Revoking(Run(EMPTY, moves), Run(EMPTY, moves).files[ino].id)
    ensures var s := Run(EMPTY, moves);
            var f := s.files[ino];
            !f.touched && Removed(f.id, ino) !in s.log && f.id in s.dir && s.dir[f.id] == ino
  {
    hide Run, Revoking;
    EmptyIsValid();
    EmptyIsAccounted();
    RunAccounts(EMPTY, moves);
    var s := Run(EMPTY, moves);
    assert Leads(s, ino);
  }

  // ---------------------------------------------------------------- one call after another

  lemma {:induction false} RunOneMore(s: State, moves: seq<Move>, m: Move)
    ensures Run(s, moves + [m]) == Apply(Run(s, moves), m)
    decreases |moves|
  {
    hide Apply;
    if moves == [] {
      assert Run(Apply(s, m), []) == Apply(s, m);
    } else {
      assert (moves + [m])[0] == moves[0] && (moves + [m])[1..] == moves[1..] + [m];
      RunOneMore(Apply(s, moves[0]), moves[1..], m);
    }
  }

  ghost predicate Willing(answers: nat -> Answer) {
    forall k :: !answers(k).fails
  }

  /** What a put leaves: nothing new, or a file of its own that holds the beginning of its key. */
  predicate PutLeaves(s: State, t: State, id: string, key: bytes) {
    var ino := |s.files|;
    || (t.dir == s.dir && t.files == s.files && t.log == s.log)
    || (Safe(id) && id !in s.dir && t.dir == s.dir[id := ino] && t.log == s.log + [Created(id, ino)] &&
        |t.files| == ino + 1 && t.files[ino].written <= |key| &&
        t.files == s.files + [File(id, key, key[..t.files[ino].written], |s.procs|, t.files[ino].written, false)])
  }

  lemma PatchExtends(key: bytes, w: nat, n: nat)
    requires w + n <= |key|
    ensures Patch(key[..w], w, key[w..w + n]) == key[..w + n]
  {
  }

  /** The store when one call at a time uses it. Every method is a run of the machine above. */
  class Store {
    var state: State
    ghost var moves: seq<Move>
    ghost const start: State

    ghost predicate Ok()
      reads this
    {
      Valid(start) && Valid(state) && state == Run(start, moves)
    }

    constructor ()
      ensures Ok() && state == EMPTY
    {
      state, moves, start := EMPTY, [], EMPTY;
      new;
      EmptyIsValid();
    }

    method Take(m: Move)
      requires Ok()
      modifies this
      ensures Ok() && state == Apply(old(state), m) && old(moves) <= moves
    {
      ApplyKeeps(state, m);
      RunOneMore(start, moves, m);
      state := Apply(state, m);
      moves := moves + [m];
    }

    /** store.rs, `put`. */
    method Put(id: string, key: bytes, answers: nat -> Answer) returns (o: Outcome)
      requires Ok()
      modifies this
      ensures Ok() && old(moves) <= moves
      ensures PutLeaves(old(state), state, id, key)
      ensures || o == Failed
              || (o == Stored(|old(state).files|) && |state.files| == o.ino + 1 && state.files[o.ino].data == key)
      ensures Willing(answers) && Safe(id) && id !in old(state).dir ==> o.Stored?
    {
      hide Valid, Run, OpenToRead, Read, Stat, OpenToZero, Zero, Unlink;
      var i, k := |state.procs|, 2;
      Take(Spawn(Call.Put(id, key)));
      Take(Step(i, answers(0)));
      if state.procs[i].pc.Done? { return state.procs[i].pc.outcome; }
      Take(Step(i, answers(1)));
      if state.procs[i].pc.Done? { return state.procs[i].pc.outcome; }
      ghost var ino := |old(state).files|;
      while state.procs[i].pc.PutWrite?
        invariant Ok() && old(moves) <= moves && i < |state.procs|
        invariant |state.files| == ino + 1 && PutLeaves(old(state), state, id, key)
        invariant state.dir != old(state).dir
        invariant state.procs[i].pc == PutWrite(ino) || (state.procs[i].pc == PutSync(ino) && state.files[ino].Whole())
                  || (state.procs[i].pc == Done(Failed) && !Willing(answers))
        decreases |key| - state.files[ino].written + if state.procs[i].pc.PutWrite? then 1 else 0
      {
        ghost var w := state.files[ino].written;
        if w < |key| { PatchExtends(key, w, Amount(answers(k), |key| - w)); }
        Take(Step(i, answers(k)));
        k := k + 1;
      }
      if state.procs[i].pc.Done? { return Failed; }
      Take(Step(i, answers(k)));
      o := state.procs[i].pc.outcome;
    }

    /** store.rs, `get`: changes nothing, and returns the whole file. */
    method Get(id: string, answers: nat -> Answer) returns (o: Outcome)
      requires Ok()
      modifies this
      ensures Ok() && old(moves) <= moves
      ensures state.dir == old(state).dir && state.files == old(state).files && state.log == old(state).log
      ensures || o == Failed
              || (id in state.dir && state.dir[id] < |state.files| && o.Got?
                  && o.data == state.files[state.dir[id]].data)
      ensures Willing(answers) && Safe(id) && id in old(state).dir ==> o.Got?
    {
      hide Run, Agrees, FilesOk, ProcOk, Create, WriteKey, Stat, OpenToZero, Zero, Unlink;
      var i, k := |state.procs|, 1;
      Take(Spawn(Call.Get(id)));
      Take(Step(i, answers(0)));
      if state.procs[i].pc.Done? { return Failed; }
      ghost var data := state.files[state.dir[id]].data;
      while state.procs[i].pc.GetRead?
        invariant Ok() && old(moves) <= moves && i < |state.procs|
        invariant state.dir == old(state).dir && state.files == old(state).files && state.log == old(state).log
        invariant match state.procs[i].pc
                  case GetRead(ino, got, _) => ino == state.dir[id] && got <= data
                  case Done(Got(ino, got, _)) => got == data
                  case Done(Failed) => !Willing(answers)
                  case _ => false
        decreases if state.procs[i].pc.GetRead? then |data| - |state.procs[i].pc.got| + 1 else 0
      {
        Take(Step(i, answers(k)));
        k := k + 1;
      }
      o := state.procs[i].pc.outcome;
    }

    /**
     store.rs, `revoke`: the bytes are overwritten with zeros, as far as the device lets that happen, and the name is
     removed.
     */
    method Revoke(id: string, answers: nat -> Answer) returns (o: Outcome)
      requires Ok()
      modifies this
      ensures Ok() && old(moves) <= moves
      ensures o == Failed || (id in old(state).dir && o == Revoked(|old(state).log|))
      ensures state.dir == if o == Failed then old(state).dir else old(state).dir - {id}
      ensures RevokeLeaves(old(state), state, id)
      ensures Willing(answers) && Safe(id) && Lookup(old(state), id).Some? ==>
                o.Revoked? && |state.files| == |old(state).files| &&
                state.files[old(state).dir[id]].data == Zeros(|old(state).files[old(state).dir[id]].data|)
    {
      hide Valid, Run, StepOf, RevokeLeaves, Lookup, ZeroedTo;
      var i, k := |state.procs|, 2;
      Take(Spawn(Call.Revoke(id)));
      ghost var s := state;
      SpawnLeaves(old(state), s, id);
      Take(Step(i, answers(0)));
      RevokeBegins(s, i, answers(0), answers(1));
      if state.procs[i].pc.Done? { return Failed; }
      if state.procs[i].pc.RevokeOpen? { Take(Step(i, answers(1))); }
      while state.procs[i].pc.RevokeZero?
        invariant Ok() && old(moves) <= moves && i < |state.procs|
        invariant Overwriting(s, state, i, Willing(answers))
        decreases if state.procs[i].pc.RevokeZero? then state.procs[i].pc.len - state.procs[i].pc.done + 1 else 0
      {
        ZeroGoesOn(s, state, i, answers(k), Willing(answers));
        Take(Step(i, answers(k)));
        k := k + 1;
      }
      RevokeEnds(s, state, i, answers(k), Willing(answers));
      Take(Step(i, answers(k)));
      o := state.procs[i].pc.outcome;
    }
  }

  /** What a revocation leaves of the files, whatever failed. */
  predicate RevokeLeaves(s: State, t: State, id: string) {
    && |t.files| == |s.files|
    && (forall k :: 0 <= k < |t.files| && (id in s.dir ==> k != s.dir[id]) ==> t.files[k] == s.files[k])
    && (id in s.dir && s.dir[id] < |s.files| ==> Zeroing(s.files[s.dir[id]].data, t.files[s.dir[id]].data))
  }

  /** In the midst of a revocation: what is overwritten so far, and all of it at the end if nothing failed. */
  predicate Overwriting(s: State, t: State, i: nat, willing: bool) {
    && i < |t.procs| && i < |s.procs| && t.procs[i].call == s.procs[i].call
    && t.dir == s.dir && t.log == s.log
    && var id := s.procs[i].call.id;
    && RevokeLeaves(s, t, id) && Safe(id)
    && match t.procs[i].pc
       case RevokeZero(ino, len, done) =>
         Lookup(s, id) == Some(ino) && len == |s.files[ino].data| && done <= len && ZeroedTo(t.files[ino].data, done)
       case RevokeRemove =>
         willing && Lookup(s, id).Some? ==> ZeroedTo(t.files[s.dir[id]].data, |t.files[s.dir[id]].data|)
       case _ => false
  }

  predicate ZeroedTo(data: bytes, n: nat) {
    n <= |data| && forall i :: 0 <= i < n ==> data[i] == 0
  }

  /** Bytes turn to zero or stay, and their number stays. */
  predicate Zeroing(was: bytes, data: bytes) {
    |data| == |was| && forall i :: 0 <= i < |data| ==> data[i] == 0 || data[i] == was[i]
  }

  lemma SpawnLeaves(r: State, s: State, id: string)
    requires r.dir == s.dir && r.files == s.files
    ensures Lookup(r, id) == Lookup(s, id)
    ensures forall t :: RevokeLeaves(s, t, id) ==> RevokeLeaves(r, t, id)
  {
  }

  lemma RevokeBegins(s: State, i: nat, a: Answer, b: Answer)
    requires i < |s.procs| && s.procs[i].pc == RevokeStart
    ensures var t := StepOf(s, i, a);
            i < |t.procs| && match t.procs[i].pc
              case Done(o) =>
                && o == Failed && !Safe(s.procs[i].call.id) && t.dir == s.dir
                && RevokeLeaves(s, t, s.procs[i].call.id)
              case RevokeOpen(_) => Overwriting(s, StepOf(t, i, b), i, !b.fails)
              case _ => Overwriting(s, t, i, !a.fails)
  {
  }

  lemma ZeroGoesOn(s: State, t: State, i: nat, a: Answer, willing: bool)
    requires Overwriting(s, t, i, willing) && t.procs[i].pc.RevokeZero? && (willing ==> !a.fails)
    ensures var u := StepOf(t, i, a);
            && Overwriting(s, u, i, willing)
            && (u.procs[i].pc.RevokeZero? ==>
                  u.procs[i].pc.done > t.procs[i].pc.done && u.procs[i].pc.len == t.procs[i].pc.len)
  {
  }

  lemma RevokeEnds(s: State, t: State, i: nat, a: Answer, willing: bool)
    requires Overwriting(s, t, i, willing) && t.procs[i].pc == RevokeRemove && (willing ==> !a.fails)
    ensures var u, id := StepOf(t, i, a), s.procs[i].call.id;
            && RevokeLeaves(s, u, id)
            && i < |u.procs| && u.procs[i].pc.Done? && var o := u.procs[i].pc.outcome;
            && (o == Failed || (id in s.dir && o == Revoked(|s.log|)))
            && u.dir == (if o == Failed then s.dir else s.dir - {id})
            && (willing && Lookup(s, id).Some? ==>
                  o.Revoked? && u.files[s.dir[id]].data == Zeros(|s.files[s.dir[id]].data|))
  {
  }
}

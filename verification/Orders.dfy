/** Deciding whether a signed order may be carried out, once. */
module Orders {
  import opened Bytes
  import opened OrderCodec
  import opened Signing
  import opened Utf8

  datatype SignedOrder = SignedOrder(order: Order, signature: Signature)

  datatype Reason =
    | BadSignature
    | Expired(now: u64, expiresAt: u64)
    | NotYetValid(now: u64, issuedAt: u64)
    | WrongDevice(expected: text, got: text)
    | ReplayedNonce

  datatype Verdict = Accept(order: Order) | Reject(reason: Reason)

  /** One question: under which key, which order, on which device and at what time. */
  datatype Call = Call(key: bytes, signed: SignedOrder, device: text, now: u64)

  datatype Check = Check(passes: bool, otherwise: Reason)

  /** The checks in the order in which they count. */
  function Checks(valid: Verifier, c: Call, seen: set<Nonce>): seq<Check> {
    var o := c.signed.order;
    [ Check(valid(c.key, Encode(o), c.signed.signature), BadSignature),
      Check(c.now <= o.expiresAt, Expired(c.now, o.expiresAt)),
      Check(o.issuedAt <= c.now, NotYetValid(c.now, o.issuedAt)),
      Check(o.deviceId == c.device, WrongDevice(c.device, o.deviceId)),
      Check(o.nonce !in seen, ReplayedNonce) ]
  }

  function FirstFailing(checks: seq<Check>, order: Order): (v: Verdict)
    ensures v == Accept(order) <==> forall i :: 0 <= i < |checks| ==> checks[i].passes
    ensures v.Reject? ==> exists i :: 0 <= i < |checks| && !checks[i].passes && v.reason == checks[i].otherwise
                                    && forall j :: 0 <= j < i ==> checks[j].passes
  {
    if checks == [] then Accept(order)
    else if !checks[0].passes then Reject(checks[0].otherwise)
    else FirstFailing(checks[1..], order)
  }

  lemma {:induction false} FailsAt(checks: seq<Check>, order: Order, k: nat)
    requires k < |checks| && !checks[k].passes && forall j :: 0 <= j < k ==> checks[j].passes
    ensures FirstFailing(checks, order) == Reject(checks[k].otherwise)
    decreases k
  {
    if k > 0 {
      FailsAt(checks[1..], order, k - 1);
    }
  }

  function Judge(valid: Verifier, c: Call, seen: set<Nonce>): Verdict {
    FirstFailing(Checks(valid, c, seen), c.signed.order)
  }

  /** What it takes to be accepted: every condition at once. */
  predicate Acceptable(valid: Verifier, c: Call, seen: set<Nonce>) {
    var o := c.signed.order;
    && valid(c.key, Encode(o), c.signed.signature)
    && o.issuedAt <= c.now <= o.expiresAt
    && o.deviceId == c.device
    && o.nonce !in seen
  }

  /** What each verdict means, for every call and every log. */
  predicate Explained(valid: Verifier, c: Call, seen: set<Nonce>, v: Verdict) {
    var o := c.signed.order;
    var signed := valid(c.key, Encode(o), c.signed.signature);
    && (v.Accept? <==> Acceptable(valid, c, seen)) && (v.Accept? ==> v.order == o)
    && (v == Reject(BadSignature) <==> !signed)
    && (v.Reject? && v.reason.Expired? <==> signed && o.expiresAt < c.now)
    && (v.Reject? && v.reason.NotYetValid? <==> signed && c.now <= o.expiresAt && c.now < o.issuedAt)
    && (v.Reject? && v.reason.WrongDevice? <==>
          signed && o.issuedAt <= c.now <= o.expiresAt && o.deviceId != c.device)
    && (v == Reject(ReplayedNonce) <==>
          signed && o.issuedAt <= c.now <= o.expiresAt && o.deviceId == c.device && o.nonce in seen)
    && (v.Reject? ==>
          match v.reason
          case Expired(now, expiresAt) => now == c.now && expiresAt == o.expiresAt
          case NotYetValid(now, issuedAt) => now == c.now && issuedAt == o.issuedAt
          case WrongDevice(expected, got) => expected == c.device && got == o.deviceId
          case _ => true)
  }

  /** The verdict of the ordered checks is the one these conditions name. */
  lemma JudgedRight(valid: Verifier, c: Call, seen: set<Nonce>)
    ensures Explained(valid, c, seen, Judge(valid, c, seen))
  {
    hide Encode;
    var checks, o := Checks(valid, c, seen), c.signed.order;
    if !checks[0].passes {
      FailsAt(checks, o, 0);
    } else if !checks[1].passes {
      FailsAt(checks, o, 1);
    } else if !checks[2].passes {
      FailsAt(checks, o, 2);
    } else if !checks[3].passes {
      FailsAt(checks, o, 3);
    } else if !checks[4].passes {
      FailsAt(checks, o, 4);
    } else {
      assert forall i :: 0 <= i < 5 ==> checks[i].passes;
    }
  }

  function Remember(v: Verdict, seen: set<Nonce>): set<Nonce> {
    match v case Accept(o) => seen + {o.nonce} case Reject(_) => seen
  }

  class NonceLog {
    var nonces: set<Nonce>

    constructor (nonces: set<Nonce>)
      ensures this.nonces == nonces
    {
      this.nonces := nonces;
    }

    predicate Seen(n: Nonce)
      reads this
    {
      n in nonces
    }

    method Add(n: Nonce)
      modifies this
      ensures nonces == old(nonces) + {n}
    {
      nonces := nonces + {n};
    }
  }

  /** lib.rs: the signature first, the nonce last, and only an accepted order uses up its nonce. */
  method Verify(valid: Verifier, c: Call, log: NonceLog) returns (v: Verdict)
    modifies log
    ensures v == Judge(valid, c, old(log.nonces)) && Explained(valid, c, old(log.nonces), v)
    ensures log.nonces == if v.Accept? then old(log.nonces) + {c.signed.order.nonce} else old(log.nonces)
  {
    JudgedRight(valid, c, log.nonces);
    var o := c.signed.order;
    ghost var checks := Checks(valid, c, log.nonces);
    if !valid(c.key, Encode(o), c.signed.signature) {
      FailsAt(checks, o, 0);
      return Reject(BadSignature);
    }
    if c.now > o.expiresAt {
      FailsAt(checks, o, 1);
      return Reject(Expired(c.now, o.expiresAt));
    }
    if c.now < o.issuedAt {
      FailsAt(checks, o, 2);
      return Reject(NotYetValid(c.now, o.issuedAt));
    }
    if o.deviceId != c.device {
      FailsAt(checks, o, 3);
      return Reject(WrongDevice(c.device, o.deviceId));
    }
    if log.Seen(o.nonce) {
      FailsAt(checks, o, 4);
      return Reject(ReplayedNonce);
    }
    log.Add(o.nonce);
    v := Accept(o);
  }

  // ---------------------------------------------------------------- runs

  /** The log after any number of calls. */
  function LogAfter(valid: Verifier, seen: set<Nonce>, calls: seq<Call>): set<Nonce> {
    if calls == [] then seen else
    var before := LogAfter(valid, seen, calls[..|calls| - 1]);
    Remember(Judge(valid, calls[|calls| - 1], before), before)
  }

  /** What call `i` of a run was answered. */
  function AnswerAt(valid: Verifier, seen: set<Nonce>, calls: seq<Call>, i: nat): Verdict
    requires i < |calls|
  {
    Judge(valid, calls[i], LogAfter(valid, seen, calls[..i]))
  }

  /** The log is what it was at first and the nonces of the orders accepted since, no more and no less. */
  lemma {:induction false} LogIsAccepted(valid: Verifier, seen: set<Nonce>, calls: seq<Call>, n: Nonce)
    ensures n in LogAfter(valid, seen, calls)
       <==> n in seen || exists i :: 0 <= i < |calls| && AnswerAt(valid, seen, calls, i).Accept?
                                     && calls[i].signed.order.nonce == n
    decreases |calls|
  {
    hide Judge, Checks;
    if calls != [] {
      var last := |calls| - 1;
      var init := calls[..last];
      LogIsAccepted(valid, seen, init, n);
      JudgedOrder(valid, calls[last], LogAfter(valid, seen, init));
      forall i | 0 <= i < last ensures AnswerAt(valid, seen, init, i) == AnswerAt(valid, seen, calls, i) {
        assert init[..i] == calls[..i];
      }
      forall i | 0 <= i < last && AnswerAt(valid, seen, init, i).Accept? && init[i].signed.order.nonce == n
        ensures AnswerAt(valid, seen, calls, i).Accept? && calls[i].signed.order.nonce == n
      {
      }
      assert AnswerAt(valid, seen, calls, last) == Judge(valid, calls[last], LogAfter(valid, seen, init));
    }
  }

  lemma JudgedOrder(valid: Verifier, c: Call, seen: set<Nonce>)
    ensures Judge(valid, c, seen).Accept? ==> Judge(valid, c, seen) == Accept(c.signed.order)
    ensures Judge(valid, c, seen).Accept? ==> c.signed.order.nonce !in seen && c.signed.order.deviceId == c.device
  {
    if Judge(valid, c, seen).Accept? {
      AcceptIsOrder(Checks(valid, c, seen), c.signed.order);
      assert Checks(valid, c, seen)[3].passes && Checks(valid, c, seen)[4].passes;
    }
  }

  lemma {:induction false} AcceptIsOrder(checks: seq<Check>, order: Order)
    requires FirstFailing(checks, order).Accept?
    ensures FirstFailing(checks, order) == Accept(order)
    decreases |checks|
  {
    if checks != [] {
      AcceptIsOrder(checks[1..], order);
    }
  }

  lemma {:induction false} LogGrows(valid: Verifier, seen: set<Nonce>, calls: seq<Call>, i: nat)
    requires i <= |calls|
    ensures LogAfter(valid, seen, calls[..i]) <= LogAfter(valid, seen, calls)
    decreases |calls|
  {
    hide Judge;
    if i < |calls| {
      var init := calls[..|calls| - 1];
      assert init[..i] == calls[..i];
      LogGrows(valid, seen, init, i);
    } else {
      assert calls[..i] == calls;
    }
  }

  /**
   Orders are one-shot: over any run, with any keys, signatures, devices and clocks, no two calls are accepted with
   one nonce, and none with a nonce that was in the log at first.
   */
  lemma AcceptedOnce(valid: Verifier, seen: set<Nonce>, calls: seq<Call>, i: nat, j: nat)
    requires i < j < |calls|
    requires AnswerAt(valid, seen, calls, i).Accept? && AnswerAt(valid, seen, calls, j).Accept?
    ensures calls[i].signed.order.nonce != calls[j].signed.order.nonce
    ensures calls[i].signed.order.nonce !in seen && calls[j].signed.order.nonce !in seen
  {
    hide Judge;
    var a, b := calls[..i], calls[..j];
    JudgedOrder(valid, calls[i], LogAfter(valid, seen, a));
    JudgedOrder(valid, calls[j], LogAfter(valid, seen, b));
    var n := calls[i].signed.order.nonce;
    assert b[..i] == a && b[..i + 1][..i] == a && b[..i + 1][i] == calls[i];
    assert n in LogAfter(valid, seen, b[..i + 1]);
    LogGrows(valid, seen, b, i + 1);
    LogIsAccepted(valid, seen, a, n);
    LogIsAccepted(valid, seen, b, calls[j].signed.order.nonce);
  }

  /** A run in which bytes signed once were accepted twice. */
  ghost predicate Replayed(valid: Verifier, seen: set<Nonce>, calls: seq<Call>, i: nat, j: nat)
    requires i < j < |calls|
  {
    && Encode(calls[i].signed.order) == Encode(calls[j].signed.order)
    && AnswerAt(valid, seen, calls, i).Accept? && AnswerAt(valid, seen, calls, j).Accept?
  }

  /** An accepted order is addressed to the device that accepts it. */
  lemma AcceptedIsAddressed(valid: Verifier, seen: set<Nonce>, calls: seq<Call>, i: nat)
    requires i < |calls| && AnswerAt(valid, seen, calls, i).Accept?
    ensures calls[i].signed.order.deviceId == calls[i].device
  {
    hide Judge, LogAfter;
    JudgedOrder(valid, calls[i], LogAfter(valid, seen, calls[..i]));
  }

  /**
   The bytes that were signed are accepted at most once, in whatever shape they come back and whatever their length:
   a second acceptance would be by a device of another name, and the lengths of the two names would differ by a
   multiple of 65536.
   */
  lemma SignedBytesAcceptedOnce(valid: Verifier, seen: set<Nonce>, calls: seq<Call>, i: nat, j: nat)
    requires i < j < |calls|
    ensures Replayed(valid, seen, calls, i, j) ==>
              |calls[i].device| != |calls[j].device| && |calls[i].device| % U16 == |calls[j].device| % U16
  {
    hide Encode, Judge, AnswerAt;
    if Replayed(valid, seen, calls, i, j) {
      SharedEncoding(calls[i].signed.order, calls[j].signed.order);
      AcceptedIsAddressed(valid, seen, calls, i);
      AcceptedIsAddressed(valid, seen, calls, j);
      AcceptedOnce(valid, seen, calls, i, j);
    }
  }

  /** On one device no signed bytes are accepted twice, with no bound on anything. */
  lemma OneDeviceNeverReplays(valid: Verifier, seen: set<Nonce>, calls: seq<Call>, device: text, i: nat, j: nat)
    requires (forall k :: 0 <= k < |calls| ==> calls[k].device == device) && i < j < |calls|
    ensures !Replayed(valid, seen, calls, i, j)
  {
    hide Replayed;
    SignedBytesAcceptedOnce(valid, seen, calls, i, j);
  }

  /**
   Two devices that share one log, with names of 65536 bytes and of none, do accept one signature twice: each finds
   itself addressed by one of two orders with one encoding.
   */
  lemma LongNamesReplay(signature: Signature, key: bytes) returns (calls: seq<Call>)
    ensures |calls| == 2 && |calls[0].device| == U16 && |calls[1].device| == 0
    ensures calls[0].signed.signature == calls[1].signed.signature == signature && calls[0].key == calls[1].key == key
    ensures forall valid: Verifier :: valid(key, Encode(calls[0].signed.order), signature) ==>
              Replayed(valid, {}, calls, 0, 1)
  {
    hide Encode;
    var a, b := LongStringsCollide();
    calls := [Call(key, SignedOrder(a, signature), a.deviceId, 0), Call(key, SignedOrder(b, signature), b.deviceId, 0)];
    forall valid: Verifier | valid(key, Encode(a), signature) ensures Replayed(valid, {}, calls, 0, 1) {
      assert calls[..0] == [] && calls[..1] == [calls[0]] && calls[..1][..0] == [];
      JudgedOrder(valid, calls[0], {});
      assert LogAfter(valid, {}, calls[..1]) == {a.nonce};
    }
  }

  /** No run over a log shared by devices with names below `n` bytes accepts signed bytes twice. */
  ghost predicate NeverReplayed(valid: Verifier, n: nat) {
    forall seen: set<Nonce>, calls: seq<Call>, i: nat, j: nat ::
      i < j < |calls| && |calls[i].device| < n && |calls[j].device| < n ==> !Replayed(valid, seen, calls, i, j)
  }

  /**
   Devices that share a log may rely on it, whatever verifies the signatures, if and only if their names stay below
   65536 bytes. What the orders say plays no part.
   */
  lemma OneShotIff(n: nat)
    ensures (forall valid: Verifier :: NeverReplayed(valid, n)) <==> n <= U16
  {
    hide Replayed;
    if n <= U16 {
      forall valid: Verifier ensures NeverReplayed(valid, n) {
        forall seen: set<Nonce>, calls: seq<Call>, i: nat, j: nat
          | i < j < |calls| && |calls[i].device| < n && |calls[j].device| < n
          ensures !Replayed(valid, seen, calls, i, j)
        {
          SignedBytesAcceptedOnce(valid, seen, calls, i, j);
        }
      }
    } else {
      var valid: Verifier := (k, m, s) => true;
      var calls := LongNamesReplay(Zeros(64), []);
      assert Replayed(valid, {}, calls, 0, 1);
      assert !NeverReplayed(valid, n);
    }
  }
}

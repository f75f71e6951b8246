/** The canonical byte string of a wipe order, which is what gets signed. */
module OrderCodec {
  import opened Bytes
  import opened Utf8

  const MAGIC: bytes := [0x53, 0x41, 0x52, 0x41, 0x4F, 0x52, 0x44, 0x31]
  const MAX_STR: nat := 256

  type Nonce = n: bytes | |n| == 16 witness Zeros(16)

  datatype Level = Reset | Factory | Destroy
  {
    function AsByte(): byte {
      match this case Reset => 1 case Factory => 2 case Destroy => 3
    }

    /** Only the last level removes the recovery partition: the others install again from it. */
    predicate KeepsRecovery() {
      this != Destroy
    }
  }

  datatype Order = Order(
    deviceId: text, level: Level, nonce: Nonce, issuedAt: u64, expiresAt: u64, issuer: text)

  datatype Error =
    | Truncated
    | BadMagic
    | StringTooLong(length: nat)
    | BadUtf8
    | UnknownLevel(value: byte)
    | Trailing(extra: nat)

  /** A value read from the front of a byte string, and what is behind it. */
  datatype Parsed<+T> = Parsed(value: T, rest: bytes) | Failed(error: Error)

  datatype Result = Decoded(order: Order) | Rejected(error: Error)

  predicate InLimits(o: Order) {
    |o.deviceId| <= MAX_STR && |o.issuer| <= MAX_STR
  }

  /** What the 16-bit length fields hold without loss. The encoder does not check it. */
  predicate FieldsHold(o: Order) {
    |o.deviceId| < U16 && |o.issuer| < U16
  }

  function EncodeStr(s: text): (b: bytes)
    ensures |b| == 2 + |s|
  {
    Le(|s|, 2) + s
  }

  function EncodeFixed(o: Order): (b: bytes)
    ensures |b| == 33
  {
    [o.level.AsByte()] + o.nonce + Le(o.issuedAt, 8) + Le(o.expiresAt, 8)
  }

  function Encode(o: Order): (b: bytes)
    ensures |b| == 45 + |o.deviceId| + |o.issuer|
  {
    MAGIC + EncodeStr(o.deviceId) + EncodeFixed(o) + EncodeStr(o.issuer)
  }

  function ParseStr(b: bytes): Parsed<text> {
    if |b| < 2 then Failed(Truncated)
    else
      var n := FromLe(b[..2]);
      if n > MAX_STR then Failed(StringTooLong(n))
      else if |b| < 2 + n then Failed(Truncated)
      else if !Valid(b[2..2 + n]) then Failed(BadUtf8)
      else Parsed(b[2..2 + n], b[2 + n..])
  }

  function LevelOf(v: byte): Parsed<Level> {
    if v == 1 then Parsed(Reset, [])
    else if v == 2 then Parsed(Factory, [])
    else if v == 3 then Parsed(Destroy, [])
    else Failed(UnknownLevel(v))
  }

  /** An order at the front of a byte string. */
  function ParseOrder(b: bytes): Parsed<Order> {
    if |b| < 8 then Failed(Truncated)
    else if b[..8] != MAGIC then Failed(BadMagic)
    else match ParseStr(b[8..])
      case Failed(e) => Failed(e)
      case Parsed(device, r) => ParseBody(device, r)
  }

  /** What follows the device. */
  function ParseBody(device: text, r: bytes): Parsed<Order> {
    if |r| < 1 then Failed(Truncated)
    else match LevelOf(r[0])
      case Failed(e) => Failed(e)
      case Parsed(level, _) =>
        if |r| < 33 then Failed(Truncated)
        else match ParseStr(r[33..])
          case Failed(e) => Failed(e)
          case Parsed(issuer, rest) =>
            PowersOf256();
            Parsed(Order(device, level, r[1..17], FromLe(r[17..25]), FromLe(r[25..33]), issuer), rest)
  }

  /** Decoding: an order and nothing behind it. */
  function Decode(b: bytes): Result {
    match ParseOrder(b)
    case Failed(e) => Rejected(e)
    case Parsed(o, rest) => if rest == [] then Decoded(o) else Rejected(Trailing(|rest|))
  }

  // ---------------------------------------------------------------- a bijection

  lemma ParseStrEncoded(s: text, rest: bytes)
    requires |s| <= MAX_STR
    ensures ParseStr(EncodeStr(s) + rest) == Parsed(s, rest)
  {
    hide Le, FromLe, Pow256, Valid;
    PowersOf256();
    LeRoundTrip(|s|, 2);
    var b := EncodeStr(s) + rest;
    assert b[..2] == Le(|s|, 2) && b[2..2 + |s|] == s && b[2 + |s|..] == rest;
  }

  lemma ParseStrExact(b: bytes)
    requires ParseStr(b).Parsed?
    ensures var (s, rest) := (ParseStr(b).value, ParseStr(b).rest); |s| <= MAX_STR && b == EncodeStr(s) + rest
  {
    hide Le, FromLe, Pow256, Valid;
    FromLeRoundTrip(b[..2]);
    assert b == b[..2] + ParseStr(b).value + ParseStr(b).rest;
  }

  /** An encoded order is found at the front of anything it is put in front of. */
  lemma ParseEncoded(o: Order, rest: bytes)
    requires InLimits(o)
    ensures ParseOrder(Encode(o) + rest) == Parsed(o, rest)
  {
    hide Le, FromLe, Pow256, ParseStr, EncodeStr;
    PowersOf256();
    LeRoundTrip(o.issuedAt, 8);
    LeRoundTrip(o.expiresAt, 8);
    var tail := EncodeStr(o.issuer) + rest;
    var r := EncodeFixed(o) + tail;
    ParseStrEncoded(o.deviceId, r);
    ParseStrEncoded(o.issuer, rest);
    var b := Encode(o) + rest;
    assert b[..8] == MAGIC && b[8..] == EncodeStr(o.deviceId) + r;
    assert r[33..] == tail;
    assert r[0] == o.level.AsByte() && r[1..17] == o.nonce;
    assert r[17..25] == Le(o.issuedAt, 8) && r[25..33] == Le(o.expiresAt, 8);
  }

  /** Decoding undoes encoding exactly within the limits. */
  lemma RoundTripIff(o: Order)
    ensures Decode(Encode(o)) == Decoded(o) <==> |o.deviceId| <= 256 && |o.issuer| <= 256
  {
    hide Encode, ParseOrder;
    if InLimits(o) {
      ParseEncoded(o, []);
      assert Encode(o) + [] == Encode(o);
    } else if Decode(Encode(o)).Decoded? {
      EncodeDecode(Encode(o));
    }
  }

  /** Only the encoding of an order decodes to it. */
  lemma EncodeDecode(b: bytes)
    requires Decode(b).Decoded?
    ensures InLimits(Decode(b).order) && Encode(Decode(b).order) == b
  {
    hide Le, FromLe, Pow256, ParseStr, EncodeStr;
    var o := Decode(b).order;
    ParseStrExact(b[8..]);
    var r := ParseStr(b[8..]).rest;
    ParseStrExact(r[33..]);
    FromLeRoundTrip(r[17..25]);
    FromLeRoundTrip(r[25..33]);
    assert EncodeStr(o.issuer) + [] == EncodeStr(o.issuer);
    assert EncodeFixed(o) == r[..33] by {
      assert r[..33] == [r[0]] + r[1..17] + r[17..25] + r[25..33];
    }
    assert r == r[..33] + r[33..];
    assert b == b[..8] + b[8..];
  }

  // ---------------------------------------------------------------- sharing an encoding

  lemma DeviceLengths(a: Order, b: Order)
    requires Encode(a) <= Encode(b)
    ensures Le(|a.deviceId|, 2) == Le(|b.deviceId|, 2)
  {
    hide Le, EncodeFixed;
    assert Le(|a.deviceId|, 2) == Encode(a)[8..10] && Encode(b)[8..10] == Le(|b.deviceId|, 2);
    assert Encode(a)[8..10] == Encode(b)[..|Encode(a)|][8..10];
  }

  /** Where the fields are. */
  lemma EncodedFields(o: Order)
    ensures var x, n := Encode(o), |o.deviceId|;
            && x[10..10 + n] == o.deviceId && x[10 + n..43 + n] == EncodeFixed(o)
            && x[43 + n..45 + n] == Le(|o.issuer|, 2) && x[45 + n..] == o.issuer
  {
    hide Le, EncodeFixed;
  }

  /** Where two encodings agree and the devices have one length, all but the issuers are equal. */
  lemma FrontTellsApart(a: Order, b: Order)
    requires Encode(a) <= Encode(b) && |a.deviceId| == |b.deviceId|
    ensures a.(issuer := b.issuer) == b && |a.issuer| % U16 == |b.issuer| % U16
    ensures |a.issuer| == |b.issuer| ==> a == b
  {
    hide Encode, Le, EncodeFixed;
    var x, y, n := Encode(a), Encode(b), |a.deviceId|;
    EncodedFields(a);
    EncodedFields(b);
    assert x == y[..|x|];
    assert x[10..10 + n] == y[10..10 + n] && x[10 + n..43 + n] == y[10 + n..43 + n];
    assert x[43 + n..45 + n] == y[43 + n..45 + n];
    FixedTellsApart(a, b);
    EqualLengthFields(|a.issuer|, |b.issuer|);
  }

  lemma FixedTellsApart(a: Order, b: Order)
    requires EncodeFixed(a) == EncodeFixed(b)
    ensures a.level == b.level && a.nonce == b.nonce && a.issuedAt == b.issuedAt && a.expiresAt == b.expiresAt
  {
    hide Le, FromLe, Pow256;
    PowersOf256();
    var x, y := EncodeFixed(a), EncodeFixed(b);
    assert a.level.AsByte() == x[0] == y[0] == b.level.AsByte();
    assert a.nonce == x[1..17] == y[1..17] == b.nonce;
    assert Le(a.issuedAt, 8) == x[17..25] == y[17..25] == Le(b.issuedAt, 8);
    assert Le(a.expiresAt, 8) == x[25..33] == y[25..33] == Le(b.expiresAt, 8);
    LeRoundTrip(a.issuedAt, 8);
    LeRoundTrip(b.issuedAt, 8);
    LeRoundTrip(a.expiresAt, 8);
    LeRoundTrip(b.expiresAt, 8);
  }

  /**
   The encoding of an order whose strings fit their length fields extends no other encoding, of whatever order; in
   particular no other order shares it.
   */
  lemma PrefixFree(a: Order, b: Order)
    requires FieldsHold(b) && Encode(a) <= Encode(b)
    ensures a == b
  {
    hide Encode, Le;
    DeviceLengths(a, b);
    EqualLengthFields(|a.deviceId|, |b.deviceId|);
    if |a.deviceId| == |b.deviceId| {
      FrontTellsApart(a, b);
    }
  }

  /**
   Two different orders with one encoding name devices whose lengths differ by a multiple of 65536, one of them taking
   for its device what are other fields of the other. The issuer plays no part.
   */
  lemma SharedEncoding(a: Order, b: Order)
    requires Encode(a) == Encode(b)
    ensures |a.deviceId| % U16 == |b.deviceId| % U16
    ensures a == b <==> |a.deviceId| == |b.deviceId|
  {
    hide Encode, Le;
    DeviceLengths(a, b);
    EqualLengthFields(|a.deviceId|, |b.deviceId|);
    if |a.deviceId| == |b.deviceId| {
      FrontTellsApart(a, b);
    }
  }

  /**
   Devices of fewer than `n` bytes keep encodings apart, whatever the issuers, if and only if `n` is at most 65536.
   */
  lemma InjectiveIff(n: nat)
    ensures (forall a: Order, b: Order ::
              |a.deviceId| < n && |b.deviceId| < n && Encode(a) == Encode(b) ==> a == b)
       <==> n <= U16
  {
    hide Encode;
    if n <= U16 {
      forall a: Order, b: Order | |a.deviceId| < n && |b.deviceId| < n && Encode(a) == Encode(b) ensures a == b {
        SharedEncoding(a, b);
      }
    } else {
      var a, b := LongStringsCollide();
    }
  }

  /**
   With the devices in their fields, it is issuers below 65536 bytes that keep encodings from extending each other.
   */
  lemma PrefixFreeIff(n: nat)
    ensures (forall a: Order, b: Order ::
              |a.deviceId| < U16 && |b.deviceId| < U16 && |a.issuer| < n && |b.issuer| < n && Encode(a) <= Encode(b) ==>
                a == b)
       <==> n <= U16
  {
    hide Encode;
    if n <= U16 {
      forall a: Order, b: Order
        | |a.deviceId| < U16 && |b.deviceId| < U16 && |a.issuer| < n && |b.issuer| < n && Encode(a) <= Encode(b)
        ensures a == b
      {
        PrefixFree(a, b);
      }
    } else {
      var a, b := LongIssuerExtends();
    }
  }

  /** The length of an issuer of 65536 bytes reads zero, and it extends the encoding with no issuer. */
  lemma LongIssuerExtends() returns (a: Order, b: Order)
    ensures a != b && |a.deviceId| == |b.deviceId| == |a.issuer| == 0 && |b.issuer| == U16
    ensures Encode(a) <= Encode(b)
  {
    var issuer := Zeros(U16);
    AsciiValid(issuer);
    SixteenBits();
    var empty: text := [];
    hide Le, Valid, Zeros, EncodeFixed;
    a := Order(empty, Reset, Zeros(16), 0, 0, empty);
    b := Order(empty, Reset, Zeros(16), 0, 0, issuer);
    assert EncodeFixed(a) == EncodeFixed(b) by { FixedIsFixed(a, b); }
    var front := MAGIC + EncodeStr(empty) + EncodeFixed(a);
    assert Encode(a) == front + Le(0, 2);
    assert Encode(b) == front + Le(0, 2) + issuer;
  }

  lemma FixedIsFixed(a: Order, b: Order)
    requires a.level == b.level && a.nonce == b.nonce && a.issuedAt == b.issuedAt && a.expiresAt == b.expiresAt
    ensures EncodeFixed(a) == EncodeFixed(b)
  {
    hide Le;
  }

  /**
   An order for a device of 65536 bytes and another one by an issuer of 65536 bytes have one encoding: the length
   fields read zero, and the long string is taken for the other fields. Their nonces differ.
   */
  lemma LongStringsCollide() returns (a: Order, b: Order)
    ensures |a.deviceId| == |b.issuer| == U16 && |a.issuer| == |b.deviceId| == 0
    ensures a.nonce != b.nonce && a.issuedAt == a.expiresAt == b.issuedAt == b.expiresAt == 0
    ensures Encode(a) == Encode(b)
  {
    var n: Nonce := [1] + Zeros(15);
    var f, g := [1] + Zeros(32), [1] + n + Zeros(16);
    AsciiValid(g + Zeros(2) + Zeros(65501));
    AsciiValid(Zeros(65501) + f + Zeros(2));
    SixteenBits();
    EightZeros();
    assert Zeros(16)[0] != n[0];
    assert f == [1] + Zeros(16) + Zeros(8) + Zeros(8) && g == [1] + n + Zeros(8) + Zeros(8);
    hide Le, Valid, Zeros, Encode;
    a, b := StringsTakenForFields(Zeros(16), n, f, g, Zeros(2), Zeros(65501));
  }

  lemma StringsTakenForFields(m: Nonce, n: Nonce, f: bytes, g: bytes, none: bytes, tail: bytes)
    returns (a: Order, b: Order)
    requires f == [1] + m + Le(0, 8) + Le(0, 8) && g == [1] + n + Le(0, 8) + Le(0, 8)
    requires |g + none + tail| == U16 && none == Le(0, 2) == Le(U16, 2)
    requires Valid(g + none + tail) && Valid(tail + f + none)
    ensures a == Order(g + none + tail, Reset, m, 0, 0, []) && b == Order([], Reset, n, 0, 0, tail + f + none)
    ensures Encode(a) == Encode(b)
  {
    hide Le, Zeros;
    var empty: text := [];
    hide Valid;
    a := Order(g + none + tail, Reset, m, 0, 0, empty);
    b := Order(empty, Reset, n, 0, 0, tail + f + none);
    Regroup(MAGIC, none, f, g, tail);
  }

  lemma Regroup(m: bytes, none: bytes, f: bytes, g: bytes, tail: bytes)
    ensures m + (none + (g + none + tail)) + f + (none + []) == m + (none + []) + g + (none + (tail + f + none))
  {
    var all := m + none + g + none + tail + f + none;
    assert m + (none + (g + none + tail)) + f + (none + []) == all;
    assert m + (none + []) + g + (none + (tail + f + none)) == all;
  }

  lemma SixteenBits()
    ensures Le(U16, 2) == Le(0, 2) == Zeros(2)
  {
  }

  lemma EightZeros()
    ensures Le(0, 8) == Zeros(8)
  {
    assert Le(0, 8) == [0, 0, 0, 0, 0, 0, 0, 0];
  }

  /** The format, field by field: where each one is and how it reads. */
  lemma FormatOf(o: Order)
    requires FieldsHold(o)
    ensures var b, n := Encode(o), |o.deviceId|;
            && |b| == 45 + n + |o.issuer|
            && (forall i :: 0 <= i < 8 ==> b[i] == "SARAORD1"[i] as int)
            && FromLe(b[8..10]) == n && b[10..10 + n] == o.deviceId
            && b[10 + n] == (match o.level case Reset => 1 case Factory => 2 case Destroy => 3)
            && b[11 + n..27 + n] == o.nonce
            && FromLe(b[27 + n..35 + n]) == o.issuedAt && FromLe(b[35 + n..43 + n]) == o.expiresAt
            && FromLe(b[43 + n..45 + n]) == |o.issuer| && b[45 + n..] == o.issuer
  {
    hide Le, FromLe, Pow256;
    PowersOf256();
    var b, n := Encode(o), |o.deviceId|;
    LeRoundTrip(n, 2);
    LeRoundTrip(|o.issuer|, 2);
    LeRoundTrip(o.issuedAt, 8);
    LeRoundTrip(o.expiresAt, 8);
    EncodedFields(o);
    assert b[..8] == MAGIC && b[8..10] == Le(n, 2);
    forall i | 0 <= i < 8 ensures b[i] == "SARAORD1"[i] as int {
      assert b[..8][i] == MAGIC[i];
    }
    FixedFields(o);
    var f := EncodeFixed(o);
    hide Encode, EncodeFixed;
    assert f == b[10 + n..43 + n];
    assert b[10 + n] == f[0] && b[11 + n..27 + n] == f[1..17] && b[27 + n..35 + n] == f[17..25];
    assert b[35 + n..43 + n] == f[25..33];
  }

  lemma FixedFields(o: Order)
    ensures var f := EncodeFixed(o);
            && f[0] == o.level.AsByte() && f[1..17] == o.nonce
            && f[17..25] == Le(o.issuedAt, 8) && f[25..33] == Le(o.expiresAt, 8)
  {
    hide Le;
  }

  /** What follows an encoding is counted. */
  lemma ExtensionTrails(o: Order, b: bytes)
    requires InLimits(o) && Encode(o) < b
    ensures Decode(b) == Rejected(Trailing(|b| - |Encode(o)|))
  {
    hide ParseOrder, Encode;
    var rest := b[|Encode(o)|..];
    assert b == Encode(o) + rest;
    ParseEncoded(o, rest);
  }

  /** An encoding cut short is reported as truncated, wherever it is cut. */
  lemma PrefixTruncated(o: Order, b: bytes)
    requires InLimits(o) && b < Encode(o)
    ensures Decode(b) == Rejected(Truncated)
  {
    hide Le, FromLe, ParseStr, EncodeStr, EncodeFixed, ParseBody;
    var tail := EncodeFixed(o) + EncodeStr(o.issuer);
    var e := Encode(o);
    assert e == MAGIC + (EncodeStr(o.deviceId) + tail);
    if |b| >= 8 {
      assert b[..8] == e[..8] == MAGIC;
      var r := b[8..];
      assert r < EncodeStr(o.deviceId) + tail by {
        assert e[8..] == EncodeStr(o.deviceId) + tail && r == e[8..|b|];
      }
      if |r| < |EncodeStr(o.deviceId)| {
        assert r < EncodeStr(o.deviceId);
        StrTruncated(o.deviceId, r);
      } else {
        var s := r[|EncodeStr(o.deviceId)|..];
        assert r == EncodeStr(o.deviceId) + s;
        ParseStrEncoded(o.deviceId, s);
        assert s < tail;
        BodyTruncated(o, s);
      }
    }
  }

  lemma StrTruncated(s: text, b: bytes)
    requires |s| <= MAX_STR && b < EncodeStr(s)
    ensures ParseStr(b) == Failed(Truncated)
  {
    hide Le, FromLe, Pow256, Valid;
    PowersOf256();
    LeRoundTrip(|s|, 2);
    if |b| >= 2 {
      assert b[..2] == EncodeStr(s)[..2] == Le(|s|, 2);
    }
  }

  lemma BodyTruncated(o: Order, s: bytes)
    requires InLimits(o) && s < EncodeFixed(o) + EncodeStr(o.issuer)
    ensures ParseBody(o.deviceId, s) == Failed(Truncated)
  {
    FixedFields(o);
    hide Le, FromLe, Pow256, ParseStr, EncodeStr, EncodeFixed;
    var f, e := EncodeFixed(o), EncodeFixed(o) + EncodeStr(o.issuer);
    if |s| >= 1 {
      assert s[0] == e[0] == f[0];
      if |s| >= 33 {
        assert s[33..] < EncodeStr(o.issuer) by {
          assert e[33..] == EncodeStr(o.issuer) && s[33..] == e[33..|s|];
        }
        StrTruncated(o.issuer, s[33..]);
      }
    }
  }

  /** Cutting off the end of an encoding or adding to it makes it undecodable. */
  lemma StrictPrefixOrExtensionRejected(o: Order, b: bytes)
    requires FieldsHold(o) && (b < Encode(o) || Encode(o) < b)
    ensures Decode(b).Rejected?
  {
    hide Encode, Decode;
    if Decode(b).Decoded? {
      EncodeDecode(b);
      if b < Encode(o) {
        PrefixFree(Decode(b).order, o);
      } else {
        PrefixFree(o, Decode(b).order);
      }
    }
  }

  // ---------------------------------------------------------------- the cursor

  class Cursor {
    const b: bytes
    var i: nat

    ghost predicate Valid()
      reads this
    {
      i <= |b|
    }

    ghost function Rest(): bytes
      reads this
      requires Valid()
    {
      b[i..]
    }

    constructor (b: bytes)
      ensures Valid() && Rest() == b && this.b == b
    {
      this.b := b;
      i := 0;
    }

    /** The next `n` bytes. */
    method Take(n: nat) returns (ok: bool, s: bytes)
      requires Valid()
      modifies this
      ensures Valid() && (ok <==> n <= |old(Rest())|)
      ensures if ok then s == old(Rest())[..n] && Rest() == old(Rest())[n..] else Rest() == old(Rest())
    {
      if i + n > |b| {
        return false, [];
      }
      s := b[i..i + n];
      i := i + n;
      ok := true;
    }

    /** A string with its length in front. */
    method Str() returns (r: Parsed<text>)
      requires Valid()
      modifies this
      ensures Valid() && r == Value(ParseStr(old(Rest())))
      ensures r.Parsed? ==> Rest() == ParseStr(old(Rest())).rest
    {
      hide FromLe, Utf8.Valid;
      ghost var rest := Rest();
      var ok, s := Take(2);
      if !ok { return Failed(Truncated); }
      var n := FromLe(s);
      if n > MAX_STR { return Failed(StringTooLong(n)); }
      ok, s := Take(n);
      if !ok { return Failed(Truncated); }
      assert s == rest[2..2 + n] && Rest() == rest[2 + n..];
      if !Utf8.Valid(s) { return Failed(BadUtf8); }
      r := Parsed(s, []);
    }
  }

  /** A parsed value with what is behind it left to the cursor. */
  function Value<T>(p: Parsed<T>): Parsed<T> {
    match p case Failed(e) => Failed(e) case Parsed(v, _) => Parsed(v, [])
  }

  method BodyLoop(c: Cursor, device: text) returns (r: Parsed<Order>)
    requires c.Valid()
    modifies c
    ensures c.Valid() && r == Value(ParseBody(device, old(c.Rest())))
    ensures r.Parsed? ==> c.Rest() == ParseBody(device, old(c.Rest())).rest
  {
    hide FromLe, Pow256, ParseStr, Utf8.Valid;
    PowersOf256();
    ghost var rest := c.Rest();
    var ok, s := c.Take(1);
    if !ok { return Failed(Truncated); }
    var level := LevelOf(s[0]);
    if level.Failed? { return Failed(level.error); }
    ok, s := c.Take(16);
    if !ok { return Failed(Truncated); }
    var nonce: Nonce := s;
    assert nonce == rest[1..17];
    ok, s := c.Take(8);
    if !ok { return Failed(Truncated); }
    assert s == rest[17..25];
    var issuedAt := FromLe(s);
    ok, s := c.Take(8);
    if !ok { return Failed(Truncated); }
    assert s == rest[25..33] && c.Rest() == rest[33..];
    var expiresAt := FromLe(s);
    var issuer := c.Str();
    if issuer.Failed? { return Failed(issuer.error); }
    r := Parsed(Order(device, level.value, nonce, issuedAt, expiresAt, issuer.value), []);
  }

  /** codec.rs: the cursor moves field by field and must end at the end. */
  method DecodeLoop(b: bytes) returns (r: Result)
    ensures r == Decode(b)
  {
    hide ParseOrder;
    var c := new Cursor(b);
    var parsed := OrderLoop(c);
    ghost var rest := if parsed.Parsed? then c.Rest() else [];
    if parsed.Failed? { return Rejected(parsed.error); }
    assert ParseOrder(b) == Parsed(parsed.value, rest) && |rest| == |b| - c.i;
    assert Decode(b) == if rest == [] then Decoded(parsed.value) else Rejected(Trailing(|rest|));
    hide Decode;
    var extra: nat := |b| - c.i;
    if extra != 0 { return Rejected(Trailing(extra)); }
    r := Decoded(parsed.value);
  }

  method OrderLoop(c: Cursor) returns (r: Parsed<Order>)
    requires c.Valid()
    modifies c
    ensures c.Valid() && r == Value(ParseOrder(old(c.Rest())))
    ensures r.Parsed? ==> c.Rest() == ParseOrder(old(c.Rest())).rest
  {
    hide ParseStr, ParseBody;
    var ok, s := c.Take(8);
    if !ok { return Failed(Truncated); }
    if s != MAGIC { return Failed(BadMagic); }
    var device := c.Str();
    if device.Failed? { return Failed(device.error); }
    r := BodyLoop(c, device.value);
  }
}

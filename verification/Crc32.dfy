/**
 CRC-32 (IEEE 802.3): the table-driven loop, the bit-at-a-time register it speeds up, the polynomial
 remainder both compute, and the errors the checksum is certain to notice.

 A machine word is its 32 bits, least significant first. In the reflected convention of this checksum
 that is also the order of the coefficients of a polynomial over GF(2), highest degree first.
 */
module Crc32 {
  import opened Bytes

  type bits = seq<bool>

  const BYTE_BITS: nat := 8
  const WORD_BITS: nat := 32

  type word = w: bits | |w| == WORD_BITS witness Clear(WORD_BITS)

  /** The `w` low bits of `n`, least significant first. */
  function Bits(n: nat, w: nat): (s: bits)
    ensures |s| == w
    decreases w
  {
    if w == 0 then [] else [n % 2 == 1] + Bits(n / 2, w - 1)
  }

  function Pow2(w: nat): (p: nat)
    ensures p > 0
  {
    if w == 0 then 1 else 2 * Pow2(w - 1)
  }

  function FromBits(s: bits): (n: nat)
    ensures n < Pow2(|s|)
  {
    if s == [] then 0 else (if s[0] then 1 else 0) + 2 * FromBits(s[1..])
  }

  function Clear(n: nat): (s: bits)
    ensures |s| == n
  {
    seq(n, _ => false)
  }

  function Invert(s: bits): (r: bits)
    ensures |r| == |s|
    ensures forall i :: 0 <= i < |s| ==> r[i] == !s[i]
  {
    seq(|s|, i requires 0 <= i < |s| => !s[i])
  }

  /** `s` with the pattern `p` added (over GF(2)) to its first `|p|` coefficients. */
  function Add(s: bits, p: bits): (r: bits)
    requires |p| <= |s|
    ensures |r| == |s|
    ensures forall i :: 0 <= i < |s| ==> r[i] == if i < |p| then s[i] != p[i] else s[i]
  {
    seq(|s|, i requires 0 <= i < |s| => if i < |p| then s[i] != p[i] else s[i])
  }

  /** Logical shift right by `k` places. */
  function Shr(c: word, k: nat): (r: word)
    requires k <= 32
  {
    c[k..] + Clear(k)
  }

  // ---------------------------------------------------------------- the register

  const POLY_NUMBER: nat := 0xEDB8_8320
  const POLY: word := Bits(POLY_NUMBER, WORD_BITS)
  const ONES: word := Invert(Clear(WORD_BITS))

  /** One bit of reflected division. */
  function BitStep(c: word): word {
    if c[0] then Add(POLY, Shr(c, 1)) else Shr(c, 1)
  }

  function Steps(c: word, k: nat): word
    decreases k
  {
    if k == 0 then c else Steps(BitStep(c), k - 1)
  }

  /** Absorb one byte, bit by bit. */
  function Absorb(c: word, b: byte): word {
    Steps(Add(c, Bits(b, BYTE_BITS)), BYTE_BITS)
  }

  /** Absorb a byte string. */
  function Register(c: word, data: bytes): word
    decreases |data|
  {
    if data == [] then c else Register(Absorb(c, data[0]), data[1..])
  }

  /** The CRC of `data`, one bit at a time. */
  function Crc(data: bytes): word {
    Add(Register(ONES, data), ONES)
  }

  /** The CRC as the number a header stores. */
  function CrcNat(data: bytes): (n: nat)
    ensures n < U32
  {
    Pow2Values();
    FromBits(Crc(data))
  }

  lemma Pow2Values()
    ensures Pow2(8) == 256 && Pow2(32) == U32
  {
    Pow2Sum(8, 8);
    Pow2Sum(16, 16);
  }

  lemma {:induction false} Pow2Sum(a: nat, b: nat)
    ensures Pow2(a + b) == Pow2(a) * Pow2(b)
    decreases a
  {
    if a > 0 {
      Pow2Sum(a - 1, b);
      assert 2 * (Pow2(a - 1) * Pow2(b)) == Pow2(a) * Pow2(b);
    }
  }

  // ---------------------------------------------------------------- bits and numbers

  lemma {:induction false} BitsRoundTrip(n: nat, w: nat)
    requires n < Pow2(w)
    ensures FromBits(Bits(n, w)) == n
    decreases w
  {
    if w > 0 {
      BitsRoundTrip(n / 2, w - 1);
      assert Bits(n, w)[1..] == Bits(n / 2, w - 1);
    }
  }

  lemma {:induction false} FromBitsRoundTrip(s: bits, w: nat)
    requires |s| <= w
    ensures Bits(FromBits(s), w) == s + Clear(w - |s|)
    decreases w
  {
    if w == 0 {
    } else if s == [] {
      FromBitsRoundTrip(s, w - 1);
      assert Bits(0, w) == [false] + Bits(0, w - 1);
    } else {
      FromBitsRoundTrip(s[1..], w - 1);
      var n := FromBits(s);
      assert n / 2 == FromBits(s[1..]) && (n % 2 == 1) == s[0];
      assert Bits(n, w) == [s[0]] + (s[1..] + Clear(w - |s|));
    }
  }

  // ---------------------------------------------------------------- the step is linear and invertible

  lemma BitStepLinear(a: word, b: word)
    ensures BitStep(Add(a, b)) == Add(BitStep(a), BitStep(b))
  {
    hide Bits;
  }

  lemma {:induction false} StepsLinear(a: word, b: word, k: nat)
    ensures Steps(Add(a, b), k) == Add(Steps(a, k), Steps(b, k))
    decreases k
  {
    if k > 0 {
      BitStepLinear(a, b);
      StepsLinear(BitStep(a), BitStep(b), k - 1);
    }
  }

  function HalveBy(n: nat, k: nat): nat
    decreases k
  {
    if k == 0 then n else HalveBy(n / 2, k - 1)
  }

  lemma {:induction false} BitsSplit(n: nat, k: nat, w: nat)
    ensures Bits(n, k + w) == Bits(n, k) + Bits(HalveBy(n, k), w)
    decreases k
  {
    if k > 0 {
      BitsSplit(n / 2, k - 1, w);
    }
  }

  lemma PolyBytes()
    ensures HalveBy(POLY_NUMBER, 8) == 0xED_B883 && HalveBy(0xED_B883, 8) == 0xEDB8 && HalveBy(0xEDB8, 8) == 0xED
  {
  }

  lemma PolyBits()
    ensures POLY == Bits(0x20, 8) + Bits(0x83, 8) + Bits(0xB8, 8) + Bits(0xED, 8)
  {
    PolyBytes();
    hide HalveBy;
    BitsSplit(POLY_NUMBER, 8, 24);
    BitsSplit(0xED_B883, 8, 16);
    BitsSplit(0xEDB8, 8, 8);
    LowByte(POLY_NUMBER, 0xED_B883, 0x20);
    LowByte(0xED_B883, 0xEDB8, 0x83);
    LowByte(0xEDB8, 0xED, 0xB8);
    hide Bits;
  }

  /** The low byte of a number decides its low eight bits. */
  lemma LowByte(n: nat, q: nat, r: nat)
    requires n == 256 * q + r && r < 256
    ensures Bits(n, 8) == Bits(r, 8)
  {
    LowBits(n, r, q, 8);
  }

  lemma {:induction false} LowBits(n: nat, r: nat, q: nat, w: nat)
    requires n == Pow2(w) * q + r
    ensures Bits(n, w) == Bits(r, w)
    decreases w
  {
    if w > 0 {
      assert n == 2 * (Pow2(w - 1) * q) + r;
      LowBits(n / 2, r / 2, q, w - 1);
    }
  }

  /** The eight bits of a byte given as two hexadecimal digits. */
  lemma HexBits(h: nat, l: nat)
    requires h < 16 && l < 16
    ensures Bits(16 * h + l, 8) == Bits(l, 4) + Bits(h, 4)
  {
    BitsSplit(16 * h + l, 4, 4);
    assert HalveBy(16 * h + l, 4) == h;
    assert Pow2(4) == 16;
    LowBits(16 * h + l, l, h, 4);
  }

  lemma PolyNibbles()
    ensures POLY == [false, false, false, false] + [false, true, false, false] +
                    [true, true, false, false] + [false, false, false, true] +
                    [false, false, false, true] + [true, true, false, true] +
                    [true, false, true, true] + [false, true, true, true]
  {
    hide Bits;
    PolyBits();
    HexBits(0x2, 0x0);
    HexBits(0x8, 0x3);
    HexBits(0xB, 0x8);
    HexBits(0xE, 0xD);
    PolyNibbleValues();
  }

  lemma PolyNibbleValues()
    ensures Bits(0x0, 4) == [false, false, false, false] && Bits(0x2, 4) == [false, true, false, false]
    ensures Bits(0x3, 4) == [true, true, false, false] && Bits(0x8, 4) == [false, false, false, true]
    ensures Bits(0xB, 4) == [true, true, false, true] && Bits(0xD, 4) == [true, false, true, true]
    ensures Bits(0xE, 4) == [false, true, true, true]
  {
  }

  /** POLY is the generator without its leading term, in reflected order. */
  lemma PolyIsGenerator()
    ensures Generator() == [true] + POLY
  {
    hide Bits;
    PolyNibbles();
  }

  lemma PolyTop()
    ensures POLY[31]
  {
    hide Bits;
    PolyIsGenerator();
    assert Generator()[32];
  }

  /** The polynomial has its top bit set, so a step can be undone. */
  lemma BitStepInjective(a: word, b: word)
    requires a != b
    ensures BitStep(a) != BitStep(b)
  {
    PolyTop();
    hide Bits;
    assert BitStep(a)[31] == a[0] && BitStep(b)[31] == b[0];
    var i :| 0 <= i < 32 && a[i] != b[i];
    if a[0] == b[0] {
      assert BitStep(a)[i - 1] != BitStep(b)[i - 1];
    }
  }

  lemma {:induction false} StepsInjective(a: word, b: word, k: nat)
    requires a != b
    ensures Steps(a, k) != Steps(b, k)
    decreases k
  {
    if k > 0 {
      BitStepInjective(a, b);
      StepsInjective(BitStep(a), BitStep(b), k - 1);
    }
  }

  // ---------------------------------------------------------------- the table

  /** Entry `i` of the lookup table. */
  function TableEntry(i: nat): word {
    Steps(Bits(i, WORD_BITS), BYTE_BITS)
  }

  /** Steps on a word whose low bits are zero only shift it. */
  lemma {:induction false} LowBitsZero(c: word, k: nat)
    requires k <= 32 && forall i :: 0 <= i < k ==> !c[i]
    ensures Steps(c, k) == Shr(c, k)
    decreases k
  {
    if k == 0 {
      assert Shr(c, 0) == c;
    } else {
      LowBitsZero(Shr(c, 1), k - 1);
      assert Shr(Shr(c, 1), k - 1) == Shr(c, k);
    }
  }

  /** The lookup, indexed by the low byte of the register plus the input, is eight bit steps. */
  lemma TableStep(c: word, b: byte)
    ensures var x := Add(c, Bits(b, BYTE_BITS));
            FromBits(x[..8]) < 256 && Add(TableEntry(FromBits(x[..8])), Shr(c, 8)) == Absorb(c, b)
  {
    Pow2Values();
    hide Bits, FromBits, Pow2, Steps;
    var x := Add(c, Bits(b, BYTE_BITS));
    var low: word := x[..8] + Clear(24);
    var high: word := Clear(8) + x[8..];
    FromBitsRoundTrip(x[..8], WORD_BITS);
    assert x == Add(low, high);
    StepsLinear(low, high, BYTE_BITS);
    LowBitsZero(high, BYTE_BITS);
    assert Shr(high, 8) == Shr(c, 8);
  }

  /** The table is linear: the entry of a sum of indices is the sum of the entries. */
  lemma TableLinear(a: bits, b: bits)
    requires |a| == |b| == 8
    ensures TableEntry(FromBits(Add(a, b))) == Add(TableEntry(FromBits(a)), TableEntry(FromBits(b)))
  {
    FromBitsRoundTrip(a, WORD_BITS);
    FromBitsRoundTrip(b, WORD_BITS);
    FromBitsRoundTrip(Add(a, b), WORD_BITS);
    assert Add(a, b) + Clear(24) == Add(a + Clear(24), b + Clear(24));
    StepsLinear(a + Clear(24), b + Clear(24), BYTE_BITS);
  }

  /** The inner loop of the table builder: one entry. */
  method Entry(i: nat) returns (c: word)
    ensures c == TableEntry(i)
  {
    c := Bits(i, WORD_BITS);
    var k := 0;
    while k < BYTE_BITS
      invariant 0 <= k <= BYTE_BITS
      invariant Steps(c, BYTE_BITS - k) == TableEntry(i)
    {
      c := BitStep(c);
      k := k + 1;
    }
  }

  /** crc32.rs builds the table with two nested loops; the inner one is `Entry`. */
  method Table() returns (t: array<bits>)
    ensures fresh(t) && t.Length == 256
    ensures forall i :: 0 <= i < 256 ==> t[i] == TableEntry(i)
  {
    hide TableEntry;
    t := new bits[256];
    var i := 0;
    while i < 256
      invariant 0 <= i <= 256
      invariant forall j :: 0 <= j < i ==> t[j] == TableEntry(j)
    {
      t[i] := Entry(i);
      i := i + 1;
    }
  }

  /** The table-driven loop computes the bit-at-a-time checksum of every byte string. */
  method TableCrc(data: bytes) returns (crc: word)
    ensures crc == Crc(data)
  {
    hide Steps, Bits, FromBits;
    var t := Table();
    crc := ONES;
    ghost var entries := t[..];
    for i := 0 to |data|
      invariant Register(crc, data[i..]) == Register(ONES, data)
      invariant t[..] == entries
    {
      TableStep(crc, data[i]);
      assert data[i..][1..] == data[i + 1..];
      var x := Add(crc, Bits(data[i], BYTE_BITS));
      var k := FromBits(x[..8]);
      assert t[k] == entries[k];
      crc := Add(t[k], Shr(crc, 8));
    }
    crc := Add(crc, ONES);
  }

  // ---------------------------------------------------------------- polynomials

  /** The bits of a message in transmission order. */
  function MessageBits(data: bytes): (s: bits)
    ensures |s| == 8 * |data|
    decreases |data|
  {
    if data == [] then [] else Bits(data[0], BYTE_BITS) + MessageBits(data[1..])
  }

  /** Shift a bit string into the register, one bit at a time. */
  function Feed(c: word, m: bits): word
    decreases |m|
  {
    if m == [] then c else Feed(BitStep(Add(c, m[..1])), m[1..])
  }

  /** Up to 32 bits may be added to the register before stepping instead of one at a time. */
  lemma {:induction false} FeedBlock(c: word, m: bits)
    requires |m| <= 32
    ensures Feed(c, m) == Steps(Add(c, m), |m|)
    decreases |m|
  {
    if m == [] {
      assert Add(c, m) == c;
    } else {
      var head := Add(c, m[..1]);
      assert Add(c, m) == Add(head, [false] + m[1..]);
      assert BitStep(Add(head, [false] + m[1..])) == Add(BitStep(head), m[1..]);
      FeedBlock(BitStep(head), m[1..]);
    }
  }

  lemma {:induction false} FeedAppend(c: word, a: bits, b: bits)
    ensures Feed(c, a + b) == Feed(Feed(c, a), b)
    decreases |a|
  {
    if a == [] {
      assert a + b == b;
    } else {
      assert (a + b)[1..] == a[1..] + b && (a + b)[..1] == a[..1];
      FeedAppend(BitStep(Add(c, a[..1])), a[1..], b);
    }
  }

  lemma {:induction false} RegisterIsFeed(c: word, data: bytes)
    ensures Register(c, data) == Feed(c, MessageBits(data))
    decreases |data|
  {
    if data != [] {
      FeedBlock(c, Bits(data[0], BYTE_BITS));
      FeedAppend(c, Bits(data[0], BYTE_BITS), MessageBits(data[1..]));
      RegisterIsFeed(Absorb(c, data[0]), data[1..]);
    }
  }

  /**
   The generator x^32+x^26+x^23+x^22+x^16+x^12+x^11+x^10+x^8+x^7+x^5+x^4+x^2+x+1 of IEEE 802.3
   clause 3.2.9, highest degree first.
   */
  function Generator(): (g: bits)
    ensures |g| == 33
  {
    seq(33, i requires 0 <= i < 33 => 32 - i in {32, 26, 23, 22, 16, 12, 11, 10, 8, 7, 5, 4, 2, 1, 0})
  }

  lemma GeneratorLeads()
    ensures Generator()[0]
  {
  }

  /** What one step of long division by the generator over GF(2) leaves to divide. */
  function Next(p: bits): (r: bits)
    requires |p| > 32
    ensures |r| == |p| - 1
  {
    if p[0] then Add(p, Generator())[1..] else p[1..]
  }

  /** The remainder of the division. */
  function Rem(p: bits): (r: word)
    requires |p| >= 32
    decreases |p|
  {
    if |p| == 32 then p else Rem(Next(p))
  }

  /** A bit string divided by the generator from its highest coefficient on is what the register holds. */
  lemma {:induction false} FeedIsRemainder(c: word, m: bits)
    ensures Rem(Add(m + Clear(32), c)) == Feed(c, m)
    decreases |m|
  {
    var p := Add(m + Clear(32), c);
    if m == [] {
      assert p == c;
    } else {
      PolyIsGenerator();
      var x := Add(c, m[..1]);
      var rest := m[1..] + Clear(32);
      assert p[0] == x[0];
      assert Next(p) == Add(rest, BitStep(x));
      FeedIsRemainder(BitStep(x), m[1..]);
    }
  }

  /**
   The checksum is the complement of the remainder of the message, with its first 32 coefficients
   complemented and shifted up by 32 places, on division by the generator.
   */
  lemma CrcIsRemainder(data: bytes)
    ensures Crc(data) == Add(Rem(Add(MessageBits(data) + Clear(32), ONES)), ONES)
  {
    RegisterIsFeed(ONES, data);
    FeedIsRemainder(ONES, MessageBits(data));
  }

  /**
   The same in the words of IEEE 802.3 clause 3.2.9: append 32 zeros, complement the first 32 bits, divide, complement
   the remainder.
   */
  lemma CrcAsStandard(data: bytes)
    ensures var m := MessageBits(data) + Clear(32);
            Crc(data) == Invert(Rem(Invert(m[..32]) + m[32..]))
  {
    hide Rem, Crc, MessageBits, Add, Bits;
    CrcIsRemainder(data);
    var m := MessageBits(data) + Clear(32);
    OnesInvert(m[..32], m[32..]);
    assert m == m[..32] + m[32..];
    var r := Rem(Add(m, ONES));
    OnesInvert(r, []);
    assert r + [] == r && Invert(r) + [] == Invert(r);
  }

  /** Adding ones complements. */
  lemma OnesInvert(w: word, rest: bits)
    ensures Add(w + rest, ONES) == Invert(w) + rest
  {
  }

  lemma {:induction false} RemLinear(a: bits, b: bits)
    requires |a| == |b| >= 32
    ensures Rem(Add(a, b)) == Add(Rem(a), Rem(b))
    decreases |a|
  {
    if |a| > 32 {
      RemLinear(Next(a), Next(b));
      NextLinear(a, b);
    }
  }

  lemma NextLinear(a: bits, b: bits)
    requires |a| == |b| > 32
    ensures Next(Add(a, b)) == Add(Next(a), Next(b))
  {
    hide Generator;
  }

  lemma NextOfShifted(k: nat, n: nat)
    requires n >= k + 33
    ensures Next(Clear(k) + Generator() + Clear(n - k - 33))
         == if k > 0 then Clear(k - 1) + Generator() + Clear(n - k - 33) else Clear(n - 1)
  {
    GeneratorLeads();
    hide Generator;
  }

  lemma {:induction false} RemOfMultiple(k: nat, n: nat)
    requires n >= k + 33
    ensures Rem(Clear(k) + Generator() + Clear(n - k - 33)) == Clear(32)
    decreases n
  {
    hide Generator, Next;
    NextOfShifted(k, n);
    if k > 0 {
      RemOfMultiple(k - 1, n - 1);
    } else {
      RemOfClear(n - 1);
    }
  }

  lemma {:induction false} RemOfClear(n: nat)
    requires n >= 32
    ensures Rem(Clear(n)) == Clear(32)
    decreases n
  {
    if n > 32 {
      assert Next(Clear(n)) == Clear(n - 1);
      RemOfClear(n - 1);
    }
  }

  /** No shifted generator changes the remainder. */
  lemma RemIgnoresMultiples(p: bits, k: nat)
    requires |p| >= k + 33
    ensures Rem(Add(p, Clear(k) + Generator() + Clear(|p| - k - 33))) == Rem(p)
  {
    RemLinear(p, Clear(k) + Generator() + Clear(|p| - k - 33));
    RemOfMultiple(k, |p|);
    assert Add(Rem(p), Clear(32)) == Rem(p);
  }

  /** The quotient of the division, highest degree first. */
  function Quotient(p: bits): (q: bits)
    requires |p| >= 32
    ensures |q| == |p| - 32
    decreases |p|
  {
    if |p| == 32 then [] else [p[0]] + Quotient(Next(p))
  }

  /** What one step of the division has taken away. */
  function Taken(first: bool, n: nat): (r: bits)
    requires n >= 33
    ensures |r| == n
  {
    if first then Generator() + Clear(n - 33) else Clear(n)
  }

  /** A polynomial times the generator: the sum of the generator shifted to every coefficient that is one. */
  function TimesGenerator(q: bits): (p: bits)
    ensures |p| == |q| + 32
    decreases |q|
  {
    if q == [] then Clear(32)
    else Add(Taken(q[0], |q| + 32), [false] + TimesGenerator(q[1..]))
  }

  lemma NextAndTaken(p: bits)
    requires |p| > 32
    ensures p == Add(Taken(p[0], |p|), [false] + Next(p))
  {
    GeneratorLeads();
    hide Generator;
  }

  lemma DivisionStep(p: bits)
    requires |p| > 32
    ensures Rem(p) == Rem(Next(p)) && Quotient(p) == [p[0]] + Quotient(Next(p))
  {
    hide Next;
  }

  lemma ProductStep(first: bool, q: bits)
    ensures TimesGenerator([first] + q) == Add(Taken(first, |q| + 33), [false] + TimesGenerator(q))
  {
    hide Generator, Add, Taken;
    assert ([first] + q)[1..] == q;
  }

  /** Quotient and remainder make up the dividend. */
  lemma {:induction false} Division(p: bits)
    requires |p| >= 32
    ensures p == Add(TimesGenerator(Quotient(p)), Clear(|p| - 32) + Rem(p))
    decreases |p|
  {
    hide Generator, Add, Next, Taken, Quotient, Rem, TimesGenerator;
    if |p| > 32 {
      var next := Next(p);
      Division(next);
      NextAndTaken(p);
      DivisionStep(p);
      ProductStep(p[0], Quotient(next));
      SumsShift(Taken(p[0], |p|), TimesGenerator(Quotient(next)), |p| - 33, Rem(next));
    } else {
      NothingToDivide(p);
    }
  }

  lemma NothingToDivide(p: word)
    ensures p == Add(TimesGenerator(Quotient(p)), Clear(0) + Rem(p))
  {
  }

  lemma SumsShift(first: bits, t: bits, k: nat, r: word)
    requires |first| == |t| + 1 && |t| == k + 32
    ensures Add(first, [false] + Add(t, Clear(k) + r)) == Add(Add(first, [false] + t), Clear(k + 1) + r)
  {
    assert [false] + Add(t, Clear(k) + r) == Add([false] + t, Clear(k + 1) + r);
  }

  lemma {:induction false} RemOfProduct(q: bits)
    ensures Rem(TimesGenerator(q)) == Clear(32)
    decreases |q|
  {
    hide Generator, Add;
    if q != [] {
      var n := |q| + 32;
      var first := Taken(q[0], n);
      var rest := [false] + TimesGenerator(q[1..]);
      RemLinear(first, rest);
      RemOfProduct(q[1..]);
      assert Next(rest) == TimesGenerator(q[1..]);
      if q[0] {
        RemOfMultiple(0, n);
        assert Clear(0) + Generator() + Clear(n - 33) == first;
      } else {
        RemOfClear(n);
      }
      AddToClear(Clear(32));
    }
  }

  lemma {:induction false} RemOfShort(k: nat, r: word)
    ensures Rem(Clear(k) + r) == r
    decreases k
  {
    if k > 0 {
      assert Next(Clear(k) + r) == Clear(k - 1) + r;
      RemOfShort(k - 1, r);
    } else {
      assert Clear(0) + r == r;
    }
  }

  lemma RemainderUnique(q: bits, r: word)
    ensures Rem(Add(TimesGenerator(q), Clear(|q|) + r)) == r
  {
    hide Rem, TimesGenerator, Add;
    RemLinear(TimesGenerator(q), Clear(|q|) + r);
    RemOfProduct(q);
    RemOfShort(|q|, r);
    AddToClear(r);
  }

  lemma AddToClear(r: word)
    ensures Add(Clear(32), r) == r
  {
  }

  /** `Rem` is the remainder: of all words, it alone makes up the dividend together with a multiple of the generator. */
  lemma RemainderIff(p: bits, r: word)
    requires |p| >= 32
    ensures r == Rem(p) <==> exists q: bits :: |q| == |p| - 32 && p == Add(TimesGenerator(q), Clear(|q|) + r)
  {
    hide Rem, TimesGenerator, Add, Quotient;
    if r == Rem(p) {
      Division(p);
      assert |Quotient(p)| == |p| - 32;
    }
    forall q: bits | |q| == |p| - 32 && p == Add(TimesGenerator(q), Clear(|q|) + r) ensures r == Rem(p) {
      RemainderUnique(q, r);
    }
  }

  // ---------------------------------------------------------------- burst errors

  /** Two registers that differ stay different whatever follows. */
  lemma {:induction false} FeedInjective(a: word, b: word, m: bits)
    requires a != b
    ensures Feed(a, m) != Feed(b, m)
    decreases |m|
  {
    if m != [] {
      var x, y := Add(a, m[..1]), Add(b, m[..1]);
      var i :| 0 <= i < 32 && a[i] != b[i];
      assert x[i] != y[i];
      BitStepInjective(x, y);
      FeedInjective(BitStep(x), BitStep(y), m[1..]);
    }
  }

  /** Every error burst of up to 32 bits is noticed, whatever surrounds it. */
  lemma BurstDetected(p: bits, x: bits, y: bits, s: bits)
    requires |x| == |y| <= 32 && x != y
    ensures Feed(ONES, p + x + s) != Feed(ONES, p + y + s)
  {
    var c := Feed(ONES, p);
    var i :| 0 <= i < |x| && x[i] != y[i];
    assert Add(c, x)[i] != Add(c, y)[i];
    StepsInjective(Add(c, x), Add(c, y), |x|);
    FeedBlock(c, x);
    FeedBlock(c, y);
    FeedInjective(Feed(c, x), Feed(c, y), s);
    FeedAppend(ONES, p + x, s);
    FeedAppend(ONES, p + y, s);
    FeedAppend(ONES, p, x);
    FeedAppend(ONES, p, y);
  }

  lemma {:induction false} MessageBitsAppend(a: bytes, b: bytes)
    ensures MessageBits(a + b) == MessageBits(a) + MessageBits(b)
    decreases |a|
  {
    if a == [] {
      assert a + b == b;
    } else {
      assert (a + b)[1..] == a[1..] + b;
      MessageBitsAppend(a[1..], b);
    }
  }

  lemma {:induction false} MessageBitsInjective(a: bytes, b: bytes)
    requires |a| == |b| && MessageBits(a) == MessageBits(b)
    ensures a == b
    decreases |a|
  {
    if a != [] {
      assert Bits(a[0], BYTE_BITS) == MessageBits(a)[..8] == MessageBits(b)[..8] == Bits(b[0], BYTE_BITS);
      Pow2Values();
      BitsRoundTrip(a[0], BYTE_BITS);
      BitsRoundTrip(b[0], BYTE_BITS);
      assert MessageBits(a[1..]) == MessageBits(a)[8..] == MessageBits(b)[8..] == MessageBits(b[1..]);
      MessageBitsInjective(a[1..], b[1..]);
    }
  }

  /** Inputs that differ only inside four consecutive bytes have different checksums. */
  lemma FourByteBurstDetected(p: bytes, x: bytes, y: bytes, s: bytes)
    requires |x| == |y| <= 4 && x != y
    ensures Crc(p + x + s) != Crc(p + y + s)
    ensures CrcNat(p + x + s) != CrcNat(p + y + s)
  {
    hide Bits, Feed;
    if MessageBits(x) == MessageBits(y) {
      MessageBitsInjective(x, y);
    }
    BurstDetected(MessageBits(p), MessageBits(x), MessageBits(y), MessageBits(s));
    RegisterOfThree(p, x, s);
    RegisterOfThree(p, y, s);
    ComplementInjective(Register(ONES, p + x + s), Register(ONES, p + y + s));
  }

  lemma RegisterOfThree(p: bytes, x: bytes, s: bytes)
    ensures Register(ONES, p + x + s) == Feed(ONES, MessageBits(p) + MessageBits(x) + MessageBits(s))
  {
    MessageBitsAppend(p + x, s);
    MessageBitsAppend(p, x);
    RegisterIsFeed(ONES, p + x + s);
  }

  lemma ComplementInjective(a: word, b: word)
    requires a != b
    ensures Add(a, ONES) != Add(b, ONES)
    ensures FromBits(Add(a, ONES)) != FromBits(Add(b, ONES))
  {
    var i :| 0 <= i < 32 && a[i] != b[i];
    assert Add(a, ONES)[i] != Add(b, ONES)[i];
    if FromBits(Add(a, ONES)) == FromBits(Add(b, ONES)) {
      FromBitsInjective(Add(a, ONES), Add(b, ONES));
    }
  }

  lemma {:induction false} FromBitsInjective(a: bits, b: bits)
    requires |a| == |b| && FromBits(a) == FromBits(b)
    ensures a == b
    decreases |a|
  {
    if a != [] {
      FromBitsInjective(a[1..], b[1..]);
    }
  }
}

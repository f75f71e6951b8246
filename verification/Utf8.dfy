/** Well-formed UTF-8 (section 4 of RFC 3629), the bytes a string may consist of. */
module Utf8 {
  import opened Bytes

  predicate Tail(b: byte) {
    0x80 <= b <= 0xBF
  }

  /** How many bytes the first character takes; 0 if the string does not begin with a character. */
  function CharLength(s: bytes): (n: nat)
    ensures n <= |s| && n <= 4
  {
    if |s| >= 1 && s[0] <= 0x7F then 1
    else if |s| >= 2 && 0xC2 <= s[0] <= 0xDF && Tail(s[1]) then 2
    else if |s| >= 3 && ThreeBytes(s[0], s[1]) && Tail(s[2]) then 3
    else if |s| >= 4 && FourBytes(s[0], s[1]) && Tail(s[2]) && Tail(s[3]) then 4
    else 0
  }

  predicate ThreeBytes(a: byte, b: byte) {
    || (a == 0xE0 && 0xA0 <= b <= 0xBF)
    || ((0xE1 <= a <= 0xEC || 0xEE <= a <= 0xEF) && Tail(b))
    || (a == 0xED && 0x80 <= b <= 0x9F)
  }

  predicate FourBytes(a: byte, b: byte) {
    || (a == 0xF0 && 0x90 <= b <= 0xBF)
    || (0xF1 <= a <= 0xF3 && Tail(b))
    || (a == 0xF4 && 0x80 <= b <= 0x8F)
  }

  predicate Valid(s: bytes)
    decreases |s|
  {
    s == [] || (CharLength(s) > 0 && Valid(s[CharLength(s)..]))
  }

  type text = s: bytes | Valid(s) witness []

  lemma FirstCharStays(a: bytes, b: bytes)
    requires CharLength(a) > 0
    ensures CharLength(a + b) == CharLength(a)
  {
  }

  lemma {:induction false} ValidAppend(a: bytes, b: bytes)
    requires Valid(a) && Valid(b)
    ensures Valid(a + b)
    decreases |a|
  {
    hide CharLength;
    if a == [] {
      assert a + b == b;
    } else {
      var n := CharLength(a);
      FirstCharStays(a, b);
      assert (a + b)[n..] == a[n..] + b;
      ValidAppend(a[n..], b);
    }
  }

  lemma {:induction false} AsciiValid(s: bytes)
    requires forall i :: 0 <= i < |s| ==> s[i] < 0x80
    ensures Valid(s)
    decreases |s|
  {
    if s != [] {
      AsciiValid(s[1..]);
    }
  }

  // ---------------------------------------------------------------- what the bytes stand for

  /** The bytes of a character (section 3 of RFC 3629). */
  function EncodeChar(c: char): (b: bytes)
    ensures 1 <= |b| <= 4
  {
    var n := c as int;
    if n < 0x80 then [n]
    else if n < 0x800 then [0xC0 + n / 64, 0x80 + n % 64]
    else if n < 0x1_0000 then [0xE0 + n / 4096, 0x80 + n / 64 % 64, 0x80 + n % 64]
    else [0xF0 + n / 262144, 0x80 + n / 4096 % 64, 0x80 + n / 64 % 64, 0x80 + n % 64]
  }

  function EncodeText(s: string): bytes {
    if s == [] then [] else EncodeChar(s[0]) + EncodeText(s[1..])
  }

  lemma CharIsOne(c: char, rest: bytes)
    ensures CharLength(EncodeChar(c) + rest) == |EncodeChar(c)|
  {
    hide Tail, ThreeBytes, FourBytes;
    var n := c as int;
    if n < 0x80 {
    } else if n < 0x800 {
      LastIsTail(n);
    } else if n < 0x1_0000 {
      LastIsTail(n);
      ThreeFit(n);
    } else {
      LastIsTail(n);
      LastIsTail(n / 64);
      FourFit(n);
    }
  }

  lemma LastIsTail(n: nat)
    ensures Tail(0x80 + n % 64)
  {
  }

  lemma ThreeFit(n: nat)
    requires 0x800 <= n < 0xD800 || 0xE000 <= n < 0x1_0000
    ensures 0xE0 <= 0xE0 + n / 4096 <= 0xEF && ThreeBytes(0xE0 + n / 4096, 0x80 + n / 64 % 64)
  {
    assert n / 64 == 64 * (n / 4096) + n / 64 % 64;
  }

  lemma FourFit(n: nat)
    requires 0x1_0000 <= n < 0x11_0000
    ensures 0xF0 <= 0xF0 + n / 262144 <= 0xF4 && FourBytes(0xF0 + n / 262144, 0x80 + n / 4096 % 64)
    ensures !ThreeBytes(0xF0 + n / 262144, 0x80 + n / 4096 % 64)
  {
    assert n / 4096 == 64 * (n / 262144) + n / 4096 % 64;
  }

  /** The numbers the bytes of a character stand for. */
  function Two(a: byte, b: byte): int {
    64 * (a - 0xC0 as int) + (b - 0x80 as int)
  }

  function Three(a: byte, b: byte, c: byte): int {
    4096 * (a - 0xE0 as int) + 64 * (b - 0x80 as int) + (c - 0x80 as int)
  }

  function Four(a: byte, b: byte, c: byte, d: byte): int {
    262144 * (a - 0xF0 as int) + 4096 * (b - 0x80 as int) + 64 * (c - 0x80 as int) + (d - 0x80 as int)
  }

  /** The character at the front of a string. */
  function FirstChar(b: bytes): (c: char)
    requires CharLength(b) > 0
  {
    var n := CharLength(b);
    if n == 1 then b[0] as char
    else if n == 2 then Two(b[0], b[1]) as char
    else if n == 3 then Three(b[0], b[1], b[2]) as char
    else Four(b[0], b[1], b[2], b[3]) as char
  }

  lemma TwoBack(a: byte, b: byte)
    requires 0xC2 <= a <= 0xDF && Tail(b)
    ensures 0x80 <= Two(a, b) < 0x800 && EncodeChar(Two(a, b) as char) == [a, b]
  {
    Digits64(a - 0xC0, b - 0x80);
  }

  lemma ThreeBack(a: byte, b: byte, c: byte)
    requires ThreeBytes(a, b) && Tail(c)
    ensures var n := Three(a, b, c);
            (0x800 <= n < 0xD800 || 0xE000 <= n < 0x1_0000) && EncodeChar(n as char) == [a, b, c]
  {
    ThreeDigits(a - 0xE0, b - 0x80, c - 0x80);
  }

  lemma FourBack(a: byte, b: byte, c: byte, d: byte)
    requires FourBytes(a, b) && Tail(c) && Tail(d)
    ensures var n := Four(a, b, c, d);
            0x1_0000 <= n < 0x11_0000 && EncodeChar(n as char) == [a, b, c, d]
  {
    FourDigits(a - 0xF0, b - 0x80, c - 0x80, d - 0x80);
  }

  lemma FirstCharIs(b: bytes)
    requires CharLength(b) > 0
    ensures EncodeChar(FirstChar(b)) == b[..CharLength(b)]
  {
    var n := CharLength(b);
    if n == 1 {
    } else if n == 2 {
      TwoBack(b[0], b[1]);
      hide EncodeChar;
      assert b[..2] == [b[0], b[1]];
    } else if n == 3 {
      ThreeBack(b[0], b[1], b[2]);
      hide EncodeChar;
      assert b[..3] == [b[0], b[1], b[2]];
    } else {
      FourBack(b[0], b[1], b[2], b[3]);
      hide EncodeChar;
      assert b[..4] == [b[0], b[1], b[2], b[3]];
    }
  }

  lemma Digits64(h: int, l: int)
    requires 0 <= l < 64
    ensures (64 * h + l) / 64 == h && (64 * h + l) % 64 == l
  {
  }

  lemma ThreeDigits(x: int, y: int, z: int)
    requires 0 <= y < 64 && 0 <= z < 64
    ensures var n := 4096 * x + 64 * y + z; n / 4096 == x && n / 64 % 64 == y && n % 64 == z
  {
    Digits64(64 * x + y, z);
    Digits64(x, y);
  }

  lemma FourDigits(w: int, x: int, y: int, z: int)
    requires 0 <= x < 64 && 0 <= y < 64 && 0 <= z < 64
    ensures var n := 262144 * w + 4096 * x + 64 * y + z;
            n / 262144 == w && n / 4096 % 64 == x && n / 64 % 64 == y && n % 64 == z
  {
    var n := 262144 * w + 4096 * x + 64 * y + z;
    Digits64(4096 * w + 64 * x + y, z);
    Digits64(64 * w + x, y);
    Digits64(w, x);
    assert n / 4096 == 64 * w + x;
  }

  lemma {:induction false} EncodedIsValid(s: string)
    ensures Valid(EncodeText(s))
    decreases |s|
  {
    hide EncodeChar, CharLength;
    if s != [] {
      var b, rest := EncodeText(s), EncodeText(s[1..]);
      EncodedIsValid(s[1..]);
      CharIsOne(s[0], rest);
      assert b[|EncodeChar(s[0])|..] == rest;
    }
  }

  lemma {:induction false} ValidIsEncoded(b: bytes) returns (s: string)
    requires Valid(b)
    ensures EncodeText(s) == b
    decreases |b|
  {
    hide EncodeChar, CharLength, FirstChar;
    s := [];
    if b != [] {
      var n := CharLength(b);
      var rest := ValidIsEncoded(b[n..]);
      FirstCharIs(b);
      s := [FirstChar(b)] + rest;
      assert s[1..] == rest;
      assert b == b[..n] + b[n..];
    }
  }

  /** A byte string is well formed exactly when it is the encoding of some characters. */
  lemma ValidIff(b: bytes)
    ensures Valid(b) <==> exists s: string :: EncodeText(s) == b
  {
    if Valid(b) {
      var s := ValidIsEncoded(b);
    }
    forall s: string | EncodeText(s) == b ensures Valid(b) {
      EncodedIsValid(s);
    }
  }
}

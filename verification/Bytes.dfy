/** Bytes, little-endian numbers and in-place overwriting of a byte string. */
module Bytes {
  type byte = x: int | 0 <= x < 256
  type bytes = seq<byte>

  const MIB: nat := 1024 * 1024
  const GIB: nat := 1024 * 1024 * 1024

  const U16: nat := 0x1_0000
  const U32: nat := 0x1_0000_0000
  const U64: nat := 0x1_0000_0000_0000_0000

  type u64 = x: int | 0 <= x < 0x1_0000_0000_0000_0000

  function Min(a: int, b: int): int {
    if a < b then a else b
  }

  function Zeros(n: nat): (z: bytes)
    ensures |z| == n
  {
    seq(n, _ => 0)
  }

  // ---------------------------------------------------------------- little endian

  function Pow256(w: nat): nat {
    if w == 0 then 1 else 256 * Pow256(w - 1)
  }

  /** The `w` low-order bytes of `n`, least significant first: the cast `as uN` followed by `to_le_bytes`. */
  function Le(n: nat, w: nat): (s: bytes)
    ensures |s| == w
    decreases w
  {
    if w == 0 then [] else [n % 256] + Le(n / 256, w - 1)
  }

  /** `from_le_bytes`. */
  function FromLe(s: bytes): (n: nat)
    ensures n < Pow256(|s|)
  {
    if s == [] then 0 else s[0] + 256 * FromLe(s[1..])
  }

  /** A number as it is printed, most significant byte first. */
  function FromBe(s: bytes): nat {
    if s == [] then 0 else 256 * FromBe(s[..|s| - 1]) + s[|s| - 1]
  }

  lemma {:induction false} LeRoundTrip(n: nat, w: nat)
    requires n < Pow256(w)
    ensures FromLe(Le(n, w)) == n
    decreases w
  {
    if w > 0 {
      LeRoundTrip(n / 256, w - 1);
      assert Le(n, w)[1..] == Le(n / 256, w - 1);
    }
  }

  lemma {:induction false} FromLeRoundTrip(s: bytes)
    ensures Le(FromLe(s), |s|) == s
  {
    if s != [] {
      FromLeRoundTrip(s[1..]);
      var n := FromLe(s);
      assert n % 256 == s[0] && n / 256 == FromLe(s[1..]);
    }
  }

  /** The cast to a field of `w` bytes keeps the remainder by the size of the field; the quotient `q` is lost. */
  lemma {:induction false} LeTruncates(n: nat, w: nat) returns (q: nat)
    ensures n == Pow256(w) * q + FromLe(Le(n, w))
    decreases w
  {
    q := n;
    if w > 0 {
      q := LeTruncates(n / 256, w - 1);
      assert Le(n, w)[1..] == Le(n / 256, w - 1);
      assert 256 * (Pow256(w - 1) * q) == Pow256(w) * q;
    }
  }

  /** Two numbers in equal 16-bit fields are equal modulo 65536. */
  lemma EqualLengthFields(x: nat, y: nat)
    requires Le(x, 2) == Le(y, 2)
    ensures x % U16 == y % U16
  {
    hide Le, FromLe;
    PowersOf256();
    var p := LeTruncates(x, 2);
    var q := LeTruncates(y, 2);
  }

  lemma PowersOf256()
    ensures Pow256(2) == U16 && Pow256(4) == U32 && Pow256(8) == U64
  {
  }

  // ---------------------------------------------------------------- overwriting

  /** `s` with `b` written over it at `at`. */
  function Splice(s: bytes, at: nat, b: bytes): (r: bytes)
    requires at + |b| <= |s|
    ensures |r| == |s|
    ensures r[at..at + |b|] == b
    ensures forall i :: 0 <= i < at || at + |b| <= i < |s| ==> r[i] == s[i]
  {
    s[..at] + b + s[at + |b|..]
  }

  /** Writing two adjoining strings is writing their concatenation. */
  lemma SpliceJoin(s: bytes, at: nat, a: bytes, b: bytes)
    requires at + |a| + |b| <= |s|
    ensures Splice(Splice(s, at, a), at + |a|, b) == Splice(s, at, a + b)
  {
  }

  /** A slice of a slice. */
  lemma SliceOfSlice(s: bytes, at: nat, n: nat, x: nat, y: nat)
    requires at + n <= |s| && x <= y <= n
    ensures s[at..at + n][x..y] == s[at + x..at + y]
  {
    var a, b := s[at..at + n][x..y], s[at + x..at + y];
    assert |a| == |b|;
    forall i | 0 <= i < |a| ensures a[i] == b[i] {
      assert a[i] == s[at..at + n][x + i] == s[at + x + i];
    }
  }

  /** The two strings agree everywhere outside `[lo, hi)`. */
  ghost predicate SameOutside(a: bytes, b: bytes, lo: nat, hi: nat) {
    |a| == |b| && forall i :: 0 <= i < |a| && !(lo <= i < hi) ==> a[i] == b[i]
  }

  lemma SameOutsideSlice(a: bytes, b: bytes, lo: nat, hi: nat, from: nat, to: nat)
    requires SameOutside(a, b, lo, hi) && from <= to <= |a|
    requires to <= lo || hi <= from
    ensures a[from..to] == b[from..to]
  {
  }
}

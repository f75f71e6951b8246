/**
 Block devices that may fail at any moment.

 A device carries out a number of further operations, its budget, and then fails for good: every byte written costs
 one, and so do opening, seeking and flushing. A statement about all budgets is a statement about all points of
 failure, including a write that stops half way.
 */
module Device {
  import opened Bytes

  datatype Dev = Dev(bytes: bytes, budget: nat)

  datatype Io = Io(dev: Dev, ok: bool)

  /** Carry out `n` operations that transfer nothing. */
  function Credit(d: Dev, n: nat): Io {
    if d.budget < n then Io(d.(budget := 0), false) else Io(d.(budget := d.budget - n), true)
  }

  /** How many of `n` bytes from `at` on reach a device that ends at `hi`. */
  function Accepted(d: Dev, hi: nat, at: nat, n: nat): (k: nat)
    ensures k <= n && k <= d.budget && (at + k <= hi || k == 0)
  {
    Min(Min(n, d.budget), if at <= hi then hi - at else 0)
  }

  /** `write_all`: it succeeds when every byte was accepted, and leaves a prefix otherwise. */
  function Write(d: Dev, hi: nat, at: nat, b: bytes): (r: Io)
    requires hi <= |d.bytes|
    ensures |r.dev.bytes| == |d.bytes|
    ensures SameOutside(r.dev.bytes, d.bytes, at, at + |b|)
    ensures SameOutside(r.dev.bytes, d.bytes, at, hi)
    ensures r.ok ==> at + |b| <= |d.bytes| || b == []
    ensures r.ok && b != [] ==> at + |b| <= hi && r.dev.bytes[at..at + |b|] == b
  {
    var k := Accepted(d, hi, at, |b|);
    Io(Dev(if k == 0 then d.bytes else Splice(d.bytes, at, b[..k]), d.budget - k), k == |b|)
  }

  // ---------------------------------------------------------------- programs of writes

  /** `credits` opens, seeks or flushes, then a write of `data` at `at`. */
  datatype Op = Op(credits: nat, at: nat, data: bytes)
  {
    predicate Avoids(lo: nat, hi: nat) {
      data == [] || at + |data| <= lo || hi <= at
    }
  }

  function Step(d: Dev, hi: nat, op: Op): (r: Io)
    requires hi <= |d.bytes|
    ensures |r.dev.bytes| == |d.bytes|
  {
    var c := Credit(d, op.credits);
    if c.ok then Write(c.dev, hi, op.at, op.data) else c
  }

  /** Run the operations up to the first that fails. */
  function Exec(d: Dev, hi: nat, ops: seq<Op>): (r: Io)
    requires hi <= |d.bytes|
    ensures |r.dev.bytes| == |d.bytes|
    decreases |ops|
  {
    if ops == [] then Io(d, true) else
    var s := Step(d, hi, ops[0]);
    if s.ok then Exec(s.dev, hi, ops[1..]) else s
  }

  lemma {:induction false} ExecAppend(d: Dev, hi: nat, a: seq<Op>, b: seq<Op>)
    requires hi <= |d.bytes|
    ensures var r := Exec(d, hi, a);
            Exec(d, hi, a + b) == if r.ok then Exec(r.dev, hi, b) else r
    decreases |a|
  {
    if a == [] {
      assert a + b == b;
    } else {
      assert (a + b)[0] == a[0] && (a + b)[1..] == a[1..] + b;
      var s := Step(d, hi, a[0]);
      if s.ok {
        ExecAppend(s.dev, hi, a[1..], b);
      }
    }
  }

  /** Bytes no operation is aimed at survive every run, finished or not. */
  lemma {:induction false} ExecAvoids(d: Dev, hi: nat, ops: seq<Op>, from: nat, to: nat)
    requires hi <= |d.bytes| && from <= to <= |d.bytes|
    requires forall i :: 0 <= i < |ops| ==> ops[i].Avoids(from, to)
    ensures Exec(d, hi, ops).dev.bytes[from..to] == d.bytes[from..to]
    decreases |ops|
  {
    if ops != [] {
      var s := Step(d, hi, ops[0]);
      assert ops[0].Avoids(from, to);
      assert s.dev.bytes[from..to] == d.bytes[from..to];
      if s.ok {
        ExecAvoids(s.dev, hi, ops[1..], from, to);
      }
    }
  }

  /** After a run that finished, what operation `k` wrote is there unless a later one was aimed at it. */
  lemma {:induction false} ExecHolds(d: Dev, hi: nat, ops: seq<Op>, k: nat)
    requires hi <= |d.bytes| && k < |ops| && Exec(d, hi, ops).ok && ops[k].data != []
    requires forall i :: k < i < |ops| ==> ops[i].Avoids(ops[k].at, ops[k].at + |ops[k].data|)
    ensures var (at, n) := (ops[k].at, |ops[k].data|);
            at + n <= hi && Exec(d, hi, ops).dev.bytes[at..at + n] == ops[k].data
    decreases k
  {
    var s := Step(d, hi, ops[0]);
    if k == 0 {
      ExecAvoids(s.dev, hi, ops[1..], ops[0].at, ops[0].at + |ops[0].data|);
    } else {
      ExecHolds(s.dev, hi, ops[1..], k - 1);
    }
  }

  /** No operation is aimed at what an earlier one wrote. */
  predicate Disjoint(ops: seq<Op>) {
    forall i, j :: 0 <= i < j < |ops| ==> ops[j].Avoids(ops[i].at, ops[i].at + |ops[i].data|)
  }

  /** Without overlaps everything a finished run wrote is there. */
  lemma ExecHoldsAll(d: Dev, hi: nat, ops: seq<Op>, k: nat)
    requires hi <= |d.bytes| && k < |ops| && Exec(d, hi, ops).ok && ops[k].data != [] && Disjoint(ops)
    ensures var (at, n) := (ops[k].at, |ops[k].data|);
            at + n <= hi && Exec(d, hi, ops).dev.bytes[at..at + n] == ops[k].data
  {
    ExecHolds(d, hi, ops, k);
  }

  function Cost(ops: seq<Op>): nat {
    if ops == [] then 0 else ops[0].credits + |ops[0].data| + Cost(ops[1..])
  }

  /** A program inside the device succeeds exactly when the device lasts long enough. */
  lemma {:induction false} ExecSucceedsIff(d: Dev, hi: nat, ops: seq<Op>)
    requires hi <= |d.bytes|
    requires forall i :: 0 <= i < |ops| ==> ops[i].at + |ops[i].data| <= hi
    ensures Exec(d, hi, ops).ok <==> Cost(ops) <= d.budget
    ensures Exec(d, hi, ops).ok ==> Exec(d, hi, ops).dev.budget == d.budget - Cost(ops)
    decreases |ops|
  {
    if ops != [] {
      var s := Step(d, hi, ops[0]);
      if s.ok {
        ExecSucceedsIff(s.dev, hi, ops[1..]);
      }
    }
  }

  // ---------------------------------------------------------------- the device as an object

  class Disk {
    const data: array<byte>
    var budget: nat

    constructor (contents: array<byte>, budget: nat)
      ensures data == contents && this.budget == budget
    {
      data := contents;
      this.budget := budget;
    }

    ghost function State(): (d: Dev)
      reads this, data
      ensures |d.bytes| == data.Length
    {
      Dev(data[..], budget)
    }

    /** An operation that transfers nothing: opening, seeking, flushing, syncing. */
    method Touch() returns (ok: bool)
      modifies this
      ensures Io(State(), ok) == Credit(old(State()), 1)
    {
      ok := budget > 0;
      if ok {
        budget := budget - 1;
      }
    }

    /** `write_all` at an absolute position, on a partition that ends at `hi`. */
    method WriteAll(hi: nat, at: nat, b: bytes) returns (ok: bool)
      requires hi <= data.Length
      modifies this, data
      ensures Io(State(), ok) == Write(old(State()), hi, at, b)
    {
      var k := Min(Min(|b|, budget), if at <= hi then hi - at else 0);
      for i := 0 to k
        invariant budget == old(budget)
        invariant forall j :: 0 <= j < i ==> data[at + j] == b[j]
        invariant forall j :: 0 <= j < data.Length && !(at <= j < at + i) ==> data[j] == old(data[j])
      {
        data[at + i] := b[i];
      }
      budget := budget - k;
      ok := k == |b|;
      if k > 0 {
        assert data[..] == Splice(old(data[..]), at, b[..k]);
      } else {
        assert data[..] == old(data[..]);
      }
    }
  }

  /** One operation of a program on the whole disk. */
  method Perform(disk: Disk, op: Op) returns (ok: bool)
    modifies disk, disk.data
    ensures Io(disk.State(), ok) == Step(old(disk.State()), disk.data.Length, op)
  {
    for i := 0 to op.credits
      invariant disk.data[..] == old(disk.data[..])
      invariant old(disk.budget) >= i && disk.budget == old(disk.budget) - i
    {
      var paid := disk.Touch();
      if !paid { return false; }
    }
    ok := disk.WriteAll(disk.data.Length, op.at, op.data);
  }

  /** The first operation, then the others. */
  lemma ExecStep(d: Dev, hi: nat, op: Op, rest: seq<Op>)
    requires hi <= |d.bytes|
    ensures var s := Step(d, hi, op); Exec(d, hi, [op] + rest) == if s.ok then Exec(s.dev, hi, rest) else s
  {
    assert ([op] + rest)[1..] == rest;
  }
}

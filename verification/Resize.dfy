/** Resizing a resizable, unshared buffer in place within its reservation. */
module Resize {
  import opened Basics
  import opened Pages

  datatype Outcome = Success | Failure

  /** The reserved memory, how much of it is the buffer, and how much has read and write
      permission. */
  datatype Buffer = Buffer(mem: seq<byte>, length: nat, committed: nat)

  /** The rest of memory `m` from `from` up to `to` zeroed. */
  function Zeroed(m: seq<byte>, from: nat, to: nat): (r: seq<byte>)
    ensures |r| == |m|
    ensures forall i :: 0 <= i < |m| ==> r[i] == if from <= i < to then 0 else m[i]
  {
    seq(|m|, i requires 0 <= i < |m| => if from <= i < to then 0 else m[i])
  }

  /** One resize; `granted` is whether the operating system grants the permission change,
      if one is asked for. A shrink zeroes first and so loses the bytes even when it
      fails. */
  function Resized(b: Buffer, n: nat, granted: bool, pageSize: nat): (Buffer, Outcome)
    requires pageSize > 0
  {
    var committed := PagesFor(n, pageSize) * pageSize;
    if n < b.length then
      var mem := Zeroed(b.mem, n, b.length);
      if PagesFor(n, pageSize) < PagesFor(b.length, pageSize) && !granted then
        (b.(mem := mem), Failure)
      else
        (Buffer(mem, n, committed), Success)
    else if n == b.length then
      (b, Success)
    else if !granted then
      (b, Failure)
    else
      (Buffer(b.mem, n, committed), Success)
  }

  ghost predicate Ok(b: Buffer, pageSize: nat)
    requires pageSize > 0
  {
    && b.length <= |b.mem|
    && b.committed == PagesFor(b.length, pageSize) * pageSize
    && forall i :: b.length <= i < |b.mem| ==> b.mem[i] == 0
  }

  class ResizableStore {
    const data: array<byte>
    const pageSize: nat
    const maxByteLength: nat
    var byteLength: nat
    var committed: nat

    ghost function State(): (b: Buffer)
      reads this, data
    {
      Buffer(data[..], byteLength, committed)
    }

    ghost predicate Valid()
      reads this, data
    {
      pageSize > 0 && byteLength <= maxByteLength <= data.Length && Ok(State(), pageSize)
    }

    constructor (length: nat, max: nat, page: nat)
      requires page > 0 && length <= max
      ensures Valid() && fresh(data) && maxByteLength == max && pageSize == page
      ensures State() == Buffer(seq(|data[..]|, i => 0), length, PagesFor(length, page) * page)
    {
      data := new byte[PagesFor(max, page) * page](i => 0);
      pageSize, maxByteLength := page, max;
      byteLength, committed := length, PagesFor(length, page) * page;
      new;
      assert data[..] == seq(|data[..]|, i => 0);
    }

    method Clear(from: nat, to: nat)
      requires from <= to <= data.Length
      modifies data
      ensures data[..] == Zeroed(old(data[..]), from, to)
    {
      forall i | from <= i < to {
        data[i] := 0;
      }
    }

    /** `granted` is the operating system's answer to a permission change. */
    method ResizeInPlace(newByteLength: nat, granted: bool) returns (outcome: Outcome)
      requires Valid() && newByteLength <= maxByteLength
      modifies this, data
      ensures Valid()
      ensures (State(), outcome) == Resized(old(State()), newByteLength, granted, pageSize)
    {
      ghost var before := State();
      KeepsResized(before, newByteLength, granted, pageSize);
      var newPages := PagesFor(newByteLength, pageSize);
      if newByteLength < byteLength {
        Clear(newByteLength, byteLength);
        var oldPages := PagesFor(byteLength, pageSize);
        PagesForMonotone(newByteLength, byteLength, pageSize);
        if newPages < oldPages {
          if !granted {
            return Failure;
          }
          committed := newPages * pageSize;
        }
        byteLength := newByteLength;
        return Success;
      }
      if newByteLength == byteLength {
        return Success;
      }
      if !granted {
        return Failure;
      }
      committed := newPages * pageSize;
      byteLength := newByteLength;
      return Success;
    }

    method Write(i: nat, v: byte)
      requires Valid() && i < byteLength
      modifies data
      ensures Valid() && State() == old(State()).(mem := old(data[..])[i := v])
    {
      data[i] := v;
    }
  }

  lemma KeepsResized(b: Buffer, n: nat, granted: bool, pageSize: nat)
    requires pageSize > 0 && Ok(b, pageSize) && n <= |b.mem|
    ensures Ok(Resized(b, n, granted, pageSize).0, pageSize)
  {
  }

  /** When a resize succeeds and what a caller sees of it. It fails exactly when the
      permission change it needs is refused: every growth needs one, and of the shrinks
      those that free a page. A success cuts the contents or extends them with zeros. A
      failed growth changes nothing; a failed shrink keeps the length but has already zeroed
      what it was to cut off. */
  lemma ResizeContents(b: Buffer, n: nat, granted: bool, pageSize: nat)
    requires pageSize > 0 && Ok(b, pageSize) && n <= |b.mem|
    ensures var (r, outcome) := Resized(b, n, granted, pageSize);
            var was, now := b.mem[..b.length], r.mem[..if r.length <= |r.mem| then r.length else 0];
            && r.length <= |r.mem|
            && (outcome == Failure <==>
                  !granted && (n > b.length || PagesFor(n, pageSize) < PagesFor(b.length, pageSize)))
            && r.length == (if outcome == Success then n else b.length)
            && (outcome == Success ==>
                  now == if n <= b.length then was[..n] else was + seq(n - b.length, i => 0))
            && (outcome == Failure && n > b.length ==> r == b)
            && (outcome == Failure && n <= b.length ==>
                  n < b.length && now == was[..n] + seq(b.length - n, i => 0))
  {
    if n > b.length {
      PagesForMonotone(b.length, n, pageSize);
    }
  }

  // Any sequence of resizes and writes.

  datatype Op = Resize(n: nat, granted: bool) | Write(i: nat, v: byte)

  /** Resizes beyond the reservation and writes beyond the length do not happen. */
  function Apply(b: Buffer, op: Op, pageSize: nat): Buffer
    requires pageSize > 0
  {
    match op
    case Resize(n, granted) => if n <= |b.mem| then Resized(b, n, granted, pageSize).0 else b
    case Write(i, v) => if i < b.length <= |b.mem| then b.(mem := b.mem[i := v]) else b
  }

  function After(b: Buffer, ops: seq<Op>, pageSize: nat): Buffer
    requires pageSize > 0
  {
    if ops == [] then b else Apply(After(b, ops[..|ops| - 1], pageSize), ops[|ops| - 1], pageSize)
  }

  lemma {:induction false} StaysOk(b: Buffer, ops: seq<Op>, pageSize: nat)
    requires pageSize > 0 && Ok(b, pageSize)
    ensures Ok(After(b, ops, pageSize), pageSize) && |After(b, ops, pageSize).mem| == |b.mem|
  {
    if ops == [] {
    } else {
      var rest, op := ops[..|ops| - 1], ops[|ops| - 1];
      StaysOk(b, rest, pageSize);
      if op.Resize? && op.n <= |b.mem| {
        KeepsResized(After(b, rest, pageSize), op.n, op.granted, pageSize);
      }
    }
  }

  /** What the history of the operations says of byte `i`: the last value written to it
      since the last resize, successful or not, to a length that left it out; zero if
      there is none. */
  function LastWritten(b: Buffer, ops: seq<Op>, i: nat, pageSize: nat): byte
    requires pageSize > 0 && i < |b.mem|
  {
    if ops == [] then b.mem[i] else
      var rest := ops[..|ops| - 1];
      match ops[|ops| - 1]
      case Resize(n, _) => if n <= i then 0 else LastWritten(b, rest, i, pageSize)
      case Write(j, v) =>
        if j == i && j < After(b, rest, pageSize).length then v else LastWritten(b, rest, i, pageSize)
  }

  /** Every reserved byte holds what its history says, whether the buffer covers it at
      the moment or not; so nothing written before a byte was cut off can come back. */
  lemma {:induction false} MemoryIsLastWritten(b: Buffer, ops: seq<Op>, i: nat, pageSize: nat)
    requires pageSize > 0 && Ok(b, pageSize) && i < |b.mem|
    ensures |After(b, ops, pageSize).mem| == |b.mem|
              && After(b, ops, pageSize).mem[i] == LastWritten(b, ops, i, pageSize)
    decreases |ops|
  {
    if ops == [] {
    } else {
      var rest, op := ops[..|ops| - 1], ops[|ops| - 1];
      MemoryIsLastWritten(b, rest, i, pageSize);
      StaysOk(b, rest, pageSize);
    }
  }

  /** Bytes beyond the length are zero after any operations, so a growth that follows
      shows zeros. */
  lemma GrowthShowsZeros(b: Buffer, ops: seq<Op>, n: nat, pageSize: nat, i: nat)
    requires pageSize > 0 && Ok(b, pageSize)
    requires After(b, ops, pageSize).length <= i < n <= |b.mem|
    ensures var grown := After(b, ops + [Resize(n, true)], pageSize);
            grown.length == n && |grown.mem| == |b.mem| && grown.mem[i] == 0
  {
    StaysOk(b, ops, pageSize);
    assert (ops + [Resize(n, true)])[..|ops|] == ops;
  }
}

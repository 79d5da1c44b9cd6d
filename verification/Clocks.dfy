/** Vector clocks: the mathematical values the detector compares, and the
    mutable `VClock` object that holds one. */
module Clocks {
  import opened Basics

  const MAX_THREADS: nat := 64

  type Tid = t: nat | t < MAX_THREADS

  type Clock = c: seq<nat> | |c| == MAX_THREADS witness seq(MAX_THREADS, _ => 0)

  function Zero(): (c: Clock)
    ensures forall t: Tid :: c[t] == 0
  {
    seq(MAX_THREADS, _ => 0)
  }

  /** Pointwise order: everything `a` has seen, `b` has seen. */
  predicate Leq(a: Clock, b: Clock) {
    forall t: Tid :: a[t] <= b[t]
  }

  function Join(a: Clock, b: Clock): Clock {
    seq(MAX_THREADS, i requires 0 <= i < MAX_THREADS => if b[i] > a[i] then b[i] else a[i])
  }

  /** Advancing one component, with no bound on its size. */
  function Tick(c: Clock, t: Tid): Clock {
    c[t := c[t] + 1]
  }

  /** Advancing one component in 64-bit arithmetic. */
  function Tick64(c: Clock, t: Tid): Clock {
    c[t := (c[t] + 1) % UINT64_LIMIT]
  }

  lemma JoinIsLeastUpperBound(a: Clock, b: Clock, d: Clock)
    ensures Leq(Join(a, b), d) <==> Leq(a, d) && Leq(b, d)
  {
    forall t: Tid
      ensures a[t] <= Join(a, b)[t] && b[t] <= Join(a, b)[t]
    {
    }
  }

  class VClock {
    const clk: array<uint64>

    ghost predicate Valid() reads this, clk {
      clk.Length == MAX_THREADS
    }

    ghost function Value(): Clock
      requires Valid()
      reads this, clk
    {
      clk[..]
    }

    constructor ()
      ensures Valid() && fresh(clk) && Value() == Zero()
    {
      clk := new uint64[MAX_THREADS](_ => 0);
      new;
      assert clk[..] == Zero();
    }

    function Get(tid: Tid): (v: uint64)
      requires Valid()
      reads this, clk
      ensures v == Value()[tid]
    {
      clk[tid]
    }

    method Set(tid: Tid, val: uint64)
      requires Valid()
      modifies clk
      ensures Valid() && Value() == old(Value())[tid := val]
    {
      clk[tid] := val;
    }

    method Increment(tid: Tid)
      requires Valid()
      modifies clk
      ensures Valid() && Value() == Tick64(old(Value()), tid)
    {
      clk[tid] := if clk[tid] == UINT64_LIMIT - 1 then 0 else clk[tid] + 1;
    }

    method HappensBefore(other: VClock) returns (r: bool)
      requires Valid() && other.Valid()
      ensures r == Leq(Value(), other.Value())
    {
      var i := 0;
      while i < MAX_THREADS
        invariant 0 <= i <= MAX_THREADS
        invariant forall j :: 0 <= j < i ==> clk[j] <= other.clk[j]
      {
        if clk[i] > other.clk[i] {
          assert !(Value()[i] <= other.Value()[i]);
          return false;
        }
        i := i + 1;
      }
      return true;
    }

    /** `other` may be this very clock. */
    method JoinWith(other: VClock)
      requires Valid() && other.Valid()
      modifies clk
      ensures Valid() && Value() == Join(old(Value()), old(other.Value()))
    {
      var i := 0;
      while i < MAX_THREADS
        invariant 0 <= i <= MAX_THREADS
        invariant forall j :: 0 <= j < i ==> clk[j] == Join(old(Value()), old(other.Value()))[j]
        invariant forall j :: i <= j < MAX_THREADS ==> clk[j] == old(clk[j])
        invariant clk != other.clk ==> other.Value() == old(other.Value())
      {
        if other.clk[i] > clk[i] {
          clk[i] := other.clk[i];
        }
        i := i + 1;
      }
    }
  }
}

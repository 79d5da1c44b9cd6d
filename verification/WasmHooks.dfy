/** How instrumented Wasm code reaches the detector: the dispatch on a traced memory
    operation and the sampling of bulk operations. */
module WasmHooks {
  import opened Arithmetic
  import opened Basics
  import opened Clocks
  import opened Shadow
  import opened Detector
  import opened Races
  import opened Disciplines
  import opened Ticking

  datatype TracedOp = TracedOp(isAtomic: bool, isStore: bool, offset: nat, size: nat)

  /** What a traced operation calls: the recording of a plain access, which looks up the
      thread itself, or the synchronization of an atomic one. */
  datatype Hook = PlainHook(offset: nat, size: nat, isStore: bool) | AtomicHook(event: Event)

  /** The hook a traced operation fires, if any. The tracer marks a read-modify-write as a
      store. Without a thread id atomics are not hooked; plain accesses are not while a
      report is being printed. */
  function HookOf(op: TracedOp, tid: Option<Tid>, inReport: bool, buffer: nat): Option<Hook> {
    if !op.isAtomic then
      if inReport then None else Some(PlainHook(op.offset, op.size, op.isStore))
    else if tid.None? then None
    else Some(AtomicHook(Sync(tid.value, if op.isStore then Rmw else Load, Location(buffer + op.offset))))
  }

  method TraceMemory(op: TracedOp, tid: Option<Tid>, inReport: bool, buffer: nat) returns (hook: Option<Hook>)
    ensures hook == HookOf(op, tid, inReport, buffer)
    ensures hook.None? <==> (op.isAtomic && tid.None?) || (!op.isAtomic && inReport)
    ensures hook.Some? && hook.value.PlainHook? ==>
              !op.isAtomic && hook.value == PlainHook(op.offset, op.size, op.isStore)
    ensures hook.Some? && hook.value.AtomicHook? ==>
              && op.isAtomic
              && hook.value.event.Sync? && Some(hook.value.event.tid) == tid
              && hook.value.event.key == Location(buffer + op.offset)
              && hook.value.event.op == if op.isStore then Rmw else Load
  {
    if op.isAtomic {
      var location := Location(buffer + op.offset);
      if tid.Some? {
        if !op.isStore {
          return Some(AtomicHook(Sync(tid.value, Load, location)));
        } else {
          return Some(AtomicHook(Sync(tid.value, Rmw, location)));
        }
      }
    } else {
      if inReport {
        return None;
      }
      return Some(PlainHook(op.offset, op.size, op.isStore));
    }
    return None;
  }

  ghost predicate FiredBy(e: Event, op: TracedOp, tid: Option<Tid>, inReport: bool, buffer: nat) {
    HookOf(op, tid, inReport, buffer) == Some(AtomicHook(e))
  }

  /** Every synchronization in the run comes from a traced operation of Wasm code. */
  ghost predicate Traced(r: Run, buffer: nat) {
    forall i :: 0 <= i < |r.events| && r.events[i].Sync? ==>
      exists op, tid, inReport :: FiredBy(r.events[i], op, tid, inReport, buffer)
  }

  /** Every synchronization on `k` acquires, and none erases its clock. */
  predicate AlwaysAcquires(r: Run, k: Key) {
    forall i :: 0 <= i < |r.events| && r.events[i].Sync? && r.events[i].key == k ==>
      Acquires(r.events[i].op) && !Erases(r.events[i].op)
  }

  /** Where every synchronization on a location acquires, each release is ordered before
      every later operation on the location, even if publications replace one another. */
  lemma LocationTotallyOrdered(r: Run, k: Key, i: nat, j: nat)
    requires AlwaysAcquires(r, k)
    requires i < j < |r.events| && r.PublishesTo(i, k) && r.events[j].Sync? && r.events[j].key == k
    ensures r.HappensBefore(i, j)
  {
    forall m | i < m < j
      ensures !Uncut(r).Discards(m, k)
    {
    }
    PublicationArrives(r, k, i, j);
  }

  /** Traced code always acquires, so its atomics totally order what they publish, and the
      detector's reports on it are justified whether or not the hooks replace clocks. */
  lemma TracedRunsAreSound(r: Run, buffer: nat)
    requires Traced(r, buffer)
    ensures forall k :: AlwaysAcquires(r, k)
    ensures forall n: nat :: n < |r.events| ==> Justified(r, n)
  {
    forall i | 0 <= i < |r.events| && r.events[i].Sync?
      ensures Acquires(r.events[i].op) && !Erases(r.events[i].op)
    {
      var op, tid, inReport :| FiredBy(r.events[i], op, tid, inReport, buffer);
    }
    assert forall k :: AlwaysAcquires(r, k) ==> LosesNothing(r, k);
    forall n: nat | n < |r.events|
      ensures Justified(r, n)
    {
      NoFalseReportsUncut(r, n);
    }
  }

  /** It sends no messages either, so the first racing write of a traced run is found. */
  lemma TracedRunsFindFirstRace(r: Run, buffer: nat, n: nat)
    requires r.cfg == HOOKS && Traced(r, buffer)
    requires n < |r.events| && r.events[n].Access? && r.events[n].isWrite
    requires Quiet(r, n) && OneThreadPerParity(r, n)
    ensures r.ReportAt(n).Some? <==> exists i: nat, b: nat :: DataRace(r, i, n, b)
  {
    TracedRunsAreSound(r, buffer);
    forall m | 0 <= m < n && r.events[m].Sync?
      ensures r.events[m].op != Send
    {
      assert AlwaysAcquires(r, r.events[m].key);
    }
    FirstRaceWithoutMessages(r, n);
  }

  // Bulk operations.

  const MAX_SAMPLES: nat := 64

  function SampleCount(size: nat): nat {
    if size < MAX_SAMPLES then size else MAX_SAMPLES
  }

  ghost predicate Increasing(bytes: seq<nat>) {
    forall i, j :: 0 <= i < j < |bytes| ==> bytes[i] < bytes[j]
  }

  ghost predicate EvenlySpaced(bytes: seq<nat>, from: nat, stride: nat) {
    forall i :: 0 <= i < |bytes| ==> bytes[i] == from + i * stride
  }

  /** The sampled offsets: evenly spaced, distinct, inside the range; the guard
      against running off the end never fires. Past the last sample's stride fewer
      bytes remain than there are samples, and none when the range is short. */
  method SampleRange(offset: nat, size: nat) returns (samples: seq<nat>)
    ensures |samples| == SampleCount(size) && Increasing(samples)
    ensures forall o :: o in samples ==> offset <= o < offset + size
    ensures size <= MAX_SAMPLES ==> forall o :: offset <= o < offset + size ==> o in samples
    ensures size > 0 ==> exists stride: nat ::
              EvenlySpaced(samples, offset, stride) && stride >= 1 && 0 <= size - |samples| * stride < |samples|
  {
    samples := [];
    if size == 0 {
      return;
    }
    var n := if size < MAX_SAMPLES then size else MAX_SAMPLES;
    var stride := size / n;
    if stride == 0 {
      stride := 1;
    }
    StrideFits(size, n);
    var i := 0;
    while i < n
      invariant 0 <= i <= n && |samples| == i
      invariant EvenlySpaced(samples, offset, stride)
    {
      var o := offset + i * stride;
      MulMonotone(i, n - 1, stride);
      if o >= offset + size {
        assert false;
        break;
      }
      samples := samples + [o];
      i := i + 1;
    }
    SpacedSamples(samples, offset, size, stride);
  }

  lemma SpacedSamples(samples: seq<nat>, offset: nat, size: nat, stride: nat)
    requires |samples| > 0 && stride >= 1 && EvenlySpaced(samples, offset, stride)
    requires (|samples| - 1) * stride < size
    ensures Increasing(samples)
    ensures forall o :: o in samples ==> offset <= o < offset + size
    ensures stride == 1 && size == |samples| ==> forall o :: offset <= o < offset + size ==> o in samples
  {
    forall a, b | 0 <= a < b < |samples|
      ensures samples[a] < samples[b]
    {
      MulApart(a, b, stride);
    }
    forall k | 0 <= k < |samples|
      ensures offset <= samples[k] < offset + size
    {
      MulMonotone(k, |samples| - 1, stride);
    }
    forall o | stride == 1 && size == |samples| && offset <= o < offset + size
      ensures o in samples
    {
      assert samples[o - offset] == o;
    }
  }

  lemma StrideFits(size: nat, n: nat)
    requires 0 < n <= size
    ensures size / n >= 1 && 0 <= size - n * (size / n) < n
    ensures (n - 1) * (size / n) < size
  {
  }

  /** Recording single bytes one after the other, each its own access. */
  function RecordEach(s: seq<Slots>, bytes: seq<nat>, t: Tid, isWrite: bool, clock: Clock)
    : (r: (seq<Slots>, seq<Report>))
    ensures |r.0| == |s|
    decreases |bytes|
  {
    if bytes == [] then (s, [])
    else
      var first := Record(s, bytes[0], 1, t, isWrite, clock);
      var rest := RecordEach(first.0, bytes[1..], t, isWrite, clock);
      (rest.0, (if first.1.Some? then [first.1.value] else []) + rest.1)
  }

  lemma TailIncreases(bytes: seq<nat>)
    requires bytes != [] && Increasing(bytes)
    ensures Increasing(bytes[1..]) && forall b :: b in bytes[1..] ==> bytes[0] < b
    ensures forall b :: b in bytes <==> b == bytes[0] || b in bytes[1..]
  {
    var rest := bytes[1..];
    assert bytes == [bytes[0]] + rest;
    forall b | b in rest
      ensures bytes[0] < b
    {
      var i :| 0 <= i < |rest| && rest[i] == b;
      assert bytes[i + 1] == b;
    }
  }

  /** Separately recorded bytes are reported exactly where the shadow they started
      from holds a racing cell. */
  lemma {:induction false} RecordEachReports(s: seq<Slots>, bytes: seq<nat>, t: Tid, isWrite: bool, clock: Clock)
    requires Increasing(bytes) && forall b :: b in bytes ==> b < |s|
    ensures RecordEach(s, bytes, t, isWrite, clock).1 == [] <==>
            forall b :: b in bytes ==> !ByteRaces(s[b], t, isWrite, clock)
    decreases |bytes|
  {
    if bytes == [] {
    } else {
      var b0, rest := bytes[0], bytes[1..];
      TailIncreases(bytes);
      RecordReportsFirstRace(s, b0, 1, t, isWrite, clock);
      RecordEachReports(Record(s, b0, 1, t, isWrite, clock).0, rest, t, isWrite, clock);
    }
  }

  /** Sampling never adds a report: if a sampled bulk access reports anything, an
      access to the whole range from the same shadow would too; up to 64 bytes the
      two agree. */
  lemma SamplingAddsNoReports(s: seq<Slots>, offset: nat, size: nat, samples: seq<nat>,
                              t: Tid, isWrite: bool, clock: Clock)
    requires offset + size <= |s|
    requires Increasing(samples) && forall o :: o in samples ==> offset <= o < offset + size
    ensures RecordEach(s, samples, t, isWrite, clock).1 != [] ==> Record(s, offset, size, t, isWrite, clock).1.Some?
    ensures (forall o :: offset <= o < offset + size ==> o in samples) ==>
              (RecordEach(s, samples, t, isWrite, clock).1 != [] <==>
                  Record(s, offset, size, t, isWrite, clock).1.Some?)
  {
    RecordEachReports(s, samples, t, isWrite, clock);
    RecordReportsFirstRace(s, offset, size, t, isWrite, clock);
  }
}

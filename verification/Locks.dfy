/** Consistent locking against the detector: what mutexes and reader-writer locks keep
    silent, and what they do not. */
module Locks {
  import opened Shadow
  import opened Detector
  import opened Races

  predicate Takes(op: Op) {
    op.Lock? || op.ReadLock?
  }

  /** What ends the section that `op` begins. */
  function Closing(op: Op): Op {
    if op.Lock? then Unlock else ReadUnlock
  }

  predicate TakesAt(r: Run, l: nat, k: Key) {
    l < |r.events| && r.events[l].Sync? && r.events[l].key == k && Takes(r.events[l].op)
  }

  /** Event `u` ends the section of `k` that event `l` began. */
  predicate ClosesAt(r: Run, u: nat, l: nat, k: Key)
    requires TakesAt(r, l, k)
  {
    && l < u < |r.events| && r.events[u].Sync? && r.events[u].key == k
    && r.Tid(u) == r.Tid(l) && r.events[u].op == Closing(r.events[l].op)
  }

  /** The program's lock works: of two sections, not both readers', the first has ended
      before the second begins, and the lock is not created or destroyed between them. */
  ghost predicate LockWorks(r: Run, k: Key) {
    && (forall l: nat, l': nat ::
         TakesAt(r, l, k) && TakesAt(r, l', k) && l < l' && (r.events[l].op.Lock? || r.events[l'].op.Lock?) ==>
           exists u: nat :: u < l' && ClosesAt(r, u, l, k))
    && (forall l: nat, m: nat, l': nat ::
         TakesAt(r, l, k) && TakesAt(r, l', k) && l < m < l' ==> !r.Discards(m, k))
  }

  /** Access `n` is made inside the section of `k` that event `l` began, a write in one
      that excludes readers. */
  ghost predicate Inside(r: Run, n: nat, k: Key, l: nat) {
    && n < |r.events| && r.events[n].Access? && l < n && TakesAt(r, l, k)
    && r.Tid(l) == r.Tid(n)
    && (r.events[n].isWrite ==> r.events[l].op.Lock?)
    && forall u: nat :: u < n ==> !ClosesAt(r, u, l, k)
  }

  /** Every access to byte `b` up to event `n` is made inside a section of `k`. */
  ghost predicate Guarded(r: Run, b: nat, k: Key, n: nat)
    requires n < |r.events|
  {
    forall i: nat :: i <= n && r.Touches(i, b) ==> exists l: nat :: Inside(r, i, k, l)
  }

  /** Of two conflicting accesses in sections of `k` the first happens before the second,
      unless it is a reader's. */
  lemma SectionsOrder(r: Run, k: Key, i: nat, li: nat, n: nat, ln: nat)
    requires LockWorks(r, k) && i < n && Inside(r, i, k, li) && Inside(r, n, k, ln)
    requires r.Tid(i) != r.Tid(n) && (r.events[i].isWrite || r.events[n].isWrite)
    ensures r.HappensBefore(i, n) || (r.events[li].op.ReadLock? && !r.events[i].isWrite && r.events[n].isWrite)
  {
    if li < ln {
      var u: nat :| u < ln && ClosesAt(r, u, li, k);
      assert i < u;
      if r.events[li].op.Lock? {
        assert r.Survives(u, k, ln);
        assert r.Edge(i, u) && r.Edge(u, ln) && r.Edge(ln, n);
        assert r.HappensBefore(i, u) && r.HappensBefore(i, ln);
      }
    }
  }

  /** Access `i` is a reader's. */
  ghost predicate Reads(r: Run, i: nat, k: Key) {
    exists l: nat :: Inside(r, i, k, l) && r.events[l].op.ReadLock? && !r.events[i].isWrite
  }

  /** A report at a guarded byte is of a write after a reader's read. */
  lemma GuardedReports(r: Run, n: nat, k: Key)
    requires n < |r.events| && r.ReportAt(n).Some? && LockWorks(r, k)
    requires Guarded(r, r.ReportAt(n).value.byte, k, n)
    ensures r.events[n].isWrite && exists i: nat :: Names(r, n, i) && Reads(r, i, k)
  {
    NoFalseReports(r, n);
    var b := r.ReportAt(n).value.byte;
    var i: nat :| Names(r, n, i) && VisibleRace(r, i, n, b);
    var li: nat :| Inside(r, i, k, li);
    var ln: nat :| Inside(r, n, k, ln);
    SectionsOrder(r, k, i, li, n, ln);
  }

  /** Accesses guarded by a mutex are never reported. */
  lemma MutexedIsSilent(r: Run, n: nat, k: Key)
    requires n < |r.events| && r.events[n].Access? && LockWorks(r, k)
    requires forall l: nat :: TakesAt(r, l, k) ==> r.events[l].op.Lock?
    requires forall b: nat :: r.Touches(n, b) ==> Guarded(r, b, k, n)
    ensures r.ReportAt(n).None?
  {
    if r.ReportAt(n).Some? {
      NoFalseReports(r, n);
      GuardedReports(r, n, k);
    }
  }

  /** Up to the first report, exactly: a write in its section is reported if and only if
      it is in a visible race with a reader's read. */
  lemma FirstGuardedReportExact(r: Run, n: nat, k: Key)
    requires n < |r.events| && r.events[n].Access? && r.events[n].isWrite && LockWorks(r, k)
    requires forall b: nat :: r.Touches(n, b) ==> Guarded(r, b, k, n)
    requires Quiet(r, n) && OneThreadPerParity(r, n)
    ensures r.ReportAt(n).Some? <==> exists i: nat, b: nat :: VisibleRace(r, i, n, b) && Reads(r, i, k)
  {
    FirstRaceReported(r, n);
    if i: nat, b: nat :| VisibleRace(r, i, n, b) {
      var li: nat :| Inside(r, i, k, li);
      var ln: nat :| Inside(r, n, k, ln);
      SectionsOrder(r, k, i, li, n, ln);
      assert Reads(r, i, k);
    }
  }

  const LOCK: Key := Location(0)

  /** Such a report is false: the reader's read is over before the writer has the lock. */
  lemma ReaderReported(r: Run)
    requires r == Run(HOOKS, 1, [Sync(0, ReadLock, LOCK), Access(0, 0, 1, false), Sync(0, ReadUnlock, LOCK),
                                 Sync(1, Lock, LOCK), Access(1, 0, 1, true)])
    ensures r.cfg == HOOKS && |r.events| == 5 && r.length == 1
    ensures LockWorks(r, LOCK) && Guarded(r, 0, LOCK, 4) && Quiet(r, 4) && r.ReportAt(4).Some?
  {
    ReaderGuarded(r);
    ReaderStates(r);
    ReaderReports(r);
  }

  lemma ReaderGuarded(r: Run)
    requires r.cfg == HOOKS && r.length == 1 && |r.events| == 5
    requires r.events[0] == Sync(0, ReadLock, LOCK) && r.events[1] == Access(0, 0, 1, false)
    requires r.events[2] == Sync(0, ReadUnlock, LOCK)
    requires r.events[3] == Sync(1, Lock, LOCK) && r.events[4] == Access(1, 0, 1, true)
    ensures LockWorks(r, LOCK) && Guarded(r, 0, LOCK, 4)
  {
    forall l: nat | TakesAt(r, l, LOCK)
      ensures l == 0 || l == 3
    {
    }
    assert ClosesAt(r, 2, 0, LOCK);
    assert Inside(r, 1, LOCK, 0) && Inside(r, 4, LOCK, 3);
  }

  lemma ReportsByte(r: Run, n: nat)
    requires r.length == 1 && n < |r.events|
    requires r.events[n].Access? ==> r.events[n].offset == 0 && r.events[n].size == 1
    ensures r.ReportAt(n).Some? <==>
            r.events[n].Access?
            && ByteRaces(r.At(n).shadow[0], r.Tid(n), r.events[n].isWrite, r.At(n).clocks[r.Tid(n)])
  {
    if r.events[n].Access? {
      var e := r.events[n];
      RecordReportsFirstRace(r.At(n).shadow, 0, 1, e.tid, e.isWrite, r.At(n).clocks[e.tid]);
    }
  }

  lemma ReaderReports(r: Run)
    requires r.length == 1 && |r.events| == 5
    requires r.events[0].Sync? && r.events[2].Sync? && r.events[3].Sync?
    requires r.events[1] == Access(0, 0, 1, false) && r.events[4] == Access(1, 0, 1, true)
    requires r.At(1).shadow[0] == Slots(EMPTY, EMPTY)
    requires r.At(4).shadow[0] == Slots(Cell(0, 1, false, true), EMPTY) && r.At(4).clocks[1][0] == 0
    ensures Quiet(r, 4) && r.ReportAt(4).Some?
  {
    forall m: nat | m < 5
      ensures r.ReportAt(m).Some? <==> m == 4
    {
      ReportsByte(r, m);
    }
  }

  lemma ReaderStates(r: Run)
    requires r == Run(HOOKS, 1, [Sync(0, ReadLock, LOCK), Access(0, 0, 1, false), Sync(0, ReadUnlock, LOCK),
                                 Sync(1, Lock, LOCK), Access(1, 0, 1, true)])
    ensures r.At(1).shadow[0] == Slots(EMPTY, EMPTY)
    ensures r.At(4).shadow[0] == Slots(Cell(0, 1, false, true), EMPTY) && r.At(4).clocks[1][0] == 0
  {
    assert r.At(0) == Init(1);
    assert r.At(1).shadow == Init(1).shadow && r.At(1).clocks[0][0] == 1 && r.At(1).clocks[1][0] == 0;
    assert r.At(1).sync == map[];
    assert r.At(2).shadow[0] == Slots(Cell(0, 1, false, true), EMPTY) && r.At(2).sync == map[];
    assert r.At(2).clocks == r.At(1).clocks;
    assert r.At(3).shadow == r.At(2).shadow && r.At(3).sync == map[] && r.At(3).clocks[1][0] == 0;
    assert r.At(4).shadow == r.At(2).shadow && r.At(4).clocks[1][0] == 0;
  }
}

/** What the detector does and does not report, over every run. */
module Races {
  import opened Basics
  import opened Shadow
  import opened Detector
  import opened Causality

  /** Access `j` was written into the shadow of byte `b`: in range, and not past the
      byte at which `j` itself was reported. */
  predicate Recorded(r: Run, j: nat, b: nat)
    requires j < |r.events|
  {
    r.Touches(j, b) && (r.ReportAt(j).Some? ==> b <= r.ReportAt(j).value.byte)
  }

  /** The last number below `n` that satisfies `f`. */
  function LastHit(f: nat -> bool, n: nat): (j: Option<nat>)
    ensures j.Some? ==> j.value < n && f(j.value)
  {
    if n == 0 then None else if f(n - 1) then Some(n - 1) else LastHit(f, n - 1)
  }

  lemma {:induction false} LastHitIs(f: nat -> bool, n: nat, i: nat)
    requires i < n && f(i) && forall k :: i < k < n ==> !f(k)
    ensures LastHit(f, n) == Some(i)
    decreases n
  {
    if i == n - 1 {
    } else {
      LastHitIs(f, n - 1, i);
    }
  }

  lemma {:induction false} NoHitLater(f: nat -> bool, n: nat, k: nat)
    requires k < n && f(k)
    ensures LastHit(f, n).Some? && k <= LastHit(f, n).value
    decreases n
  {
    if k == n - 1 {
    } else {
      NoHitLater(f, n - 1, k);
    }
  }

  /** The accesses recorded at `b` by threads of parity `c`. */
  function RecordedIn(r: Run, b: nat, c: nat): nat -> bool {
    (j: nat) => j < |r.events| && Recorded(r, j, b) && r.Tid(j) % 2 == c
  }

  /** The last access before `n` recorded at `b` by a thread of parity `c`. */
  function LastRecorded(r: Run, n: nat, b: nat, c: nat): (j: Option<nat>)
    requires n <= |r.events|
    ensures j.Some? ==> j.value < n && Recorded(r, j.value, b) && r.Tid(j.value) % 2 == c
  {
    LastHit(RecordedIn(r, b, c), n)
  }

  function CellOf(r: Run, j: Option<nat>): Cell
    requires j.Some? ==> j.value < |r.events| && r.events[j.value].Access?
  {
    if j.None? then EMPTY
    else Cell(r.Tid(j.value), r.Epoch(j.value), r.events[j.value].isWrite, true)
  }

  lemma ShadowStep(r: Run, n: nat, b: nat, c: nat)
    requires n < |r.events| && b < r.length && c < 2
    ensures r.At(n + 1).shadow[b].At(c) ==
            if Recorded(r, n, b) && r.Tid(n) % 2 == c
            then Cell(r.Tid(n), r.Epoch(n), r.events[n].isWrite, true)
            else r.At(n).shadow[b].At(c)
  {
    if r.events[n].Access? {
      var e := r.events[n];
      var s := r.At(n);
      RecordedUptoReport(s.shadow, e.offset, e.size, e.tid, e.isWrite, s.clocks[e.tid], b);
      assert r.At(n + 1).shadow == Record(s.shadow, e.offset, e.size, e.tid, e.isWrite, s.clocks[e.tid]).0;
    }
  }

  lemma LastRecordedStep(r: Run, n: nat, b: nat, c: nat)
    requires n < |r.events|
    ensures LastRecorded(r, n + 1, b, c) ==
            if Recorded(r, n, b) && r.Tid(n) % 2 == c then Some(n) else LastRecorded(r, n, b, c)
  {
  }

  lemma {:induction false} CellExact(r: Run, n: nat, b: nat, c: nat)
    requires n <= |r.events| && b < r.length && c < 2
    ensures r.At(n).shadow[b].At(c) == CellOf(r, LastRecorded(r, n, b, c))
  {
    if n == 0 {
    } else {
      var m := n - 1;
      CellExact(r, m, b, c);
      ShadowStep(r, m, b, c);
      LastRecordedStep(r, m, b, c);
    }
  }

  /** Shadow exactness: the even cell of a byte holds the last access recorded there by a
      thread with an even id, the odd one that of a thread with an odd id, with that
      access's epoch and kind, and nothing else. */
  lemma ShadowExact(r: Run, n: nat, b: nat)
    requires n <= |r.events| && b < r.length
    ensures r.At(n).shadow[b] == Slots(CellOf(r, LastRecorded(r, n, b, 0)), CellOf(r, LastRecorded(r, n, b, 1)))
  {
    CellExact(r, n, b, 0);
    CellExact(r, n, b, 1);
  }

  /** The last recorded access `j` of parity `c` at byte `b` conflicts with access `n`
      and is not covered by its clock. */
  predicate Exposes(r: Run, n: nat, b: nat, c: nat, j: nat)
    requires n < |r.events| && r.events[n].Access?
  {
    && r.Touches(n, b)
    && c < 2
    && LastRecorded(r, n, b, c) == Some(j)
    && r.Tid(j) != r.Tid(n)
    && (r.events[j].isWrite || r.events[n].isWrite)
    && r.At(n).clocks[r.Tid(n)][r.Tid(j)] < r.Epoch(j)
  }

  lemma ExposedIsRacingCell(r: Run, n: nat, b: nat, c: nat)
    requires n < |r.events| && r.events[n].Access? && r.Touches(n, b) && c < 2
    ensures var e := r.events[n];
            Races(r.At(n).shadow[b].At(c), e.tid, e.isWrite, r.At(n).clocks[e.tid]) <==>
            exists j: nat :: Exposes(r, n, b, c, j)
  {
    CellExact(r, n, b, c);
    var j := LastRecorded(r, n, b, c);
    if j.Some? {
      assert Exposes(r, n, b, c, j.value) <==>
             Races(CellOf(r, j), r.Tid(n), r.events[n].isWrite, r.At(n).clocks[r.Tid(n)]);
    }
  }

  /** The shadow of byte `b` holds a cell that races with access `n`. */
  predicate RacesAt(r: Run, n: nat, b: nat)
    requires n < |r.events| && r.events[n].Access?
  {
    b < r.length && ByteRaces(r.At(n).shadow[b], r.Tid(n), r.events[n].isWrite, r.At(n).clocks[r.Tid(n)])
  }

  lemma RacesAtExactly(r: Run, n: nat, b: nat)
    requires n < |r.events| && r.events[n].Access? && r.Touches(n, b)
    ensures RacesAt(r, n, b) <==> exists c: nat, j: nat :: Exposes(r, n, b, c, j)
  {
    ExposedIsRacingCell(r, n, b, 0);
    ExposedIsRacingCell(r, n, b, 1);
    if c: nat, j: nat :| Exposes(r, n, b, c, j) {
      ExposedIsRacingCell(r, n, b, c);
    }
  }

  lemma ReportedSomewhere(r: Run, n: nat)
    requires n < |r.events| && r.events[n].Access?
    ensures r.ReportAt(n).Some? <==> exists b: nat :: r.Touches(n, b) && RacesAt(r, n, b)
  {
    var e := r.events[n];
    var s := r.At(n);
    RecordReportsFirstRace(s.shadow, e.offset, e.size, e.tid, e.isWrite, s.clocks[e.tid]);
    if r.ReportAt(n).Some? {
      var b := r.ReportAt(n).value.byte;
      assert r.Touches(n, b) && RacesAt(r, n, b);
    }
  }

  /** The verdict, exactly: an access is reported when, at some in-range byte, one of
      the (at most two) remembered accesses is exposed, and only then. */
  lemma VerdictExact(r: Run, n: nat)
    requires n < |r.events| && r.events[n].Access?
    ensures r.ReportAt(n).Some? <==> exists b: nat, c: nat, j: nat :: Exposes(r, n, b, c, j)
  {
    ReportedSomewhere(r, n);
    if r.ReportAt(n).Some? {
      var b: nat :| r.Touches(n, b) && RacesAt(r, n, b);
      RacesAtExactly(r, n, b);
    }
    if b: nat, c: nat, j: nat :| Exposes(r, n, b, c, j) {
      RacesAtExactly(r, n, b);
    }
  }

  /** `i` is a data race partner of access `n` at byte `b`: another thread, a common
      byte, a write among the two, and no happens-before from `i`. */
  ghost predicate DataRace(r: Run, i: nat, n: nat, b: nat)
    requires n < |r.events|
  {
    && i < n
    && r.Touches(i, b) && r.Touches(n, b)
    && r.Tid(i) != r.Tid(n)
    && (r.events[i].isWrite || r.events[n].isWrite)
    && !r.HappensBefore(i, n)
  }

  /** A data race that no leak hides: no release of `i`'s thread, in `i`'s epoch and
      before it, happens before `n`. */
  ghost predicate VisibleRace(r: Run, i: nat, n: nat, b: nat)
    requires n < |r.events|
  {
    DataRace(r, i, n, b) && !MaskedAt(r, i, n)
  }

  /** A remembered access is exposed exactly when it is in a visible race. */
  lemma ExposedExactly(r: Run, n: nat, b: nat, c: nat, j: nat)
    requires n < |r.events| && r.events[n].Access?
    ensures Exposes(r, n, b, c, j) <==>
            c < 2 && LastRecorded(r, n, b, c) == Some(j) && VisibleRace(r, j, n, b)
  {
    if j < n {
      AccessOrder(r, j, n);
    }
  }

  /** The verdict in terms of happens-before alone, for every run and every choice of
      ticking and overwriting operations. */
  lemma VerdictInHappensBefore(r: Run, n: nat)
    requires n < |r.events| && r.events[n].Access?
    ensures r.ReportAt(n).Some? <==>
            exists b: nat, c: nat, j: nat ::
              c < 2 && LastRecorded(r, n, b, c) == Some(j) && VisibleRace(r, j, n, b)
  {
    VerdictExact(r, n);
    if b: nat, c: nat, j: nat :| Exposes(r, n, b, c, j) {
      ExposedExactly(r, n, b, c, j);
    }
    if b: nat, c: nat, j: nat :|
        c < 2 && LastRecorded(r, n, b, c) == Some(j) && VisibleRace(r, j, n, b) {
      ExposedExactly(r, n, b, c, j);
    }
  }

  /** The report of access `n` names access `i`, recorded at the reported byte, and both
      accesses truthfully. */
  ghost predicate Names(r: Run, n: nat, i: nat)
    requires n < |r.events| && r.ReportAt(n).Some?
  {
    var rep := r.ReportAt(n).value;
    && i < n && r.Touches(n, rep.byte) && Recorded(r, i, rep.byte)
    && rep.tid1 == r.Tid(i) && rep.isWrite1 == r.events[i].isWrite && rep.epoch1 == r.Epoch(i)
    && rep.tid2 == r.Tid(n) && rep.isWrite2 == r.events[n].isWrite && rep.epoch2 == r.Epoch(n)
  }

  /** No false reports: a report names an earlier recorded access, truthfully, and the two
      are a data race. Where a publication replaces the key's clock, synchronization with
      what it replaced is cut in happens-before too; `Disciplines` has the hooks for which
      that makes no difference. */
  lemma NoFalseReports(r: Run, n: nat)
    requires n < |r.events| && r.ReportAt(n).Some?
    ensures exists i: nat :: Names(r, n, i) && VisibleRace(r, i, n, r.ReportAt(n).value.byte)
  {
    var e := r.events[n];
    var s := r.At(n);
    var clock := s.clocks[e.tid];
    var rep := r.ReportAt(n).value;
    RecordReportsFirstRace(s.shadow, e.offset, e.size, e.tid, e.isWrite, clock);
    var c: nat :| c < 2 && Races(s.shadow[rep.byte].At(c), e.tid, e.isWrite, clock)
      && rep == Report(rep.byte, r.length, s.shadow[rep.byte].At(c).tid, s.shadow[rep.byte].At(c).isWrite,
                       s.shadow[rep.byte].At(c).epoch, e.tid, e.isWrite, clock[e.tid]);
    CellExact(r, n, rep.byte, c);
    var i := LastRecorded(r, n, rep.byte, c).value;
    assert Exposes(r, n, rep.byte, c, i);
    ExposedExactly(r, n, rep.byte, c, i);
    assert Names(r, n, i);
  }

  /** The report is of the first exposing byte, and there of the even access if both
      remembered ones are exposed. */
  lemma ReportIsFirst(r: Run, n: nat)
    requires n < |r.events| && r.ReportAt(n).Some?
    ensures r.events[n].Access?
    ensures var rep := r.ReportAt(n).value;
            && (forall b: nat, c: nat, j: nat :: Exposes(r, n, b, c, j) ==> rep.byte <= b)
            && (forall j: nat :: Exposes(r, n, rep.byte, 0, j) ==> rep.tid1 == r.Tid(j))
  {
    var e := r.events[n];
    var s := r.At(n);
    var rep := r.ReportAt(n).value;
    RecordReportsFirstRace(s.shadow, e.offset, e.size, e.tid, e.isWrite, s.clocks[e.tid]);
    forall b: nat, c: nat, j: nat | Exposes(r, n, b, c, j)
      ensures rep.byte <= b
    {
      RacesAtExactly(r, n, b);
    }
    forall j: nat | Exposes(r, n, rep.byte, 0, j)
      ensures rep.tid1 == r.Tid(j)
    {
      ExposedIsRacingCell(r, n, rep.byte, 0);
      CellExact(r, n, rep.byte, 0);
    }
  }

  // Completeness, first for one byte.

  /** Every access to `b` before event `n` was recorded there. */
  predicate RecordedAll(r: Run, n: nat, b: nat)
    requires n <= |r.events|
  {
    forall m :: 0 <= m < n && r.Touches(m, b) ==> Recorded(r, m, b)
  }

  /** At most one thread of each parity accesses `b` up to event `n`. */
  predicate OneThreadPerParityAt(r: Run, n: nat, b: nat)
    requires n < |r.events|
  {
    forall i, j | 0 <= i <= n && 0 <= j <= n && r.Touches(i, b) && r.Touches(j, b) ::
      r.Tid(i) % 2 == r.Tid(j) % 2 ==> r.Tid(i) == r.Tid(j)
  }

  /** `i` is its thread's latest access to `b` before `n`. */
  predicate Latest(r: Run, i: nat, n: nat, b: nat)
    requires n <= |r.events|
  {
    && i < n && r.Touches(i, b)
    && forall m :: i < m < n && r.Touches(m, b) ==> r.Tid(m) != r.Tid(i)
  }

  lemma LatestIsRemembered(r: Run, i: nat, n: nat, b: nat)
    requires i < n < |r.events| && Latest(r, i, n, b) && RecordedAll(r, n, b) && OneThreadPerParityAt(r, n, b)
    ensures LastRecorded(r, n, b, r.Tid(i) % 2) == Some(i)
  {
    var f := RecordedIn(r, b, r.Tid(i) % 2);
    forall k | i < k < n
      ensures !f(k)
    {
      assert Recorded(r, k, b) ==> r.Touches(k, b);
    }
    LastHitIs(f, n, i);
  }

  lemma RememberedIsLatest(r: Run, j: nat, n: nat, b: nat, c: nat)
    requires n <= |r.events| && RecordedAll(r, n, b) && LastRecorded(r, n, b, c) == Some(j)
    ensures Latest(r, j, n, b)
  {
    forall m | j < m < n && r.Touches(m, b)
      ensures r.Tid(m) != r.Tid(j)
    {
      if r.Tid(m) % 2 == c {
        NoHitLater(RecordedIn(r, b, c), n, m);
      }
    }
  }

  lemma {:induction false} LatestExists(r: Run, i: nat, n: nat, m: nat, b: nat) returns (j: nat)
    requires i < m <= n <= |r.events| && r.Touches(i, b)
    ensures i <= j < m && r.Tid(j) == r.Tid(i) && Latest(r, j, m, b)
    decreases m
  {
    if r.Touches(m - 1, b) && r.Tid(m - 1) == r.Tid(i) {
      j := m - 1;
    } else {
      j := LatestExists(r, i, n, m - 1, b);
    }
  }

  /** A byte to which every access was recorded, by one thread of each parity, races with
      access `n` exactly when `n` is in a visible race with some thread's latest access to
      it, whatever was reported elsewhere and however many threads access other bytes. */
  lemma ByteExact(r: Run, n: nat, b: nat)
    requires n < |r.events| && r.Touches(n, b)
    requires RecordedAll(r, n, b) && OneThreadPerParityAt(r, n, b)
    ensures RacesAt(r, n, b) <==> exists i: nat :: Latest(r, i, n, b) && VisibleRace(r, i, n, b)
  {
    RacesAtExactly(r, n, b);
    if c: nat, j: nat :| Exposes(r, n, b, c, j) {
      ExposedExactly(r, n, b, c, j);
      RememberedIsLatest(r, j, n, b, c);
    }
    if i: nat :| Latest(r, i, n, b) && VisibleRace(r, i, n, b) {
      LatestIsRemembered(r, i, n, b);
      ExposedExactly(r, n, b, r.Tid(i) % 2, i);
    }
  }

  /** A write in a visible race with one access to `b` is in one with its thread's latest. */
  lemma LatestIsVisible(r: Run, i: nat, j: nat, n: nat, b: nat)
    requires n < |r.events| && r.Touches(n, b) && r.events[n].isWrite && VisibleRace(r, i, n, b)
    requires i <= j < n && r.Tid(j) == r.Tid(i) && Latest(r, j, n, b)
    ensures VisibleRace(r, j, n, b)
  {
    forall m: nat | i < m < n && r.Tid(m) == r.Tid(i)
      ensures !r.HappensBefore(m, n)
    {
      assert r.Edge(i, m) && r.HappensBefore(i, m);
      if r.HappensBefore(m, n) {
        HappensBeforeTransitive(r, i, m, n);
      }
    }
    forall m: nat | r.Leaks(m, j)
      ensures !r.HappensBefore(m, n)
    {
      assert m < i ==> r.Leaks(m, i);
    }
  }

  /** For a write, with any earlier access to the byte, although only latest ones are kept. */
  lemma WrittenByteExact(r: Run, n: nat, b: nat)
    requires n < |r.events| && r.Touches(n, b) && r.events[n].isWrite
    requires RecordedAll(r, n, b) && OneThreadPerParityAt(r, n, b)
    ensures RacesAt(r, n, b) <==> exists i: nat :: VisibleRace(r, i, n, b)
  {
    ByteExact(r, n, b);
    if i: nat :| VisibleRace(r, i, n, b) {
      var j := LatestExists(r, i, n, n, b);
      LatestIsVisible(r, i, j, n, b);
    }
  }

  // Completeness up to the first report.

  predicate Quiet(r: Run, n: nat)
    requires n <= |r.events|
  {
    forall m :: 0 <= m < n ==> r.ReportAt(m).None?
  }

  /** At most one thread of each parity accesses the buffer up to event `n`. */
  predicate OneThreadPerParity(r: Run, n: nat)
    requires n < |r.events|
  {
    forall i, j | 0 <= i <= n && 0 <= j <= n && r.events[i].Access? && r.events[j].Access? ::
      r.Tid(i) % 2 == r.Tid(j) % 2 ==> r.Tid(i) == r.Tid(j)
  }

  lemma QuietIsRecorded(r: Run, n: nat, b: nat)
    requires n <= |r.events| && Quiet(r, n)
    ensures RecordedAll(r, n, b)
  {
    forall m | 0 <= m < n && r.Touches(m, b)
      ensures Recorded(r, m, b)
    {
      assert r.ReportAt(m).None?;
    }
  }

  /** Before the first report, with one accessing thread per parity, an access is reported
      exactly when it is in a visible race with some thread's latest access to a byte. */
  lemma FirstReportExact(r: Run, n: nat)
    requires n < |r.events| && r.events[n].Access?
    requires Quiet(r, n) && OneThreadPerParity(r, n)
    ensures r.ReportAt(n).Some? <==> exists i: nat, b: nat :: Latest(r, i, n, b) && VisibleRace(r, i, n, b)
  {
    ReportedSomewhere(r, n);
    forall b: nat | r.Touches(n, b)
      ensures RacesAt(r, n, b) <==> exists i: nat :: Latest(r, i, n, b) && VisibleRace(r, i, n, b)
    {
      QuietIsRecorded(r, n, b);
      ByteExact(r, n, b);
    }
  }

  /** Before every access up to event `n` its thread has ticked since it last released
      anything without a tick: a matter of the order of the events alone. */
  ghost predicate AccessesFresh(r: Run, n: nat)
    requires n <= |r.events|
  {
    forall i: nat :: i < n && r.events[i].Access? ==> r.Fresh(i)
  }

  /** First-race completeness: a write is reported exactly when it is in a visible race
      with any earlier access to one of its in-range bytes, and exactly when it is in any
      data race where the earlier accesses are fresh. */
  lemma FirstRaceReported(r: Run, n: nat)
    requires n < |r.events| && r.events[n].Access? && r.events[n].isWrite
    requires Quiet(r, n) && OneThreadPerParity(r, n)
    ensures r.ReportAt(n).Some? <==> exists i: nat, b: nat :: VisibleRace(r, i, n, b)
    ensures AccessesFresh(r, n) ==> (r.ReportAt(n).Some? <==> exists i: nat, b: nat :: DataRace(r, i, n, b))
  {
    ReportedSomewhere(r, n);
    forall b: nat | r.Touches(n, b)
      ensures RacesAt(r, n, b) <==> exists i: nat :: VisibleRace(r, i, n, b)
    {
      QuietIsRecorded(r, n, b);
      WrittenByteExact(r, n, b);
    }
    if AccessesFresh(r, n) {
      forall i: nat, b: nat | DataRace(r, i, n, b)
        ensures VisibleRace(r, i, n, b)
      {
      }
    }
  }
}

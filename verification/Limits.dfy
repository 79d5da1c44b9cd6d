/** Concrete runs on a one-byte buffer marking where the detector's guarantees end. */
module Limits {
  import opened Shadow
  import opened Detector
  import opened Causality
  import opened Races
  import opened Disciplines
  import opened StoreAsRmw

  lemma AccessesTouch(r: Run, i: nat)
    requires r.length == 1 && i < |r.events|
    requires r.events[i].Access? && r.events[i].offset == 0 && r.events[i].size == 1
    ensures r.Touches(i, 0)
  {
  }

  /** Threads of equal parity evict each other: 2's read takes the cell of 0's read,
      so 1's write, ordered after 2 only, is silent although it races with 0. */
  lemma MissedByEviction() returns (r: Run)
    ensures r.cfg == HOOKS && |r.events| == 5
    ensures Quiet(r, 5)
    ensures r.events[4].Access? && r.events[4].isWrite && DataRace(r, 0, 4, 0)
  {
    r := Run(HOOKS, 1,
             [Access(0, 0, 1, false), Access(2, 0, 1, false),
              Sync(2, Notify, HERE), Sync(1, WaitComplete, HERE), Access(1, 0, 1, true)]);
    EvictionStates(r);
    assert r.ReportAt(0).None? && r.ReportAt(1).None? && r.ReportAt(2).None? && r.ReportAt(3).None?
        && r.ReportAt(4).None?;
    AccessesTouch(r, 0);
    AccessesTouch(r, 4);
    AccessOrder(r, 0, 4);
  }

  lemma EvictionStates(r: Run)
    requires r == Run(HOOKS, 1,
             [Access(0, 0, 1, false), Access(2, 0, 1, false),
              Sync(2, Notify, HERE), Sync(1, WaitComplete, HERE), Access(1, 0, 1, true)])
    ensures r.At(0) == Init(1) && r.At(1).clocks == Init(1).clocks && r.At(2).clocks == Init(1).clocks
    ensures r.At(1).shadow[0] == Slots(Cell(0, 1, false, true), EMPTY)
    ensures r.At(4).shadow[0] == Slots(Cell(2, 1, false, true), EMPTY)
    ensures r.At(4).clocks[1][2] == 1 && r.At(4).clocks[1][0] == 0
  {
    assert r.At(0) == Init(1);
    assert r.At(1).shadow[0] == Slots(Cell(0, 1, false, true), EMPTY);
    assert r.At(1).clocks == Init(1).clocks;
    assert r.At(2).shadow[0] == Slots(Cell(2, 1, false, true), EMPTY);
    assert r.At(2).clocks == Init(1).clocks && r.At(2).sync == map[];
    assert r.At(3).SyncClock(HERE)[2] == 1 && r.At(3).SyncClock(HERE)[0] == 0;
    assert r.At(3).clocks[1] == Init(1).clocks[1] && r.At(3).shadow == r.At(2).shadow;
    assert r.At(4).clocks[1][2] == 1 && r.At(4).clocks[1][0] == 0 && r.At(4).shadow == r.At(2).shadow;
  }

  /** A thread's read evicts its own earlier write: the other thread's read then races
      with the write and is silent. */
  lemma MissedWriteBehindRead() returns (r: Run)
    ensures r.cfg == HOOKS && |r.events| == 3
    ensures Quiet(r, 3) && OneThreadPerParity(r, 2)
    ensures r.events[2].Access? && DataRace(r, 0, 2, 0)
  {
    r := Run(HOOKS, 1, [Access(0, 0, 1, true), Access(0, 0, 1, false), Access(1, 0, 1, false)]);
    assert r.At(0) == Init(1);
    assert r.At(1).shadow[0] == Slots(Cell(0, 1, true, true), EMPTY);
    assert r.At(1).clocks == Init(1).clocks;
    assert r.At(2).shadow[0] == Slots(Cell(0, 1, false, true), EMPTY);
    assert r.At(2).clocks == Init(1).clocks;
    assert r.ReportAt(0).None? && r.ReportAt(1).None? && r.ReportAt(2).None?;
    AccessesTouch(r, 0);
    AccessesTouch(r, 2);
    AccessOrder(r, 0, 2);
  }

  /** Under the hooks a store that also acquires hides a true race: 0 writes, each thread
      stores to a location neither of them loads, and 1 writes. */
  lemma StoreAsRmwHidesRace() returns (r: Run)
    ensures r.cfg == HOOKS && |r.events| == 4
    ensures Quiet(r, 3) && r.ReportAt(3).Some? && DataRace(r, 0, 3, 0)
    ensures Quiet(AsRmw(r), 4)
  {
    r := Run(HOOKS, 1, [Access(0, 0, 1, true), Sync(0, Store, HERE), Sync(1, Store, HERE), Access(1, 0, 1, true)]);
    StoresReport(r);
    var q := AsRmw(r);
    assert q.events == [Access(0, 0, 1, true), Sync(0, Rmw, HERE), Sync(1, Rmw, HERE), Access(1, 0, 1, true)];
    RmwsAreQuiet(q);
  }

  lemma StoresReport(r: Run)
    requires r == Run(HOOKS, 1, [Access(0, 0, 1, true), Sync(0, Store, HERE), Sync(1, Store, HERE),
                                 Access(1, 0, 1, true)])
    ensures |r.events| == 4 && Quiet(r, 3) && r.ReportAt(3).Some? && DataRace(r, 0, 3, 0)
  {
    assert r.At(0) == Init(1);
    assert r.At(1).shadow[0] == Slots(Cell(0, 1, true, true), EMPTY) && r.At(1).clocks == Init(1).clocks;
    assert r.At(2).clocks[1] == Init(1).clocks[1] && r.At(2).shadow == r.At(1).shadow;
    assert r.At(3).clocks[1][0] == 0 && r.At(3).shadow == r.At(1).shadow;
    assert ByteRaces(r.At(3).shadow[0], 1, true, r.At(3).clocks[1]);
    assert r.ReportAt(0).None? && r.ReportAt(1).None? && r.ReportAt(2).None?;
    AccessesTouch(r, 0);
    AccessesTouch(r, 3);
    AccessOrder(r, 0, 3);
  }

  lemma RmwsAreQuiet(q: Run)
    requires q == Run(HOOKS, 1, [Access(0, 0, 1, true), Sync(0, Rmw, HERE), Sync(1, Rmw, HERE),
                                 Access(1, 0, 1, true)])
    ensures |q.events| == 4 && Quiet(q, 4)
  {
    assert q.At(0) == Init(1);
    assert q.At(1).shadow[0] == Slots(Cell(0, 1, true, true), EMPTY);
    assert q.At(1).clocks == Init(1).clocks && q.At(1).sync == map[];
    assert q.At(2).SyncClock(HERE)[0] == 1 && q.At(2).shadow == q.At(1).shadow;
    assert q.At(3).clocks[1][0] == 1 && q.At(3).shadow == q.At(1).shadow;
    assert !ByteRaces(q.At(3).shadow[0], 1, true, q.At(3).clocks[1]);
    assert q.ReportAt(0).None? && q.ReportAt(1).None? && q.ReportAt(2).None? && q.ReportAt(3).None?;
  }

  const REPLACING := HOOKS.(overwriting := {Store})

  /** A remark: were a store to replace the location's clock, release alone would forget
      the earlier writer and report an access that is ordered after it, falsely; with the
      store also acquiring, the same run is silent. The hooks join, so it cannot happen. */
  lemma ReleaseOnlyReportsMore() returns (r: Run)
    ensures r.cfg == REPLACING && |r.events| == 5
    ensures r.ReportAt(4).Some? && !Justified(r, 4) && Quiet(AsRmw(r), 5)
  {
    r := Forgetful(REPLACING, Store);
    FalseReport(r, Store);
    ReleaseOnlySilentAsRmw(r);
  }

  lemma ReleaseOnlySilentAsRmw(r: Run)
    requires r == Forgetful(REPLACING, Store)
    ensures |r.events| == 5 && Quiet(AsRmw(r), 5)
  {
    var q := AsRmw(r);
    assert q.events == [Access(0, 0, 1, true), Sync(0, Rmw, HERE), Sync(1, Rmw, HERE),
                        Sync(3, Load, HERE), Access(3, 0, 1, false)];
    RmwStates(q);
    assert !ByteRaces(q.At(4).shadow[0], 3, false, q.At(4).clocks[3]);
    assert q.ReportAt(0).None? && q.ReportAt(1).None? && q.ReportAt(2).None? && q.ReportAt(3).None?
        && q.ReportAt(4).None?;
  }

  lemma RmwStates(q: Run)
    requires q == Run(REPLACING, 1,
             [Access(0, 0, 1, true), Sync(0, Rmw, HERE), Sync(1, Rmw, HERE),
              Sync(3, Load, HERE), Access(3, 0, 1, false)])
    ensures q.At(0) == Init(1)
    ensures q.At(4).shadow[0] == Slots(Cell(0, 1, true, true), EMPTY) && q.At(4).clocks[3][0] >= 1
  {
    assert q.At(0) == Init(1);
    assert q.At(1).shadow[0] == Slots(Cell(0, 1, true, true), EMPTY);
    assert q.At(1).clocks == Init(1).clocks && q.At(1).sync == map[];
    assert q.At(2).shadow == q.At(1).shadow && q.At(2).SyncClock(HERE)[0] == 1;
    assert q.At(3).SyncClock(HERE)[0] >= 1 && q.At(3).shadow == q.At(1).shadow;
    assert q.At(4).clocks[3][0] >= 1 && q.At(4).shadow == q.At(1).shadow;
  }
}

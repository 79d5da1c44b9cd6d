/** What becomes of the detector's guarantees when a release does not tick, as the
    sending of a message does not. */
module Ticking {
  import opened Clocks
  import opened Shadow
  import opened Detector
  import opened Causality
  import opened Races

  /** 0 releases and then writes, 1 acquires and then writes: a race, since the write of 0
      is after its release. */
  function Leaky(cfg: Config, op: Op): Run {
    var (acquire, key) := if op == Send then (Receive, Message(1)) else (Load, Location(0));
    Run(cfg, 1, [Sync(0, op, key), Sync(1, acquire, key), Access(0, 0, 1, true), Access(1, 0, 1, true)])
  }

  lemma LeakyStates(r: Run, op: Op)
    requires r == Leaky(r.cfg, op) && Releases(op) && op !in r.cfg.ticking
    ensures r.At(2).clocks[0][0] == 1 && r.At(2).clocks[1][0] == 1
    ensures r.At(3).clocks == r.At(2).clocks
    ensures r.At(2).shadow[0] == Slots(EMPTY, EMPTY) && r.At(3).shadow[0] == Slots(Cell(0, 1, true, true), EMPTY)
  {
    var key := r.events[0].key;
    assert r.At(0) == Init(1);
    assert r.At(1).clocks[0][0] == 1 && r.At(1).SyncClock(key)[0] == 1 && r.At(1).shadow == Init(1).shadow;
    assert r.At(2).clocks[1][0] == 1 && r.At(2).clocks[0][0] == 1 && r.At(2).shadow == Init(1).shadow;
    assert r.At(3) == Step(r.cfg, r.At(2), r.events[2]).0;
    assert r.events[2] == Access(0, 0, 1, true);
  }

  /** The write of 0 goes unnoticed: 1 knows of its epoch, although it does not happen
      before 1's write. */
  lemma MissedWithoutTick(cfg: Config, op: Op) returns (r: Run)
    requires Releases(op) && op !in cfg.ticking
    ensures r == Leaky(cfg, op) && |r.events| == 4
    ensures Quiet(r, 4) && OneThreadPerParity(r, 3)
    ensures r.events[3].Access? && r.events[3].isWrite && DataRace(r, 2, 3, 0)
    ensures r.At(3).clocks[1][0] >= r.Epoch(2) && !r.ReachesThread(2, 1, 3)
  {
    r := Leaky(cfg, op);
    LeakyIsQuiet(r, op);
    LeakyRaces(r, op);
    LeakyStates(r, op);
  }

  lemma LeakyIsQuiet(r: Run, op: Op)
    requires r == Leaky(r.cfg, op) && Releases(op) && op !in r.cfg.ticking
    ensures |r.events| == 4 && Quiet(r, 4)
  {
    LeakyStates(r, op);
    assert !ByteRaces(r.At(2).shadow[0], 0, true, r.At(2).clocks[0]);
    assert !ByteRaces(r.At(3).shadow[0], 1, true, r.At(3).clocks[1]);
    assert r.ReportAt(2).None? && r.ReportAt(3).None?;
  }

  lemma LeakyRaces(r: Run, op: Op)
    requires r == Leaky(r.cfg, op)
    ensures |r.events| == 4 && !r.ReachesThread(2, 1, 3) && DataRace(r, 2, 3, 0)
  {
    assert !r.ReachesThread(2, 1, 3);
    HappensBeforeUnfold(r, 2, 3);
    assert r.Touches(2, 0) && r.Touches(3, 0);
  }

  /** The clock of `t` tells whether event `i` happens before `t`'s point. */
  ghost predicate Tells(r: Run, i: nat, n: nat, t: Tid)
    requires i < n <= |r.events|
  {
    r.At(n).clocks[t][r.Tid(i)] >= r.Epoch(i) <==> r.ReachesThread(i, t, n)
  }

  ghost predicate ClocksCharacterise(cfg: Config) {
    forall r: Run, i: nat, n: nat, t: Tid :: r.cfg == cfg && i < n <= |r.events| ==> Tells(r, i, n, t)
  }

  /** The exact condition: clocks characterise happens-before in every run if and only if
      every release ticks. */
  lemma CharacterisesExactlyWhenAllTick(cfg: Config)
    ensures ClocksCharacterise(cfg) <==> AllTick(cfg)
  {
    if AllTick(cfg) {
      forall r: Run, i: nat, n: nat, t: Tid | r.cfg == cfg && i < n <= |r.events|
        ensures Tells(r, i, n, t)
      {
        NothingLeaks(r, i);
        ClocksCharacteriseHappensBefore(r, i, n, t);
      }
    } else {
      var op :| Releases(op) && op !in cfg.ticking;
      var r := MissedWithoutTick(cfg, op);
      assert !Tells(r, 2, 3, 1);
    }
  }

  /** If access `n` is a write that may be the first to be reported, it is if it races. */
  ghost predicate FirstRaceFound(r: Run, n: nat)
    requires n < |r.events|
  {
    r.events[n].Access? && r.events[n].isWrite && Quiet(r, n) && OneThreadPerParity(r, n) ==>
      (r.ReportAt(n).Some? <==> exists i: nat, b: nat :: DataRace(r, i, n, b))
  }

  ghost predicate FindsFirstRaces(cfg: Config) {
    forall r: Run, n: nat :: r.cfg == cfg && n < |r.events| ==> FirstRaceFound(r, n)
  }

  /** The same condition decides whether the first race of every run is found. */
  lemma FindsFirstRacesExactlyWhenAllTick(cfg: Config)
    ensures FindsFirstRaces(cfg) <==> AllTick(cfg)
  {
    if AllTick(cfg) {
      forall r: Run, n: nat | r.cfg == cfg && n < |r.events|
        ensures FirstRaceFound(r, n)
      {
        forall i: nat | i < n
          ensures r.Fresh(i)
        {
          NothingLeaks(r, i);
        }
        if r.events[n].Access? && r.events[n].isWrite && Quiet(r, n) && OneThreadPerParity(r, n) {
          FirstRaceReported(r, n);
        }
      }
    } else {
      var op :| Releases(op) && op !in cfg.ticking;
      var r := MissedWithoutTick(cfg, op);
      assert r.ReportAt(3).None? && DataRace(r, 2, 3, 0);
      assert !FirstRaceFound(r, 3);
    }
  }

  /** The hooks leak by sent messages and by nothing else, ... */
  lemma HooksLeakBySending(r: Run, m: nat, i: nat)
    requires r.cfg == HOOKS && i < |r.events|
    ensures r.Leaks(m, i) <==>
            m < i && r.Tid(m) == r.Tid(i) && r.events[m].Sync? && r.events[m].op == Send && r.Steady(r.Tid(i), m, i)
  {
    if r.Leaks(m, i) {
      assert !r.TicksAt(m, r.Tid(i));
    }
  }

  predicate SendsNothing(r: Run, n: nat)
    requires n <= |r.events|
  {
    forall m :: 0 <= m < n && r.events[m].Sync? ==> r.events[m].op != Send
  }

  /** ... so with atomics, waits and mutexes alone the first racing write is found, ... */
  lemma FirstRaceWithoutMessages(r: Run, n: nat)
    requires r.cfg == HOOKS && n < |r.events| && SendsNothing(r, n)
    requires r.events[n].Access? && r.events[n].isWrite && Quiet(r, n) && OneThreadPerParity(r, n)
    ensures r.ReportAt(n).Some? <==> exists i: nat, b: nat :: DataRace(r, i, n, b)
  {
    forall m: nat, i: nat | m < i < n
      ensures !r.Leaks(m, i)
    {
      HooksLeakBySending(r, m, i);
    }
    FirstRaceReported(r, n);
  }

  /** ... and a race right after a message is not: the sender's write and a write of
      the receiver's, which knows of the sender's epoch. */
  lemma MissedAfterSend() returns (r: Run)
    ensures r == Run(HOOKS, 1, [Sync(0, Send, Message(1)), Sync(1, Receive, Message(1)),
                                Access(0, 0, 1, true), Access(1, 0, 1, true)])
    ensures Quiet(r, 4) && OneThreadPerParity(r, 3) && DataRace(r, 2, 3, 0)
    ensures !ClocksCharacterise(HOOKS) && !FindsFirstRaces(HOOKS)
  {
    r := MissedWithoutTick(HOOKS, Send);
    CharacterisesExactlyWhenAllTick(HOOKS);
    FindsFirstRacesExactlyWhenAllTick(HOOKS);
    assert !AllTick(HOOKS) by {
      assert Releases(Send) && Send !in HOOKS.ticking;
    }
  }
}

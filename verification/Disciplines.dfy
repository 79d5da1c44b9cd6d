/** A remark on publications that replace a key's clock, as those of the hooks do not:
    such runs against the relation that knows nothing of replacing. */
module Disciplines {
  import opened Shadow
  import opened Detector
  import opened Races

  /** The same run with nothing ever replaced. */
  function Uncut(r: Run): Run {
    r.(cfg := r.cfg.(overwriting := {}))
  }

  /** What replaces a clock has joined it first. */
  predicate ReplacersAcquire(cfg: Config) {
    forall op :: op in cfg.overwriting && Releases(op) ==> Acquires(op)
  }

  predicate LosesNothing(r: Run, k: Key) {
    forall m :: 0 <= m < |r.events| && r.Replaces(m, k) ==> r.AcquiresFrom(m, k)
  }

  lemma {:induction false} LastReplacer(r: Run, k: Key, i: nat, j: nat) returns (m: nat)
    requires i < j <= |r.events| && Uncut(r).Survives(i, k, j) && !r.Survives(i, k, j)
    ensures i < m < j && r.Replaces(m, k) && r.Survives(m, k, j) && Uncut(r).Survives(i, k, m)
    decreases j
  {
    assert j - 1 > i ==> !Uncut(r).Discards(j - 1, k);
    if r.Replaces(j - 1, k) {
      m := j - 1;
    } else {
      m := LastReplacer(r, k, i, j - 1);
    }
  }

  /** Where whatever replaces a key's clock also acquires it, no publication is lost: each
      happens before every acquire that no erasure parts it from, directly or through its
      replacers. */
  lemma {:induction false} PublicationArrives(r: Run, k: Key, i: nat, j: nat)
    requires LosesNothing(r, k) && j < |r.events| && Uncut(r).Survives(i, k, j) && r.AcquiresFrom(j, k)
    ensures r.HappensBefore(i, j)
    decreases j
  {
    if r.Survives(i, k, j) {
      assert r.Edge(i, j);
    } else {
      var m := LastReplacer(r, k, i, j);
      PublicationArrives(r, k, i, m);
      assert r.Edge(m, j);
    }
  }

  lemma {:induction false} CutIsWithin(r: Run, i: nat, j: nat)
    requires j < |r.events| && r.HappensBefore(i, j)
    ensures Uncut(r).HappensBefore(i, j)
    decreases j
  {
    var m: nat :| i <= m < j && r.Edge(m, j) && (m == i || r.HappensBefore(i, m));
    assert Uncut(r).Edge(m, j) by {
      if r.Tid(m) != r.Tid(j) {
        var k := r.events[j].key;
        forall p | m < p < j
          ensures !Uncut(r).Discards(p, k)
        {
          assert !r.Discards(p, k);
        }
        assert Uncut(r).Survives(m, k, j);
      }
    }
    if m != i {
      CutIsWithin(r, i, m);
    }
  }

  lemma {:induction false} UncutIsWithin(r: Run, i: nat, j: nat)
    requires forall k :: LosesNothing(r, k)
    requires j < |r.events| && Uncut(r).HappensBefore(i, j)
    ensures r.HappensBefore(i, j)
    decreases j
  {
    var m: nat :| i <= m < j && Uncut(r).Edge(m, j) && (m == i || Uncut(r).HappensBefore(i, m));
    if Uncut(r).Tid(m) == Uncut(r).Tid(j) {
      assert r.Edge(m, j) && r.HappensBefore(m, j);
    } else {
      PublicationArrives(r, r.events[j].key, m, j);
    }
    if m != i {
      UncutIsWithin(r, i, m);
      HappensBeforeTransitive(r, i, m, j);
    }
  }

  /** The two relations coincide on runs that lose no publication. */
  lemma RelationsCoincide(r: Run, i: nat, j: nat)
    requires (forall k :: LosesNothing(r, k)) && j < |r.events|
    ensures r.HappensBefore(i, j) <==> Uncut(r).HappensBefore(i, j)
  {
    if r.HappensBefore(i, j) {
      CutIsWithin(r, i, j);
    }
    if Uncut(r).HappensBefore(i, j) {
      UncutIsWithin(r, i, j);
    }
  }

  /** A data race in the relation that knows nothing of replacing. */
  ghost predicate UncutRace(r: Run, i: nat, n: nat, b: nat)
    requires n < |r.events|
  {
    && i < n
    && r.Touches(i, b) && r.Touches(n, b)
    && r.Tid(i) != r.Tid(n)
    && (r.events[i].isWrite || r.events[n].isWrite)
    && !Uncut(r).HappensBefore(i, n)
  }

  /** So do the races, and with them everything proved of the detector. */
  lemma RacesCoincide(r: Run, i: nat, n: nat, b: nat)
    requires (forall k :: LosesNothing(r, k)) && n < |r.events|
    ensures DataRace(r, i, n, b) <==> UncutRace(r, i, n, b)
  {
    RelationsCoincide(r, i, n);
  }

  /** What access `n` reports, if anything, is a race in the uncut relation. */
  ghost predicate Justified(r: Run, n: nat)
    requires n < |r.events|
  {
    r.ReportAt(n).Some? ==> exists i: nat :: Names(r, n, i) && UncutRace(r, i, n, r.ReportAt(n).value.byte)
  }

  lemma NoFalseReportsUncut(r: Run, n: nat)
    requires (forall k :: LosesNothing(r, k)) && n < |r.events|
    ensures Justified(r, n)
  {
    if r.ReportAt(n).Some? {
      NoFalseReports(r, n);
      var b := r.ReportAt(n).value.byte;
      var i: nat :| Names(r, n, i) && VisibleRace(r, i, n, b);
      RacesCoincide(r, i, n, b);
    }
  }

  ghost predicate Sound(cfg: Config) {
    forall r: Run, n: nat :: r.cfg == cfg && n < |r.events| ==> Justified(r, n)
  }

  /** The exact condition: no run has a false report if and only if every operation that
      replaces a clock joins it first. */
  lemma SoundExactlyWhenReplacersAcquire(cfg: Config)
    ensures Sound(cfg) <==> ReplacersAcquire(cfg)
  {
    if ReplacersAcquire(cfg) {
      forall r: Run, n: nat | r.cfg == cfg && n < |r.events|
        ensures Justified(r, n)
      {
        assert forall k :: LosesNothing(r, k);
        NoFalseReportsUncut(r, n);
      }
    } else {
      var op :| op in cfg.overwriting && Releases(op) && !Acquires(op);
      FalseReport(Forgetful(cfg, op), op);
    }
  }

  /** First-race completeness holds in the uncut relation whatever is replaced: cutting
      only ever adds races. It is an equivalence where nothing is lost. */
  lemma FirstUncutRaceReported(r: Run, n: nat)
    requires n < |r.events| && r.events[n].Access? && r.events[n].isWrite
    requires Quiet(r, n) && OneThreadPerParity(r, n) && AccessesFresh(r, n)
    ensures (exists i: nat, b: nat :: UncutRace(r, i, n, b)) ==> r.ReportAt(n).Some?
    ensures (forall k :: LosesNothing(r, k)) ==>
              (r.ReportAt(n).Some? <==> exists i: nat, b: nat :: UncutRace(r, i, n, b))
  {
    FirstRaceReported(r, n);
    if i: nat, b: nat :| UncutRace(r, i, n, b) {
      if r.HappensBefore(i, n) {
        CutIsWithin(r, i, n);
      }
      assert DataRace(r, i, n, b);
    }
    if r.ReportAt(n).Some? && forall k :: LosesNothing(r, k) {
      var i: nat, b: nat :| DataRace(r, i, n, b);
      RacesCoincide(r, i, n, b);
    }
  }

  /** The hooks replace nothing, so for them the two relations are one. */
  lemma HooksAreUncut(r: Run)
    requires r.cfg == HOOKS
    ensures Uncut(r) == r && forall k :: LosesNothing(r, k)
  {
  }

  // A false report where a release replaces what it has not acquired.

  const HERE: Key := Location(0)

  /** 0 writes and publishes, 1 replaces that unseen, 3 acquires and reads. */
  function Forgetful(cfg: Config, op: Op): Run {
    Run(cfg, 1, [Access(0, 0, 1, true), Sync(0, op, HERE), Sync(1, op, HERE), Sync(3, Load, HERE),
        Access(3, 0, 1, false)])
  }

  lemma ForgetfulStates(r: Run, op: Op)
    requires r == Forgetful(r.cfg, op) && op in r.cfg.overwriting && Releases(op) && !Acquires(op)
    ensures r.At(0) == Init(1)
    ensures r.At(4).shadow[0] == Slots(Cell(0, 1, true, true), EMPTY) && r.At(4).clocks[3][0] == 0
  {
    assert r.At(0) == Init(1);
    assert r.At(1).shadow[0] == Slots(Cell(0, 1, true, true), EMPTY);
    assert r.At(1).clocks == Init(1).clocks;
    assert r.At(2).shadow == r.At(1).shadow;
    assert r.At(2).clocks[1] == Init(1).clocks[1] && r.At(2).clocks[3] == Init(1).clocks[3];
    assert r.At(3).SyncClock(HERE)[0] == 0 && r.At(3).shadow == r.At(1).shadow;
    assert r.At(3).clocks[3] == Init(1).clocks[3];
    assert r.At(4).clocks[3][0] == 0 && r.At(4).shadow == r.At(1).shadow;
  }

  lemma FalseReport(r: Run, op: Op)
    requires r == Forgetful(r.cfg, op) && op in r.cfg.overwriting && Releases(op) && !Acquires(op)
    ensures |r.events| == 5 && r.ReportAt(4).Some? && Uncut(r).HappensBefore(0, 4) && !Justified(r, 4)
  {
    ForgetfulStates(r, op);
    assert ByteRaces(r.At(4).shadow[0], 3, false, r.At(4).clocks[3]);
    assert r.ReportAt(4).value.tid1 == 0 && r.ReportAt(4).value.byte == 0;
    OrderedAnyway(r, op);
    forall i: nat | Names(r, 4, i)
      ensures i == 0
    {
      assert r.Tid(i) == 0 && r.events[i].Access?;
    }
  }

  lemma OrderedAnyway(r: Run, op: Op)
    requires r == Forgetful(r.cfg, op) && Releases(op)
    ensures Uncut(r).HappensBefore(0, 4)
  {
    var q := Uncut(r);
    assert q.Edge(0, 1) && q.HappensBefore(0, 1);
    assert q.Survives(1, HERE, 3) && q.Edge(1, 3) && q.HappensBefore(1, 3);
    assert q.Edge(3, 4) && q.HappensBefore(3, 4);
    HappensBeforeTransitive(q, 0, 1, 3);
    HappensBeforeTransitive(q, 0, 3, 4);
  }
}

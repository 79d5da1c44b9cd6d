/** Treating an atomic store as acquire + release instead of release only. */
module StoreAsRmw {
  import opened Clocks
  import opened Shadow
  import opened Detector
  import opened Causality
  import opened Races

  function AsRmwEvent(e: Event): Event {
    if e.Sync? && e.op == Store then Sync(e.tid, Rmw, e.key) else e
  }

  function AsRmw(r: Run): (q: Run)
    ensures |q.events| == |r.events|
  {
    r.(events := seq(|r.events|, i requires 0 <= i < |r.events| => AsRmwEvent(r.events[i])))
  }

  /** As with the hooks, where both tick. */
  predicate TickAlike(cfg: Config) {
    Store in cfg.ticking <==> Rmw in cfg.ticking
  }

  /** `b` knows at least what `a` knows, at the same epochs and with the same shadow. */
  ghost predicate Simulates(a: State, b: State)
    requires a.Valid() && b.Valid()
  {
    && (forall t: Tid :: Leq(a.clocks[t], b.clocks[t]) && a.clocks[t][t] == b.clocks[t][t])
    && (forall k :: Leq(a.SyncClock(k), b.SyncClock(k)))
    && a.shadow == b.shadow
  }

  lemma SyncStepSimulates(cfg: Config, a: State, b: State, t: Tid, op: Op, k: Key)
    requires a.Valid() && b.Valid() && Simulates(a, b)
    requires OwnerLeads(a) && OwnerLeads(b) && TickAlike(cfg)
    ensures Simulates(SyncStep(cfg, a, t, op, k), SyncStep(cfg, b, t, if op == Store then Rmw else op, k))
  {
    var op' := if op == Store then Rmw else op;
    SyncStepOwnerLeads(cfg, a, t, op, k);
    SyncStepOwnerLeads(cfg, b, t, op', k);
    var ca := Acquired(a, t, op, k);
    var cb := Acquired(b, t, op', k);
    assert Leq(a.clocks[t], b.clocks[t]) && Leq(a.SyncClock(k), b.SyncClock(k));
    assert Leq(ca, cb);
    assert Releases(op) ==> Leq(Published(cfg, a, t, op, k), Published(cfg, b, t, op', k)) by {
      assert Acquires(op') ==> Leq(b.SyncClock(k), cb);
    }
    var a' := SyncStep(cfg, a, t, op, k);
    var b' := SyncStep(cfg, b, t, op', k);
    forall k'
      ensures Leq(a'.SyncClock(k'), b'.SyncClock(k'))
    {
      assert Leq(a.SyncClock(k'), b.SyncClock(k'));
    }
    forall u: Tid
      ensures Leq(a'.clocks[u], b'.clocks[u]) && a'.clocks[u][u] == b'.clocks[u][u]
    {
      assert Leq(a.clocks[u], b.clocks[u]) && a.clocks[u][u] == b.clocks[u][u];
    }
  }

  /** An access that is silent under a smaller clock is silent, and recorded alike,
      under a larger one with the same own component. */
  lemma RecordMonotone(s: seq<Slots>, offset: nat, size: nat, t: Tid, isWrite: bool, a: Clock, b: Clock)
    requires Leq(a, b) && a[t] == b[t] && Record(s, offset, size, t, isWrite, a).1.None?
    ensures Record(s, offset, size, t, isWrite, b) == Record(s, offset, size, t, isWrite, a)
  {
    RecordReportsFirstRace(s, offset, size, t, isWrite, a);
    RecordReportsFirstRace(s, offset, size, t, isWrite, b);
    var stop := Stop(|s|, offset, size);
    forall k | offset <= k < stop
      ensures !ByteRaces(s[k], t, isWrite, a) && !ByteRaces(s[k], t, isWrite, b)
    {
    }
  }

  lemma StepSimulates(cfg: Config, a: State, b: State, e: Event)
    requires a.Valid() && b.Valid() && Simulates(a, b)
    requires OwnerLeads(a) && OwnerLeads(b) && TickAlike(cfg)
    requires Step(cfg, a, e).1.None?
    ensures Simulates(Step(cfg, a, e).0, Step(cfg, b, AsRmwEvent(e)).0)
    ensures Step(cfg, b, AsRmwEvent(e)).1.None?
  {
    match e
    case Access(t, offset, size, isWrite) =>
      RecordMonotone(a.shadow, offset, size, t, isWrite, a.clocks[t], b.clocks[t]);
      var a', b' := Step(cfg, a, e).0, Step(cfg, b, e).0;
      assert forall k :: a'.SyncClock(k) == a.SyncClock(k) && b'.SyncClock(k) == b.SyncClock(k);
    case Sync(t, op, k) =>
      SyncStepSimulates(cfg, a, b, t, op, k);
  }

  lemma RunStepSimulates(r: Run, q: Run, n: nat)
    requires TickAlike(r.cfg) && q == AsRmw(r) && n < |r.events| && r.ReportAt(n).None?
    requires Simulates(r.At(n), q.At(n))
    ensures Simulates(r.At(n + 1), q.At(n + 1)) && q.ReportAt(n).None?
  {
    OwnerLeadsAlways(r, n);
    OwnerLeadsAlways(q, n);
    StepSimulates(r.cfg, r.At(n), q.At(n), r.events[n]);
  }

  lemma QuietNext(r: Run, n: nat)
    requires n < |r.events|
    ensures Quiet(r, n + 1) <==> Quiet(r, n) && r.ReportAt(n).None?
  {
    if Quiet(r, n + 1) {
      assert r.ReportAt(n).None?;
      forall m | 0 <= m < n ensures r.ReportAt(m).None? {}
    }
  }

  lemma {:induction false} RunSimulates(r: Run, q: Run, n: nat)
    requires TickAlike(r.cfg) && q == AsRmw(r) && n <= |r.events| && Quiet(r, n)
    ensures Simulates(r.At(n), q.At(n)) && Quiet(q, n)
  {
    if n == 0 {
    } else {
      var m := n - 1;
      QuietNext(r, m);
      RunSimulates(r, q, m);
      RunStepSimulates(r, q, m);
      QuietNext(q, m);
    }
  }

  /** The over-approximation is safe: a run on which release-only stores stay silent
      stays silent when every store also acquires. */
  lemma StoreAsRmwAddsNoReports(r: Run)
    requires TickAlike(r.cfg) && Quiet(r, |r.events|)
    ensures Quiet(AsRmw(r), |r.events|)
  {
    RunSimulates(r, AsRmw(r), |r.events|);
  }

  // What it hides.

  lemma {:induction false} LastHitAlike(f: nat -> bool, g: nat -> bool, n: nat)
    requires forall k: nat :: k < n ==> (f(k) <==> g(k))
    ensures LastHit(f, n) == LastHit(g, n)
  {
    if n == 0 {
    } else if !f(n - 1) {
      LastHitAlike(f, g, n - 1);
    }
  }

  lemma RemembersAlike(r: Run, q: Run, n: nat, b: nat, c: nat)
    requires q == AsRmw(r) && n <= |r.events| && Quiet(r, n) && Quiet(q, n)
    ensures LastRecorded(r, n, b, c) == LastRecorded(q, n, b, c)
  {
    var f, g := RecordedIn(r, b, c), RecordedIn(q, b, c);
    forall k: nat | k < n
      ensures f(k) <==> g(k)
    {
      assert r.ReportAt(k).None? && q.ReportAt(k).None?;
    }
    LastHitAlike(f, g, n);
  }

  lemma ExposedBefore(r: Run, q: Run, n: nat, b: nat, c: nat, j: nat)
    requires TickAlike(r.cfg) && q == AsRmw(r) && n < |r.events| && r.events[n].Access? && Quiet(r, n)
    requires Exposes(q, n, b, c, j)
    ensures Exposes(r, n, b, c, j)
  {
    RunSimulates(r, q, n);
    RemembersAlike(r, q, n, b, c);
    QuietBefore(r, j, n);
    RunSimulates(r, q, j);
    assert Leq(r.At(n).clocks[r.Tid(n)], q.At(n).clocks[q.Tid(n)]);
  }

  lemma QuietBefore(r: Run, m: nat, n: nat)
    requires m <= n <= |r.events| && Quiet(r, n)
    ensures Quiet(r, m)
  {
    forall k | 0 <= k < m
      ensures r.ReportAt(k).None?
    {
    }
  }

  /** What the over-approximation costs, exactly: up to the first report the access that
      is reported with release-only stores is still reported if and only if one of the
      accesses it exposes is in a visible race even when every store also acquires. */
  lemma FirstReportSurvives(r: Run, n: nat)
    requires TickAlike(r.cfg) && n < |r.events| && r.events[n].Access? && Quiet(r, n)
    ensures AsRmw(r).ReportAt(n).Some? <==>
            exists b: nat, c: nat, j: nat :: Exposes(r, n, b, c, j) && VisibleRace(AsRmw(r), j, n, b)
  {
    var q := AsRmw(r);
    RunSimulates(r, q, n);
    VerdictExact(q, n);
    if b: nat, c: nat, j: nat :| Exposes(q, n, b, c, j) {
      ExposedBefore(r, q, n, b, c, j);
      ExposedExactly(q, n, b, c, j);
    }
    if b: nat, c: nat, j: nat :| Exposes(r, n, b, c, j) && VisibleRace(q, j, n, b) {
      RemembersAlike(r, q, n, b, c);
      ExposedExactly(q, n, b, c, j);
    }
  }

  /** The relation only grows, so what is hidden is ordered by an acquire that the program
      did not ask for. */
  lemma {:induction false} AsRmwOrdersMore(r: Run, q: Run, i: nat, j: nat)
    requires q == AsRmw(r) && r.cfg.overwriting == {} && j < |r.events| && r.HappensBefore(i, j)
    ensures q.HappensBefore(i, j)
    decreases j
  {
    var m: nat :| i <= m < j && r.Edge(m, j) && (m == i || r.HappensBefore(i, m));
    assert q.Edge(m, j) by {
      if r.Tid(m) != r.Tid(j) {
        var k := r.events[j].key;
        forall p | m < p < j
          ensures !q.Discards(p, k)
        {
          assert !r.Discards(p, k);
        }
        assert q.Survives(m, k, j);
      }
    }
    if m != i {
      AsRmwOrdersMore(r, q, i, m);
    }
  }
}

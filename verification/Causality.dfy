/** Vector clocks against happens-before, over every run. */
module Causality {
  import opened Basics
  import opened Clocks
  import opened Shadow
  import opened Detector

  /** Nobody is ahead of a thread on that thread's own component. */
  ghost predicate OwnerLeads(s: State)
    requires s.Valid()
  {
    && (forall t: Tid, u: Tid :: s.clocks[t][u] <= s.clocks[u][u])
    && (forall k, u: Tid :: s.SyncClock(k)[u] <= s.clocks[u][u])
  }

  lemma SyncStepOwnerLeads(cfg: Config, s: State, t: Tid, op: Op, k: Key)
    requires s.Valid() && OwnerLeads(s)
    ensures OwnerLeads(SyncStep(cfg, s, t, op, k))
    ensures Acquired(s, t, op, k)[t] == s.clocks[t][t]
  {
    var s' := SyncStep(cfg, s, t, op, k);
    assert forall u: Tid :: s.SyncClock(k)[u] <= s.clocks[u][u];
    forall u: Tid
      ensures s.clocks[u][u] <= s'.clocks[u][u]
    {
    }
    forall k', u: Tid
      ensures s'.SyncClock(k')[u] <= s'.clocks[u][u]
    {
      assert s.SyncClock(k')[u] <= s.clocks[u][u];
    }
    forall v: Tid, u: Tid
      ensures s'.clocks[v][u] <= s'.clocks[u][u]
    {
    }
  }

  lemma StepOwnerLeads(cfg: Config, s: State, e: Event)
    requires s.Valid() && OwnerLeads(s)
    ensures OwnerLeads(Step(cfg, s, e).0)
  {
    if e.Sync? {
      SyncStepOwnerLeads(cfg, s, e.tid, e.op, e.key);
    } else {
      assert forall k :: Step(cfg, s, e).0.SyncClock(k) == s.SyncClock(k);
    }
  }

  lemma {:induction false} OwnerLeadsAlways(r: Run, n: nat)
    requires n <= |r.events|
    ensures OwnerLeads(r.At(n))
  {
    if n == 0 {
    } else {
      OwnerLeadsAlways(r, n - 1);
      StepOwnerLeads(r.cfg, r.At(n - 1), r.events[n - 1]);
    }
  }

  // A thread's own component.

  function Own(r: Run, n: nat, t: Tid): nat
    requires n <= |r.events|
  {
    r.At(n).clocks[t][t]
  }

  lemma StepOwn(cfg: Config, s: State, e: Event, t: Tid)
    requires s.Valid() && OwnerLeads(s)
    ensures Step(cfg, s, e).0.clocks[t][t] ==
            s.clocks[t][t] + if e.Sync? && e.tid == t && Ticks(cfg, e.op) then 1 else 0
  {
    if e.Sync? {
      SyncStepOwnerLeads(cfg, s, e.tid, e.op, e.key);
    }
  }

  lemma OwnNext(r: Run, m: nat, n: nat, t: Tid)
    requires n == m + 1 <= |r.events|
    ensures Own(r, n, t) == Own(r, m, t) + if r.TicksAt(m, t) then 1 else 0
  {
    OwnerLeadsAlways(r, m);
    StepOwn(r.cfg, r.At(m), r.events[m], t);
  }

  /** It never falls, and stays the same exactly while the thread does not tick. */
  ghost predicate OwnRisesFrom(r: Run, m: nat, n: nat, t: Tid, v: nat)
    requires m <= n <= |r.events|
  {
    exists w: nat :: OwnIs(r, n, t, w) && v <= w && (v == w <==> r.Steady(t, m, n))
  }

  ghost predicate OwnIs(r: Run, n: nat, t: Tid, w: nat)
    requires n <= |r.events|
  {
    Own(r, n, t) == w
  }

  lemma OwnRisesNext(r: Run, m: nat, n: nat, n': nat, t: Tid, v: nat)
    requires m <= n && n' == n + 1 <= |r.events| && OwnRisesFrom(r, m, n, t, v)
    ensures OwnRisesFrom(r, m, n', t, v)
  {
    OwnNext(r, n, n', t);
    assert OwnIs(r, n', t, Own(r, n', t));
    assert r.Steady(t, m, n') <==> r.Steady(t, m, n) && !r.TicksAt(n, t);
  }

  lemma {:induction false} OwnRises(r: Run, m: nat, n: nat, t: Tid)
    requires m <= n <= |r.events|
    ensures OwnRisesFrom(r, m, n, t, Own(r, m, t))
    decreases n - m
  {
    if m == n {
      assert OwnIs(r, n, t, Own(r, m, t));
    } else {
      OwnRises(r, m, n - 1, t);
      OwnRisesNext(r, m, n - 1, n, t, Own(r, m, t));
    }
  }

  lemma OwnMonotone(r: Run, m: nat, n: nat, t: Tid)
    requires m <= n <= |r.events|
    ensures Own(r, m, t) <= Own(r, n, t)
    ensures Own(r, m, t) == Own(r, n, t) <==> r.Steady(t, m, n)
  {
    OwnRises(r, m, n, t);
  }

  lemma OwnPositive(r: Run, n: nat, t: Tid)
    requires n <= |r.events|
    ensures Own(r, n, t) >= 1
  {
    OwnMonotone(r, 0, n, t);
  }

  ghost predicate Bounded(s: State, b: nat)
    requires s.Valid()
  {
    && (forall t: Tid, u: Tid :: s.clocks[t][u] <= b)
    && (forall k, u: Tid :: s.SyncClock(k)[u] <= b)
  }

  lemma StepBounded(cfg: Config, s: State, e: Event, b: nat)
    requires s.Valid() && Bounded(s, b)
    ensures Bounded(Step(cfg, s, e).0, b + 1)
  {
    if e.Sync? {
      var key := e.key;
      forall u: Tid
        ensures s.SyncClock(key)[u] <= b
        ensures Acquired(s, e.tid, e.op, key)[u] <= b
      {
      }
      var s' := SyncStep(cfg, s, e.tid, e.op, key);
      forall k, u: Tid
        ensures s'.SyncClock(k)[u] <= b + 1
      {
        assert s.SyncClock(k)[u] <= b;
      }
    } else {
      assert forall k :: Step(cfg, s, e).0.SyncClock(k) == s.SyncClock(k);
    }
  }

  /** No component exceeds the number of events by more than one, ... */
  lemma {:induction false} ComponentsBounded(r: Run, n: nat)
    requires n <= |r.events|
    ensures Bounded(r.At(n), n + 1)
  {
    if n == 0 {
    } else {
      ComponentsBounded(r, n - 1);
      StepBounded(r.cfg, r.At(n - 1), r.events[n - 1], n);
    }
  }

  // The same run counting in 64 bits, as `VClock` does.

  function SyncStep64(cfg: Config, s: State, t: Tid, op: Op, k: Key): (r: State)
    requires s.Valid()
    ensures r.Valid() && r.shadow == s.shadow
  {
    var r := SyncStep(cfg, s, t, op, k);
    if Ticks(cfg, op) then r.(clocks := r.clocks[t := Tick64(Acquired(s, t, op, k), t)]) else r
  }

  function Step64(cfg: Config, s: State, e: Event): (r: (State, Option<Report>))
    requires s.Valid()
    ensures r.0.Valid() && |r.0.shadow| == |s.shadow|
  {
    match e
    case Access(_, _, _, _) => Step(cfg, s, e)
    case Sync(t, op, k) => (SyncStep64(cfg, s, t, op, k), None)
  }

  function At64(r: Run, n: nat): (s: State)
    requires n <= |r.events|
    ensures s.Valid() && |s.shadow| == r.length
  {
    if n == 0 then Init(r.length) else Step64(r.cfg, At64(r, n - 1), r.events[n - 1]).0
  }

  lemma StepsAgree(cfg: Config, s: State, e: Event, b: nat)
    requires s.Valid() && Bounded(s, b) && OwnerLeads(s) && b + 1 < UINT64_LIMIT
    ensures Step64(cfg, s, e) == Step(cfg, s, e)
  {
    if e.Sync? {
      SyncStepOwnerLeads(cfg, s, e.tid, e.op, e.key);
      var c := Acquired(s, e.tid, e.op, e.key);
      var s' := SyncStep(cfg, s, e.tid, e.op, e.key);
      assert c[e.tid] <= b && Tick64(c, e.tid) == Tick(c, e.tid);
      assert Ticks(cfg, e.op) ==> s'.clocks[e.tid := Tick(c, e.tid)] == s'.clocks;
    }
  }

  /** ... so a run that counts in 64 bits and one that counts without bound go through the
      same states, until one has about 2^64 events; ... */
  lemma {:induction false} RunsAgree(r: Run, n: nat)
    requires n <= |r.events| && n + 1 < UINT64_LIMIT
    ensures Same64(r, n)
  {
    if n == 0 {
      StartAgrees(r);
    } else {
      RunsAgree(r, n - 1);
      NextState(r, n - 1, n);
    }
  }

  /** The two runs are in the same state before event `n`. */
  ghost predicate Same64(r: Run, n: nat)
    requires n <= |r.events|
  {
    exists s: State :: Both64(r, n, s)
  }

  ghost predicate Both64(r: Run, n: nat, s: State)
    requires n <= |r.events|
  {
    r.At(n) == s && At64(r, n) == s
  }

  lemma StartAgrees(r: Run)
    ensures Same64(r, 0)
  {
    assert Both64(r, 0, Init(r.length));
  }

  lemma NextState(r: Run, m: nat, n: nat)
    requires n == m + 1 <= |r.events| && m + 2 < UINT64_LIMIT && Same64(r, m)
    ensures Same64(r, n)
  {
    NextAgrees(r, m);
    assert At64(r, n) == Step64(r.cfg, r.At(m), r.events[m]).0;
    assert Both64(r, n, r.At(n));
  }

  /** ... and make the same reports. */
  lemma NextAgrees(r: Run, n: nat)
    requires n < |r.events| && n + 2 < UINT64_LIMIT
    ensures Step64(r.cfg, r.At(n), r.events[n]) == Step(r.cfg, r.At(n), r.events[n])
  {
    ComponentsBounded(r, n);
    OwnerLeadsAlways(r, n);
    StepsAgree(r.cfg, r.At(n), r.events[n], n + 1);
  }

  // What is known of an epoch.

  /** How "component `u` has reached `epoch`" moves over one step. */
  lemma CoverStep(cfg: Config, s: State, e: Event, u: Tid, epoch: nat)
    requires s.Valid() && OwnerLeads(s) && epoch >= 1
    ensures var s' := Step(cfg, s, e).0;
            && (forall t: Tid :: t != u ==>
                 (s'.clocks[t][u] >= epoch <==>
                   s.clocks[t][u] >= epoch ||
                   (e.Sync? && e.tid == t && Acquires(e.op) && s.SyncClock(e.key)[u] >= epoch)))
            && (forall k ::
                 (s'.SyncClock(k)[u] >= epoch <==>
                   if e.Sync? && e.key == k && Releases(e.op) then
                     || s.clocks[e.tid][u] >= epoch
                     || (Acquires(e.op) && s.SyncClock(k)[u] >= epoch)
                     || (e.op !in cfg.overwriting && s.SyncClock(k)[u] >= epoch)
                   else
                     !(e.Sync? && e.key == k && Erases(e.op)) && s.SyncClock(k)[u] >= epoch))
  {
    if e.Sync? {
      var s' := SyncStep(cfg, s, e.tid, e.op, e.key);
      forall k
        ensures s'.SyncClock(k) ==
                if e.key == k && Releases(e.op) then Published(cfg, s, e.tid, e.op, k)
                else if e.key == k && Erases(e.op) then Zero()
                else s.SyncClock(k)
      {
      }
    } else {
      assert forall k :: Step(cfg, s, e).0.SyncClock(k) == s.SyncClock(k);
    }
  }

  /** The same over event `n` of a run. */
  lemma CoverNext(r: Run, u: Tid, epoch: nat, n: nat)
    requires n < |r.events| && epoch >= 1
    ensures forall t: Tid :: t != u ==>
              (r.At(n + 1).clocks[t][u] >= epoch <==>
                r.At(n).clocks[t][u] >= epoch ||
                (r.events[n].Sync? && r.Tid(n) == t && Acquires(r.events[n].op)
                 && r.At(n).SyncClock(r.events[n].key)[u] >= epoch))
    ensures forall k ::
              (r.At(n + 1).SyncClock(k)[u] >= epoch <==>
                if r.PublishesTo(n, k) then
                  || r.At(n).clocks[r.Tid(n)][u] >= epoch
                  || (Acquires(r.events[n].op) && r.At(n).SyncClock(k)[u] >= epoch)
                  || (!r.Replaces(n, k) && r.At(n).SyncClock(k)[u] >= epoch)
                else !r.Discards(n, k) && r.At(n).SyncClock(k)[u] >= epoch)
  {
    OwnerLeadsAlways(r, n);
    CoverStep(r.cfg, r.At(n), r.events[n], u, epoch);
  }

  /** Clock `c` has seen event `i`, by its number. */
  predicate Covers(r: Run, c: Clock, i: nat)
    requires i < |r.events|
  {
    c[r.Tid(i)] >= r.Epoch(i)
  }

  /** Before event `n` every clock covers event `i` that it reaches. */
  ghost predicate ReachedCovered(r: Run, i: nat, n: nat)
    requires i < |r.events| && n <= |r.events|
  {
    && (forall t: Tid :: r.ReachesThread(i, t, n) ==> Covers(r, r.At(n).clocks[t], i))
    && (forall k :: r.ReachesKey(i, k, n) ==> Covers(r, r.At(n).SyncClock(k), i))
  }

  lemma ReachedThreadNext(r: Run, i: nat, t: Tid, n: nat)
    requires i <= n < |r.events| && (i < n ==> ReachedCovered(r, i, n)) && r.ReachesThread(i, t, n + 1)
    ensures Covers(r, r.At(n + 1).clocks[t], i)
  {
    if t == r.Tid(i) {
      OwnMonotone(r, i, n + 1, t);
    } else {
      assert i < n;
      OwnPositive(r, i, r.Tid(i));
      CoverNext(r, r.Tid(i), r.Epoch(i), n);
      ReachesThreadStep(r, i, t, n);
    }
  }

  lemma ReachedKeyNext(r: Run, i: nat, k: Key, n: nat)
    requires i <= n < |r.events| && (i < n ==> ReachedCovered(r, i, n)) && r.ReachesKey(i, k, n + 1)
    ensures Covers(r, r.At(n + 1).SyncClock(k), i)
  {
    OwnPositive(r, i, r.Tid(i));
    CoverNext(r, r.Tid(i), r.Epoch(i), n);
    ReachesKeyStep(r, i, k, n);
    if i < n {
      HappensBeforeUnfold(r, i, n);
    }
  }

  lemma ReachedNext(r: Run, i: nat, m: nat, n: nat)
    requires i <= m && n == m + 1 <= |r.events| && (i < m ==> ReachedCovered(r, i, m))
    ensures ReachedCovered(r, i, n)
  {
    forall t: Tid | r.ReachesThread(i, t, n)
      ensures Covers(r, r.At(n).clocks[t], i)
    {
      ReachedThreadNext(r, i, t, m);
    }
    forall k | r.ReachesKey(i, k, n)
      ensures Covers(r, r.At(n).SyncClock(k), i)
    {
      ReachedKeyNext(r, i, k, m);
    }
  }

  /** A thread's clock covers every event that happens before its current point, and a
      key's clock every event an acquirer would learn of, whichever operations tick. */
  lemma {:induction false} ReachedIsCovered(r: Run, i: nat, n: nat)
    requires i < n <= |r.events|
    ensures ReachedCovered(r, i, n)
    decreases n
  {
    if i == n - 1 {
      ReachedNext(r, i, i, n);
    } else {
      ReachedIsCovered(r, i, n - 1);
      ReachedNext(r, i, n - 1, n);
    }
  }

  // The converse: what a clock has seen was given away by the thread it is about.

  /** Event `m` gives away component `u`, which has reached `epoch` by then. */
  ghost predicate Gives(r: Run, m: nat, u: Tid, epoch: nat) {
    && m < |r.events|
    && r.Tid(m) == u && r.events[m].Sync? && Releases(r.events[m].op)
    && r.Epoch(m) >= epoch
  }

  ghost predicate ThreadHasSource(r: Run, u: Tid, epoch: nat, t: Tid, n: nat)
    requires n <= |r.events|
  {
    exists m: nat :: Gives(r, m, u, epoch) && r.ReachesThread(m, t, n)
  }

  ghost predicate KeyHasSource(r: Run, u: Tid, epoch: nat, k: Key, n: nat)
    requires n <= |r.events|
  {
    exists m: nat :: Gives(r, m, u, epoch) && r.ReachesKey(m, k, n)
  }

  /** Whoever knows of an epoch of `u` was reached by a release of `u` in it or later. */
  ghost predicate Sourced(r: Run, u: Tid, epoch: nat, n: nat)
    requires n <= |r.events|
  {
    && (forall t: Tid :: t != u && r.At(n).clocks[t][u] >= epoch ==> ThreadHasSource(r, u, epoch, t, n))
    && (forall k :: r.At(n).SyncClock(k)[u] >= epoch ==> KeyHasSource(r, u, epoch, k, n))
  }

  lemma SourcedThreadNext(r: Run, u: Tid, epoch: nat, t: Tid, n: nat)
    requires n < |r.events| && epoch >= 1 && Sourced(r, u, epoch, n)
    requires t != u && r.At(n + 1).clocks[t][u] >= epoch
    ensures ThreadHasSource(r, u, epoch, t, n + 1)
  {
    CoverNext(r, u, epoch, n);
    if ThreadHasSource(r, u, epoch, t, n) {
      var m: nat :| Gives(r, m, u, epoch) && r.ReachesThread(m, t, n);
      ReachesThreadStep(r, m, t, n);
    } else {
      var m: nat :| Gives(r, m, u, epoch) && r.ReachesKey(m, r.events[n].key, n);
      ReachesThreadStep(r, m, t, n);
    }
  }

  lemma SourcePublished(r: Run, m: nat, u: Tid, epoch: nat, k: Key, n: nat)
    requires n < |r.events| && r.PublishesTo(n, k) && Gives(r, m, u, epoch)
    requires r.ReachesThread(m, r.Tid(n), n) || (r.AcquiresFrom(n, k) && r.ReachesKey(m, k, n))
    ensures KeyHasSource(r, u, epoch, k, n + 1)
  {
    assert m < n;
    HappensBeforeUnfold(r, m, n);
    ReachesKeyStep(r, m, k, n);
  }

  lemma PublishedHasSource(r: Run, u: Tid, epoch: nat, k: Key, n: nat)
    requires n < |r.events| && r.PublishesTo(n, k) && Sourced(r, u, epoch, n)
    requires r.At(n).clocks[r.Tid(n)][u] >= epoch || (r.AcquiresFrom(n, k) && r.At(n).SyncClock(k)[u] >= epoch)
    ensures KeyHasSource(r, u, epoch, k, n + 1)
  {
    if r.Tid(n) == u && r.At(n).clocks[u][u] >= epoch {
      assert Gives(r, n, u, epoch);
      ReachesKeyStep(r, n, k, n);
    } else if r.At(n).clocks[r.Tid(n)][u] >= epoch {
      assert ThreadHasSource(r, u, epoch, r.Tid(n), n);
      var m: nat :| Gives(r, m, u, epoch) && r.ReachesThread(m, r.Tid(n), n);
      SourcePublished(r, m, u, epoch, k, n);
    } else {
      assert KeyHasSource(r, u, epoch, k, n);
      var m: nat :| Gives(r, m, u, epoch) && r.ReachesKey(m, k, n);
      SourcePublished(r, m, u, epoch, k, n);
    }
  }

  lemma SourcedKeyNext(r: Run, u: Tid, epoch: nat, k: Key, n: nat)
    requires n < |r.events| && epoch >= 1 && Sourced(r, u, epoch, n)
    requires r.At(n + 1).SyncClock(k)[u] >= epoch
    ensures KeyHasSource(r, u, epoch, k, n + 1)
  {
    CoverNext(r, u, epoch, n);
    if !r.Discards(n, k) && r.At(n).SyncClock(k)[u] >= epoch {
      var m: nat :| Gives(r, m, u, epoch) && r.ReachesKey(m, k, n);
      ReachesKeyStep(r, m, k, n);
    } else {
      PublishedHasSource(r, u, epoch, k, n);
    }
  }

  lemma SourcedNext(r: Run, u: Tid, epoch: nat, m: nat, n: nat)
    requires n == m + 1 <= |r.events| && epoch >= 1 && Sourced(r, u, epoch, m)
    ensures Sourced(r, u, epoch, n)
  {
    var s := r.At(n);
    forall t: Tid | t != u && s.clocks[t][u] >= epoch
      ensures ThreadHasSource(r, u, epoch, t, n)
    {
      SourcedThreadNext(r, u, epoch, t, m);
    }
    forall k | s.SyncClock(k)[u] >= epoch
      ensures KeyHasSource(r, u, epoch, k, n)
    {
      SourcedKeyNext(r, u, epoch, k, m);
    }
  }

  lemma {:induction false} SourcedAlways(r: Run, u: Tid, epoch: nat, n: nat)
    requires n <= |r.events| && epoch >= 1
    ensures Sourced(r, u, epoch, n)
  {
    if n == 0 {
    } else {
      var m := n - 1;
      SourcedAlways(r, u, epoch, m);
      SourcedNext(r, u, epoch, m, n);
    }
  }

  /** What gave thread `t` its knowledge of an epoch of `u`. */
  lemma Source(r: Run, u: Tid, epoch: nat, t: Tid, n: nat) returns (m: nat)
    requires n <= |r.events| && epoch >= 1 && t != u && r.At(n).clocks[t][u] >= epoch
    ensures m < n && Gives(r, m, u, epoch) && r.ReachesThread(m, t, n)
  {
    SourcedAlways(r, u, epoch, n);
    assert ThreadHasSource(r, u, epoch, t, n);
    m :| Gives(r, m, u, epoch) && r.ReachesThread(m, t, n);
  }

  /** Another thread is level with `u` on `u`'s own component exactly when a release of
      `u` that was followed by no tick reaches it; otherwise it is strictly behind. */
  lemma LevelExactly(r: Run, t: Tid, u: Tid, n: nat)
    requires n <= |r.events| && t != u
    ensures r.At(n).clocks[t][u] <= r.At(n).clocks[u][u]
    ensures r.At(n).clocks[t][u] == r.At(n).clocks[u][u] <==>
            exists m: nat :: Gives(r, m, u, 0) && r.ReachesThread(m, t, n) && r.Steady(u, m, n)
  {
    OwnerLeadsAlways(r, n);
    OwnPositive(r, n, u);
    if r.At(n).clocks[t][u] == r.At(n).clocks[u][u] {
      var m := Source(r, u, Own(r, n, u), t, n);
      OwnMonotone(r, m, n, u);
      assert Gives(r, m, u, 0);
    }
    if m: nat :| Gives(r, m, u, 0) && r.ReachesThread(m, t, n) && r.Steady(u, m, n) {
      OwnMonotone(r, m, n, u);
      ReachedIsCovered(r, m, n);
    }
  }

  /** Thread `t` has been told of event `i`'s epoch before `i` happened. */
  ghost predicate Masked(r: Run, i: nat, t: Tid, n: nat)
    requires i < |r.events| && n <= |r.events|
  {
    exists m: nat :: r.Leaks(m, i) && r.ReachesThread(m, t, n)
  }

  lemma ReachesFromEarlier(r: Run, i: nat, m: nat, t: Tid, n: nat)
    requires i <= m < n <= |r.events| && r.Tid(i) == r.Tid(m) && r.ReachesThread(m, t, n)
    ensures r.ReachesThread(i, t, n)
  {
    if i < m {
      assert r.Edge(i, m) && r.HappensBefore(i, m);
      var j :| m <= j < n && r.Tid(j) == t && (j == m || r.HappensBefore(m, j));
      if j != m {
        HappensBeforeTransitive(r, i, m, j);
      }
    }
  }

  /** Vector clocks against happens-before, exactly and whichever operations tick: a
      thread's component for an earlier event's issuer has reached that event's epoch if
      and only if the event happens before the thread's point, or an event that leaked its
      epoch does. */
  lemma CoveredExactly(r: Run, i: nat, t: Tid, n: nat)
    requires i < n <= |r.events|
    ensures r.At(n).clocks[t][r.Tid(i)] >= r.Epoch(i) <==> r.ReachesThread(i, t, n) || Masked(r, i, t, n)
  {
    var u := r.Tid(i);
    OwnPositive(r, i, u);
    ReachedIsCovered(r, i, n);
    assert Covers(r, r.At(n).clocks[t], i) <==> r.At(n).clocks[t][u] >= r.Epoch(i);
    if m: nat :| r.Leaks(m, i) && r.ReachesThread(m, t, n) {
      OwnMonotone(r, m, i, u);
      ReachedIsCovered(r, m, n);
    }
    if r.At(n).clocks[t][u] >= r.Epoch(i) && t != u {
      var m := Source(r, u, r.Epoch(i), t, n);
      if i <= m {
        ReachesFromEarlier(r, i, m, t, n);
      } else {
        OwnMonotone(r, m, i, u);
      }
    }
  }

  /** Vector clocks characterise happens-before for every event whose thread has ticked
      since it last released. */
  lemma ClocksCharacteriseHappensBefore(r: Run, i: nat, n: nat, t: Tid)
    requires i < n <= |r.events| && r.Fresh(i)
    ensures r.At(n).clocks[t][r.Tid(i)] >= r.Epoch(i) <==> r.ReachesThread(i, t, n)
  {
    CoveredExactly(r, i, t, n);
  }

  /** If every release ticks, that is every event. */
  lemma NothingLeaks(r: Run, i: nat)
    requires AllTick(r.cfg) && i < |r.events|
    ensures r.Fresh(i)
  {
    forall m | 0 <= m < i && r.Leaks(m, i)
      ensures false
    {
      assert r.TicksAt(m, r.Tid(i));
    }
  }

  /** An event that leaked the epoch of `i` happens before `n`. */
  ghost predicate MaskedAt(r: Run, i: nat, n: nat)
    requires i < n < |r.events|
  {
    exists m: nat :: r.Leaks(m, i) && r.HappensBefore(m, n)
  }

  /** For two events: what the clock of a plain access covers. */
  lemma AccessOrder(r: Run, i: nat, n: nat)
    requires i < n < |r.events| && r.events[n].Access?
    ensures r.At(n).clocks[r.Tid(n)][r.Tid(i)] >= r.Epoch(i) <==> r.HappensBefore(i, n) || MaskedAt(r, i, n)
  {
    var t := r.Tid(n);
    CoveredExactly(r, i, t, n);
    HappensBeforeUnfold(r, i, n);
    forall m: nat | r.Leaks(m, i)
      ensures r.HappensBefore(m, n) <==> r.ReachesThread(m, t, n)
    {
      HappensBeforeUnfold(r, m, n);
    }
  }
}

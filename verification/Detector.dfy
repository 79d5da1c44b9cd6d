/** The detector as a step system: hooked accesses and synchronization operations
    move vector clocks between threads and record plain accesses in the shadow. */
module Detector {
  import opened Basics
  import opened Clocks
  import opened Shadow

  /** What a sync clock is keyed by: an address or a posted message. */
  datatype Key = Location(address: nat) | Message(id: nat)

  /** `Reset` is a mutex created or destroyed at an address. */
  datatype Op = Load | Store | Rmw | Notify | WaitComplete
              | Lock | Unlock | ReadLock | ReadUnlock | Reset
              | Send | Receive

  predicate Acquires(op: Op) {
    op.Load? || op.Rmw? || op.WaitComplete? || op.Lock? || op.ReadLock? || op.Receive?
  }

  /** A reader publishes nothing when it unlocks. */
  predicate Releases(op: Op) {
    op.Store? || op.Rmw? || op.Notify? || op.Unlock? || op.Send?
  }

  /** A message is received once; a mutex starts and ends with nothing published. */
  predicate Erases(op: Op) {
    op.Receive? || op.Reset?
  }

  datatype Event =
    | Access(tid: Tid, offset: nat, size: nat, isWrite: bool)
    | Sync(tid: Tid, op: Op, key: Key)

  /** Two choices a detector has: the operations that advance the releaser's own
      component after publishing, and those whose publication replaces the key's clock
      instead of joining into it. */
  datatype Config = Config(ticking: set<Op>, overwriting: set<Op>)

  /** The choices of the hooks: every release ticks but the sending of a message, and all
      of them join. A message's id is new, so storing under it is joining. */
  const HOOKS := Config({Store, Rmw, Notify, Unlock}, {})

  predicate Ticks(cfg: Config, op: Op) {
    Releases(op) && op in cfg.ticking
  }

  predicate AllTick(cfg: Config) {
    forall op :: Releases(op) ==> op in cfg.ticking
  }

  datatype State = State(clocks: seq<Clock>, sync: map<Key, Clock>, shadow: seq<Slots>) {
    ghost predicate Valid() {
      |clocks| == MAX_THREADS
    }

    function SyncClock(k: Key): Clock {
      if k in sync then sync[k] else Zero()
    }
  }

  /** Every thread starts in its own epoch 1 and the shadow is empty. */
  function Init(length: nat): (s: State)
    ensures s.Valid()
  {
    State(seq(MAX_THREADS, t requires 0 <= t < MAX_THREADS => Tick(Zero(), t)),
          map[],
          seq(length, _ => Slots(EMPTY, EMPTY)))
  }

  /** The clock thread `t` holds once the acquire half of `op` on `k` is done. */
  function Acquired(s: State, t: Tid, op: Op, k: Key): Clock
    requires s.Valid()
  {
    if Acquires(op) then Join(s.clocks[t], s.SyncClock(k)) else s.clocks[t]
  }

  function Published(cfg: Config, s: State, t: Tid, op: Op, k: Key): Clock
    requires s.Valid()
  {
    var c := Acquired(s, t, op, k);
    if op in cfg.overwriting then c else Join(s.SyncClock(k), c)
  }

  function SyncStep(cfg: Config, s: State, t: Tid, op: Op, k: Key): (r: State)
    requires s.Valid()
    ensures r.Valid()
  {
    var c := Acquired(s, t, op, k);
    State(s.clocks[t := if Ticks(cfg, op) then Tick(c, t) else c],
          if Releases(op) then s.sync[k := Published(cfg, s, t, op, k)]
          else if Erases(op) then s.sync - {k}
          else s.sync,
          s.shadow)
  }

  function Step(cfg: Config, s: State, e: Event): (r: (State, Option<Report>))
    requires s.Valid()
    ensures r.0.Valid()
  {
    match e
    case Access(t, offset, size, isWrite) =>
      var (shadow, report) := Record(s.shadow, offset, size, t, isWrite, s.clocks[t]);
      (s.(shadow := shadow), report)
    case Sync(t, op, k) => (SyncStep(cfg, s, t, op, k), None)
  }

  /** A run: any interleaving of hooked operations on one shared buffer. */
  datatype Run = Run(cfg: Config, length: nat, events: seq<Event>) {
    /** The state before event `n`. */
    function At(n: nat): (s: State)
      requires n <= |events|
      ensures s.Valid() && |s.shadow| == length
      decreases n
    {
      if n == 0 then Init(length) else Step(cfg, At(n - 1), events[n - 1]).0
    }

    function ReportAt(n: nat): Option<Report>
      requires n < |events|
    {
      Step(cfg, At(n), events[n]).1
    }

    function Tid(n: nat): Clocks.Tid
      requires n < |events|
    {
      events[n].tid
    }

    /** The issuing thread's own component when event `n` starts. */
    function Epoch(n: nat): nat
      requires n < |events|
    {
      At(n).clocks[Tid(n)][Tid(n)]
    }

    predicate Touches(i: nat, b: nat)
      requires i < |events|
    {
      events[i].Access? && events[i].offset <= b < events[i].offset + events[i].size && b < length
    }

    predicate PublishesTo(i: nat, k: Key)
      requires i < |events|
    {
      events[i].Sync? && events[i].key == k && Releases(events[i].op)
    }

    predicate AcquiresFrom(i: nat, k: Key)
      requires i < |events|
    {
      events[i].Sync? && events[i].key == k && Acquires(events[i].op)
    }

    /** Event `i` replaces what was published to `k` before it. */
    predicate Replaces(i: nat, k: Key)
      requires i < |events|
    {
      PublishesTo(i, k) && events[i].op in cfg.overwriting
    }

    /** After event `i` nothing published to `k` before it is left. */
    predicate Discards(i: nat, k: Key)
      requires i < |events|
    {
      Replaces(i, k) || (events[i].Sync? && events[i].key == k && Erases(events[i].op))
    }

    /** What event `i` published to `k` is still there before event `n`. */
    ghost predicate Survives(i: nat, k: Key, n: nat)
      requires n <= |events|
    {
      i < n && PublishesTo(i, k) && forall m :: i < m < n ==> !Discards(m, k)
    }

    /** Event `i` starts a new epoch of thread `t`. */
    predicate TicksAt(i: nat, t: Clocks.Tid)
      requires i < |events|
    {
      events[i].Sync? && Tid(i) == t && Ticks(cfg, events[i].op)
    }

    /** Thread `t` starts no epoch from event `m` to before event `n`. */
    ghost predicate Steady(t: Clocks.Tid, m: nat, n: nat)
      requires n <= |events|
    {
      forall p :: m <= p < n ==> !TicksAt(p, t)
    }

    /** Event `m` gives away, before event `i` of the same thread and in the same epoch,
        a clock that covers `i` already. */
    ghost predicate Leaks(m: nat, i: nat)
      requires i < |events|
    {
      m < i && Tid(m) == Tid(i) && events[m].Sync? && Releases(events[m].op) && Steady(Tid(i), m, i)
    }

    /** Nothing leaked the epoch of event `i` before it. */
    ghost predicate Fresh(i: nat)
      requires i < |events|
    {
      forall m :: 0 <= m < i ==> !Leaks(m, i)
    }

    // Happens-before, independently of clocks.

    ghost predicate SynchronizesWith(i: nat, j: nat)
      requires j < |events|
    {
      i < j && events[j].Sync? && AcquiresFrom(j, events[j].key) && Survives(i, events[j].key, j)
    }

    ghost predicate Edge(i: nat, j: nat)
      requires j < |events|
    {
      i < j && (Tid(i) == Tid(j) || SynchronizesWith(i, j))
    }

    /** The transitive closure of program order and synchronizes-with. */
    ghost predicate HappensBefore(i: nat, j: nat)
      requires j < |events|
      decreases j
    {
      exists m :: i <= m < j && Edge(m, j) && (m == i || HappensBefore(i, m))
    }

    /** Event `i` happens before thread `t`'s point just before event `n`. */
    ghost predicate ReachesThread(i: nat, t: Clocks.Tid, n: nat)
      requires n <= |events|
    {
      exists j :: i <= j < n && Tid(j) == t && (j == i || HappensBefore(i, j))
    }

    /** Event `i` happens before whoever acquires from `k` at point `n`. */
    ghost predicate ReachesKey(i: nat, k: Key, n: nat)
      requires n <= |events|
    {
      exists j :: i <= j < n && Survives(j, k, n) && (j == i || HappensBefore(i, j))
    }
  }

  /** After a message is received, or a mutex created or destroyed, nothing is left of what
      was published to the key before; whoever acquires from it then learns nothing. */
  lemma ErasedIsForgotten(r: Run, n: nat, i: nat, j: nat)
    requires n < |r.events| && r.events[n].Sync? && (r.events[n].op == Receive || r.events[n].op == Reset)
    ensures r.At(n + 1).SyncClock(r.events[n].key) == Zero()
    ensures i < n < j <= |r.events| ==> !r.Survives(i, r.events[n].key, j)
  {
    assert r.Discards(n, r.events[n].key);
  }

  lemma {:induction false} HappensBeforeTransitive(r: Run, i: nat, j: nat, k: nat)
    requires k < |r.events| && j < |r.events|
    requires r.HappensBefore(i, j) && r.HappensBefore(j, k)
    ensures r.HappensBefore(i, k)
    decreases k
  {
    var m :| j <= m < k && r.Edge(m, k) && (m == j || r.HappensBefore(j, m));
    if m != j {
      HappensBeforeTransitive(r, i, j, m);
    }
  }

  /** `HappensBefore` is the least transitive relation containing the edges. */
  lemma {:induction false} HappensBeforeLeast(r: Run, rel: (nat, nat) -> bool, i: nat, j: nat)
    requires forall a: nat, b: nat {:trigger r.Edge(a, b)} :: b < |r.events| && r.Edge(a, b) ==> rel(a, b)
    requires forall a: nat, b: nat, c: nat {:trigger rel(a, b), rel(b, c)} :: rel(a, b) && rel(b, c) ==> rel(a, c)
    requires j < |r.events| && r.HappensBefore(i, j)
    ensures rel(i, j)
    decreases j
  {
    var m: nat :| i <= m < j && r.Edge(m, j) && (m == i || r.HappensBefore(i, m));
    assert rel(m, j);
    if m != i {
      HappensBeforeLeast(r, rel, i, m);
    }
  }

  /** How reachability of a thread's point changes over event `n`. */
  lemma ReachesThreadStep(r: Run, i: nat, t: Tid, n: nat)
    requires i < n < |r.events|
    ensures r.ReachesThread(i, t, n + 1) <==>
            r.ReachesThread(i, t, n) ||
            (r.Tid(n) == t && r.events[n].Sync? && Acquires(r.events[n].op) && r.ReachesKey(i, r.events[n].key, n))
  {
    if r.ReachesThread(i, t, n) {
      var j :| i <= j < n && r.Tid(j) == t && (j == i || r.HappensBefore(i, j));
      assert j < n + 1;
    }
    if r.Tid(n) == t && r.events[n].Sync? && Acquires(r.events[n].op) && r.ReachesKey(i, r.events[n].key, n) {
      var j :| i <= j < n && r.Survives(j, r.events[n].key, n) && (j == i || r.HappensBefore(i, j));
      assert r.Edge(j, n);
      assert r.HappensBefore(i, n);
    }
    if r.ReachesThread(i, t, n + 1) && !r.ReachesThread(i, t, n) {
      var j :| i <= j < n + 1 && r.Tid(j) == t && (j == i || r.HappensBefore(i, j));
      assert j == n && r.HappensBefore(i, n);
      HappensBeforeUnfold(r, i, n);
    }
  }

  /** An event's causes are what its thread knew plus what it acquires. */
  lemma HappensBeforeUnfold(r: Run, i: nat, n: nat)
    requires i < n < |r.events|
    ensures r.HappensBefore(i, n) <==>
            r.ReachesThread(i, r.Tid(n), n) ||
            (r.events[n].Sync? && Acquires(r.events[n].op) && r.ReachesKey(i, r.events[n].key, n))
  {
    if r.HappensBefore(i, n) {
      var m: nat :| i <= m < n && r.Edge(m, n) && (m == i || r.HappensBefore(i, m));
      if r.Tid(m) != r.Tid(n) {
        assert r.Survives(m, r.events[n].key, n);
      }
    }
    if r.ReachesThread(i, r.Tid(n), n) {
      var j :| i <= j < n && r.Tid(j) == r.Tid(n) && (j == i || r.HappensBefore(i, j));
      assert r.Edge(j, n);
    }
    if r.events[n].Sync? && Acquires(r.events[n].op) && r.ReachesKey(i, r.events[n].key, n) {
      var j :| i <= j < n && r.Survives(j, r.events[n].key, n) && (j == i || r.HappensBefore(i, j));
      assert r.Edge(j, n);
    }
  }

  /** How what a key carries changes over event `n`. */
  lemma ReachesKeyStep(r: Run, i: nat, k: Key, n: nat)
    requires i <= n < |r.events|
    ensures r.ReachesKey(i, k, n + 1) <==>
            (r.PublishesTo(n, k) && (i == n || r.HappensBefore(i, n))) ||
            (!r.Discards(n, k) && r.ReachesKey(i, k, n))
  {
    if r.PublishesTo(n, k) && (i == n || r.HappensBefore(i, n)) {
      assert r.Survives(n, k, n + 1);
    }
    if !r.Discards(n, k) && r.ReachesKey(i, k, n) {
      var j :| i <= j < n && r.Survives(j, k, n) && (j == i || r.HappensBefore(i, j));
      assert r.Survives(j, k, n + 1);
    }
    if r.ReachesKey(i, k, n + 1) {
      var j :| i <= j < n + 1 && r.Survives(j, k, n + 1) && (j == i || r.HappensBefore(i, j));
      if j < n {
        assert r.Survives(j, k, n);
      }
    }
  }
}

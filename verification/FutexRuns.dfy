/** Futex waits and wake-ups as a step system: any number of isolates, each critical
    section one step, interleaved in any order. */
module FutexRuns {
  import opened Basics
  import opened WaitQueues
  import opened FutexMemory
  import opened FutexState

  /** What reached a waiter first. */
  datatype Fate =
    | Queued     // nothing yet
    | Awoken     // a wake-up, which counted it
    | Overdue    // its timeout task
    | Discarded  // a wake-up that found its backing store gone

  datatype Phase = Idle | Handling | Blocked

  datatype Return = ReturnOk | ReturnNotEqual | ReturnTimedOut | ReturnException

  /** An isolate's own thread and its reusable node. */
  datatype Waiter = Waiter(node: Ref, phase: Phase, interrupted: bool, useTimeout: bool, result: Option<Return>)

  datatype State = State(
    a: Abs,
    timers: set<Ref>,               // timeout tasks neither run nor cancelled, by node
    busy: map<Isolate, seq<Ref>>,   // nodes taken off the lists, being settled in the main thread
    alive: set<Isolate>,
    sync: map<Isolate, Waiter>,
    log: seq<Settlement>,           // promises resolved so far
    owner: map<Ref, Isolate>,       // of every node ever created
    fate: map<Ref, Fate>,
    fault: bool)                    // a debug check failed or a deleted node was used

  datatype Step =
    | WaitAsync(k: Isolate, node: Ref, l: Location, equal: bool, timeout: Option<nat>)
    | Expire(nodes: set<Ref>)
    | WakeUp(l: Location, budget: Budget)
    | RunTimeout(node: Ref)
    | RunResolve(k: Isolate)
    | Settle(k: Isolate, collected: bool)
    | Deinit(k: Isolate)
    | WaitSync(k: Isolate, l: Location, equal: bool, useTimeout: bool, elapsed: bool)
    | Resume(k: Isolate, elapsed: bool)
    | Handled(k: Isolate, exception: bool, elapsed: bool)
    | Interrupt(k: Isolate)

  /** Tasks of an isolate run one at a time, in its own thread, while it lives. */
  predicate Enabled(s: State, step: Step) {
    match step
    case WaitAsync(k, node, _, _, _) => k in s.alive && node != NULL && node !in s.owner
    case Expire(_) => true
    case WakeUp(_, _) => true
    case RunTimeout(r) => r in s.timers && r in s.owner && s.owner[r] in s.alive && Free(s, s.owner[r])
    case RunResolve(k) => k in s.a.posted && k in s.alive && Free(s, k)
    case Settle(k, _) => k in s.busy && s.busy[k] != []
    case Deinit(k) => k in s.alive && Free(s, k) && k in s.sync && s.sync[k].phase == Idle
    case WaitSync(k, _, _, _, _) => k in s.alive && k in s.sync && s.sync[k].phase == Idle
    case Resume(k, _) => k in s.sync && s.sync[k].phase == Blocked
    case Handled(k, _, _) => k in s.sync && s.sync[k].phase == Handling
    case Interrupt(k) => k in s.sync
  }

  predicate Free(s: State, k: Isolate) {
    k in s.busy && s.busy[k] == []
  }

  function Faulted(s: State): State {
    s.(fault := true)
  }

  predicate Unlisted(lists: map<Home, seq<Ref>>, r: Ref) {
    forall h :: h in lists ==> r !in lists[h]
  }

  predicate AtItsLocation(a: Abs, r: Ref) {
    r in a.info && In(a.lists, AtLocation(a.info[r].location), r)
  }

  function Next(s: State, step: Step): State
    requires Enabled(s, step)
  {
    match step
    case WaitAsync(k, node, l, equal, timeout) =>
      if equal && timeout != Some(0) then NextWaitAsync(s, k, node, l, timeout.Some?) else s
    case Expire(nodes) => s.(a := s.a.(info := Expired(s.a.info, nodes)))
    case WakeUp(l, budget) => NextWake(s, l, budget)
    case RunTimeout(r) => NextTimeout(s, r)
    case RunResolve(k) => NextResolve(s, k)
    case Settle(k, collected) => NextSettle(s, k, collected)
    case Deinit(k) => s.(a := DeinitAt(s.a, k), alive := s.alive - {k})
    case WaitSync(k, l, equal, useTimeout, elapsed) => NextWaitSync(s, k, l, equal, useTimeout, elapsed)
    case Resume(k, elapsed) => WaitLoop(s, k, elapsed)
    case Handled(k, exception, elapsed) => if exception then Leave(s, k, ReturnException) else WaitLoop(s, k, elapsed)
    case Interrupt(k) => s.(sync := s.sync[k := s.sync[k].(interrupted := true)])
  }

  // Asynchronous waiters.

  function NextWaitAsync(s: State, k: Isolate, node: Ref, l: Location, timeout: bool): State {
    s.(a := WaitAsyncAt(s.a, k, node, l, timeout),
       timers := if timeout then s.timers + {node} else s.timers,
       owner := s.owner[node := k],
       fate := s.fate[node := Queued])
  }

  function Expired(info: map<Ref, Info>, nodes: set<Ref>): map<Ref, Info> {
    map r | r in info :: if r in nodes then info[r].(expired := true) else info[r]
  }

  /** The wake-up reaches node `r` and acts on it. */
  function Reach(s: State, r: Ref, action: Action): State {
    if action == Keep then s
    else if !AtItsLocation(s.a, r) || (action == Clean && s.a.info[r].timeoutTask) then Faulted(s)
    else s.(a := Act(s.a, r, action), fate := s.fate[r := if action == Clean then Discarded else Awoken])
  }

  function ReachUpto(s: State, q: seq<Ref>, p: seq<Action>, j: nat): State
    requires j <= |q| == |p|
  {
    if j == 0 then s else Reach(ReachUpto(s, q, p, j - 1), q[j - 1], p[j - 1])
  }

  function NextWake(s: State, l: Location, budget: Budget): State {
    var q := QueueAt(s.a, l);
    if !Known(s.a, q) then Faulted(s)
    else ReachUpto(s, q, Plan(Kinds(s.a, q), budget), |q|)
  }

  /** A timeout task. A node no longer waiting is left to the resolve task. */
  function NextTimeout(s: State, r: Ref): State
    requires r in s.owner
  {
    var k := s.owner[r];
    if r !in s.a.info then Faulted(s)
    else
      var t := s.(timers := s.timers - {r}, a := s.a.(info := s.a.info[r := s.a.info[r].(timeoutTask := false)]));
      if !s.a.info[r].waiting then t
      else if !AtItsLocation(s.a, r) then Faulted(t)
      else t.(a := t.a.(lists := Drop(t.a.lists, AtLocation(t.a.info[r].location), r)),
              busy := t.busy[k := [r]],
              fate := t.fate[r := Overdue])
  }

  function NextResolve(s: State, k: Isolate): State {
    var t := s.(a := s.a.(posted := s.a.posted - multiset{k}));
    if AtIsolate(k) !in t.a.lists then Faulted(t)
    else t.(a := Take(t.a, k), busy := t.busy[k := t.a.lists[AtIsolate(k)]])
  }

  /** Settles the promise of the first node taken, then deletes the node. The promise
      may have been collected by then. */
  function NextSettle(s: State, k: Isolate, collected: bool): State
    requires k in s.busy && s.busy[k] != []
  {
    var r := s.busy[k][0];
    if r !in s.a.info then Faulted(s)
    else
      var n := s.a.info[r];
      s.(a := Delete(s.a, r),
         timers := if n.timeoutTask then s.timers - {r} else s.timers,
         busy := s.busy[k := s.busy[k][1..]],
         log := s.log + Settlements(n, r, collected),
         fault := s.fault || (!n.cleanupOnly && n.hasDeadline != n.waiting))
  }

  // Synchronous waiters.

  function NextWaitSync(s: State, k: Isolate, l: Location, equal: bool, useTimeout: bool, elapsed: bool): State
    requires k in s.sync
  {
    var w := s.sync[k];
    var r := w.node;
    if r !in s.a.info || (!equal && s.a.info[r].waiting) || (equal && !Unlisted(s.a.lists, r)) then Faulted(s)
    else if !equal then s.(sync := s.sync[k := w.(result := Some(ReturnNotEqual))])
    else
      var t := s.(a := EnterAt(s.a, r, l),
                  fate := s.fate[r := Queued],
                  sync := s.sync[k := w.(phase := Blocked, useTimeout := useTimeout, result := None)]);
      WaitLoop(t, k, elapsed)
  }

  /** The waiting loop from its top, with the lock held, until it lets go of the lock. */
  function WaitLoop(s: State, k: Isolate, elapsed: bool): State
    requires k in s.sync
  {
    var w := s.sync[k];
    if w.node !in s.a.info then Faulted(s)
    else if w.interrupted then s.(sync := s.sync[k := w.(interrupted := false, phase := Handling)])
    else if !s.a.info[w.node].waiting then Leave(s, k, ReturnOk)
    else if w.useTimeout && elapsed then Leave(s, k, ReturnTimedOut)
    else s.(sync := s.sync[k := w.(phase := Blocked)])
  }

  function Leave(s: State, k: Isolate, result: Return): State
    requires k in s.sync
  {
    var w := s.sync[k];
    if !AtItsLocation(s.a, w.node) then Faulted(s)
    else
      s.(a := LeaveAt(s.a, w.node),
         sync := s.sync[k := w.(phase := Idle, result := Some(result))])
  }

  /** Every isolate has a node of its own for synchronous waits, and nobody waits. */
  predicate Init(s: State) {
    && s.a.info.Keys == s.owner.Keys == s.fate.Keys
    && s.alive == s.sync.Keys == s.busy.Keys
    && (forall r :: r in s.a.info ==> InitNode(s, r))
    && (forall k :: k in s.sync ==> s.sync[k].node in s.a.info && s.a.info[s.sync[k].node].isolate == k)
    && (forall k :: k in s.busy ==> s.busy[k] == [])
    && s.a.lists == map[] && s.a.posted == multiset{} && s.timers == {} && s.log == [] && !s.fault
  }

  predicate InitNode(s: State, r: Ref)
    requires r in s.a.info && r in s.owner && r in s.fate
  {
    var n := s.a.info[r];
    && r != NULL && !n.isAsync && !n.waiting && s.owner[r] == n.isolate && s.fate[r] == Queued
    && n.isolate in s.sync && s.sync[n.isolate].node == r
    && s.sync[n.isolate].phase == Idle && s.sync[n.isolate].result == None
  }
}

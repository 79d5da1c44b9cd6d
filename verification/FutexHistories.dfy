/** Whole runs of the futex: how waiters end, and what can be relied on at every moment. */
module FutexHistories {
  import opened Basics
  import opened WaitQueues
  import opened FutexMemory
  import opened FutexState
  import opened FutexRuns
  import opened FutexInvariant
  import opened FutexSteps
  import opened FutexResults

  datatype History = History(states: seq<State>, steps: seq<Step>)

  ghost predicate Takes(h: History, i: nat)
    requires i < |h.steps| && |h.states| == |h.steps| + 1
  {
    Enabled(h.states[i], h.steps[i]) && h.states[i + 1] == Next(h.states[i], h.steps[i])
  }

  ghost predicate IsRun(h: History) {
    && |h.states| == |h.steps| + 1
    && Init(h.states[0])
    && forall i :: 0 <= i < |h.steps| ==> Takes(h, i)
  }

  /** In every reachable state the invariant holds: no debug check has failed and no
      deleted node has been used. */
  lemma {:induction false} RunKeeps(h: History, i: nat)
    requires IsRun(h) && i < |h.states|
    ensures Inv(h.states[i])
    decreases i
  {
    if i == 0 {
      InitHolds(h.states[0]);
    } else {
      RunKeeps(h, i - 1);
      assert Takes(h, i - 1);
      KeepsStep(h.states[i - 1], h.steps[i - 1]);
    }
  }

  // Each waiter is reached once.

  ghost predicate SyncNode(s: State, r: Ref) {
    exists k :: k in s.sync && s.sync[k].node == r
  }

  /** How one step may change what reached waiter `r`. */
  ghost predicate FateMove(s: State, step: Step, t: State, r: Ref) {
    && r in t.fate
    && if r !in s.fate then
         t.fate[r] == Queued
       else
         || t.fate[r] == s.fate[r]
         || (s.fate[r] == Queued && step.WakeUp? && t.fate[r] in {Awoken, Discarded})
         || (s.fate[r] == Queued && step == RunTimeout(r) && t.fate[r] == Overdue)
         || (step.WaitSync? && step.k in s.sync && s.sync[step.k].node == r && t.fate[r] == Queued)
  }

  lemma WakeFateMove(s: State, l: Location, budget: Budget, r: Ref)
    requires Inv(s) && r in NextWake(s, l, budget).fate
    ensures FateMove(s, WakeUp(l, budget), NextWake(s, l, budget), r)
    ensures NextWake(s, l, budget).sync == s.sync && NextWake(s, l, budget).log == s.log
  {
    var q := QueueAt(s.a, l);
    QueueFacts(s, l);
    var p := Plan(Kinds(s.a, q), budget);
    WakeFates(s, l, budget, q, p, |q|);
    assert q[..|q|] == q;
    if r in q {
      var i :| 0 <= i < |q| && q[i] == r;
      WakeReaches(s, l, budget, i);
    }
  }

  /** The threads keep their nodes and nothing is taken back from the log. */
  ghost predicate Onward(s: State, t: State) {
    && t.sync.Keys == s.sync.Keys && (forall k :: k in s.sync ==> t.sync[k].node == s.sync[k].node)
    && s.log <= t.log
  }

  lemma LoopOnward(s: State, k: Isolate, elapsed: bool)
    requires k in s.sync
    ensures WaitLoop(s, k, elapsed).fate == s.fate && Onward(s, WaitLoop(s, k, elapsed))
  {
    var w := s.sync[k];
    if w.node in s.a.info && !w.interrupted && !s.a.info[w.node].waiting {
      LeaveOnward(s, k, ReturnOk);
    } else if w.node in s.a.info && !w.interrupted && w.useTimeout && elapsed {
      LeaveOnward(s, k, ReturnTimedOut);
    }
  }

  lemma LeaveOnward(s: State, k: Isolate, result: Return)
    requires k in s.sync
    ensures Leave(s, k, result).fate == s.fate && Onward(s, Leave(s, k, result))
  {
  }

  lemma SettleOnward(s: State, k: Isolate, collected: bool)
    requires k in s.busy && s.busy[k] != []
    ensures NextSettle(s, k, collected).fate == s.fate && Onward(s, NextSettle(s, k, collected))
  {
  }

  lemma ResolveOnward(s: State, k: Isolate)
    ensures NextResolve(s, k).fate == s.fate && Onward(s, NextResolve(s, k))
  {
  }

  lemma TimeoutOnward(s: State, x: Ref, r: Ref)
    requires Inv(s) && Enabled(s, RunTimeout(x)) && r in NextTimeout(s, x).fate
    ensures FateMove(s, RunTimeout(x), NextTimeout(s, x), r) && Onward(s, NextTimeout(s, x))
    ensures s.fate.Keys <= NextTimeout(s, x).fate.Keys
  {
    TimedNode(s, x);
  }

  lemma EnterOnward(s: State, k: Isolate, l: Location, equal: bool, useTimeout: bool, elapsed: bool)
    requires Inv(s) && k in s.sync && s.sync[k].phase == Idle
    ensures var t := NextWaitSync(s, k, l, equal, useTimeout, elapsed);
            Onward(s, t) && t.fate == if equal then s.fate[s.sync[k].node := Queued] else s.fate
  {
    IdleNode(s, k);
    if equal {
      LoopOnward(Entered(s, k, l, useTimeout), k, elapsed);
    }
  }

  lemma StepOnward(s: State, step: Step, r: Ref)
    requires Inv(s) && Enabled(s, step) && r in Next(s, step).fate
    ensures FateMove(s, step, Next(s, step), r) && Onward(s, Next(s, step))
  {
    match step {
      case WaitAsync(_, _, _, _, _) => OpenRest(s);
      case Expire(_) =>
      case WakeUp(l, budget) => WakeFateMove(s, l, budget, r);
      case RunTimeout(x) => TimeoutOnward(s, x, r);
      case RunResolve(k) => ResolveOnward(s, k);
      case Settle(k, collected) => SettleOnward(s, k, collected);
      case Deinit(_) =>
      case WaitSync(k, l, equal, useTimeout, elapsed) => EnterOnward(s, k, l, equal, useTimeout, elapsed);
      case Resume(k, elapsed) => LoopOnward(s, k, elapsed);
      case Handled(k, _, elapsed) =>
        LoopOnward(s, k, elapsed);
        LeaveOnward(s, k, ReturnException);
      case Interrupt(_) =>
    }
  }

  lemma StepKeepsFates(s: State, step: Step)
    requires Inv(s) && Enabled(s, step)
    ensures s.fate.Keys <= Next(s, step).fate.Keys && Onward(s, Next(s, step))
  {
    match step {
      case WaitAsync(_, _, _, _, _) => OpenRest(s);
      case Expire(_) =>
      case WakeUp(l, budget) =>
        QueueFacts(s, l);
        var q := QueueAt(s.a, l);
        WakeFates(s, l, budget, q, Plan(Kinds(s.a, q), budget), |q|);
      case RunTimeout(x) => TimedNode(s, x);
      case RunResolve(k) => ResolveOnward(s, k);
      case Settle(k, collected) => SettleOnward(s, k, collected);
      case Deinit(_) =>
      case WaitSync(k, l, equal, useTimeout, elapsed) => EnterOnward(s, k, l, equal, useTimeout, elapsed);
      case Resume(k, elapsed) => LoopOnward(s, k, elapsed);
      case Handled(k, _, elapsed) =>
        LoopOnward(s, k, elapsed);
        LeaveOnward(s, k, ReturnException);
      case Interrupt(_) =>
    }
  }

  lemma OnwardOn(s: State, t: State, u: State)
    requires Onward(s, t) && Onward(t, u)
    ensures Onward(s, u)
  {
  }

  lemma {:induction false} GoesOnward(h: History, i: nat, j: nat)
    requires IsRun(h) && i <= j < |h.states|
    ensures Onward(h.states[i], h.states[j])
    decreases j
  {
    if i == j {
    } else {
      GoesOnward(h, i, j - 1);
      RunKeeps(h, j - 1);
      assert Takes(h, j - 1);
      StepKeepsFates(h.states[j - 1], h.steps[j - 1]);
      OnwardOn(h.states[i], h.states[j - 1], h.states[j]);
    }
  }

  lemma SameSyncNodes(s: State, t: State, r: Ref)
    requires Onward(s, t)
    ensures SyncNode(t, r) <==> SyncNode(s, r)
  {
    if k :| k in s.sync && s.sync[k].node == r {
      assert t.sync[k].node == r;
    }
  }

  /** Step `j` is what reached asynchronous waiter `r` first. */
  ghost predicate Reached(h: History, j: nat, r: Ref, f: Fate)
    requires j < |h.steps| && |h.states| == |h.steps| + 1
  {
    && r in h.states[j].fate && h.states[j].fate[r] == Queued
    && r in h.states[j + 1].fate && h.states[j + 1].fate[r] == f
    && (f == Overdue ==> h.steps[j] == RunTimeout(r))
    && (f != Overdue ==> h.steps[j].WakeUp?)
  }

  lemma InitFates(s: State)
    requires Init(s)
    ensures forall r :: r in s.fate ==> s.fate[r] == Queued
  {
    forall r | r in s.fate
      ensures s.fate[r] == Queued
    {
      assert r in s.a.info.Keys;
      assert InitNode(s, r);
    }
  }

  lemma {:induction false} FateHasCause(h: History, i: nat, r: Ref)
    requires IsRun(h) && i < |h.states| && r in h.states[i].fate && h.states[i].fate[r] != Queued
    requires !SyncNode(h.states[i], r)
    ensures exists j: nat :: j < i && Reached(h, j, r, h.states[i].fate[r])
    decreases i
  {
    if i == 0 {
      InitFates(h.states[0]);
    } else {
      RunKeeps(h, i - 1);
      assert Takes(h, i - 1);
      StepKeepsFates(h.states[i - 1], h.steps[i - 1]);
      SameSyncNodes(h.states[i - 1], h.states[i], r);
      StepOnward(h.states[i - 1], h.steps[i - 1], r);
      if h.states[i].fate[r] == h.states[i - 1].fate[r] {
        FateHasCause(h, i - 1, r);
      } else {
        assert Reached(h, i - 1, r, h.states[i].fate[r]);
      }
    }
  }

  lemma FateStep(h: History, i: nat, r: Ref)
    requires IsRun(h) && i < |h.steps| && r in h.states[i].fate && h.states[i].fate[r] != Queued
    requires !SyncNode(h.states[i], r)
    ensures r in h.states[i + 1].fate && h.states[i + 1].fate[r] == h.states[i].fate[r]
    ensures !SyncNode(h.states[i + 1], r)
  {
    RunKeeps(h, i);
    assert Takes(h, i);
    StepKeepsFates(h.states[i], h.steps[i]);
    SameSyncNodes(h.states[i], h.states[i + 1], r);
    StepOnward(h.states[i], h.steps[i], r);
  }

  /** What reached an asynchronous waiter first is never replaced. */
  lemma {:induction false} FateStays(h: History, i: nat, j: nat, r: Ref)
    requires IsRun(h) && i <= j < |h.states| && r in h.states[i].fate && h.states[i].fate[r] != Queued
    requires !SyncNode(h.states[i], r)
    ensures r in h.states[j].fate && h.states[j].fate[r] == h.states[i].fate[r]
    ensures !SyncNode(h.states[j], r)
    decreases j
  {
    if i == j {
    } else {
      FateStays(h, i, j - 1, r);
      FateStep(h, j - 1, r);
    }
  }

  // The main results.

  function FirstToReach(outcome: Outcome): Fate {
    if outcome == Ok then Awoken else Overdue
  }

  /** A promise is resolved at most once in any run: "ok" only if a wake-up was the first
      to reach its waiter, "timed-out" only if its timeout task was; a waiter marked for
      cleanup is never resolved. */
  lemma PromisesSettleOnce(h: History, i: nat, x: nat)
    requires IsRun(h) && i < |h.states| && x < |h.states[i].log|
    ensures var e := h.states[i].log[x];
            && (forall y :: 0 <= y < |h.states[i].log| && y != x ==> h.states[i].log[y].node != e.node)
            && exists j: nat :: j < i && Reached(h, j, e.node, FirstToReach(e.outcome))
  {
    var s := h.states[i];
    var e := s.log[x];
    RunKeeps(h, i);
    OpenRest(s);
    assert Settled(s, e);
    forall y | 0 <= y < |s.log| && y != x
      ensures s.log[y].node != e.node
    {
      assert if y < x then Different(s.log, y, x) else Different(s.log, x, y);
    }
    assert s.fate[e.node] == FirstToReach(e.outcome);
    FateHasCause(h, i, e.node);
  }

  /** Cleaned up is not resolved, now or later. */
  lemma DiscardedNeverSettles(h: History, i: nat, j: nat, r: Ref)
    requires IsRun(h) && i < |h.states| && j < |h.states|
    requires r in h.states[i].fate && h.states[i].fate[r] == Discarded
    ensures forall x :: 0 <= x < |h.states[j].log| ==> h.states[j].log[x].node != r
  {
    var late := if i <= j then j else i;
    RunKeeps(h, i);
    RunKeeps(h, late);
    NotSync(h.states[i], r);
    FateStays(h, i, late, r);
    GoesOnward(h, j, late);
    OpenRest(h.states[late]);
    forall x | 0 <= x < |h.states[j].log|
      ensures h.states[j].log[x].node != r
    {
      assert Settled(h.states[late], h.states[late].log[x]);
    }
  }

  lemma NotSync(s: State, r: Ref)
    requires Inv(s) && r in s.fate && s.fate[r] in {Discarded, Overdue}
    ensures !SyncNode(s, r)
  {
    forall k | k in s.sync
      ensures s.sync[k].node != r
    {
      ThreadNode(s, k);
    }
  }

  /** A timeout task that has not been cancelled, of an isolate that lives, has a live
      waiter to go to; and only such waiters have one. */
  lemma TimersPointToLiveNodes(h: History, i: nat, r: Ref)
    requires IsRun(h) && i < |h.states|
    ensures var s := h.states[i];
            r in s.timers && r in s.owner && s.owner[r] in s.alive <==>
            r in s.a.info && s.a.info[r].isAsync && s.a.info[r].timeoutTask
  {
    var s := h.states[i];
    RunKeeps(h, i);
    OpenRest(s);
    OpenQueues(s);
    if r in s.a.info {
      assert NodeOk(s, r);
    }
  }

  /** While an isolate lives, a resolve task is pending exactly when something waits to be
      resolved, and then just one. */
  lemma ResolveTaskPending(h: History, i: nat, k: Isolate)
    requires IsRun(h) && i < |h.states| && k in h.states[i].alive
    ensures var a := h.states[i].a; a.posted[k] == if AtIsolate(k) in a.lists then 1 else 0
    ensures !h.states[i].fault
  {
    RunKeeps(h, i);
    OpenQueues(h.states[i]);
  }

  /** No woken asynchronous waiter is stranded: until it is deleted, its isolate has it in
      hand or has a task pending that will take it. */
  lemma WokenIsNotStranded(h: History, i: nat, r: Ref)
    requires IsRun(h) && i < |h.states|
    requires var s := h.states[i]; r in s.a.info && s.a.info[r].isAsync && !s.a.info[r].waiting
    ensures var s := h.states[i];
            var k := s.a.info[r].isolate;
            && k in s.alive
            && (InHand(s, r) || (In(s.a.lists, AtIsolate(k), r) && s.a.posted[k] == 1))
  {
    RunKeeps(h, i);
    OpenQueues(h.states[i]);
    assert NodeOk(h.states[i], r);
  }

  /** A node is on at most one list, once; a waiting one on none but its location's. */
  lemma OneListEach(h: History, i: nat, f: Home, g: Home, x: nat, y: nat)
    requires IsRun(h) && i < |h.states|
    requires var lists := h.states[i].a.lists;
             f in lists && g in lists && x < |lists[f]| && y < |lists[g]| && lists[f][x] == lists[g][y]
    ensures f == g && x == y
  {
    var s := h.states[i];
    var r := s.a.lists[f][x];
    RunKeeps(h, i);
    OpenQueues(s);
    InFits(s.a.info, s.a.lists, f, r);
    InFits(s.a.info, s.a.lists, g, r);
    assert NodeOk(s, r);
    SamePlace(s.a.lists[f], x, y);
  }

  lemma SamePlace(s: seq<Ref>, x: nat, y: nat)
    requires Distinct(s) && x < |s|
    ensures y < |s| && s[x] == s[y] ==> x == y
  {
    if x < y < |s| {
      assert Apart(s, x, y);
    } else if y < x {
      assert Apart(s, y, x);
    }
  }

  /** Nothing of a dead isolate is left behind. */
  lemma DeadIsolatesLeaveNothing(h: History, i: nat, r: Ref)
    requires IsRun(h) && i < |h.states| && r in h.states[i].a.info && h.states[i].a.info[r].isAsync
    ensures h.states[i].a.info[r].isolate in h.states[i].alive
  {
    RunKeeps(h, i);
    OpenQueues(h.states[i]);
    assert NodeOk(h.states[i], r);
  }

  /** The node of a thread that is not inside a wait is unlinked and not waiting. */
  lemma IdleNodeReusable(h: History, i: nat, k: Isolate)
    requires IsRun(h) && i < |h.states| && k in h.states[i].sync && h.states[i].sync[k].phase == Idle
    ensures var s := h.states[i];
            var r := s.sync[k].node;
            r in s.a.info && !s.a.info[r].waiting && Unlisted(s.a.lists, r)
  {
    RunKeeps(h, i);
    IdleNode(h.states[i], k);
  }

  /** A counted waiter stays counted until its thread's next wait. */
  lemma {:induction false} CountedStays(h: History, i: nat, j: nat, k: Isolate)
    requires IsRun(h) && i <= j < |h.states| && k in h.states[i].sync
    requires var r := h.states[i].sync[k].node; r in h.states[i].fate && h.states[i].fate[r] == Awoken
    requires forall m :: i <= m < j ==> !(h.steps[m].WaitSync? && h.steps[m].k == k)
    ensures k in h.states[j].sync && h.states[j].sync[k].node == h.states[i].sync[k].node
    ensures var r := h.states[j].sync[k].node; r in h.states[j].fate && h.states[j].fate[r] == Awoken
    decreases j
  {
    var r := h.states[i].sync[k].node;
    if i == j {
    } else {
      CountedStays(h, i, j - 1, k);
      RunKeeps(h, j - 1);
      assert Takes(h, j - 1);
      StepKeepsFates(h.states[j - 1], h.steps[j - 1]);
      StepOnward(h.states[j - 1], h.steps[j - 1], r);
      SyncNodesDiffer(h.states[j - 1], k);
    }
  }

  lemma SyncNodesDiffer(s: State, k: Isolate)
    requires Inv(s) && k in s.sync
    ensures forall m :: m in s.sync && s.sync[m].node == s.sync[k].node ==> m == k
  {
    ThreadNode(s, k);
    forall m | m in s.sync
      ensures s.sync[m].node in s.a.info && s.a.info[s.sync[m].node].isolate == m
    {
      ThreadNode(s, m);
    }
  }

  lemma ReturnsAgree(h: History, i: nat, k: Isolate)
    requires IsRun(h) && i < |h.states| && k in h.states[i].sync
    ensures var s := h.states[i];
            var w := s.sync[k];
            && w.node in s.fate
            && (w.result == Some(ReturnOk) ==> s.fate[w.node] == Awoken)
            && (w.result == Some(ReturnTimedOut) ==> s.fate[w.node] == Queued)
            && (w.phase != Idle ==> w.result == None)
  {
    RunKeeps(h, i);
    ThreadNode(h.states[i], k);
  }

  // What a thread's wait returns.

  /** A step of the thread of isolate `k` through its wait. */
  predicate OwnStep(step: Step, k: Isolate) {
    (step.WaitSync? || step.Resume? || step.Handled?) && step.k == k
  }

  ghost predicate Pending(s: State, k: Isolate) {
    k in s.sync && s.sync[k].interrupted
  }

  /** The thread has just turned to its interrupts, or one is still pending and it has
      not returned as if there were none. */
  ghost predicate InterruptMove(step: Step, t: State, k: Isolate) {
    && k in t.sync
    && if OwnStep(step, k) then
         || t.sync[k].phase == Handling
         || (t.sync[k].interrupted && t.sync[k].result !in {Some(ReturnOk), Some(ReturnTimedOut)})
       else t.sync[k].interrupted
  }

  lemma ThreadsElsewhere(s: State, step: Step, k: Isolate)
    requires Inv(s) && Enabled(s, step) && k in s.sync && !OwnStep(step, k)
    ensures k in Next(s, step).sync
    ensures Next(s, step).sync[k] == if step == Interrupt(k) then s.sync[k].(interrupted := true) else s.sync[k]
  {
    match step {
      case WakeUp(l, budget) =>
        QueueFacts(s, l);
        var q := QueueAt(s.a, l);
        WakeFates(s, l, budget, q, Plan(Kinds(s.a, q), budget), |q|);
      case RunTimeout(x) => TimedNode(s, x);
      case WaitSync(m, _, _, _, _) => IdleNode(s, m);
      case Resume(m, _) => ThreadNode(s, m);
      case Handled(m, _, _) => ThreadNode(s, m);
      case _ =>
    }
  }

  lemma InterruptStep(s: State, step: Step, k: Isolate)
    requires Inv(s) && Enabled(s, step) && Pending(s, k)
    ensures InterruptMove(step, Next(s, step), k)
  {
    if OwnStep(step, k) {
      ThreadNode(s, k);
      if step.WaitSync? {
        IdleNode(s, k);
      }
    } else {
      ThreadsElsewhere(s, step, k);
    }
  }

  ghost predicate Handles(h: History, m: nat, k: Isolate)
    requires m < |h.steps| && |h.states| == |h.steps| + 1
  {
    OwnStep(h.steps[m], k) && k in h.states[m + 1].sync && h.states[m + 1].sync[k].phase == Handling
  }

  /** No interrupt is dropped: once one is pending, the thread returns neither "ok" nor
      "timed-out" from a wait before it has turned to its interrupts. */
  lemma {:induction false} InterruptComesFirst(h: History, i: nat, j: nat, k: Isolate)
    requires IsRun(h) && i <= j < |h.steps| && Pending(h.states[i], k)
    requires forall m :: i <= m < j ==> !Handles(h, m, k)
    ensures Pending(h.states[j], k) && InterruptMove(h.steps[j], h.states[j + 1], k)
    decreases j
  {
    if i == j {
    } else {
      InterruptComesFirst(h, i, j - 1, k);
      assert !Handles(h, j - 1, k);
    }
    RunKeeps(h, j);
    assert Takes(h, j);
    InterruptStep(h.states[j], h.steps[j], k);
  }

  predicate Elapsed(step: Step) {
    (step.WaitSync? || step.Resume? || step.Handled?) && step.elapsed
  }

  /** Why a step of the thread of isolate `k` from `s` to `t` returned from its wait. */
  ghost predicate ReturnCause(s: State, step: Step, t: State, k: Isolate) {
    && k in t.sync && t.sync[k].node in t.fate
    && var w := t.sync[k];
    w.phase == Idle ==>
      match w.result
      case None => false
      case Some(ReturnNotEqual) => step.WaitSync? && !step.equal && t.a == s.a
      case Some(ReturnTimedOut) => w.useTimeout && Elapsed(step) && t.fate[w.node] == Queued
      case Some(ReturnOk) => !(step.Handled? && step.exception) && t.fate[w.node] == Awoken
      case Some(ReturnException) => step.Handled? && step.exception
  }

  /** Leaving the loop with `result`, or going on in it. */
  ghost predicate LoopExit(s: State, t: State, k: Isolate, elapsed: bool) {
    && k in s.sync && k in t.sync
    && (t.sync[k].phase == Idle ==>
          || (t.sync[k].result == Some(ReturnTimedOut) && t.sync[k].useTimeout && elapsed)
          || t.sync[k].result == Some(ReturnOk))
  }

  lemma LoopExits(s: State, k: Isolate, elapsed: bool)
    requires Inv(s) && k in s.sync && s.sync[k].phase != Idle
    ensures LoopExit(s, WaitLoop(s, k, elapsed), k, elapsed)
  {
    ThreadNode(s, k);
  }

  lemma EnteredKeeps(s: State, k: Isolate, l: Location, useTimeout: bool)
    requires Inv(s) && k in s.sync && s.sync[k].phase == Idle
    ensures s.sync[k].node in s.a.info && Inv(Entered(s, k, l, useTimeout))
  {
    IdleNode(s, k);
    ThreadNode(s, k);
    EnteredQueues(s, k, l, useTimeout);
    RestKept(s, Entered(s, k, l, useTimeout));
  }

  /** The thread still has its node, in order. */
  ghost predicate OwnNode(s: State, t: State, k: Isolate) {
    && k in s.sync && k in t.sync && t.sync[k].node == s.sync[k].node && t.sync[k].node in t.a.info
    && NodeOk(t, t.sync[k].node) && !t.a.info[t.sync[k].node].isAsync && t.a.info[t.sync[k].node].isolate == k
  }

  lemma EnterReturns(s: State, step: Step, k: Isolate)
    requires Inv(s) && Enabled(s, step) && step.WaitSync? && step.k == k
    requires OwnNode(s, Next(s, step), k)
    ensures ReturnCause(s, step, Next(s, step), k)
  {
    IdleNode(s, k);
    if step.equal {
      EnteredKeeps(s, k, step.l, step.useTimeout);
      LoopExits(Entered(s, k, step.l, step.useTimeout), k, step.elapsed);
    }
  }

  lemma GoOnReturns(s: State, step: Step, k: Isolate)
    requires Inv(s) && Enabled(s, step) && (step.Resume? || step.Handled?) && step.k == k
    requires OwnNode(s, Next(s, step), k)
    ensures ReturnCause(s, step, Next(s, step), k)
  {
    if step.Resume? || !step.exception {
      LoopExits(s, k, step.elapsed);
    } else {
      ThreadNode(s, k);
    }
  }

  lemma OwnStepReturns(s: State, step: Step, k: Isolate)
    requires Inv(s) && Enabled(s, step) && OwnStep(step, k)
    ensures ReturnCause(s, step, Next(s, step), k)
  {
    KeepsStep(s, step);
    StepKeepsFates(s, step);
    ThreadNode(Next(s, step), k);
    if step.WaitSync? {
      EnterReturns(s, step, k);
    } else {
      GoOnReturns(s, step, k);
    }
  }

  /** Step `j` is the last of the thread of isolate `k` before state `i`, and returned what
      the thread has returned then. */
  ghost predicate ReturnedAt(h: History, j: nat, i: nat, k: Isolate)
    requires |h.states| == |h.steps| + 1 && i < |h.states|
  {
    && j < i && OwnStep(h.steps[j], k) && (forall m :: j < m < i ==> !OwnStep(h.steps[m], k))
    && k in h.states[j + 1].sync && k in h.states[i].sync
    && h.states[j + 1].sync[k].phase == Idle && h.states[j + 1].sync[k].result == h.states[i].sync[k].result
    && ReturnCause(h.states[j], h.steps[j], h.states[j + 1], k)
  }

  /** Every result a thread has, at any later time, has its cause in the step that
      returned it: "not-equal" an unequal value, with nothing queued; "timed-out" a
      timeout that had elapsed for a waiter not counted; "ok" a count; an exception one
      thrown by an interrupt. */
  lemma {:induction false} ReturnsHaveCause(h: History, i: nat, k: Isolate) returns (j: nat)
    requires IsRun(h) && i < |h.states| && k in h.states[i].sync
    requires h.states[i].sync[k].phase == Idle && h.states[i].sync[k].result.Some?
    ensures ReturnedAt(h, j, i, k)
    decreases i
  {
    if i == 0 {
      NothingReturnedYet(h.states[0], k);
    } else {
      RunKeeps(h, i - 1);
      assert Takes(h, i - 1);
      if OwnStep(h.steps[i - 1], k) {
        OwnStepReturns(h.states[i - 1], h.steps[i - 1], k);
        j := i - 1;
      } else {
        StepKeepsFates(h.states[i - 1], h.steps[i - 1]);
        ThreadsElsewhere(h.states[i - 1], h.steps[i - 1], k);
        j := ReturnsHaveCause(h, i - 1, k);
      }
    }
  }

  lemma NothingReturnedYet(s: State, k: Isolate)
    requires Init(s) && k in s.sync
    ensures s.sync[k].result == None
  {
    assert InitNode(s, s.sync[k].node);
  }

  /** A waiter that saw an unequal value was never queued: the step that returned changed
      no node and no queue. */
  lemma UnequalIsNeverQueued(h: History, i: nat, k: Isolate) returns (j: nat)
    requires IsRun(h) && i < |h.states| && k in h.states[i].sync
    requires h.states[i].sync[k].phase == Idle && h.states[i].sync[k].result == Some(ReturnNotEqual)
    ensures ReturnedAt(h, j, i, k) && h.steps[j].WaitSync? && !h.steps[j].equal
    ensures h.states[j + 1].a == h.states[j].a
  {
    j := ReturnsHaveCause(h, i, k);
  }

  ghost predicate Threw(h: History, m: nat, k: Isolate)
    requires m < |h.steps|
  {
    h.steps[m].Handled? && h.steps[m].k == k && h.steps[m].exception
  }

  /** A synchronous waiter that a wake-up counted while its thread was inside a wait
      returns "ok" from that wait, or an exception that one of its interrupts threw after
      the count, and nothing else, however interrupts, timeouts and other wake-ups
      interleave. */
  lemma {:induction false} CountedReturns(h: History, i: nat, j: nat, k: Isolate)
    requires IsRun(h) && i <= j < |h.states| && k in h.states[i].sync && h.states[i].sync[k].phase != Idle
    requires var r := h.states[i].sync[k].node; r in h.states[i].fate && h.states[i].fate[r] == Awoken
    requires forall m :: i <= m < j ==> !(h.steps[m].WaitSync? && h.steps[m].k == k)
    ensures k in h.states[j].sync
    ensures var w := h.states[j].sync[k];
            if w.phase != Idle then w.result == None
            else
              || w.result == Some(ReturnOk)
              || (w.result == Some(ReturnException) && exists m: nat :: i <= m < j && Threw(h, m, k))
    decreases j
  {
    CountedStays(h, i, j, k);
    ReturnsAgree(h, j, k);
    if i == j {
    } else {
      CountedReturns(h, i, j - 1, k);
      RunKeeps(h, j - 1);
      assert Takes(h, j - 1);
      if OwnStep(h.steps[j - 1], k) {
        OwnStepReturns(h.states[j - 1], h.steps[j - 1], k);
        assert h.states[j].sync[k].result == Some(ReturnException) ==> Threw(h, j - 1, k);
      } else {
        ThreadsElsewhere(h.states[j - 1], h.steps[j - 1], k);
      }
    }
  }
}
